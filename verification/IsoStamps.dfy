/** Timestamps as text: the accepted grammar as a printer, and what each text means. */
module IsoStamps {
  import opened Wrappers
  import opened Calendar

  // ---- decimal digits ----

  predicate IsDigit(c: char) {
    '0' <= c <= '9'
  }

  function DigitValue(c: char): nat
    requires IsDigit(c)
  {
    c as int - '0' as int
  }

  function DigitChar(n: nat): (c: char)
    requires n < 10
    ensures IsDigit(c) && DigitValue(c) == n
  {
    '0' + n as char
  }

  predicate AllDigits(s: string) {
    forall i :: 0 <= i < |s| ==> IsDigit(s[i])
  }

  function Value(s: string): nat
    requires AllDigits(s)
  {
    if s == "" then 0 else 10 * Value(s[..|s| - 1]) + DigitValue(s[|s| - 1])
  }

  /** At least `width` digits, zeros in front. */
  function Padded(n: nat, width: nat): (s: string)
    ensures AllDigits(s)
  {
    if width == 0 then "" else Padded(n / 10, width - 1) + [DigitChar(n % 10)]
  }

  function Power(width: nat): nat {
    if width == 0 then 1 else 10 * Power(width - 1)
  }

  lemma {:induction false} PaddedReads(n: nat, width: nat)
    requires n < Power(width)
    ensures |Padded(n, width)| == width && Value(Padded(n, width)) == n
  {
    if width > 0 {
      PaddedReads(n / 10, width - 1);
      var s := Padded(n, width);
      assert s[..|s| - 1] == Padded(n / 10, width - 1);
    }
  }

  lemma {:induction false} ValuePrints(s: string)
    requires AllDigits(s)
    ensures Value(s) < Power(|s|) && Padded(Value(s), |s|) == s
  {
    if s != "" {
      var front := s[..|s| - 1];
      ValuePrints(front);
      assert Value(s) / 10 == Value(front) && Value(s) % 10 == DigitValue(s[|s| - 1]);
      assert s == front + [s[|s| - 1]];
    }
  }

  function Two(n: nat): string {
    Padded(n, 2)
  }

  function Four(n: nat): string {
    Padded(n, 4)
  }

  lemma Powers()
    ensures Power(2) == 100 && Power(4) == 10_000
  {
    assert Power(1) == 10 && Power(3) == 1000;
  }

  // ---- the grammar ----

  datatype Zone = Unmarked | Zulu(mark: char) | Offset(ahead: bool, hours: nat, minutes: nat)

  datatype Seconds = Seconds(whole: nat, fraction: Option<string>)

  datatype Clock = Clock(separator: char, hour: nat, minute: nat, seconds: Option<Seconds>, zone: Zone)

  datatype Stamp = Stamp(year: nat, month: nat, day: nat, clock: Option<Clock>)

  predicate ZoneOk(z: Zone) {
    match z
    case Unmarked => true
    case Zulu(mark) => mark == 'Z' || mark == 'z'
    case Offset(_, hours, minutes) => hours < 100 && minutes < 100
  }

  predicate FractionOk(f: Option<string>) {
    f.Some? ==> f.value != "" && AllDigits(f.value)
  }

  predicate SecondsOk(s: Option<Seconds>) {
    s.Some? ==> s.value.whole <= 60 && FractionOk(s.value.fraction)
  }

  predicate ClockOk(c: Clock) {
    (c.separator == 'T' || c.separator == ' ') && c.hour <= 23 && c.minute <= 59
    && SecondsOk(c.seconds) && ZoneOk(c.zone)
  }

  predicate StampOk(s: Stamp) {
    s.year < 10_000 && 1 <= s.month <= 12 && 1 <= s.day <= 31 && (s.clock.Some? ==> ClockOk(s.clock.value))
  }

  function ZoneText(z: Zone): string {
    match z
    case Unmarked => ""
    case Zulu(mark) => [mark]
    case Offset(ahead, hours, minutes) => (if ahead then "+" else "-") + Two(hours) + ":" + Two(minutes)
  }

  function FractionText(f: Option<string>): string {
    if f.Some? then "." + f.value else ""
  }

  function SecondsText(s: Option<Seconds>): string {
    match s
    case None => ""
    case Some(Seconds(whole, fraction)) => ":" + Two(whole) + FractionText(fraction)
  }

  function ClockText(c: Clock): string {
    [c.separator] + Two(c.hour) + ":" + Two(c.minute) + (SecondsText(c.seconds) + ZoneText(c.zone))
  }

  function DayText(s: Stamp): string {
    Four(s.year) + "-" + Two(s.month) + "-" + Two(s.day)
  }

  function StampText(s: Stamp): string {
    DayText(s) + if s.clock.Some? then ClockText(s.clock.value) else ""
  }

  ghost predicate Writes(s: Stamp, text: string) {
    StampOk(s) && StampText(s) == text
  }

  // ---- what a timestamp means ----

  function ZoneSeconds(z: Zone): int {
    match z
    case Offset(ahead, hours, minutes) => (if ahead then 1 else -1) * (hours * 3600 + minutes * 60)
    case _ => 0
  }

  /** Seconds since midnight UTC of the written day; fractions are dropped. */
  function ClockSeconds(c: Option<Clock>): int {
    match c
    case None => 0
    case Some(clock) =>
      clock.hour * 3600 + clock.minute * 60
      + (if clock.seconds.Some? then clock.seconds.value.whole else 0) - ZoneSeconds(clock.zone)
  }

  function DayOf(s: Stamp): Date {
    Date(s.year, s.month, s.day)
  }

  function Millis(s: Stamp): int {
    (DayNumber(DayOf(s)) * 86_400 + ClockSeconds(s.clock)) * 1000
  }

  // ---- the printer's parts are where the parser looks ----

  /** `text` has the decimal `n`, `width` digits wide, at `at`. */
  predicate Shows(text: string, at: nat, width: nat, n: nat) {
    at + width <= |text| && text[at..at + width] == Padded(n, width)
  }

  lemma DaySlices(year: string, month: string, day: string, rest: string)
    requires |year| == 4 && |month| == 2 && |day| == 2
    ensures var text := year + "-" + month + "-" + day + rest;
            && |text| >= 10 && text[0..4] == year && text[4] == '-' && text[5..7] == month
            && text[7] == '-' && text[8..10] == day && text[10..] == rest
  {
  }

  lemma DayParts(s: Stamp, rest: string)
    requires StampOk(s)
    ensures var text := DayText(s) + rest;
            && |text| >= 10 && text[10..] == rest
            && Shows(text, 0, 4, s.year) && text[4] == '-' && Shows(text, 5, 2, s.month)
            && text[7] == '-' && Shows(text, 8, 2, s.day)
  {
    Powers();
    PaddedReads(s.year, 4);
    PaddedReads(s.month, 2);
    PaddedReads(s.day, 2);
    DaySlices(Padded(s.year, 4), Padded(s.month, 2), Padded(s.day, 2), rest);
  }

  lemma ClockParts(c: Clock)
    requires ClockOk(c)
    ensures var text := ClockText(c);
            && |text| >= 6 && text[6..] == SecondsText(c.seconds) + ZoneText(c.zone)
            && text[0] == c.separator && Shows(text, 1, 2, c.hour) && text[3] == ':' && Shows(text, 4, 2, c.minute)
  {
    Powers();
    PaddedReads(c.hour, 2);
    PaddedReads(c.minute, 2);
  }

  lemma ZoneParts(z: Zone)
    requires ZoneOk(z)
    ensures z.Offset? ==>
              var text := ZoneText(z);
              && |text| == 6 && text[0] == (if z.ahead then '+' else '-')
              && Shows(text, 1, 2, z.hours) && text[3] == ':' && Shows(text, 4, 2, z.minutes)
    ensures z.Zulu? ==> ZoneText(z) == [z.mark]
    ensures z.Unmarked? ==> ZoneText(z) == ""
    ensures ZoneText(z) != "" ==>
              ZoneText(z)[0] != ':' && ZoneText(z)[0] != '.' && !IsDigit(ZoneText(z)[0])
  {
    if z.Offset? {
      Powers();
      PaddedReads(z.hours, 2);
      PaddedReads(z.minutes, 2);
    }
  }
}
