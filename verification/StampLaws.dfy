/** Timestamps and dates in terms of characters and plain sums: what the digits, the zone and the day shown mean. */
module StampLaws {
  import opened Wrappers
  import opened Calendar
  import opened IsoStamps
  import opened IsoText
  import opened DateText

  // ---- what the parts of a clock are worth ----

  function WithZone(s: Stamp, c: Clock, zone: Zone): Stamp {
    s.(clock := Some(c.(zone := zone)))
  }

  /** A clock ahead of UTC reads later than UTC does, so its instant is earlier by the offset; one behind, later. */
  lemma ZonesShift(s: Stamp, c: Clock, hours: nat, minutes: nat)
    ensures var zulu := Millis(WithZone(s, c, Zulu('Z')));
            && Millis(WithZone(s, c, Offset(true, hours, minutes))) == zulu - (hours * 3600 + minutes * 60) * 1000
            && Millis(WithZone(s, c, Offset(false, hours, minutes))) == zulu + (hours * 3600 + minutes * 60) * 1000
            && Millis(WithZone(s, c, Unmarked)) == zulu && Millis(WithZone(s, c, Zulu('z'))) == zulu
  {
    assert DayOf(WithZone(s, c, Zulu('Z'))) == DayOf(s) == DayOf(WithZone(s, c, Unmarked));
  }

  /** One more hour, minute or second is 3 600 000, 60 000 or 1000 milliseconds more, and no fraction counts. */
  lemma ClockTicks(s: Stamp, c: Clock, whole: nat, fraction: Option<string>, other: Option<string>)
    ensures var now := Millis(s.(clock := Some(c)));
            && Millis(s.(clock := Some(c.(hour := c.hour + 1)))) == now + 3_600_000
            && Millis(s.(clock := Some(c.(minute := c.minute + 1)))) == now + 60_000
    ensures var now := Millis(s.(clock := Some(c.(seconds := Some(Seconds(whole, fraction))))));
            && Millis(s.(clock := Some(c.(seconds := Some(Seconds(whole + 1, other)))))) == now + 1000
            && (whole == 0 ==> Millis(s.(clock := Some(c.(seconds := None)))) == now)
  {
    assert DayOf(s.(clock := Some(c))) == DayOf(s);
  }

  /** Without a clock it is midnight. */
  lemma MidnightIsDay(s: Stamp, separator: char)
    ensures Millis(s.(clock := Some(Clock(separator, 0, 0, None, Unmarked)))) == Millis(s.(clock := None))
  {
    assert DayOf(s.(clock := None)) == DayOf(s);
  }

  /** The next day is 86 400 000 milliseconds later, across months and years too, and the count starts in 1970. */
  lemma DaysPass(s: Stamp, t: Stamp)
    requires Exists(DayOf(s)) && DayOf(t) == Following(DayOf(s)) && t.clock == s.clock
    ensures Millis(t) == Millis(s) + 86_400_000
    ensures Millis(Stamp(1970, 1, 1, None)) == 0
  {
    FollowingIsNext(DayOf(s));
    EpochIsZero();
    assert DayOf(Stamp(1970, 1, 1, None)) == Date(1970, 1, 1);
    LaterDays(DayNumber(DayOf(s)), DayNumber(DayOf(t)), ClockSeconds(s.clock));
  }

  lemma LaterDays(m: int, n: int, seconds: int)
    requires n == m + 1
    ensures (n * 86_400 + seconds) * 1000 == (m * 86_400 + seconds) * 1000 + 86_400_000
  {
  }

  // ---- what the characters of a timestamp mean ----

  predicate DigitAt(text: string, i: nat) {
    i < |text| && '0' <= text[i] <= '9'
  }

  function Digit(text: string, i: nat): nat
    requires DigitAt(text, i)
  {
    text[i] as int - '0' as int
  }

  predicate PairAt(text: string, i: nat) {
    DigitAt(text, i) && DigitAt(text, i + 1)
  }

  function Pair(text: string, i: nat): nat
    requires PairAt(text, i)
  {
    10 * Digit(text, i) + Digit(text, i + 1)
  }

  lemma PairIsRead(text: string, i: nat)
    requires PairAt(text, i)
    ensures Digits(text, i, 2) == Some(Pair(text, i))
  {
    var s := text[i..i + 2];
    assert s[..1] == [text[i]] && s[..1][..0] == "";
    assert Value(s[..1]) == Digit(text, i);
  }

  lemma YearIsRead(text: string)
    requires PairAt(text, 0) && PairAt(text, 2)
    ensures Digits(text, 0, 4) == Some(100 * Pair(text, 0) + Pair(text, 2))
  {
    var s := text[0..4];
    assert s[..3][..2] == text[0..2] && s[..3] == text[0..3];
    PairIsRead(text, 0);
    assert Value(s[..3]) == 10 * Pair(text, 0) + Digit(text, 2);
  }

  /** `YYYY-MM-DD` with a month from 1 to 12 and a day from 1 to 31. */
  predicate DateAt(text: string) {
    && |text| >= 10 && PairAt(text, 0) && PairAt(text, 2) && PairAt(text, 5) && PairAt(text, 8)
    && text[4] == '-' && text[7] == '-' && 1 <= Pair(text, 5) <= 12 && 1 <= Pair(text, 8) <= 31
  }

  function DateOfText(text: string): Date
    requires DateAt(text)
  {
    Date(100 * Pair(text, 0) + Pair(text, 2), Pair(text, 5), Pair(text, 8))
  }

  lemma DateIsRead(text: string)
    requires DateAt(text)
    ensures var d := DateOfText(text);
            d.year >= 0 && d.month >= 0 && d.day >= 0 && ReadsDay(text, d.year, d.month, d.day)
  {
    YearIsRead(text);
    PairIsRead(text, 5);
    PairIsRead(text, 8);
  }

  /** A date alone is read as its midnight in UTC. */
  lemma DateAloneMeans(text: string)
    requires DateAt(text) && |text| == 10
    ensures exists s :: Writes(s, text) && Millis(s) == DayNumber(DateOfText(text)) * 86_400_000
  {
    DateIsRead(text);
    var d := DateOfText(text);
    var s := Stamp(d.year, d.month, d.day, None);
    DayIsShown(text, s);
    assert Writes(s, text) && Millis(s) == DayNumber(DateOfText(text)) * 86_400_000;
  }

  /** `YYYY-MM-DDTHH:MM:SS+HH:MM`, with a blank for the `T` or a minus for the plus. */
  predicate InstantAt(text: string) {
    && DateAt(text) && |text| == 25 && (text[10] == 'T' || text[10] == ' ')
    && PairAt(text, 11) && text[13] == ':' && PairAt(text, 14) && text[16] == ':' && PairAt(text, 17)
    && Pair(text, 11) <= 23 && Pair(text, 14) <= 59 && Pair(text, 17) <= 60
    && (text[19] == '+' || text[19] == '-') && PairAt(text, 20) && text[22] == ':' && PairAt(text, 23)
  }

  lemma PairsOfRest(text: string, from: nat, i: nat)
    requires from <= |text| && PairAt(text, from + i)
    ensures PairAt(text[from..], i) && Pair(text[from..], i) == Pair(text, from + i)
    ensures Digits(text[from..], i, 2) == Some(Pair(text, from + i))
  {
    PairIsRead(text[from..], i);
  }

  lemma ZoneIsThere(text: string) returns (z: Zone)
    requires InstantAt(text)
    ensures ZoneOk(z) && ZoneText(z) == text[19..] && z == Offset(text[19] == '+', Pair(text, 20), Pair(text, 23))
  {
    PairsOfRest(text, 19, 1);
    PairsOfRest(text, 19, 4);
    z := ZoneIsShown(text[19..]);
    if z.Offset? {
      ZoneIsRead(z);
    } else {
      ZoneParts(z);
    }
  }

  lemma ClockIsThere(text: string) returns (c: Clock)
    requires InstantAt(text)
    ensures ReadsClock(text[10..], c)
    ensures c == Clock(text[10], Pair(text, 11), Pair(text, 14), Some(Seconds(Pair(text, 17), None)),
                       Offset(text[19] == '+', Pair(text, 20), Pair(text, 23)))
  {
    var z := ZoneIsThere(text);
    var rest, tail := text[10..], text[16..];
    assert rest[6..] == tail && tail[1..][2..] == text[19..];
    PairsOfRest(text, 10, 1);
    PairsOfRest(text, 10, 4);
    PairsOfRest(text, 17, 0);
    assert tail[1..] == text[17..];
    assert "" + text[19..] == text[19..];
    assert CutsFraction(tail[1..][2..], None, text[19..]);
    SecondsAreShown(tail, Pair(text, 17), None, text[19..]);
    c := Clock(text[10], Pair(text, 11), Pair(text, 14), Some(Seconds(Pair(text, 17), None)), z);
    assert ReadsTail(rest[6..], c.seconds, c.zone);
    ClockIsShown(rest, c);
  }

  /** A full timestamp is read as its day and clock say, less the offset after a plus and plus that after a minus. */
  lemma InstantMeans(text: string)
    requires InstantAt(text)
    ensures exists s :: Writes(s, text) && Millis(s) == InstantOf(text)
  {
    DateIsRead(text);
    var d := DateOfText(text);
    var c := ClockIsThere(text);
    var s := Stamp(d.year, d.month, d.day, Some(c));
    DayIsShown(text, s);
    assert DayOf(s) == d;
    assert Writes(s, text) && Millis(s) == InstantOf(text);
  }

  function InstantOf(text: string): int
    requires InstantAt(text)
  {
    var local := Pair(text, 11) * 3600 + Pair(text, 14) * 60 + Pair(text, 17);
    var offset := Pair(text, 20) * 3600 + Pair(text, 23) * 60;
    DayNumber(DateOfText(text)) * 86_400_000 + (if text[19] == '+' then local - offset else local + offset) * 1000
  }

  // ---- what is shown ----

  /** Of every accepted text whose day exists and holds its instant, `date` shows day, month and year as written. */
  lemma DateShowsTheText(s: Stamp, text: string)
    requires Writes(s, text) && s.year >= 1000 && Exists(DayOf(s))
    requires 0 <= Millis(s) - DayNumber(DayOf(s)) * 86_400_000 < 86_400_000
    ensures |text| >= 10 && Format(Millis(s)) == text[8..10] + "." + text[5..7] + "." + text[0..4]
  {
    UtcDayIsShown(s);
    DayParts(s, if s.clock.Some? then ClockText(s.clock.value) else "");
    YearIsFour(s.year);
  }

  lemma YearIsFour(year: nat)
    requires 1000 <= year < 10_000
    ensures Decimal(year) == Padded(year, 4)
  {
    var a, b, c := year / 10, year / 100, year / 1000;
    assert a / 10 == b && b / 10 == c && 1 <= c < 10;
    assert Natural(c) == Padded(c, 1);
    assert Natural(b) == Padded(b, 2);
    assert Natural(a) == Padded(a, 3);
  }

  /** In characters: two digits for the day, two for the month, and a minus before the year only if it is negative. */
  lemma ShownInCharacters(d: Date)
    requires 0 <= d.day < 100 && 0 <= d.month < 100
    ensures var s := Shown(d);
            && |s| >= 7 && PairAt(s, 0) && Pair(s, 0) == d.day && s[2] == '.'
            && PairAt(s, 3) && Pair(s, 3) == d.month && s[5] == '.'
            && (s[6] == '-' <==> d.year < 0)
  {
    Powers();
    PaddedReads(d.day, 2);
    PaddedReads(d.month, 2);
    ShownSlices(Two(d.day), Two(d.month), Decimal(d.year));
    SignShows(d.year);
    var s := Shown(d);
    assert s[0] == Two(d.day)[0] && s[1] == Two(d.day)[1] && s[3] == Two(d.month)[0] && s[4] == Two(d.month)[1];
    TwoDigits(d.day);
    TwoDigits(d.month);
    assert s[6..] == Decimal(d.year);
    assert s[6] == s[6..][0];
  }

  lemma TwoDigits(n: nat)
    requires n < 100
    ensures |Two(n)| == 2 && PairAt(Two(n), 0) && Pair(Two(n), 0) == n
  {
    assert Padded(n, 2) == Padded(n / 10, 1) + [DigitChar(n % 10)];
    assert Padded(n / 10, 1) == Padded(n / 100, 0) + [DigitChar(n / 10 % 10)];
  }
}
