/** `iso_millis` reads exactly the timestamps of the grammar. */
module IsoText {
  import opened Wrappers
  import opened Calendar
  import opened IsoStamps

  // ---- reading ----

  function Digits(text: string, start: nat, width: nat): Option<nat> {
    if start + width <= |text| && AllDigits(text[start..start + width]) then
      Some(Value(text[start..start + width]))
    else None
  }

  lemma DigitsShow(text: string, start: nat, width: nat)
    ensures var r := Digits(text, start, width);
            r.Some? ==> r.value < Power(width) && Shows(text, start, width, r.value)
  {
    if Digits(text, start, width).Some? {
      ValuePrints(text[start..start + width]);
    }
  }

  lemma ShownIsRead(text: string, start: nat, width: nat, n: nat)
    requires n < Power(width) && Shows(text, start, width, n)
    ensures Digits(text, start, width) == Some(n)
  {
    PaddedReads(n, width);
  }

  /** The length of the leading run of digits. */
  function DigitRun(s: string): (n: nat)
    ensures n <= |s| && AllDigits(s[..n])
  {
    if s != "" && IsDigit(s[0]) then 1 + DigitRun(s[1..]) else 0
  }

  /** `take_while(is_ascii_digit).count()`. */
  method CountDigits(s: string) returns (n: nat)
    ensures n == DigitRun(s)
  {
    n := 0;
    while n < |s| && IsDigit(s[n])
      invariant n <= |s| && DigitRun(s) == n + DigitRun(s[n..])
    {
      assert s[n..][1..] == s[n + 1..];
      n := n + 1;
    }
  }

  lemma {:induction false} RunOfFraction(digits: string, rest: string)
    requires AllDigits(digits) && Detached(rest)
    ensures DigitRun(digits + rest) == |digits|
  {
    if digits == "" {
      assert digits + rest == rest;
    } else {
      assert (digits + rest)[1..] == digits[1..] + rest;
      RunOfFraction(digits[1..], rest);
    }
  }

  lemma ZoneIsRead(z: Zone)
    requires ZoneOk(z) && z.Offset?
    ensures var text := ZoneText(z);
            && |text| == 6 && text[0] == (if z.ahead then '+' else '-') && text[3] == ':'
            && Digits(text, 1, 2) == Some(z.hours) && Digits(text, 4, 2) == Some(z.minutes)
  {
    Powers();
    ZoneParts(z);
    ShownIsRead(ZoneText(z), 1, 2, z.hours);
    ShownIsRead(ZoneText(z), 4, 2, z.minutes);
  }

  lemma ZoneIsShown(zone: string) returns (z: Zone)
    requires |zone| == 6 && (zone[0] == '+' || zone[0] == '-') && zone[3] == ':'
    requires Digits(zone, 1, 2).Some? && Digits(zone, 4, 2).Some?
    ensures ZoneOk(z) && ZoneText(z) == zone
  {
    Powers();
    DigitsShow(zone, 1, 2);
    DigitsShow(zone, 4, 2);
    z := Offset(zone[0] == '+', Digits(zone, 1, 2).value, Digits(zone, 4, 2).value);
    assert zone == [zone[0]] + zone[1..3] + [zone[3]] + zone[4..6];
  }

  method ReadZone(tail: string) returns (offset: Option<int>)
    ensures forall z :: ZoneOk(z) && ZoneText(z) == tail ==> offset == Some(ZoneSeconds(z))
    ensures offset.Some? ==> exists z :: ZoneOk(z) && ZoneText(z) == tail
  {
    forall z | ZoneOk(z) && ZoneText(z) == tail
      ensures z.Offset? ==> |tail| == 6 && tail[0] == (if z.ahead then '+' else '-') && tail[3] == ':'
                            && Digits(tail, 1, 2) == Some(z.hours) && Digits(tail, 4, 2) == Some(z.minutes)
    {
      if z.Offset? {
        ZoneIsRead(z);
      }
    }
    if tail == "" || tail == "Z" || tail == "z" {
      ghost var z := if tail == "" then Unmarked else Zulu(tail[0]);
      assert ZoneOk(z) && ZoneText(z) == tail;
      return Some(0);
    }
    if tail[0] != '+' && tail[0] != '-' {
      return None;
    }
    var sign: int := if tail[0] == '+' then 1 else -1;
    if |tail| != 6 || tail[3] != ':' {
      return None;
    }
    var hours, minutes := Digits(tail, 1, 2), Digits(tail, 4, 2);
    if hours.None? || minutes.None? {
      return None;
    }
    ghost var z := ZoneIsShown(tail);
    return Some(sign * (hours.value * 3600 + minutes.value * 60));
  }

  function Whole(s: Option<Seconds>): nat {
    if s.Some? then s.value.whole else 0
  }

  lemma SecondsSlices(whole: string, rest: string)
    requires |whole| == 2
    ensures var text := ":" + whole + rest;
            |text| >= 3 && text[0] == ':' && text[1..][0..2] == whole && text[1..][2..] == rest
  {
  }

  lemma SecondsParts(whole: nat, fraction: Option<string>, rest: string)
    requires whole <= 60
    ensures var text := SecondsText(Some(Seconds(whole, fraction))) + rest;
            && |text| >= 3 && text[0] == ':' && Digits(text[1..], 0, 2) == Some(whole)
            && text[1..][2..] == FractionText(fraction) + rest
  {
    Powers();
    PaddedReads(whole, 2);
    SecondsSlices(Padded(whole, 2), FractionText(fraction) + rest);
    Regroup(":" + Padded(whole, 2), FractionText(fraction), rest);
    ShownIsRead((":" + Padded(whole, 2) + (FractionText(fraction) + rest))[1..], 0, 2, whole);
  }

  lemma Regroup(a: string, b: string, c: string)
    ensures (a + b) + c == a + (b + c)
  {
  }

  /** A remainder no digit, point or colon starts, as every zone is. */
  predicate Detached(rest: string) {
    rest != "" ==> rest[0] != ':' && rest[0] != '.' && !IsDigit(rest[0])
  }

  ghost predicate CutsFraction(after: string, f: Option<string>, rest: string) {
    FractionOk(f) && FractionText(f) + rest == after
  }

  /** `.fff` and what follows; the longest run of digits is the fraction. */
  method SkipFraction(after: string) returns (rest: Option<string>)
    ensures forall f, r :: CutsFraction(after, f, r) && Detached(r) ==> rest == Some(r)
    ensures rest.Some? ==> exists f :: CutsFraction(after, f, rest.value)
  {
    if after == "" || after[0] != '.' {
      assert CutsFraction(after, None, after);
      forall f, r | CutsFraction(after, f, r) ensures r == after {
        assert f.None?;
      }
      return Some(after);
    }
    var fraction := after[1..];
    var length := CountDigits(fraction);
    forall f, r | CutsFraction(after, f, r) && Detached(r) ensures length > 0 && r == fraction[length..] {
      assert fraction == f.value + r;
      RunOfFraction(f.value, r);
    }
    if length == 0 {
      return None;
    }
    assert "." + fraction[..length] + fraction[length..] == after;
    assert CutsFraction(after, Some(fraction[..length]), fraction[length..]);
    return Some(fraction[length..]);
  }

  ghost predicate CutsSeconds(tail: string, s: Option<Seconds>, rest: string) {
    SecondsOk(s) && SecondsText(s) + rest == tail
  }

  lemma SecondsAreShown(tail: string, whole: nat, fraction: Option<string>, rest: string)
    requires |tail| >= 3 && tail[0] == ':' && Digits(tail[1..], 0, 2) == Some(whole) && whole <= 60
    requires CutsFraction(tail[1..][2..], fraction, rest)
    ensures CutsSeconds(tail, Some(Seconds(whole, fraction)), rest)
  {
    Powers();
    DigitsShow(tail[1..], 0, 2);
    assert tail == ":" + tail[1..][0..2] + tail[1..][2..];
    assert tail == ":" + Two(whole) + (FractionText(fraction) + rest);
  }

  /** `:SS[.fff]` and what follows. */
  method ReadSeconds(tail: string) returns (r: Option<(nat, string)>)
    ensures forall s, rest :: CutsSeconds(tail, s, rest) && Detached(rest) ==> r == Some((Whole(s), rest))
    ensures r.Some? ==> exists s :: CutsSeconds(tail, s, r.value.1) && Whole(s) == r.value.0
  {
    if tail == "" || tail[0] != ':' {
      assert CutsSeconds(tail, None, tail);
      forall s, rest | CutsSeconds(tail, s, rest) ensures s.None? && rest == tail {
        assert s.None?;
      }
      return Some((0, tail));
    }
    var after := tail[1..];
    forall s, rest | CutsSeconds(tail, s, rest) && Detached(rest)
      ensures s.Some? && Digits(after, 0, 2) == Some(s.value.whole) && CutsFraction(after[2..], s.value.fraction, rest)
    {
      assert s.Some?;
      SecondsParts(s.value.whole, s.value.fraction, rest);
    }
    var second := Digits(after, 0, 2);
    if second.None? || second.value > 60 {
      return None;
    }
    var rest := SkipFraction(after[2..]);
    if rest.None? {
      return None;
    }
    ghost var f :| CutsFraction(after[2..], f, rest.value);
    SecondsAreShown(tail, second.value, f, rest.value);
    return Some((second.value, rest.value));
  }

  ghost predicate ReadsTail(tail: string, s: Option<Seconds>, z: Zone) {
    SecondsOk(s) && ZoneOk(z) && SecondsText(s) + ZoneText(z) == tail
  }

  /** Seconds and zone: what they add to the minutes. */
  method ReadTail(tail: string) returns (r: Option<int>)
    ensures IsTailOf(tail, r)
  {
    forall s, z | ReadsTail(tail, s, z)
      ensures CutsSeconds(tail, s, ZoneText(z)) && Detached(ZoneText(z))
    {
      ZoneParts(z);
    }
    var second := ReadSeconds(tail);
    if second.None? {
      return None;
    }
    var offset := ReadZone(second.value.1);
    if offset.None? {
      return None;
    }
    ghost var s :| CutsSeconds(tail, s, second.value.1) && Whole(s) == second.value.0;
    ghost var z :| ZoneOk(z) && ZoneText(z) == second.value.1;
    assert ReadsTail(tail, s, z);
    return Some(second.value.0 - offset.value);
  }

  ghost predicate ReadsClock(rest: string, c: Clock) {
    ClockOk(c) && ClockText(c) == rest
  }

  /** What the fixed positions of a clock hold. */
  ghost predicate Fixed(rest: string, c: Clock) {
    && |rest| >= 6 && rest[0] == c.separator && rest[3] == ':'
    && Digits(rest, 1, 2) == Some(c.hour) && Digits(rest, 4, 2) == Some(c.minute)
    && ReadsTail(rest[6..], c.seconds, c.zone)
  }

  lemma ClockIsRead(rest: string, c: Clock)
    requires ReadsClock(rest, c)
    ensures Fixed(rest, c)
  {
    Powers();
    ClockParts(c);
    ShownIsRead(rest, 1, 2, c.hour);
    ShownIsRead(rest, 4, 2, c.minute);
  }

  lemma ClockSlices(rest: string)
    requires |rest| >= 6
    ensures rest == [rest[0]] + rest[1..3] + [rest[3]] + rest[4..6] + rest[6..]
  {
  }

  lemma ClockIsShown(rest: string, c: Clock)
    requires Fixed(rest, c) && ClockOk(c)
    ensures ReadsClock(rest, c)
  {
    DigitsShow(rest, 1, 2);
    DigitsShow(rest, 4, 2);
    ClockSlices(rest);
  }

  /** Separator, hour and minute are where they belong and in range. */
  predicate MinutesFit(rest: string) {
    && |rest| >= 6 && (rest[0] == 'T' || rest[0] == ' ') && rest[3] == ':'
    && Digits(rest, 1, 2).Some? && Digits(rest, 4, 2).Some?
    && Digits(rest, 1, 2).value <= 23 && Digits(rest, 4, 2).value <= 59
  }

  function Minutes(rest: string): nat
    requires MinutesFit(rest)
  {
    Digits(rest, 1, 2).value * 3600 + Digits(rest, 4, 2).value * 60
  }

  /** The fixed positions of a clock: separator, hour and minute. */
  method ReadMinutes(rest: string) returns (r: Option<nat>)
    requires rest != ""
    ensures r == if MinutesFit(rest) then Some(Minutes(rest)) else None
  {
    if rest[0] != 'T' && rest[0] != ' ' {
      return None;
    }
    var hour, minute := Digits(rest, 1, 2), Digits(rest, 4, 2);
    if hour.None? || minute.None? {
      return None;
    }
    if rest[3] != ':' || hour.value > 23 || minute.value > 59 {
      return None;
    }
    return Some(hour.value * 3600 + minute.value * 60);
  }

  /** `r` is what every clock `rest` writes means, and there is one exactly when `r` has a value. */
  ghost predicate IsClockOf(rest: string, r: Option<int>) {
    && (forall c :: ReadsClock(rest, c) ==> r == Some(ClockSeconds(Some(c))))
    && (r.Some? ==> exists c :: ReadsClock(rest, c))
  }

  ghost predicate IsTailOf(tail: string, r: Option<int>) {
    && (forall s, z :: ReadsTail(tail, s, z) ==> r == Some(Whole(s) - ZoneSeconds(z)))
    && (r.Some? ==> exists s, z :: ReadsTail(tail, s, z))
  }

  lemma ClockFits(rest: string, c: Clock)
    requires ReadsClock(rest, c)
    ensures MinutesFit(rest) && ReadsTail(rest[6..], c.seconds, c.zone)
    ensures ClockSeconds(Some(c)) == Minutes(rest) + (Whole(c.seconds) - ZoneSeconds(c.zone))
  {
    ClockIsRead(rest, c);
  }

  lemma NoClock(rest: string)
    requires !MinutesFit(rest)
    ensures IsClockOf(rest, None)
  {
    forall c | ReadsClock(rest, c) ensures false {
      ClockFits(rest, c);
    }
  }

  lemma ClockHasTail(rest: string, tail: Option<int>, r: Option<int>, c: Clock)
    requires ReadsClock(rest, c) && MinutesFit(rest)
    requires forall s, z :: ReadsTail(rest[6..], s, z) ==> tail == Some(Whole(s) - ZoneSeconds(z))
    requires r == if tail.Some? then Some(Minutes(rest) + tail.value) else None
    ensures r == Some(ClockSeconds(Some(c)))
  {
    ClockFits(rest, c);
  }

  lemma TailMakesClock(rest: string, s: Option<Seconds>, z: Zone)
    requires MinutesFit(rest) && ReadsTail(rest[6..], s, z)
    ensures exists c :: ReadsClock(rest, c)
  {
    ClockIsShown(rest, Clock(rest[0], Digits(rest, 1, 2).value, Digits(rest, 4, 2).value, s, z));
  }

  lemma ClockOfTail(rest: string, tail: Option<int>, r: Option<int>)
    requires MinutesFit(rest) && IsTailOf(rest[6..], tail)
    requires r == if tail.Some? then Some(Minutes(rest) + tail.value) else None
    ensures IsClockOf(rest, r)
  {
    forall c | ReadsClock(rest, c) ensures r == Some(ClockSeconds(Some(c))) {
      ClockHasTail(rest, tail, r, c);
    }
    if tail.Some? {
      var s, z :| ReadsTail(rest[6..], s, z);
      TailMakesClock(rest, s, z);
    }
  }

  /** Everything after the day; the result is seconds from midnight UTC of the written day. */
  method ReadClock(rest: string) returns (r: Option<int>)
    requires rest != ""
    ensures IsClockOf(rest, r)
  {
    var minutes := ReadMinutes(rest);
    if minutes.None? {
      NoClock(rest);
      return None;
    }
    var tail := ReadTail(rest[6..]);
    r := if tail.Some? then Some(minutes.value + tail.value) else None;
    ClockOfTail(rest, tail, r);
  }

  /** The date fields of a text, as the code reads and checks them. */
  ghost predicate ReadsDay(text: string, year: nat, month: nat, day: nat) {
    && |text| >= 10 && text[4] == '-' && text[7] == '-'
    && Digits(text, 0, 4) == Some(year) && Digits(text, 5, 2) == Some(month) && Digits(text, 8, 2) == Some(day)
    && 1 <= month <= 12 && 1 <= day <= 31
  }

  lemma DayIsRead(text: string, s: Stamp)
    requires Writes(s, text)
    ensures ReadsDay(text, s.year, s.month, s.day)
    ensures if s.clock.None? then text[10..] == "" else text[10..] != "" && ReadsClock(text[10..], s.clock.value)
  {
    Powers();
    DayParts(s, if s.clock.Some? then ClockText(s.clock.value) else "");
    ShownIsRead(text, 0, 4, s.year);
    ShownIsRead(text, 5, 2, s.month);
    ShownIsRead(text, 8, 2, s.day);
  }

  lemma DayCuts(text: string)
    requires |text| >= 10
    ensures text == text[0..4] + [text[4]] + text[5..7] + [text[7]] + text[8..10] + text[10..]
  {
  }

  lemma DayIsShown(text: string, s: Stamp)
    requires ReadsDay(text, s.year, s.month, s.day)
    requires if s.clock.None? then text[10..] == "" else ReadsClock(text[10..], s.clock.value)
    ensures Writes(s, text)
  {
    Powers();
    DigitsShow(text, 0, 4);
    DigitsShow(text, 5, 2);
    DigitsShow(text, 8, 2);
    DayCuts(text);
  }

  ghost predicate IsMillisOf(text: string, r: Option<int>) {
    && (forall s :: Writes(s, text) ==> r == Some(Millis(s)))
    && (r.Some? ==> exists s :: Writes(s, text))
  }

  lemma NoDay(text: string)
    requires forall year, month, day :: !ReadsDay(text, year, month, day)
    ensures IsMillisOf(text, None)
  {
    forall s | Writes(s, text) ensures false {
      DayIsRead(text, s);
    }
  }

  /** Whatever stamp the text is of, its day starts at second `start`; nothing is wrong with it up to its clock. */
  ghost predicate IsDayOf(text: string, start: int) {
    && |text| >= 10
    && (forall s :: Writes(s, text) ==> HasDay(text, start, s))
    && (text[10..] == "" ==> exists s :: Writes(s, text))
    && (forall c :: ReadsClock(text[10..], c) ==> exists s :: Writes(s, text))
  }

  ghost predicate HasDay(text: string, start: int, s: Stamp)
    requires |text| >= 10
  {
    && Millis(s) == (start + ClockSeconds(s.clock)) * 1000
    && if s.clock.None? then text[10..] == "" else text[10..] != "" && ReadsClock(text[10..], s.clock.value)
  }

  lemma DayOfFields(text: string, year: nat, month: nat, day: nat)
    requires ReadsDay(text, year, month, day)
    ensures IsDayOf(text, DayNumber(Date(year, month, day)) * 86_400)
  {
    forall s | Writes(s, text) ensures HasDay(text, DayNumber(Date(year, month, day)) * 86_400, s) {
      DayIsRead(text, s);
      assert DayOf(s) == Date(year, month, day);
    }
    if text[10..] == "" {
      DayIsShown(text, Stamp(year, month, day, None));
    }
    forall c | ReadsClock(text[10..], c) ensures exists s :: Writes(s, text) {
      DayIsShown(text, Stamp(year, month, day, Some(c)));
    }
  }

  lemma DayAlone(text: string, start: int, r: Option<int>)
    requires IsDayOf(text, start) && text[10..] == "" && r == Some(start * 1000)
    ensures IsMillisOf(text, r)
  {
    forall s | Writes(s, text) ensures r == Some(Millis(s)) {
      assert HasDay(text, start, s);
    }
  }

  lemma DayAndClock(text: string, start: int, clock: Option<int>, r: Option<int>)
    requires IsDayOf(text, start) && text[10..] != "" && IsClockOf(text[10..], clock)
    requires r == if clock.Some? then Some((start + clock.value) * 1000) else None
    ensures IsMillisOf(text, r)
  {
    forall s | Writes(s, text) ensures clock.Some? && (start + clock.value) * 1000 == Millis(s) {
      assert HasDay(text, start, s);
    }
  }

  /** `iso_millis`: a result exactly for the texts of the grammar, and then what they mean. */
  method IsoMillis(text: string) returns (r: Option<int>)
    ensures forall s :: Writes(s, text) ==> r == Some(Millis(s))
    ensures r.Some? ==> exists s :: Writes(s, text)
  {
    var year, month, day := Digits(text, 0, 4), Digits(text, 5, 2), Digits(text, 8, 2);
    if year.None? || month.None? || day.None? {
      NoDay(text);
      return None;
    }
    if text[4] != '-' || text[7] != '-' {
      NoDay(text);
      return None;
    }
    if !(1 <= month.value <= 12) || !(1 <= day.value <= 31) {
      NoDay(text);
      return None;
    }
    DayOfFields(text, year.value, month.value, day.value);
    r := MillisFrom(text, DayNumber(Date(year.value, month.value, day.value)) * 86_400);
  }

  /** The second half of it, once the date fields are read and checked. */
  method MillisFrom(text: string, seconds: int) returns (r: Option<int>)
    requires IsDayOf(text, seconds)
    ensures IsMillisOf(text, r)
  {
    var rest := text[10..];
    if rest == "" {
      r := Some(seconds * 1000);
      DayAlone(text, seconds, r);
    } else {
      var clock := ReadClock(rest);
      r := if clock.Some? then Some((seconds + clock.value) * 1000) else None;
      DayAndClock(text, seconds, clock, r);
    }
  }
}
