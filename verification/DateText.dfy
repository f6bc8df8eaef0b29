/** `date` beside `iso_millis`: which day a timestamp is shown as. */
module DateText {
  import opened Wrappers
  import opened Calendar
  import opened IsoStamps

  // ---- printing ----

  function Natural(n: nat): (s: string)
    ensures s != "" && AllDigits(s)
  {
    if n < 10 then [DigitChar(n)] else Natural(n / 10) + [DigitChar(n % 10)]
  }

  function Decimal(n: int): string {
    if n < 0 then "-" + Natural(-n) else Natural(n)
  }

  /** `{day:02}.{month:02}.{year}`. */
  function Shown(d: Date): string
    requires 0 <= d.day && 0 <= d.month
  {
    Two(d.day) + "." + Two(d.month) + "." + Decimal(d.year)
  }

  const DAY_MILLIS := 86_400_000

  /** Two digits are enough for the day and month of any day number. */
  function Named(number: int): string {
    DayNumberInverts(number);
    Shown(DateOf(number))
  }

  /** `date`. */
  function Format(millis: int): string {
    Named(millis / DAY_MILLIS)
  }

  // ---- different days are shown differently ----

  lemma {:induction false} NaturalReads(n: nat)
    ensures Value(Natural(n)) == n
  {
    if n >= 10 {
      NaturalReads(n / 10);
      var s := Natural(n);
      assert s[..|s| - 1] == Natural(n / 10);
    }
  }

  lemma DecimalIsInjective(m: int, n: int)
    requires Decimal(m) == Decimal(n)
    ensures m == n
  {
    NaturalReads(if m < 0 then -m else m);
    NaturalReads(if n < 0 then -n else n);
    SignShows(m);
    SignShows(n);
    if m < 0 {
      assert Decimal(m)[1..] == Natural(-m) && Decimal(n)[1..] == Natural(-n);
    }
  }

  lemma SignShows(n: int)
    ensures Decimal(n) != "" && (Decimal(n)[0] == '-' <==> n < 0)
  {
    assert n >= 0 ==> IsDigit(Natural(n)[0]);
  }

  lemma ShownSlices(day: string, month: string, year: string)
    requires |day| == 2 && |month| == 2
    ensures var s := day + "." + month + "." + year;
            |s| >= 6 && s[0..2] == day && s[3..5] == month && s[6..] == year
  {
  }

  /** Two digits for the day and two for the month tell dates apart, even ones no calendar has. */
  lemma ShownIsInjective(d: Date, e: Date)
    requires 0 <= d.day < 100 && 0 <= d.month < 100 && 0 <= e.day < 100 && 0 <= e.month < 100
    requires Shown(d) == Shown(e)
    ensures d == e
  {
    Powers();
    PaddedReads(d.day, 2);
    PaddedReads(d.month, 2);
    PaddedReads(e.day, 2);
    PaddedReads(e.month, 2);
    ShownSlices(Two(d.day), Two(d.month), Decimal(d.year));
    ShownSlices(Two(e.day), Two(e.month), Decimal(e.year));
    DecimalIsInjective(d.year, e.year);
  }

  // ---- the round trip ----

  /** Seconds as whole days and the rest. */
  lemma InDays(seconds: int, days: int, rest: int)
    requires days == seconds / 86_400 && rest == seconds % 86_400
    ensures seconds == days * 86_400 + rest && 0 <= rest < 86_400
    ensures days == 0 <==> 0 <= seconds < 86_400
  {
  }

  lemma FallsOn(millis: int, number: int, rest: int)
    requires millis == number * DAY_MILLIS + rest * 1000 && 0 <= rest < 86_400
    ensures Format(millis) == Named(number)
  {
    Quotient(millis, DAY_MILLIS, number, rest * 1000);
    assert millis / DAY_MILLIS == number;
  }

  /** A day number is shown as a given day exactly when the calendar has that day and it is that day's. */
  lemma NamedIs(number: int, own: int, d: Date)
    requires own == DayNumber(d) && 1 <= d.month <= 12 && 1 <= d.day <= 31
    ensures Named(number) == Shown(d) <==> Exists(d) && number == own
  {
    DayNumberInverts(number);
    if Named(number) == Shown(d) {
      ShownIsInjective(DateOf(number), d);
    }
    if Exists(d) {
      DateOfInverts(d);
    }
  }

  /** An instant is shown as the day its seconds move the day they count from to. */
  lemma InstantIsNamed(millis: int, number: int, seconds: int, days: int)
    requires millis == (number * 86_400 + seconds) * 1000 && days == seconds / 86_400
    ensures Format(millis) == Named(number + days)
    ensures days == 0 <==> 0 <= seconds < 86_400
  {
    InDays(seconds, days, seconds % 86_400);
    MovesBy(millis, number, seconds, days, seconds % 86_400);
  }

  lemma MovesBy(millis: int, number: int, seconds: int, days: int, rest: int)
    requires millis == (number * 86_400 + seconds) * 1000 && seconds == days * 86_400 + rest && 0 <= rest < 86_400
    ensures Format(millis) == Named(number + days)
  {
    FallsOn(millis, number + days, rest);
  }

  lemma InstantIsShown(millis: int, seconds: int, number: int, d: Date)
    requires millis == (number * 86_400 + seconds) * 1000 && number == DayNumber(d)
    requires 1 <= d.month <= 12 && 1 <= d.day <= 31
    ensures Format(millis) == Shown(d) <==> Exists(d) && 0 <= seconds < 86_400
  {
    InstantIsNamed(millis, number, seconds, seconds / 86_400);
    NamedIs(number + seconds / 86_400, number, d);
  }

  lemma FirstDayIsNamed(millis: int, number: int, seconds: int)
    requires millis == (number * 86_400 + seconds) * 1000 && 0 <= seconds < 86_400
    ensures Format(millis) == Named(number)
  {
    FallsOn(millis, number, seconds);
  }

  /** `date` after `iso_millis`, for every timestamp it accepts: the written day is shown exactly when the
    * calendar has that day and the instant lies within it in UTC.
    */
  lemma UtcDayIsShown(s: Stamp)
    requires StampOk(s)
    ensures Format(Millis(s)) == Shown(DayOf(s)) <==> Exists(DayOf(s)) && 0 <= ClockSeconds(s.clock) < 86_400
  {
    InstantIsShown(Millis(s), ClockSeconds(s.clock), DayNumber(DayOf(s)), DayOf(s));
  }

  /** Without a clock that leaves the calendar alone to decide. */
  lemma WrittenDayIsShown(s: Stamp)
    requires StampOk(s) && s.clock.None?
    ensures Format(Millis(s)) == Shown(DayOf(s)) <==> s.day <= DaysInMonth(s.year, s.month)
  {
    UtcDayIsShown(s);
  }

  /** A written day the month does not have is shown as the day that many days later, whatever comes after. */
  lemma OverflowIsNamed(s: Stamp)
    requires StampOk(s) && !Exists(DayOf(s)) && 0 <= ClockSeconds(s.clock) < 86_400
    ensures Format(Millis(s)) == Shown(FirstOfNextMonth(DayOf(s)).(day := s.day - DaysInMonth(s.year, s.month)))
  {
    OverflowMovesOn(DayOf(s));
    FirstDayIsNamed(Millis(s), DayNumber(DayOf(s)), ClockSeconds(s.clock));
  }

  /** The leap second 23:59:60 reads as the first instant of the next day. */
  lemma LeapSecondMovesOn(s: Stamp, separator: char, fraction: Option<string>)
    requires s.clock == Some(Clock(separator, 23, 59, Some(Seconds(60, fraction)), Zulu('Z')))
    requires Exists(DayOf(s))
    ensures Millis(s) == DayNumber(Following(DayOf(s))) * DAY_MILLIS
    ensures Format(Millis(s)) == Shown(Following(DayOf(s)))
  {
    FollowingIsNext(DayOf(s));
    var n := DayNumber(Following(DayOf(s)));
    assert Millis(s) == n * DAY_MILLIS;
    Quotient(Millis(s), DAY_MILLIS, n, 0);
    DateOfInverts(Following(DayOf(s)));
  }
}
