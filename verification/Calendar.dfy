/** Gregorian dates and day numbers: two conversions written independently that invert each other. */
module Calendar {

  datatype Date = Date(year: int, month: int, day: int)

  // ---- the Gregorian calendar (RFC 3339, section 5.7 and appendix C) ----

  predicate IsLeap(year: int) {
    year % 4 == 0 && (year % 100 != 0 || year % 400 == 0)
  }

  function DaysInMonth(year: int, month: int): (days: int)
    requires 1 <= month <= 12
    ensures 28 <= days <= 31
  {
    if month == 2 then if IsLeap(year) then 29 else 28
    else if month == 4 || month == 6 || month == 9 || month == 11 then 30
    else 31
  }

  predicate Exists(d: Date) {
    1 <= d.month <= 12 && 1 <= d.day <= DaysInMonth(d.year, d.month)
  }

  function FirstOfNextMonth(d: Date): Date {
    if d.month == 12 then Date(d.year + 1, 1, 1) else Date(d.year, d.month + 1, 1)
  }

  /** Tomorrow. */
  function Following(d: Date): (r: Date)
    requires Exists(d)
    ensures Exists(r)
  {
    if d.day < DaysInMonth(d.year, d.month) then d.(day := d.day + 1) else FirstOfNextMonth(d)
  }

  // ---- the two conversions ----

  /** Days before March `1 + index` in a year that starts in March. */
  function DaysBefore(index: int): int {
    (153 * index + 2) / 5
  }

  /** The date half of `iso_millis`; it takes any day from 1 to 31 whatever the month. */
  function DayNumber(d: Date): int {
    var shifted := if d.month <= 2 then d.year - 1 else d.year;
    var era := shifted / 400;
    var ofEra := shifted - era * 400;
    var ofYear := DaysBefore((d.month + 9) % 12) + d.day - 1;
    era * 146_097 + CycleDay(ofEra, ofYear) - 719_468
  }

  /** Day `ofYear` of year `ofEra` of a 400-year era. */
  function CycleDay(ofEra: int, ofYear: int): int {
    ofEra * 365 + ofEra / 4 - ofEra / 100 + ofYear
  }

  /** `date`: the calendar day of a day number. */
  function DateOf(number: int): Date {
    var days := number + 719_468;
    var era := days / 146_097;
    DateWithin(era, days - era * 146_097)
  }

  /** The part of `date` that works inside one 400-year era. */
  function DateWithin(era: int, ofEra: int): Date {
    var yearOfEra := YearOfEra(ofEra);
    var ofYear := ofEra - (365 * yearOfEra + yearOfEra / 4 - yearOfEra / 100);
    var index := (5 * ofYear + 2) / 153;
    var day := ofYear - DaysBefore(index) + 1;
    var month := if index < 10 then index + 3 else index - 9;
    Date(yearOfEra + era * 400 + (if month <= 2 then 1 else 0), month, day)
  }

  function YearOfEra(ofEra: int): int {
    (ofEra - ofEra / 1460 + ofEra / 36_524 - ofEra / 146_096) / 365
  }

  // ---- day numbers count days ----

  /** Days before March 1 of year `y`, up to a constant: 365 a year and one for every leap day passed. */
  function YearStart(y: int): int {
    365 * y + y / 4 - y / 100 + y / 400
  }

  lemma CycleIsYearStart(y: int)
    ensures var era := y / 400;
            var ofEra := y - era * 400;
            era * 146_097 + ofEra * 365 + ofEra / 4 - ofEra / 100 == YearStart(y)
  {
    var era := y / 400;
    var ofEra := y - era * 400;
    assert y / 4 == era * 100 + ofEra / 4;
    assert y / 100 == era * 4 + ofEra / 100;
  }

  lemma Steps(y: int, n: int)
    requires n > 0
    ensures (y + 1) / n - y / n == if (y + 1) % n == 0 then 1 else 0
  {
    var q, r := y / n, y % n;
    assert y == q * n + r;
    if r == n - 1 {
      assert y + 1 == (q + 1) * n;
      Quotient(y + 1, n, q + 1, 0);
    } else {
      Quotient(y + 1, n, q, r + 1);
    }
  }

  lemma Quotient(x: int, n: int, q: int, r: int)
    requires 0 <= r < n && x == q * n + r
    ensures x / n == q && x % n == r
  {
    var p := x / n;
    assert x == p * n + x % n;
    assert (p - q) * n == r - x % n;
    MultipleIsFar(p - q, n);
  }

  lemma MultipleIsFar(d: int, n: int)
    requires n > 0
    ensures d >= 1 ==> d * n >= n
    ensures d <= -1 ==> d * n <= -n
  {
    if d >= 1 {
      assert (d - 1) * n >= 0;
    } else if d <= -1 {
      assert (-1 - d) * n >= 0;
    }
  }

  /** A year that starts in March has a leap day at its end exactly when the next year is leap. */
  lemma YearLength(y: int)
    ensures YearStart(y + 1) - YearStart(y) == if IsLeap(y + 1) then 366 else 365
  {
    Steps(y, 4);
    Steps(y, 100);
    Steps(y, 400);
    MultiplesNest(y + 1);
  }

  lemma MultiplesNest(x: int)
    ensures x % 400 == 0 ==> x % 100 == 0
    ensures x % 100 == 0 ==> x % 4 == 0
  {
  }

  /** The place of a month in a year that starts in March. */
  function IndexOf(month: int): int {
    if month <= 2 then month + 9 else month - 3
  }

  lemma IndexIsPlace(month: int)
    requires 1 <= month <= 12
    ensures (month + 9) % 12 == IndexOf(month)
  {
  }

  lemma DayNumberCounts(d: Date, year: int, index: int)
    requires 1 <= d.month <= 12 && year == (if d.month <= 2 then d.year - 1 else d.year) && index == IndexOf(d.month)
    ensures DayNumber(d) == YearStart(year) + DaysBefore(index) + d.day - 719_469
  {
    IndexIsPlace(d.month);
    CycleIsYearStart(year);
  }

  /** The month before `index + 1` is as long as the formula says, February apart. */
  lemma MonthStep(year: int, month: int, index: int)
    requires 1 <= month <= 12 && month != 2 && index == IndexOf(month)
    ensures DaysBefore(index + 1) - DaysBefore(index) == DaysInMonth(year, month)
  {
  }

  lemma MonthChanges(d: Date, next: Date)
    requires Exists(d) && d.month != 2 && d.day == DaysInMonth(d.year, d.month) && next == FirstOfNextMonth(d)
    ensures DayNumber(next) == DayNumber(d) + 1
  {
    var year, index := if d.month <= 2 then d.year - 1 else d.year, IndexOf(d.month);
    DayNumberCounts(d, year, index);
    DayNumberCounts(next, year, index + 1);
    MonthStep(d.year, d.month, index);
  }

  lemma FebruaryEnds(d: Date, next: Date)
    requires d.month == 2 && d.day == DaysInMonth(d.year, 2) && next == Date(d.year, 3, 1)
    ensures DayNumber(next) == DayNumber(d) + 1
  {
    DayNumberCounts(d, d.year - 1, 11);
    DayNumberCounts(next, d.year, 0);
    YearLength(d.year - 1);
    assert DaysBefore(11) == 337 && DaysBefore(0) == 0;
  }

  /** One calendar day is one day number, across months, leap days and centuries. */
  lemma FollowingIsNext(d: Date)
    requires Exists(d)
    ensures DayNumber(Following(d)) == DayNumber(d) + 1
  {
    if d.day < DaysInMonth(d.year, d.month) {
      DaysShift(Following(d), d);
    } else if d.month == 2 {
      FebruaryEnds(d, Following(d));
    } else {
      MonthChanges(d, Following(d));
    }
  }

  lemma EpochIsZero()
    ensures DayNumber(Date(1970, 1, 1)) == 0
  {
  }

  // ---- the conversions invert each other ----

  /** The year formula undoes the day count of a 400-year era. */
  lemma YearOfEraInverts(year: int, ofYear: int)
    requires 0 <= year < 400 && 0 <= ofYear < 365 + (if IsLeap(year + 1) then 1 else 0)
    ensures YearOfEra(CycleDay(year, ofYear)) == year
  {
    var c, r := year / 100, year % 100;
    var q, t := r / 4, r % 4;
    assert year == 100 * c + 4 * q + t;
    assert year / 4 == 25 * c + q;
    LeapEndsCycle(c, q, t);
    YearFromParts(c, q, t, ofYear);
  }

  lemma LeapEndsCycle(c: int, q: int, t: int)
    requires 0 <= c < 4 && 0 <= q < 25 && 0 <= t < 4
    ensures IsLeap(100 * c + 4 * q + t + 1) <==> t == 3 && (q < 24 || c == 3)
  {
  }

  lemma YearFromParts(c: int, q: int, t: int, ofYear: int)
    requires 0 <= c < 4 && 0 <= q < 25 && 0 <= t < 4
    requires 0 <= ofYear < 365 + (if t == 3 && (q < 24 || c == 3) then 1 else 0)
    ensures YearOfEra(36_524 * c + 1461 * q + 365 * t + ofYear) == 100 * c + 4 * q + t
  {
    var days := 36_524 * c + 1461 * q + 365 * t + ofYear;
    var extra := 24 * c + q + 365 * t + ofYear;
    assert days == 1460 * (25 * c + q) + extra;
    var carry := if extra < 1460 then 0 else 1;
    assert days / 1460 == 25 * c + q + carry;
    var last := if days < 146_096 then 0 else 1;
    assert days / 146_096 == last;
    var century := if 1461 * q + 365 * t + ofYear < 36_524 then c else c + 1;
    assert days / 36_524 == century;
    assert days - days / 1460 + days / 36_524 - days / 146_096
        == 365 * (100 * c + 4 * q + t) + ofYear - c - carry + century - last;
  }

  lemma CycleSplits(year: int, ofYear: int)
    requires 0 <= year < 400 && 0 <= ofYear < 365 + (if IsLeap(year + 1) then 1 else 0)
    ensures 0 <= CycleDay(year, ofYear) < 146_097
  {
    var c, r := year / 100, year % 100;
    var q, t := r / 4, r % 4;
    assert year == 100 * c + 4 * q + t;
    assert year / 4 == 25 * c + q;
    LeapEndsCycle(c, q, t);
  }

  /** Month and day come back from the day of a year that starts in March. */
  lemma MonthComesBack(index: int, day: int)
    requires 0 <= index < 12 && 1 <= day <= DaysBefore(index + 1) - DaysBefore(index)
    ensures (5 * (DaysBefore(index) + day - 1) + 2) / 153 == index
  {
  }

  /** A day of a month that starts in March has its own day of the year. */
  lemma OfYearIsInRange(d: Date)
    requires Exists(d)
    ensures var index := (d.month + 9) % 12;
            var ofYear := DaysBefore(index) + d.day - 1;
            && 0 <= index < 12 && d.day <= DaysBefore(index + 1) - DaysBefore(index)
            && 0 <= ofYear < 365 + (if IsLeap(if d.month <= 2 then d.year else d.year + 1) then 1 else 0)
  {
    IndexIsPlace(d.month);
    if d.month != 2 {
      MonthStep(d.year, d.month, IndexOf(d.month));
    }
    assert d.month != 2 ==> DaysBefore((d.month + 9) % 12 + 1) <= 337;
  }

  lemma RemainderRepeats(year: int, n: int, k: int, era: int)
    requires n > 0 && n * k == 400
    ensures (year + 400 * era) % n == year % n
  {
    assert year + 400 * era == (year / n + k * era) * n + year % n;
    Quotient(year + 400 * era, n, year / n + k * era, year % n);
  }

  lemma LeapRepeats(year: int, era: int)
    ensures IsLeap(year + 400 * era) == IsLeap(year)
  {
    RemainderRepeats(year, 4, 100, era);
    RemainderRepeats(year, 100, 4, era);
    RemainderRepeats(year, 400, 1, era);
  }

  /** Inside an era, a year that starts in March, the month's place in it and the day come back. */
  lemma DateWithinInverts(era: int, ofEra: int, index: int, day: int)
    requires 0 <= ofEra < 400 && 0 <= index < 12 && 1 <= day <= DaysBefore(index + 1) - DaysBefore(index)
    requires 0 <= DaysBefore(index) + day - 1 < 365 + (if IsLeap(ofEra + 1) then 1 else 0)
    ensures DateWithin(era, CycleDay(ofEra, DaysBefore(index) + day - 1))
         == Date(ofEra + era * 400 + (if index < 10 then 0 else 1), if index < 10 then index + 3 else index - 9, day)
  {
    YearOfEraInverts(ofEra, DaysBefore(index) + day - 1);
    MonthComesBack(index, day);
    DateOfParts(era, CycleDay(ofEra, DaysBefore(index) + day - 1), ofEra, DaysBefore(index) + day - 1, index, day);
  }

  lemma DateOfParts(era: int, ofCycle: int, year: int, ofYear: int, index: int, day: int)
    requires YearOfEra(ofCycle) == year && ofCycle == CycleDay(year, ofYear) && 0 <= index < 12
    requires (5 * ofYear + 2) / 153 == index && ofYear == DaysBefore(index) + day - 1
    ensures DateWithin(era, ofCycle)
         == Date(year + era * 400 + (if index < 10 then 0 else 1), if index < 10 then index + 3 else index - 9, day)
  {
  }

  /** `date` undoes the day number of every date of the Gregorian calendar. */
  lemma DateOfInverts(d: Date)
    requires Exists(d)
    ensures DateOf(DayNumber(d)) == d
  {
    var shifted := if d.month <= 2 then d.year - 1 else d.year;
    var era := shifted / 400;
    var index := (d.month + 9) % 12;
    OfYearIsInRange(d);
    LeapRepeats(shifted - era * 400 + 1, era);
    IndexComesBack(d.month);
    InvertsWithin(d, era, shifted - era * 400, index);
  }

  lemma InvertsWithin(d: Date, era: int, ofEra: int, index: int)
    requires 0 <= ofEra < 400 && 0 <= index < 12 && 1 <= d.day <= DaysBefore(index + 1) - DaysBefore(index)
    requires 0 <= DaysBefore(index) + d.day - 1 < 365 + (if IsLeap(ofEra + 1) then 1 else 0)
    requires d.year == ofEra + era * 400 + (if index < 10 then 0 else 1)
    requires d.month == if index < 10 then index + 3 else index - 9
    requires DayNumber(d) == era * 146_097 + CycleDay(ofEra, DaysBefore(index) + d.day - 1) - 719_468
    ensures DateOf(DayNumber(d)) == d
  {
    CycleSplits(ofEra, DaysBefore(index) + d.day - 1);
    DateWithinInverts(era, ofEra, index, d.day);
    Assemble(d, era, CycleDay(ofEra, DaysBefore(index) + d.day - 1), DayNumber(d));
  }

  lemma Assemble(d: Date, era: int, ofCycle: int, number: int)
    requires 0 <= ofCycle < 146_097 && DateWithin(era, ofCycle) == d
    requires number == era * 146_097 + ofCycle - 719_468
    ensures DateOf(number) == d
  {
    Quotient(era * 146_097 + ofCycle, 146_097, era, ofCycle);
  }

  lemma IndexComesBack(month: int)
    requires 1 <= month <= 12
    ensures var index := (month + 9) % 12;
            (if index < 10 then index + 3 else index - 9) == month && (index < 10 <==> month > 2)
  {
  }

  /** Every day number is some date of the calendar. */
  lemma {:induction false} DayHasDate(number: nat) returns (d: Date)
    ensures Exists(d) && DayNumber(d) == number
  {
    if number == 0 {
      d := Date(1970, 1, 1);
      EpochIsZero();
    } else {
      var before := DayHasDate(number - 1);
      d := Following(before);
      FollowingIsNext(before);
    }
  }

  lemma ErasShift(d: Date, era: int)
    requires Exists(d)
    ensures Exists(d.(year := d.year + 400 * era))
    ensures DayNumber(d.(year := d.year + 400 * era)) == DayNumber(d) + 146_097 * era
  {
    LeapRepeats(d.year, era);
    var shifted := if d.month <= 2 then d.year - 1 else d.year;
    assert (shifted + 400 * era) / 400 == shifted / 400 + era;
  }

  /** The other way round: whatever the day number, before the epoch too, `date` names the day that has it. */
  lemma DayNumberInverts(number: int)
    ensures Exists(DateOf(number)) && DayNumber(DateOf(number)) == number
  {
    var era := number / 146_097;
    var base := DayHasDate(number % 146_097);
    var d := base.(year := base.year + 400 * era);
    ErasShift(base, era);
    DateOfInverts(d);
  }

  // ---- days that do not exist ----

  /** A day past the end of its month names the day that many days later, in the next month. */
  lemma OverflowMovesOn(d: Date)
    requires 1 <= d.month <= 12 && DaysInMonth(d.year, d.month) < d.day <= 31
    ensures var r := FirstOfNextMonth(d).(day := d.day - DaysInMonth(d.year, d.month));
            Exists(r) && DayNumber(d) == DayNumber(r) && DateOf(DayNumber(d)) == r
  {
    var r := FirstOfNextMonth(d).(day := d.day - DaysInMonth(d.year, d.month));
    OverflowCounts(d, d.(day := DaysInMonth(d.year, d.month)), FirstOfNextMonth(d), r);
    DateOfInverts(r);
  }

  lemma OverflowCounts(d: Date, last: Date, first: Date, r: Date)
    requires Exists(last) && last.day == DaysInMonth(last.year, last.month) && first == FirstOfNextMonth(last)
    requires d == last.(day := d.day) && r == first.(day := d.day - last.day)
    ensures DayNumber(d) == DayNumber(r)
  {
    FollowingIsNext(last);
    DaysShift(d, last);
    DaysShift(r, first);
  }

  lemma DaysShift(d: Date, e: Date)
    requires d.year == e.year && d.month == e.month
    ensures DayNumber(d) - DayNumber(e) == d.day - e.day
  {
  }

  /** Exactly when the conversions agree on a day the parser lets through. */
  lemma RoundTripsExactlyWhenItExists(d: Date)
    requires 1 <= d.month <= 12 && 1 <= d.day <= 31
    ensures DateOf(DayNumber(d)) == d <==> d.day <= DaysInMonth(d.year, d.month)
  {
    if Exists(d) {
      DateOfInverts(d);
    } else {
      OverflowMovesOn(d);
    }
  }

  /** One day the parser lets through and `date` moves: 31 February 2023 comes back as 3 March. */
  lemma FebruaryThirtyFirst()
    ensures DateOf(DayNumber(Date(2023, 2, 31))) == Date(2023, 3, 3)
  {
    OverflowMovesOn(Date(2023, 2, 31));
  }
}
