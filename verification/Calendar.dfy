/**
 The proleptic Gregorian calendar. Days are numbered from 1970-01-01; `DateOf` walks the calendar
 one day at a time by the month lengths and leap years of RFC 3339 (section 5.7, Appendix C),
 `DayNumber` is the closed form, and the two are proved inverse.
 */
module Calendar {
  import opened Numbers

  datatype Date = Date(year: int, month: int, day: int)

  predicate IsLeapYear(y: int) {
    y % 4 == 0 && (y % 100 != 0 || y % 400 == 0)
  }

  function DaysInMonth(y: int, m: int): int {
    if m == 2 then (if IsLeapYear(y) then 29 else 28)
    else if m == 4 || m == 6 || m == 9 || m == 11 then 30
    else 31
  }

  predicate IsDate(d: Date) {
    1 <= d.month <= 12 && 1 <= d.day <= DaysInMonth(d.year, d.month)
  }

  function NextMonth(d: Date): Date {
    if d.month == 12 then Date(d.year + 1, 1, 1) else Date(d.year, d.month + 1, 1)
  }

  function NextDay(d: Date): Date {
    if d.day < DaysInMonth(d.year, d.month) then d.(day := d.day + 1) else NextMonth(d)
  }

  function PrevDay(d: Date): Date {
    if d.day > 1 then d.(day := d.day - 1)
    else if d.month == 1 then Date(d.year - 1, 12, 31)
    else Date(d.year, d.month - 1, DaysInMonth(d.year, d.month - 1))
  }

  /** The calendar date `n` days after 1970-01-01. */
  function DateOf(n: int): (d: Date)
    ensures IsDate(d)
    decreases if n < 0 then -n else n
  {
    if n == 0 then Date(1970, 1, 1)
    else if n > 0 then NextDay(DateOf(n - 1))
    else PrevDay(DateOf(n + 1))
  }

  function DaysBeforeYear(y: int): int {
    365 * (y - 1970) + (y - 1969) / 4 - (y - 1901) / 100 + (y - 1601) / 400
  }

  function DaysBeforeMonth(y: int, m: int): int {
    var leap := if IsLeapYear(y) then 1 else 0;
    match m
    case 1 => 0
    case 2 => 31
    case 3 => 59 + leap
    case 4 => 90 + leap
    case 5 => 120 + leap
    case 6 => 151 + leap
    case 7 => 181 + leap
    case 8 => 212 + leap
    case 9 => 243 + leap
    case 10 => 273 + leap
    case 11 => 304 + leap
    case 12 => 334 + leap
    case _ => 0
  }

  function DayNumber(d: Date): int {
    DaysBeforeYear(d.year) + DaysBeforeMonth(d.year, d.month) + d.day - 1
  }

  /** Weekdays count from Monday as 0; 1970-01-01 was a Thursday. */
  function WeekdayOf(n: int): int {
    (n + 3) % 7
  }

  /** One more year passes a multiple of `n` exactly when the year is one. */
  lemma NextMultipleOf(y: int, shift: int, n: int)
    requires n > 0 && shift % n == 0
    ensures (y + shift) / n - (y + shift - 1) / n == if y % n == 0 then 1 else 0
  {
    var a, b := y + shift, y + shift - 1;
    DivisionOf(a, n);
    DivisionOf(b, n);
    DivisionOf(shift, n);
    DivisionOf(y, n);
    var k := a / n;
    assert a == (y / n + shift / n) * n + y % n by {
      assert (y / n + shift / n) * n == y / n * n + shift / n * n;
    }
    QuotientIsUnique(y / n + shift / n, y % n, n);
    if y % n == 0 {
      assert b == (k - 1) * n + (n - 1);
      QuotientIsUnique(k - 1, n - 1, n);
    } else {
      assert b == k * n + (y % n - 1);
      QuotientIsUnique(k, y % n - 1, n);
    }
  }

  lemma HundredsAreFours(y: int)
    ensures y % 100 == 0 ==> y % 4 == 0
    ensures y % 400 == 0 ==> y % 100 == 0
  {
  }

  lemma YearLength(y: int)
    ensures DaysBeforeYear(y + 1) - DaysBeforeYear(y) == if IsLeapYear(y) then 366 else 365
  {
    NextMultipleOf(y, -1968, 4);
    NextMultipleOf(y, -1900, 100);
    NextMultipleOf(y, -1600, 400);
    HundredsAreFours(y);
  }

  // ---------- Weekdays ----------

  lemma QuotientOfDifference(y: int, k: int, n: int)
    requires n > 0
    ensures (y - k * n) / n == y / n - k
  {
    DivisionOf(y, n);
    assert y - k * n == (y / n - k) * n + y % n;
    QuotientIsUnique(y / n - k, y % n, n);
  }

  /** The days before the January after year `y`. */
  lemma DaysThroughYear(y: int)
    ensures DaysBeforeYear(y + 1) == 365 * y + y / 4 - y / 100 + y / 400 - 719162
  {
    QuotientOfDifference(y, 492, 4);
    QuotientOfDifference(y, 19, 100);
    QuotientOfDifference(y, 4, 400);
  }

  /** Where the day of a month with number 0 lies from the January at hand, counting back from March on. */
  function MonthOffset(m: int): int {
    match m
    case 1 => 0
    case 2 => 31
    case 3 => -306
    case 4 => -275
    case 5 => -245
    case 6 => -214
    case 7 => -184
    case 8 => -153
    case 9 => -122
    case 10 => -92
    case 11 => -61
    case _ => -31
  }

  /** The year a date belongs to when years begin in March. */
  function MarchYear(d: Date): int {
    if d.month > 2 then d.year else d.year - 1
  }

  lemma MarchDays(d: Date)
    requires IsDate(d)
    ensures DayNumber(d) == DaysBeforeYear(MarchYear(d) + 1) + MonthOffset(d.month) + d.day - 1
  {
    hide DaysBeforeYear, IsLeapYear;
    YearLength(d.year);
  }

  /** The day of the week by Appendix B of RFC 3339, counted from Sunday as 0. */
  function DayOfWeek(d: Date): int {
    var m, y := if d.month > 2 then d.month - 2 else d.month + 10, MarchYear(d);
    var cent, year := y / 100, y % 100;
    ((26 * m - 2) / 10 + d.day + year + year / 4 + cent / 4 + 5 * cent) % 7
  }

  lemma MonthsInWeeks(month: int)
    requires 1 <= month <= 12
    ensures var m := if month > 2 then month - 2 else month + 10;
            (MonthOffset(month) - (26 * m - 2) / 10) % 7 == 0
  {
  }

  /** The parts of a year that its century accounts for. */
  lemma CenturyParts(y: int)
    ensures y == 100 * (y / 100) + y % 100 && y / 4 == 25 * (y / 100) + y % 100 / 4 && y / 400 == y / 100 / 4
  {
  }

  lemma SameRemainder(a: int, b: int, k: int)
    requires a == b + 7 * k
    ensures a % 7 == b % 7
  {
    DivisionOf(b, 7);
    QuotientIsUnique(b / 7 + k, b % 7, 7);
  }

  /** Weekdays are the standard's: its formula gives the same day of the week for every date. */
  lemma WeekdayIsOfTheStandard(d: Date)
    requires IsDate(d)
    ensures WeekdayOf(DayNumber(d)) == (DayOfWeek(d) + 6) % 7
  {
    hide DayNumber, MonthOffset, DaysBeforeYear, IsDate;
    var y, m := MarchYear(d), if d.month > 2 then d.month - 2 else d.month + 10;
    var cent, year := y / 100, y % 100;
    var f := (26 * m - 2) / 10 + d.day + year + year / 4 + cent / 4 + 5 * cent;
    MarchDays(d);
    DaysThroughYear(y);
    CenturyParts(y);
    DateHasMonth(d);
    MonthsInWeeks(d.month);
    var w := (MonthOffset(d.month) - (26 * m - 2) / 10) / 7;
    hide MarchYear;
    assert DayNumber(d) + 3 == f + 6 + 7 * (52 * y + 17 * cent + w - 102738);
    SameRemainder(DayNumber(d) + 3, f + 6, 52 * y + 17 * cent + w - 102738);
    SameRemainder(f % 7 + 6, f + 6, -(f / 7));
  }

  lemma DateHasMonth(d: Date)
    requires IsDate(d)
    ensures 1 <= d.month <= 12
  {
  }

  lemma NextDayIsOneLater(d: Date)
    requires IsDate(d)
    ensures IsDate(NextDay(d)) && DayNumber(NextDay(d)) == DayNumber(d) + 1
    ensures PrevDay(NextDay(d)) == d
  {
    YearLength(d.year);
    hide DaysBeforeYear, IsLeapYear;
  }

  lemma PrevDayIsOneEarlier(d: Date)
    requires IsDate(d)
    ensures IsDate(PrevDay(d)) && DayNumber(PrevDay(d)) == DayNumber(d) - 1
    ensures NextDay(PrevDay(d)) == d
  {
    YearLength(d.year - 1);
    hide DaysBeforeYear, IsLeapYear;
  }

  lemma WalkStep(n: int)
    ensures n > 0 ==> DateOf(n) == NextDay(DateOf(n - 1))
    ensures n < 0 ==> DateOf(n) == PrevDay(DateOf(n + 1))
    ensures DateOf(0) == Date(1970, 1, 1)
  {
  }

  lemma DateOfIsDate(n: int)
    ensures IsDate(DateOf(n))
  {
  }

  lemma EpochNumber()
    ensures DayNumber(Date(1970, 1, 1)) == 0
  {
  }

  /** The walk and the closed form agree: numbering the date of day `n` gives `n` back. */
  lemma {:induction false} NumberOfDate(n: int)
    ensures DayNumber(DateOf(n)) == n
    decreases if n < 0 then -n else n
  {
    hide DateOf, DayNumber, PrevDay, NextDay, IsDate;
    WalkStep(n);
    DateOfIsDate(n - 1);
    DateOfIsDate(n + 1);
    if n > 0 {
      NumberOfDate(n - 1);
      NextDayIsOneLater(DateOf(n - 1));
    } else if n < 0 {
      NumberOfDate(n + 1);
      PrevDayIsOneEarlier(DateOf(n + 1));
    } else {
      EpochNumber();
    }
  }

  lemma YearsAreFar(y: int)
    ensures y >= 1971 ==> DaysBeforeYear(y) >= 365
    ensures y <= 1969 ==> DaysBeforeYear(y) <= -365
  {
  }

  lemma EpochDate(d: Date)
    requires IsDate(d) && DayNumber(d) == 0
    ensures d == Date(1970, 1, 1)
  {
    YearsAreFar(d.year);
    assert DaysBeforeYear(1970) == 0;
  }

  /** Every date has exactly one day number: walking to it from the epoch arrives at the date. */
  lemma {:induction false} DateOfNumber(d: Date)
    requires IsDate(d)
    ensures DateOf(DayNumber(d)) == d
    decreases if DayNumber(d) < 0 then -DayNumber(d) else DayNumber(d)
  {
    hide DateOf, DayNumber, PrevDay, NextDay, IsDate;
    var n := DayNumber(d);
    WalkStep(n);
    if n > 0 {
      PrevDayIsOneEarlier(d);
      DateOfNumber(PrevDay(d));
    } else if n < 0 {
      NextDayIsOneLater(d);
      DateOfNumber(NextDay(d));
    } else {
      EpochDate(d);
    }
  }

  /** Consecutive day numbers are consecutive dates, on both sides of the epoch. */
  lemma DatesAreConsecutive(n: int)
    ensures DateOf(n + 1) == NextDay(DateOf(n))
  {
    NumberOfDate(n);
    NextDayIsOneLater(DateOf(n));
    DateOfNumber(NextDay(DateOf(n)));
  }

  lemma NextMonthNumber(d: Date)
    requires IsDate(d)
    ensures IsDate(NextMonth(d))
    ensures DayNumber(NextMonth(d)) == DayNumber(d) - d.day + DaysInMonth(d.year, d.month) + 1
  {
    YearLength(d.year);
    hide DaysBeforeYear, IsLeapYear;
  }

  /** The next date after `d` whose day is `day`: this month, the next one, or the one after. */
  function NextWithDay(d: Date, day: int): Date {
    if d.day < day <= DaysInMonth(d.year, d.month) then d.(day := day)
    else if day <= DaysInMonth(NextMonth(d).year, NextMonth(d).month) then NextMonth(d).(day := day)
    else NextMonth(NextMonth(d)).(day := day)
  }

  lemma NextWithDayIsNear(d: Date, day: int)
    requires IsDate(d) && 1 <= day <= 31
    ensures IsDate(NextWithDay(d, day))
    ensures 1 <= DayNumber(NextWithDay(d, day)) - DayNumber(d) <= 61
  {
    hide DaysBeforeYear, DaysBeforeMonth, IsLeapYear;
    NextMonthNumber(d);
    NextMonthNumber(NextMonth(d));
  }

  /**
   Every day number from 1 to 31 comes round within 61 days: the month after a short month is
   always long, so at most one month is passed over.
   */
  lemma DayComesRound(n: int, day: int) returns (k: int)
    requires 1 <= day <= 31
    ensures 1 <= k <= 61 && DateOf(n + k).day == day
  {
    var target := NextWithDay(DateOf(n), day);
    NumberOfDate(n);
    NextWithDayIsNear(DateOf(n), day);
    DateOfNumber(target);
    hide DateOf, DayNumber;
    k := DayNumber(target) - n;
    assert n + k == DayNumber(target);
  }

  /** Days that every month has come round within 31 days. */
  lemma ShortDayComesRound(n: int, day: int) returns (k: int)
    requires 1 <= day <= 28
    ensures 1 <= k <= 31 && DateOf(n + k).day == day
  {
    hide DateOf, DayNumber, DaysInMonth, IsDate, NextWithDay;
    DateOfIsDate(n);
    var target := NextWithDay(DateOf(n), day);
    NumberOfDate(n);
    ShortDayIsNear(DateOf(n), day);
    DateOfNumber(target);
    k := DayNumber(target) - n;
    assert n + k == DayNumber(target);
  }

  lemma ShortDayIsNear(d: Date, day: int)
    requires IsDate(d) && 1 <= day <= 28
    ensures var target := NextWithDay(d, day);
            IsDate(target) && target.day == day && 1 <= DayNumber(target) - DayNumber(d) <= 31
  {
    hide DaysBeforeYear, DaysBeforeMonth, IsLeapYear;
    NextMonthNumber(d);
  }
}
