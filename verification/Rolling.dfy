/** Rolling summary periods: the window of a weekly, biweekly or monthly period around an instant. */
module Rolling {
  import opened Calendar
  import opened Numbers
  import opened Wrappers
  import opened Zones

  datatype RollingPeriod = Weekly | Biweekly | Monthly

  /** A half-open period `[start, end)` in UTC seconds. */
  datatype PeriodWindow = PeriodWindow(start: int, end: int)

  /** Midnight at the start of local day `n`; none where the zone skips it. */
  function StartOfDay(n: int, z: Zone): Option<int> {
    Resolve(z, n * SECS_PER_DAY)
  }

  /** The first day of the period around day `today`, and the first day after it. */
  function PeriodDays(period: RollingPeriod, today: int, endDay: int): (int, int) {
    match period
    case Weekly =>
      var end := today + (endDay + 7 - WeekdayOf(today)) % 7;
      (end - 6, end + 1)
    case Biweekly =>
      var epoch := DayNumber(Date(1970, 1, 5));
      var start := epoch + (today - epoch) / 14 * 14;
      (start, start + 14)
    case Monthly =>
      var d := DateOf(today);
      (DayNumber(Date(d.year, d.month, 1)), DayNumber(NextMonth(d)))
  }

  /** The window of the period around `t` in the zone's local days. */
  function Window(period: RollingPeriod, t: int, z: Zone, endDay: int): Option<PeriodWindow> {
    var (first, next) := PeriodDays(period, LocalDay(z, t), endDay);
    var start, end := StartOfDay(first, z), StartOfDay(next, z);
    if start.Some? && end.Some? then Some(PeriodWindow(start.value, end.value)) else None
  }

  predicate Contains(w: PeriodWindow, t: int) {
    w.start <= t < w.end
  }

  // ---------- Day level ----------

  /** A month runs from its first day, by its length, to the first day of the next. */
  lemma MonthBounds(today: int)
    ensures var d, (first, next) := DateOf(today), PeriodDays(Monthly, today, 0);
            && first == today - d.day + 1 && next == first + DaysInMonth(d.year, d.month)
            && 1 <= d.day <= DaysInMonth(d.year, d.month) && 1 <= d.month <= 12
            && next == DayNumber(NextMonth(d)) && IsDate(NextMonth(d)) && NextMonth(d).day == 1
  {
    hide DaysBeforeYear, DateOf, DaysInMonth;
    DateOfIsDate(today);
    NumberOfDate(today);
    NextMonthNumber(DateOf(today));
  }

  lemma MonthOfDay(today: int, other: int)
    requires var (first, next) := PeriodDays(Monthly, today, 0); first <= other < next
    ensures DateOf(other).year == DateOf(today).year && DateOf(other).month == DateOf(today).month
  {
    hide DaysBeforeYear, DaysBeforeMonth, DateOf, DaysInMonth, PeriodDays;
    MonthBounds(today);
    NumberOfDate(today);
    var d := DateOf(today);
    var (first, next) := PeriodDays(Monthly, today, 0);
    var target := Date(d.year, d.month, other - first + 1);
    assert DayNumber(target) == other;
    DateOfNumber(target);
  }

  lemma SameMonthSamePeriod(today: int, other: int)
    requires DateOf(other).year == DateOf(today).year && DateOf(other).month == DateOf(today).month
    ensures PeriodDays(Monthly, other, 0) == PeriodDays(Monthly, today, 0)
  {
    hide DayNumber, DateOf;
  }

  lemma NextMonthStarts(today: int)
    ensures var (first, next) := PeriodDays(Monthly, today, 0); PeriodDays(Monthly, next, 0).0 == next
  {
    hide DaysBeforeYear, DaysBeforeMonth, DateOf, DaysInMonth;
    MonthBounds(today);
    var next := PeriodDays(Monthly, today, 0).1;
    DateOfNumber(NextMonth(DateOf(today)));
    MonthBounds(next);
  }

  lemma MonthsTileDays(today: int)
    ensures var (first, next) := PeriodDays(Monthly, today, 0);
            && first <= today < next
            && (forall n :: first <= n < next ==> PeriodDays(Monthly, n, 0) == (first, next))
            && PeriodDays(Monthly, next, 0).0 == next
  {
    hide *;
    MonthBounds(today);
    var (first, next) := PeriodDays(Monthly, today, 0);
    forall n | first <= n < next
      ensures PeriodDays(Monthly, n, 0) == (first, next)
    {
      MonthOfDay(today, n);
      SameMonthSamePeriod(today, n);
    }
    NextMonthStarts(today);
  }

  lemma WeekdayShift(n: int, k: int)
    requires 0 <= k <= 6
    ensures 0 <= WeekdayOf(n) <= 6
    ensures WeekdayOf(n + k) == if WeekdayOf(n) + k <= 6 then WeekdayOf(n) + k else WeekdayOf(n) + k - 7
  {
  }

  /** The weekly end date is the one day of the coming week that falls on `endDay`. */
  lemma WeekEndsOn(today: int, endDay: int, end: int)
    requires 0 <= endDay <= 6
    ensures PeriodDays(Weekly, today, endDay) == (end - 6, end + 1)
       <==> today <= end <= today + 6 && WeekdayOf(end) == endDay
  {
    var w := WeekdayOf(today);
    WeekdayShift(today, 0);
    assert (endDay + 7 - w) % 7 == if endDay >= w then endDay - w else endDay - w + 7;
    if today <= end <= today + 6 {
      WeekdayShift(today, end - today);
    }
    hide WeekdayOf, DateOf, DayNumber;
  }

  lemma WeeksTileDays(today: int, endDay: int, n: int)
    requires 0 <= endDay <= 6
    ensures var (first, next) := PeriodDays(Weekly, today, endDay);
            && first <= today < next
            && (first <= n < next ==> PeriodDays(Weekly, n, endDay) == (first, next))
            && PeriodDays(Weekly, next, endDay).0 == next
  {
    var (first, next) := PeriodDays(Weekly, today, endDay);
    var end := next - 1;
    assert first == end - 6;
    WeekEndsOn(today, endDay, end);
    WeekEndsOn(n, endDay, end);
    WeekEndsOn(next, endDay, end + 7);
    assert WeekdayOf(end + 7) == WeekdayOf(end);
    hide PeriodDays;
  }

  lemma FortnightsTileDays(today: int, endDay: int, n: int)
    ensures var (first, next) := PeriodDays(Biweekly, today, endDay);
            && first <= today < next
            && (first <= n < next ==> PeriodDays(Biweekly, n, endDay) == (first, next))
            && PeriodDays(Biweekly, next, endDay).0 == next
  {
    hide DayNumber;
  }

  /** Biweekly periods begin on Mondays, every other one from that of 1970-01-05 on. */
  lemma FortnightsBeginOnMondays(today: int, endDay: int)
    ensures var (first, next) := PeriodDays(Biweekly, today, endDay);
            && WeekdayOf(first) == 0
            && (first - DayNumber(Date(1970, 1, 5))) % 14 == 0
  {
    hide DayNumber, WeekdayOf;
    var epoch := DayNumber(Date(1970, 1, 5));
    FirstMonday();
    var tile := (today - epoch) / 14;
    TileWeekday(tile);
    QuotientIsUnique(tile, 0, 14);
  }

  lemma FirstMonday()
    ensures DayNumber(Date(1970, 1, 5)) == 4
  {
  }

  lemma TileWeekday(tile: int)
    ensures WeekdayOf(4 + tile * 14) == 0
  {
    QuotientIsUnique(2 * tile + 1, 0, 7);
  }

  /** A period contains its day, every day in it has the same period, and the next period starts where it ends. */
  lemma PeriodsTileDays(period: RollingPeriod, today: int, endDay: int)
    requires 0 <= endDay <= 6
    ensures var (first, next) := PeriodDays(period, today, endDay);
            && first <= today < next
            && (forall n :: first <= n < next ==> PeriodDays(period, n, endDay) == (first, next))
            && PeriodDays(period, next, endDay).0 == next
  {
    assert forall n :: PeriodDays(Monthly, n, endDay) == PeriodDays(Monthly, n, 0);
    hide PeriodDays;
    match period {
      case Weekly => forall n { WeeksTileDays(today, endDay, n); }
      case Biweekly => forall n { FortnightsTileDays(today, endDay, n); }
      case Monthly => MonthsTileDays(today);
    }
  }

  // ---------- Instants ----------

  /**
   In a fixed-offset zone the windows of every cadence partition time, on both sides of 1970 and
   through leap years: a window always exists and contains its instant, every instant inside it
   has that same window, and the window at its end starts exactly there.
   */
  lemma WindowsPartitionTime(period: RollingPeriod, t: int, z: Zone, offset: int, endDay: int)
    requires IsFixed(z, offset) && 0 <= endDay <= 6
    ensures Window(period, t, z, endDay).Some?
    ensures var w := Window(period, t, z, endDay).value;
            && Contains(w, t)
            && (forall u :: Contains(w, u) ==> Window(period, u, z, endDay) == Some(w))
            && Window(period, w.end, z, endDay).Some?
            && Window(period, w.end, z, endDay).value.start == w.end
  {
    hide PeriodDays, DateOf, DayNumber;
    var today := LocalDay(z, t);
    var (first, next) := PeriodDays(period, today, endDay);
    PeriodsTileDays(period, today, endDay);
    WindowOfDays(period, t, z, offset, endDay);
    var w := Window(period, t, z, endDay).value;
    forall u | Contains(w, u)
      ensures Window(period, u, z, endDay) == Some(w)
    {
      WindowOfDays(period, u, z, offset, endDay);
      assert first <= LocalDay(z, u) < next;
    }
    WindowOfDays(period, w.end, z, offset, endDay);
    assert LocalDay(z, w.end) == next;
  }

  lemma WindowOfDays(period: RollingPeriod, t: int, z: Zone, offset: int, endDay: int)
    requires IsFixed(z, offset)
    ensures var (first, next) := PeriodDays(period, LocalDay(z, t), endDay);
            Window(period, t, z, endDay)
              == Some(PeriodWindow(first * SECS_PER_DAY - offset, next * SECS_PER_DAY - offset))
  {
    hide PeriodDays;
    var (first, next) := PeriodDays(period, LocalDay(z, t), endDay);
    ResolveFixed(z, offset, first * SECS_PER_DAY);
    ResolveFixed(z, offset, next * SECS_PER_DAY);
  }

  /** Lengths: a week is 7 days, a biweekly tile 14, and a month as many as the calendar says. */
  lemma WindowLength(period: RollingPeriod, t: int, z: Zone, offset: int, endDay: int)
    requires IsFixed(z, offset) && 0 <= endDay <= 6
    ensures Window(period, t, z, endDay).Some?
    ensures var w, d := Window(period, t, z, endDay).value, DateOf(LocalDay(z, t));
            w.end - w.start ==
              match period
              case Weekly => 7 * SECS_PER_DAY
              case Biweekly => 14 * SECS_PER_DAY
              case Monthly => DaysInMonth(d.year, d.month) * SECS_PER_DAY
  {
    hide DaysBeforeYear, DaysBeforeMonth, DateOf, DaysInMonth, Window, LocalDay;
    WindowOfDays(period, t, z, offset, endDay);
    MonthBounds(LocalDay(z, t));
    assert PeriodDays(Monthly, LocalDay(z, t), endDay) == PeriodDays(Monthly, LocalDay(z, t), 0);
  }
}
