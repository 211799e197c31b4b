/** The recurrence engine: the next fire time of a schedule strictly after an instant. */
module Schedules {
  import opened Calendar
  import opened Numbers
  import opened Wrappers
  import opened Zones

  datatype ScheduleType =
    | Once
    | FifteenMinutes
    | Hourly
    | EveryFourHours
    | Daily
    | Weekly
    | HalfWeekly
    | Monthly
    | Custom

  datatype Schedule = Schedule(
    scheduleType: ScheduleType,
    hour: nat,
    minute: nat,
    days: seq<int>,
    dayOfMonth: nat,
    zone: Zone,
    onceAt: Option<int>,
    customIntervalSecs: int)
  {
    predicate IsWallclock() {
      scheduleType.Daily? || scheduleType.Weekly? || scheduleType.Monthly?
    }

    predicate HasTimeOfDay() {
      hour <= 23 && minute <= 59
    }

    function SecondOfDay(): int {
      hour * 3600 + minute * 60
    }

    /** Whether the recurrence selects calendar day `n`. */
    predicate Selects(n: int) {
      match scheduleType
      case Daily => true
      case Weekly => WeekdayOf(n) in days
      case Monthly => DateOf(n).day == dayOfMonth
      case _ => false
    }

    /** The instant day `n` would fire at: the earliest that reads the time of day on it. */
    function FireTimeOn(n: int): Option<int> {
      Resolve(zone, n * SECS_PER_DAY + SecondOfDay())
    }

    /** The scan of the days `day` to `last` for the first fire time after `after`. */
    function ScanFrom(after: int, day: int, last: int): Option<int>
      decreases last - day
    {
      if day > last then None
      else if !Selects(day) then ScanFrom(after, day + 1, last)
      else if !HasTimeOfDay() then None
      else if FireTimeOn(day).Some? && FireTimeOn(day).value > after then FireTimeOn(day)
      else ScanFrom(after, day + 1, last)
    }

    function NextOccurrence(after: int): Option<int> {
      ScanFrom(after, LocalDay(zone, after), LocalDay(zone, after) + 62)
    }

    /** The period of the kinds that fire at multiples of one. */
    function Interval(): Option<int> {
      match scheduleType
      case FifteenMinutes => Some(15 * 60)
      case Hourly => Some(60 * 60)
      case EveryFourHours => Some(4 * 60 * 60)
      case HalfWeekly => Some(7 * 24 * 60 * 60 / 2)
      case Custom => if customIntervalSecs > 0 then Some(customIntervalSecs) else None
      case _ => None
    }

    /** The next fire time strictly after `after`, if there is one. */
    function NextRun(after: int): Option<int> {
      match scheduleType
      case Once => if onceAt.Some? && onceAt.value > after then onceAt else None
      case Daily => NextOccurrence(after)
      case Weekly => NextOccurrence(after)
      case Monthly => NextOccurrence(after)
      case _ => if Interval().Some? then Some(NextInterval(after, Interval().value)) else None
    }
  }

  /** The next multiple of `interval`, with the machine's truncating division. */
  function NextInterval(after: int, interval: int): int
    requires interval > 0
  {
    Multiple(TruncDiv(after, interval) + 1, interval)
  }

  function Multiple(k: int, interval: int): int {
    k * interval
  }

  /** The day-by-day scan of the recurrence engine. */
  method NextWallclock(s: Schedule, after: int) returns (next: Option<int>)
    ensures next == s.NextOccurrence(after)
  {
    var start := LocalDay(s.zone, after);
    for offset := 0 to 63
      invariant s.NextOccurrence(after) == s.ScanFrom(after, start + offset, start + 62)
    {
      var date := start + offset;
      var matches := match s.scheduleType {
        case Daily => true
        case Weekly => WeekdayOf(date) in s.days
        case Monthly => DateOf(date).day == s.dayOfMonth
        case _ => false
      };
      if matches {
        if s.hour > 23 || s.minute > 59 {
          return None;
        }
        var t := Resolve(s.zone, date * SECS_PER_DAY + s.hour * 3600 + s.minute * 60);
        if t.Some? && t.value > after {
          return t;
        }
      }
    }
    return None;
  }

  // ---------- Wall-clock kinds ----------

  /** The local clock reads the schedule's time of day on a day it selects. */
  predicate Occurs(s: Schedule, t: int) {
    s.Selects(LocalDay(s.zone, t)) && LocalSecondOfDay(s.zone, t) == s.SecondOfDay()
  }

  lemma {:induction false} ScanFinds(s: Schedule, after: int, day: int, last: int)
    ensures match s.ScanFrom(after, day, last)
            case Some(t) =>
              exists n ::
                day <= n <= last && s.Selects(n) && s.HasTimeOfDay() && s.FireTimeOn(n) == Some(t) && t > after
            case None =>
              s.HasTimeOfDay() ==> forall n :: day <= n <= last && s.Selects(n) ==>
                s.FireTimeOn(n).None? || s.FireTimeOn(n).value <= after
    decreases last - day
  {
    hide Schedule.Selects, Schedule.FireTimeOn;
    if day <= last {
      ScanFinds(s, after, day + 1, last);
    }
  }

  lemma DayAndSecond(local: int, n: int, second: int)
    requires 0 <= second < SECS_PER_DAY
    ensures local == n * SECS_PER_DAY + second
       <==> local / SECS_PER_DAY == n && local % SECS_PER_DAY == second
  {
  }

  /**
   In any zone, whatever its transitions, a computed run lies strictly after `after`, the local
   clock reads the time of day on a selected date, and it is the first instant that does so on
   that date.
   */
  lemma WallclockIsSound(s: Schedule, after: int)
    requires IsZone(s.zone)
    ensures match s.NextOccurrence(after)
            case Some(t) =>
              && t > after && Occurs(s, t)
              && forall u :: LocalTime(s.zone, u) == LocalTime(s.zone, t) ==> t <= u
            case None => true
  {
    var start := LocalDay(s.zone, after);
    hide Schedule.Selects, Schedule.ScanFrom, Resolve;
    ScanFinds(s, after, start, start + 62);
    if s.NextOccurrence(after).Some? {
      var t := s.NextOccurrence(after).value;
      var n :| start <= n <= start + 62 && s.Selects(n) && s.HasTimeOfDay() && s.FireTimeOn(n) == Some(t) && t > after;
      var local := n * SECS_PER_DAY + s.SecondOfDay();
      ResolveIsEarliest(s.zone, local);
      DayAndSecond(local, n, s.SecondOfDay());
    }
  }

  /** The recurrence selects some day at all: a known weekday, or a day some month has. */
  predicate SelectsSomeDay(s: Schedule) {
    || s.scheduleType.Daily?
    || (s.scheduleType.Weekly? && exists d :: 0 <= d <= 6 && d in s.days)
    || (s.scheduleType.Monthly? && 1 <= s.dayOfMonth <= 31)
  }

  lemma WeekdayComesRound(n: int, d: int) returns (k: int)
    requires 0 <= d <= 6
    ensures 1 <= k <= 7 && WeekdayOf(n + k) == d && WeekdayOf(n + k + 7) == d
  {
    k := (d - WeekdayOf(n) + 6) % 7 + 1;
  }

  /** A selected day always follows within 61 days, so the scan's 62 are enough. */
  lemma SelectedDayIsNear(s: Schedule, n: int) returns (k: int)
    requires SelectsSomeDay(s)
    ensures 1 <= k <= 61 && s.Selects(n + k)
  {
    hide DateOf, WeekdayOf;
    match s.scheduleType {
      case Daily => k := 1;
      case Weekly =>
        var d :| 0 <= d <= 6 && d in s.days;
        k := WeekdayComesRound(n, d);
      case Monthly => k := DayComesRound(n, s.dayOfMonth);
    }
  }

  lemma SelectionNeedsADay(s: Schedule, n: int)
    requires s.Selects(n)
    ensures SelectsSomeDay(s)
  {
    if s.scheduleType.Weekly? {
      assert 0 <= WeekdayOf(n) <= 6;
    }
  }

  lemma {:induction false} ScanIsFirst(s: Schedule, after: int, day: int, last: int, n: int)
    requires day <= n <= last && s.Selects(n) && s.HasTimeOfDay()
    requires s.FireTimeOn(n).Some? && s.FireTimeOn(n).value > after
    ensures exists m :: day <= m <= n && s.Selects(m) && s.FireTimeOn(m) == s.ScanFrom(after, day, last)
                        && s.FireTimeOn(m).Some?
    decreases last - day
  {
    hide Schedule.Selects, Schedule.FireTimeOn;
    if day < n {
      ScanIsFirst(s, after, day + 1, last, n);
    }
  }

  /**
   In a fixed-offset zone the scan is exact and total: it comes up with a run exactly when the
   schedule has a time of day and selects some day, and that run is the very next instant at
   which the local clock reads the time on a selected date.
   */
  lemma WallclockIsExact(s: Schedule, offset: int, after: int)
    requires IsFixed(s.zone, offset)
    ensures s.NextOccurrence(after).Some? <==> s.HasTimeOfDay() && SelectsSomeDay(s)
    ensures s.NextOccurrence(after).Some? ==>
              var t := s.NextOccurrence(after).value;
              t > after && Occurs(s, t) && forall u :: after < u < t ==> !Occurs(s, u)
  {
    var start := LocalDay(s.zone, after);
    hide Schedule.Selects, Schedule.FireTimeOn, Schedule.ScanFrom, LocalDay;
    ResolveFixed(s.zone, offset, 0);
    ScanFinds(s, after, start, start + 62);
    WallclockIsSound(s, after);
    if s.HasTimeOfDay() && SelectsSomeDay(s) {
      var k := SelectedDayIsNear(s, start);
      LaterDayIsLater(s, offset, after, k);
      ScanIsFirst(s, after, start, start + 62, start + k);
    }
    if s.NextOccurrence(after).Some? {
      var n :| start <= n <= start + 62 && s.Selects(n) && s.HasTimeOfDay();
      SelectionNeedsADay(s, n);
      var t := s.NextOccurrence(after).value;
      forall u | after < u < t
        ensures !Occurs(s, u)
      {
        if Occurs(s, u) {
          OccurrenceIsScanned(s, offset, after, u);
        }
      }
    }
  }

  lemma LaterDayIsLater(s: Schedule, offset: int, after: int, k: int)
    requires IsFixed(s.zone, offset) && s.HasTimeOfDay() && k >= 1
    ensures s.FireTimeOn(LocalDay(s.zone, after) + k).Some?
    ensures s.FireTimeOn(LocalDay(s.zone, after) + k).value > after
  {
    ResolveFixed(s.zone, offset, (LocalDay(s.zone, after) + k) * SECS_PER_DAY + s.SecondOfDay());
  }

  /** An occurrence after `after` is never earlier than what the scan returns. */
  lemma OccurrenceIsScanned(s: Schedule, offset: int, after: int, u: int)
    requires IsFixed(s.zone, offset) && s.HasTimeOfDay() && Occurs(s, u) && u > after
    requires s.NextOccurrence(after).Some?
    ensures s.NextOccurrence(after).value <= u
  {
    var start, n := LocalDay(s.zone, after), LocalDay(s.zone, u);
    FireTimeOfOccurrence(s, offset, u);
    assert start <= n;
    hide Schedule.Selects, Schedule.FireTimeOn, Schedule.ScanFrom, LocalDay;
    ScanFinds(s, after, start, start + 62);
    if n <= start + 62 {
      ScanIsFirst(s, after, start, start + 62, n);
    }
    var m :| start <= m <= start + 62 && s.FireTimeOn(m) == s.NextOccurrence(after) && m <= n;
    FireTimesAscend(s, offset, m, n);
  }

  lemma FireTimeOfOccurrence(s: Schedule, offset: int, u: int)
    requires IsFixed(s.zone, offset) && s.HasTimeOfDay() && Occurs(s, u)
    ensures s.FireTimeOn(LocalDay(s.zone, u)) == Some(u)
  {
    var n := LocalDay(s.zone, u);
    DayAndSecond(LocalTime(s.zone, u), n, s.SecondOfDay());
    ResolveFixed(s.zone, offset, n * SECS_PER_DAY + s.SecondOfDay());
  }

  lemma FireTimesAscend(s: Schedule, offset: int, m: int, n: int)
    requires IsFixed(s.zone, offset) && m <= n
    ensures s.FireTimeOn(m).Some? && s.FireTimeOn(n).Some?
    ensures s.FireTimeOn(m).value <= s.FireTimeOn(n).value
  {
    ResolveFixed(s.zone, offset, m * SECS_PER_DAY + s.SecondOfDay());
    ResolveFixed(s.zone, offset, n * SECS_PER_DAY + s.SecondOfDay());
  }

  // ---------- Zones with transitions ----------

  /** Day `n` has a fire time, and it lies after `after`. */
  predicate Usable(s: Schedule, after: int, n: int) {
    s.FireTimeOn(n).Some? && s.FireTimeOn(n).value > after
  }

  /** One of the days the scan looks at is selected and usable. */
  ghost predicate SomeDayIsUsable(s: Schedule, after: int) {
    exists n :: LocalDay(s.zone, after) <= n <= LocalDay(s.zone, after) + 62 && s.Selects(n) && Usable(s, after, n)
  }

  /** In any zone, whatever its transitions, there is a run exactly when the scan meets a usable selected day. */
  lemma RunExistsWhenADayIsUsable(s: Schedule, after: int)
    ensures s.NextOccurrence(after).Some? <==> s.HasTimeOfDay() && SomeDayIsUsable(s, after)
  {
    hide Schedule.Selects, Schedule.FireTimeOn, Schedule.ScanFrom, LocalDay;
    var start := LocalDay(s.zone, after);
    ScanFinds(s, after, start, start + 62);
    if s.HasTimeOfDay() && SomeDayIsUsable(s, after) {
      var n :| start <= n <= start + 62 && s.Selects(n) && Usable(s, after, n);
      ScanIsFirst(s, after, start, start + 62, n);
    }
  }

  /** And that run is the fire time of the first such day. */
  lemma FirstUsableDayRuns(s: Schedule, after: int, n: int)
    requires s.HasTimeOfDay() && LocalDay(s.zone, after) <= n <= LocalDay(s.zone, after) + 62
    requires s.Selects(n) && Usable(s, after, n)
    requires forall m :: LocalDay(s.zone, after) <= m < n && s.Selects(m) ==> !Usable(s, after, m)
    ensures s.NextOccurrence(after) == s.FireTimeOn(n)
  {
    hide Schedule.Selects, Schedule.FireTimeOn, Schedule.ScanFrom, LocalDay;
    var start := LocalDay(s.zone, after);
    ScanIsFirst(s, after, start, start + 62, n);
    ScanFinds(s, after, start, start + 62);
  }

  /** At most one selected day of the 62 after `after` is skipped by the zone, or fired before. */
  ghost predicate MissesAtMostOneDay(s: Schedule, after: int) {
    var start := LocalDay(s.zone, after);
    forall m, n :: start < m < n <= start + 62 && s.Selects(m) && s.Selects(n) ==>
      Usable(s, after, m) || Usable(s, after, n)
  }

  /** Every month has the day the schedule names, if it names one. */
  predicate NamesEveryMonth(s: Schedule) {
    s.scheduleType.Monthly? ==> 1 <= s.dayOfMonth <= 28
  }

  lemma TwoSelectedDays(s: Schedule, n: int) returns (i: int, j: int)
    requires SelectsSomeDay(s) && NamesEveryMonth(s)
    ensures n < i < j <= n + 62 && s.Selects(i) && s.Selects(j)
  {
    hide DateOf, WeekdayOf;
    match s.scheduleType {
      case Daily =>
        i, j := n + 1, n + 2;
      case Weekly =>
        var d :| 0 <= d <= 6 && d in s.days;
        var k := WeekdayComesRound(n, d);
        i, j := n + k, n + k + 7;
      case Monthly =>
        var k := ShortDayComesRound(n, s.dayOfMonth);
        var l := ShortDayComesRound(n + k, s.dayOfMonth);
        i, j := n + k, n + k + l;
    }
  }

  /** A daily, a weekly, and a monthly schedule on a day every month has, survive one missed day in any zone. */
  lemma OneMissedDayIsHarmless(s: Schedule, after: int)
    requires s.HasTimeOfDay() && SelectsSomeDay(s) && NamesEveryMonth(s) && MissesAtMostOneDay(s, after)
    ensures s.NextOccurrence(after).Some?
  {
    hide Schedule.Selects, Usable;
    var i, j := TwoSelectedDays(s, LocalDay(s.zone, after));
    assert Usable(s, after, i) || Usable(s, after, j);
    RunExistsWhenADayIsUsable(s, after);
  }

  /** A zone whose clock jumps from 01:00 to 02:00 on day `n`, and before that reads UTC. */
  function SpringForward(n: int): Zone {
    Zone(t => if t < n * SECS_PER_DAY + 3600 then 0 else 3600)
  }

  lemma JumpSkips(n: int)
    ensures IsZone(SpringForward(n)) && Resolve(SpringForward(n), n * SECS_PER_DAY + 5400).None?
    ensures forall m :: m < n ==> Resolve(SpringForward(n), m * SECS_PER_DAY + 5400) == Some(m * SECS_PER_DAY + 5400)
  {
    var z := SpringForward(n);
    hide Resolve;
    ResolveIsEarliest(z, n * SECS_PER_DAY + 5400);
    forall m | m < n
      ensures Resolve(z, m * SECS_PER_DAY + 5400) == Some(m * SECS_PER_DAY + 5400)
    {
      var local := m * SECS_PER_DAY + 5400;
      MultiplesAscend(m, n, SECS_PER_DAY);
      ResolveIsEarliest(z, local);
      assert LocalTime(z, local) == local;
      var u := Resolve(z, local).value;
      assert u <= local;
    }
  }

  /** Day `day` of the month is selected in the 62 days after that day of January 2023 in March alone. */
  lemma OnlyMarchFollows(day: int, n: int)
    requires 29 <= day <= 31
    ensures var start := DayNumber(Date(2023, 1, day));
            start < n <= start + 62 ==> (DateOf(n).day == day <==> n == DayNumber(Date(2023, 3, day)))
  {
    hide DateOf, DayNumber, IsDate;
    DaysOfEarly2023(day, n);
    var d := if n <= DayNumber(Date(2023, 1, 31)) then Date(2023, 1, n - DayNumber(Date(2023, 1, 1)) + 1)
             else if n <= DayNumber(Date(2023, 2, 28)) then Date(2023, 2, n - DayNumber(Date(2023, 2, 1)) + 1)
             else if n <= DayNumber(Date(2023, 3, 31)) then Date(2023, 3, n - DayNumber(Date(2023, 3, 1)) + 1)
             else Date(2023, 4, n - DayNumber(Date(2023, 4, 1)) + 1);
    if DayNumber(Date(2023, 1, day)) < n <= DayNumber(Date(2023, 1, day)) + 62 {
      DateOfNumber(d);
    }
  }

  lemma DaysOfEarly2023(day: int, n: int)
    requires 29 <= day <= 31
    ensures forall k :: DayNumber(Date(2023, 1, k)) == 19357 + k
    ensures forall k :: DayNumber(Date(2023, 2, k)) == 19388 + k
    ensures forall k :: DayNumber(Date(2023, 3, k)) == 19416 + k
    ensures forall k :: DayNumber(Date(2023, 4, k)) == 19447 + k
    ensures forall k :: IsDate(Date(2023, 1, k)) <==> 1 <= k <= 31
    ensures forall k :: IsDate(Date(2023, 2, k)) <==> 1 <= k <= 28
    ensures forall k :: IsDate(Date(2023, 3, k)) <==> 1 <= k <= 31
    ensures forall k :: IsDate(Date(2023, 4, k)) <==> 1 <= k <= 30
  {
  }

  /** A well-formed schedule for 01:30 on one day of the month. */
  function MonthlyOn(day: nat, zone: Zone): Schedule {
    Schedule(Monthly, 1, 30, [], day, zone, None, 0)
  }

  /**
   A monthly schedule on the 29th, 30th or 31st can run dry: having fired in January of a common
   year, it has no next run when the zone skips its time of day on that day of March.
   */
  lemma MonthEndRunsDry(day: nat)
    requires 29 <= day <= 31
    ensures var s := MonthlyOn(day, SpringForward(DayNumber(Date(2023, 3, day))));
            var fired := DayNumber(Date(2023, 1, day)) * SECS_PER_DAY + 5400;
            && IsZone(s.zone) && s.HasTimeOfDay() && SelectsSomeDay(s) && Occurs(s, fired)
            && MissesAtMostOneDay(s, fired) && s.NextOccurrence(fired).None?
  {
    hide DateOf, Resolve, Schedule.ScanFrom;
    var jan, mar := DayNumber(Date(2023, 1, day)), DayNumber(Date(2023, 3, day));
    var s, fired := MonthlyOn(day, SpringForward(mar)), jan * SECS_PER_DAY + 5400;
    DaysOfEarly2023(day, 0);
    DateOfNumber(Date(2023, 1, day));
    assert LocalTime(s.zone, fired) == fired;
    DayAndSecond(fired, jan, 5400);
    JumpSkips(mar);
    forall n
      ensures jan < n <= jan + 62 && s.Selects(n) ==> n == mar
    {
      OnlyMarchFollows(day, n);
    }
    RunExistsWhenADayIsUsable(s, fired);
  }

  ghost predicate IsMonthlyOn(s: Schedule, day: nat) {
    s.scheduleType.Monthly? && s.dayOfMonth == day && s.HasTimeOfDay() && IsZone(s.zone)
  }

  /**
   So with a time of day, one missed day in 62 never leaves a monthly schedule without a run,
   whatever the zone, exactly if every month has its day.
   */
  lemma MonthlySurvivesOneMissedDay(day: nat)
    requires 1 <= day <= 31
    ensures (forall s: Schedule, after: int | IsMonthlyOn(s, day) && MissesAtMostOneDay(s, after) ::
               s.NextOccurrence(after).Some?)
       <==> day <= 28
  {
    hide Schedule.NextOccurrence, MissesAtMostOneDay, IsZone;
    if day <= 28 {
      forall s: Schedule, after: int | IsMonthlyOn(s, day) && MissesAtMostOneDay(s, after)
        ensures s.NextOccurrence(after).Some?
      {
        OneMissedDayIsHarmless(s, after);
      }
    } else {
      MonthEndRunsDry(day);
    }
  }

  // ---------- Interval kinds ----------

  /** The quotient the machine computes is one too high for a negative instant between multiples. */
  lemma TruncatedQuotient(after: int, interval: int)
    requires interval > 0
    ensures var q := TruncDiv(after, interval);
            if after >= 0 || after % interval == 0
            then Multiple(q, interval) <= after < Multiple(q + 1, interval)
            else Multiple(q - 1, interval) < after < Multiple(q, interval)
  {
    var q := TruncDiv(after, interval);
    var a := if after >= 0 then after else -after;
    DivisionOf(a, interval);
    if after < 0 {
      var r := a % interval;
      if r == 0 {
        QuotientIsUnique(q, 0, interval);
      } else {
        assert after == (q - 1) * interval + (interval - r);
        QuotientIsUnique(q - 1, interval - r, interval);
      }
    }
    assert (q + 1) * interval == q * interval + interval;
    assert (q - 1) * interval == q * interval - interval;
  }

  /**
   An interval run is always a multiple strictly after `after`. It is the least one exactly when
   `after` is not a negative instant between two multiples: there the truncating division skips
   one, as from -1 to 900 instead of 0 for a quarter-hour.
   */
  lemma NextIntervalIsExact(after: int, interval: int)
    requires interval > 0
    ensures NextInterval(after, interval) > after
    ensures (forall k :: Multiple(k, interval) > after ==> Multiple(k, interval) >= NextInterval(after, interval))
       <==> after >= 0 || after % interval == 0
  {
    var q := TruncDiv(after, interval);
    TruncatedQuotient(after, interval);
    MultiplesAscend(q, q + 1, interval);
    if after >= 0 || after % interval == 0 {
      forall k | Multiple(k, interval) > after
        ensures Multiple(k, interval) >= Multiple(q + 1, interval)
      {
        MultiplesAscend(k, q, interval);
        MultiplesAscend(q + 1, k, interval);
      }
    }
  }

  // ---------- What is meant ----------

  /** The days a schedule names: by the weekday of the date, or by its day of the month. */
  ghost predicate Names(s: Schedule, n: int) {
    match s.scheduleType
    case Daily => true
    case Weekly => exists d: Date :: IsDate(d) && DayNumber(d) == n && (DayOfWeek(d) + 6) % 7 in s.days
    case Monthly => exists d: Date :: IsDate(d) && DayNumber(d) == n && d.day == s.dayOfMonth
    case _ => false
  }

  /** The engine selects exactly the days named, weekdays counting from Monday as 0. */
  lemma SelectsWhatIsNamed(s: Schedule, n: int)
    ensures s.Selects(n) <==> Names(s, n)
  {
    hide DateOf, DayNumber, DayOfWeek, WeekdayOf, IsDate;
    var date := DateOf(n);
    NumberOfDate(n);
    DateOfIsDate(n);
    WeekdayIsOfTheStandard(date);
    if s.scheduleType.Weekly? || s.scheduleType.Monthly? {
      forall d: Date | IsDate(d) && DayNumber(d) == n
        ensures d == date
      {
        DateOfNumber(d);
      }
    }
  }

  /** A schedule with a time of day occurs when the local clock reads its hour and minute on a day it names. */
  lemma OccurrencesReadTheClock(s: Schedule, t: int)
    requires s.HasTimeOfDay()
    ensures var second := LocalSecondOfDay(s.zone, t);
            Occurs(s, t) <==>
              && Names(s, LocalDay(s.zone, t))
              && second / 3600 == s.hour && second / 60 % 60 == s.minute && second % 60 == 0
  {
    hide Names, Schedule.Selects, LocalDay;
    SelectsWhatIsNamed(s, LocalDay(s.zone, t));
  }

  // ---------- Every kind ----------

  /** The schedule comes round at `t`, whatever the engine computes. */
  ghost predicate Happens(s: Schedule, t: int) {
    if s.IsWallclock() then s.HasTimeOfDay() && Occurs(s, t)
    else if s.scheduleType.Once? then s.onceAt == Some(t)
    else s.Interval().Some? && exists k :: t == Multiple(k, s.Interval().value)
  }

  /** The very next time it does after `after`. */
  ghost predicate IsNext(s: Schedule, after: int, t: int) {
    after < t && Happens(s, t) && forall u :: after < u < t ==> !Happens(s, u)
  }

  /** No interval's negative instant between two multiples. */
  predicate Punctual(s: Schedule, after: int) {
    s.Interval().Some? && s.Interval().value > 0 ==> after >= 0 || after % s.Interval().value == 0
  }

  lemma IntervalsArePositive(s: Schedule)
    ensures s.Interval().Some? ==> s.Interval().value > 0 && !s.IsWallclock() && !s.scheduleType.Once?
  {
  }

  /** How often the interval kinds come round: in a day, or in a week. */
  lemma PeriodsFillTheDay(s: Schedule)
    ensures s.scheduleType.FifteenMinutes? ==> s.Interval().Some? && 96 * s.Interval().value == SECS_PER_DAY
    ensures s.scheduleType.Hourly? ==> s.Interval().Some? && 24 * s.Interval().value == SECS_PER_DAY
    ensures s.scheduleType.EveryFourHours? ==> s.Interval().Some? && 6 * s.Interval().value == SECS_PER_DAY
    ensures s.scheduleType.HalfWeekly? ==> s.Interval().Some? && 2 * s.Interval().value == 7 * SECS_PER_DAY
    ensures s.scheduleType.Custom? ==>
              s.Interval() == if s.customIntervalSecs > 0 then Some(s.customIntervalSecs) else None
  {
  }

  /**
   In a fixed zone the computed run is the very next time the schedule comes round, exactly if the
   instant is punctual; and there is none exactly if it never comes round again.
   */
  lemma NextRunIsNext(s: Schedule, offset: int, after: int)
    requires IsFixed(s.zone, offset)
    ensures match s.NextRun(after)
            case Some(t) => IsNext(s, after, t) <==> Punctual(s, after)
            case None => forall u :: u > after ==> !Happens(s, u)
  {
    hide Schedule.NextOccurrence, Schedule.Selects, IsFixed, TruncDiv;
    IntervalsArePositive(s);
    if s.IsWallclock() {
      WallclockIsExact(s, offset, after);
      NothingSelected(s);
    } else if s.Interval().Some? {
      IntervalIsNext(s, after);
    }
  }

  lemma NothingSelected(s: Schedule)
    ensures !SelectsSomeDay(s) ==> forall u :: !Occurs(s, u)
  {
    hide Schedule.Selects;
    if !SelectsSomeDay(s) {
      forall u
        ensures !Occurs(s, u)
      {
        if s.Selects(LocalDay(s.zone, u)) {
          SelectionNeedsADay(s, LocalDay(s.zone, u));
        }
      }
    }
  }

  lemma IntervalIsNext(s: Schedule, after: int)
    requires s.Interval().Some? && s.Interval().value > 0 && !s.IsWallclock() && !s.scheduleType.Once?
    ensures IsNext(s, after, NextInterval(after, s.Interval().value)) <==> Punctual(s, after)
  {
    var n := s.Interval().value;
    var t := NextInterval(after, n);
    NextIntervalIsExact(after, n);
    assert t == Multiple(TruncDiv(after, n) + 1, n);
    hide Schedule.Interval, Multiple, TruncDiv, NextInterval;
    forall u | after < u < t && Happens(s, u)
      ensures !Punctual(s, after)
    {
      var k :| u == Multiple(k, n);
    }
    if forall u :: after < u < t ==> !Happens(s, u) {
      forall k | Multiple(k, n) > after
        ensures Multiple(k, n) >= t
      {
        assert Happens(s, Multiple(k, n));
      }
    }
  }

  /** Whatever the kind and the zone, a next run lies strictly in the future. */
  lemma NextRunIsLater(s: Schedule, after: int)
    requires IsZone(s.zone)
    ensures s.NextRun(after).Some? ==> s.NextRun(after).value > after
  {
    if s.IsWallclock() {
      WallclockIsSound(s, after);
    } else if s.Interval().Some? {
      NextIntervalIsExact(after, s.Interval().value);
    }
  }

  /** A schedule that never runs out of runs. */
  ghost predicate Repeats(s: Schedule) {
    forall after :: s.NextRun(after).Some?
  }

  /**
   Interval kinds always repeat, and `Once` never does. Wall-clock kinds repeat in any zone exactly
   if from every instant the scan meets a usable day, and in a fixed zone exactly if well formed.
   */
  lemma WhatRepeats(s: Schedule, offset: int)
    ensures Repeats(s)
       <==> s.Interval().Some?
            || (s.IsWallclock() && s.HasTimeOfDay() && forall after :: SomeDayIsUsable(s, after))
    ensures IsFixed(s.zone, offset) ==>
              (Repeats(s) <==> s.Interval().Some? || (s.HasTimeOfDay() && SelectsSomeDay(s)))
  {
    hide Schedule.NextOccurrence, SomeDayIsUsable, IsFixed;
    if s.IsWallclock() {
      forall after
        ensures s.NextRun(after).Some? <==> s.HasTimeOfDay() && SomeDayIsUsable(s, after)
        ensures IsFixed(s.zone, offset) ==> (s.NextRun(after).Some? <==> s.HasTimeOfDay() && SelectsSomeDay(s))
      {
        RunExistsWhenADayIsUsable(s, after);
        if IsFixed(s.zone, offset) {
          WallclockIsExact(s, offset, after);
        }
      }
      assert Repeats(s) ==> s.NextRun(0).Some?;
    } else if s.scheduleType.Once? {
      assert s.NextRun(if s.onceAt.Some? then s.onceAt.value else 0).None?;
    } else {
      assert Repeats(s) ==> s.NextRun(0).Some?;
    }
  }
}
