/**
 The schedule executor: one `Tick` restores the enabled schedules, fires, skips or disables each
 against the clock, and stores its new run state. The runner is an arbitrary oracle.
 */
module Scheduler {
  import opened Numbers
  import opened Schedules
  import opened Wrappers
  import opened Zones

  /** A stored schedule: its recurrence and its execution state. */
  datatype Row = Row(workspace: string, schedule: Schedule, nextRun: int, failures: nat, enabled: bool)

  datatype Policy = Policy(graceSecs: int, maxFailures: nat)

  datatype TickAction = Fire | NotYet | Skip | Disable

  function EvaluateTick(p: Policy, nextRun: int, now: int, failures: nat): TickAction {
    if failures >= p.maxFailures then Disable
    else if now < nextRun then NotYet
    else if now <= nextRun + p.graceSecs then Fire
    else Skip
  }

  function ActionOn(p: Policy, row: Row, now: int): TickAction {
    EvaluateTick(p, row.nextRun, now, row.failures)
  }

  /** The row with its next run after `now`; without one it is disabled and keeps the old time. */
  function Rescheduled(row: Row, now: int, failures: nat): Row {
    match row.schedule.NextRun(now)
    case Some(next) => row.(nextRun := next, failures := failures, enabled := true)
    case None => row.(failures := failures, enabled := false)
  }

  /** What one tick does to a stored row, when running it would succeed or not as `ok` says. */
  function Ticked(p: Policy, row: Row, now: int, ok: bool): Row {
    if !row.enabled then row
    else
      match ActionOn(p, row, now)
      case NotYet => row
      case Disable => row.(enabled := false)
      case Skip => Rescheduled(row, now, row.failures)
      case Fire => Rescheduled(row, now, if ok then 0 else row.failures + 1)
  }

  predicate Fires(p: Policy, row: Row, now: int) {
    row.enabled && ActionOn(p, row, now) == Fire
  }

  type Table = map<string, Row>

  /** The table after a tick: every row changes, or not, by itself. */
  function TickedTable(p: Policy, rows: Table, now: int, runner: (string, Row, int) -> bool): Table {
    map id | id in rows :: Ticked(p, rows[id], now, runner(id, rows[id], now))
  }

  datatype TickReport = TickReport(fired: nat, skipped: nat, failed: nat, disabled: nat)

  /** The report with one more row acted on. */
  function Counted(report: TickReport, action: TickAction, ok: bool): TickReport {
    match action
    case NotYet => report
    case Disable => report.(disabled := report.disabled + 1)
    case Skip => report.(skipped := report.skipped + 1)
    case Fire => if ok then report.(fired := report.fired + 1) else report.(failed := report.failed + 1)
  }

  /** The enabled rows among `ids` on which the tick acts in one way. */
  ghost function Acted(p: Policy, rows: Table, ids: set<string>, now: int, action: TickAction): set<string> {
    set id | id in ids && id in rows && rows[id].enabled && ActionOn(p, rows[id], now) == action
  }

  ghost function Ran(
      p: Policy, rows: Table, ids: set<string>, now: int, runner: (string, Row, int) -> bool, ok: bool): set<string>
  {
    set id | id in Acted(p, rows, ids, now, Fire) && runner(id, rows[id], now) == ok
  }

  /** The report counts, over the rows `ids`, what the tick did to them. */
  ghost predicate Reports(
      report: TickReport, p: Policy, rows: Table, ids: set<string>, now: int, runner: (string, Row, int) -> bool)
  {
    && report.fired == |Ran(p, rows, ids, now, runner, true)|
    && report.failed == |Ran(p, rows, ids, now, runner, false)|
    && report.skipped == |Acted(p, rows, ids, now, Skip)|
    && report.disabled == |Acted(p, rows, ids, now, Disable)|
  }

  /** The table of schedules, keyed by id. */
  class ScheduleStore {
    var rows: Table

    constructor (rows: Table)
      ensures this.rows == rows
    {
      this.rows := rows;
    }

    /** All enabled schedules. */
    method ListEnabled() returns (ids: set<string>)
      ensures ids == set id | id in rows && rows[id].enabled
    {
      ids := set id | id in rows && rows[id].enabled;
    }

    /** Persists execution state; an unknown id changes nothing. */
    method UpdateRuntime(id: string, nextRun: int, failures: nat, enabled: bool)
      modifies this
      ensures rows == if id in old(rows)
                      then old(rows)[id := old(rows)[id].(nextRun := nextRun, failures := failures, enabled := enabled)]
                      else old(rows)
    {
      if id in rows {
        rows := rows[id := rows[id].(nextRun := nextRun, failures := failures, enabled := enabled)];
      }
    }

    /** Pauses or resumes a schedule of a workspace; tells whether there was one. */
    method SetEnabled(workspace: string, id: string, enabled: bool) returns (changed: bool)
      modifies this
      ensures changed == (id in old(rows) && old(rows)[id].workspace == workspace)
      ensures rows == if changed then old(rows)[id := old(rows)[id].(enabled := enabled)] else old(rows)
    {
      changed := id in rows && rows[id].workspace == workspace;
      if changed {
        rows := rows[id := rows[id].(enabled := enabled)];
      }
    }
  }

  class SchedulerService {
    const store: ScheduleStore
    const policy: Policy

    constructor (store: ScheduleStore, policy: Policy)
      ensures this.store == store && this.policy == policy
    {
      this.store, this.policy := store, policy;
    }

    /** Advances a row to its next run after `now`, or disables it when it has none. */
    method Reschedule(id: string, row: Row, now: int, failures: nat)
      requires id in store.rows && store.rows[id] == row && row.enabled
      modifies store
      ensures store.rows == old(store.rows)[id := Rescheduled(row, now, failures)]
    {
      match row.schedule.NextRun(now) {
        case Some(next) => store.UpdateRuntime(id, next, failures, true);
        case None => store.UpdateRuntime(id, row.nextRun, failures, false);
      }
    }

    /** Acts on one enabled row, and counts what was done. */
    method Visit(id: string, runner: (string, Row, int) -> bool, now: int, report: TickReport)
      returns (report': TickReport)
      requires id in store.rows && store.rows[id].enabled
      modifies store
      ensures var row := old(store.rows)[id];
              && store.rows == old(store.rows)[id := Ticked(policy, row, now, runner(id, row, now))]
              && report' == Counted(report, ActionOn(policy, row, now), runner(id, row, now))
    {
      var row := store.rows[id];
      report' := report;
      match ActionOn(policy, row, now) {
        case NotYet =>
          assert store.rows == store.rows[id := row];
        case Disable =>
          store.UpdateRuntime(id, row.nextRun, row.failures, false);
          report' := report.(disabled := report.disabled + 1);
        case Skip =>
          Reschedule(id, row, now, row.failures);
          report' := report.(skipped := report.skipped + 1);
        case Fire =>
          var failures: nat;
          if runner(id, row, now) {
            report' := report.(fired := report.fired + 1);
            failures := 0;
          } else {
            report' := report.(failed := report.failed + 1);
            failures := row.failures + 1;
          }
          Reschedule(id, row, now, failures);
      }
    }

    /** One pass over the enabled schedules, in whatever order the store lists them. */
    method Tick(runner: (string, Row, int) -> bool, now: int) returns (report: TickReport)
      modifies store
      ensures store.rows == TickedTable(policy, old(store.rows), now, runner)
      ensures Reports(report, policy, old(store.rows), old(store.rows).Keys, now, runner)
    {
      ghost var rows := store.rows;
      report := TickReport(0, 0, 0, 0);
      var remaining := store.ListEnabled();
      DisabledRowsCountNothing(policy, rows, rows.Keys - remaining, now, runner);
      assert HalfTicked(policy, rows, store.rows, remaining, now, runner);
      hide Reports, Ticked, ActionOn, Counted, TickedTable, HalfTicked;
      while remaining != {}
        invariant HalfTicked(policy, rows, store.rows, remaining, now, runner)
        invariant Reports(report, policy, rows, rows.Keys - remaining, now, runner)
        decreases remaining
      {
        var id :| id in remaining;
        VisitedNext(policy, rows, store.rows, remaining, now, runner, id);
        RowCounted(report, policy, rows, rows.Keys - remaining, id, now, runner);
        report := Visit(id, runner, now, report);
        assert rows.Keys - remaining + {id} == rows.Keys - (remaining - {id});
        remaining := remaining - {id};
      }
      AllVisited(policy, rows, store.rows, now, runner);
      assert rows.Keys - {} == rows.Keys;
    }
  }

  /** Part-way through a tick: the rows still to visit are as they were and enabled, the others are done. */
  ghost predicate HalfTicked(
      p: Policy, before: Table, rows: Table, remaining: set<string>, now: int, runner: (string, Row, int) -> bool)
  {
    && remaining <= before.Keys == rows.Keys
    && (forall id | id in before :: id in remaining ==> rows[id] == before[id] && rows[id].enabled)
    && (forall id | id in before :: id !in remaining ==>
          rows[id] == Ticked(p, before[id], now, runner(id, before[id], now)))
  }

  lemma VisitedNext(
      p: Policy, before: Table, rows: Table, remaining: set<string>, now: int, runner: (string, Row, int) -> bool,
      id: string)
    requires HalfTicked(p, before, rows, remaining, now, runner) && id in remaining
    ensures id in rows && id in before && rows[id] == before[id] && rows[id].enabled
    ensures HalfTicked(p, before, rows[id := Ticked(p, rows[id], now, runner(id, rows[id], now))], remaining - {id},
                       now, runner)
  {
    hide Ticked;
  }

  lemma AllVisited(p: Policy, before: Table, rows: Table, now: int, runner: (string, Row, int) -> bool)
    requires HalfTicked(p, before, rows, {}, now, runner)
    ensures rows == TickedTable(p, before, now, runner)
  {
    hide Ticked;
  }

  lemma DisabledRowsCountNothing(
      p: Policy, rows: Table, ids: set<string>, now: int, runner: (string, Row, int) -> bool)
    requires forall id | id in ids && id in rows :: !rows[id].enabled
    ensures Reports(TickReport(0, 0, 0, 0), p, rows, ids, now, runner)
  {
    assert Acted(p, rows, ids, now, Skip) == {};
    assert Acted(p, rows, ids, now, Disable) == {};
    assert Ran(p, rows, ids, now, runner, true) == {};
    assert Ran(p, rows, ids, now, runner, false) == {};
  }

  /** Visiting one more enabled row moves exactly one counter, or none when it is not yet due. */
  lemma RowCounted(
      report: TickReport, p: Policy, rows: Table, done: set<string>, id: string, now: int,
      runner: (string, Row, int) -> bool)
    requires Reports(report, p, rows, done, now, runner)
    requires id in rows && id !in done && rows[id].enabled
    ensures Reports(Counted(report, ActionOn(p, rows[id], now), runner(id, rows[id], now)),
                    p, rows, done + {id}, now, runner)
  {
    var action, ok := ActionOn(p, rows[id], now), runner(id, rows[id], now);
    ActedGrows(p, rows, done, id, now, Skip);
    ActedGrows(p, rows, done, id, now, Disable);
    RanGrows(p, rows, done, id, now, runner, true);
    RanGrows(p, rows, done, id, now, runner, false);
    hide ActionOn, Acted, Ran;
  }

  lemma ActedGrows(p: Policy, rows: Table, done: set<string>, id: string, now: int, action: TickAction)
    requires id in rows && id !in done && rows[id].enabled
    ensures |Acted(p, rows, done + {id}, now, action)|
         == |Acted(p, rows, done, now, action)| + if ActionOn(p, rows[id], now) == action then 1 else 0
  {
    hide ActionOn;
    assert Acted(p, rows, done + {id}, now, action)
        == Acted(p, rows, done, now, action) + if ActionOn(p, rows[id], now) == action then {id} else {};
  }

  lemma RanGrows(
      p: Policy, rows: Table, done: set<string>, id: string, now: int, runner: (string, Row, int) -> bool, ok: bool)
    requires id in rows && id !in done && rows[id].enabled
    ensures |Ran(p, rows, done + {id}, now, runner, ok)|
         == |Ran(p, rows, done, now, runner, ok)|
            + if ActionOn(p, rows[id], now) == Fire && runner(id, rows[id], now) == ok then 1 else 0
  {
    hide ActionOn;
    assert Ran(p, rows, done + {id}, now, runner, ok)
        == Ran(p, rows, done, now, runner, ok)
           + if ActionOn(p, rows[id], now) == Fire && runner(id, rows[id], now) == ok then {id} else {};
  }

  // ---------- Runs of one schedule ----------

  /** What happens to a stored schedule: ticks, each with the outcome a run would have, and pause or resume. */
  datatype RowEvent = TickAt(now: int, ok: bool) | Switch(enabled: bool)

  /** A run that was started: when it was due, when it started, and how it ended. */
  datatype FireRecord = FireRecord(due: int, at: int, ok: bool)

  function StepRow(p: Policy, row: Row, e: RowEvent): Row {
    match e
    case TickAt(now, ok) => Ticked(p, row, now, ok)
    case Switch(enabled) => row.(enabled := enabled)
  }

  function RowAfter(p: Policy, row: Row, events: seq<RowEvent>): Row {
    if events == [] then row
    else StepRow(p, RowAfter(p, row, events[..|events| - 1]), events[|events| - 1])
  }

  function FiredBy(p: Policy, row: Row, e: RowEvent): seq<FireRecord> {
    if e.TickAt? && Fires(p, row, e.now) then [FireRecord(row.nextRun, e.now, e.ok)] else []
  }

  /** The runs started over a sequence of events, oldest first. */
  function FiresOf(p: Policy, row: Row, events: seq<RowEvent>): seq<FireRecord> {
    if events == [] then []
    else
      var prefix := events[..|events| - 1];
      FiresOf(p, row, prefix) + FiredBy(p, RowAfter(p, row, prefix), events[|events| - 1])
  }

  predicate NeverResumed(events: seq<RowEvent>) {
    forall i :: 0 <= i < |events| ==> events[i] != Switch(true)
  }

  lemma {:induction false} ScheduleIsFixed(p: Policy, row: Row, events: seq<RowEvent>)
    ensures RowAfter(p, row, events).schedule == row.schedule
  {
    if events != [] {
      ScheduleIsFixed(p, row, events[..|events| - 1]);
    }
  }

  /** After any tick an enabled schedule is due strictly later, so the same tick again fires nothing. */
  lemma TickLeavesNothingDue(p: Policy, row: Row, now: int, ok: bool)
    requires IsZone(row.schedule.zone)
    ensures var row' := Ticked(p, row, now, ok);
            && (row'.enabled ==> row'.nextRun > now)
            && !Fires(p, row', now)
  {
    NextRunIsLater(row.schedule, now);
  }

  /** A whole tick repeated at the same instant, with any runner, fires no schedule at all. */
  lemma TickAgainFiresNothing(p: Policy, rows: Table, now: int, runner: (string, Row, int) -> bool)
    requires forall id | id in rows :: IsZone(rows[id].schedule.zone)
    ensures var rows' := TickedTable(p, rows, now, runner);
            && (forall id | id in rows' && rows'[id].enabled :: rows'[id].nextRun > now)
            && Acted(p, rows', rows'.Keys, now, Fire) == {}
  {
    forall id | id in rows
      ensures var row' := Ticked(p, rows[id], now, runner(id, rows[id], now));
              (row'.enabled ==> row'.nextRun > now) && !Fires(p, row', now)
    {
      TickLeavesNothingDue(p, rows[id], now, runner(id, rows[id], now));
    }
    hide Ticked;
  }

  /** One event: a run starts in time, and moves the next due time past its start or stops the schedule. */
  lemma OneEventMovesForward(p: Policy, row: Row, e: RowEvent)
    requires IsZone(row.schedule.zone)
    ensures var row', fired := StepRow(p, row, e), FiredBy(p, row, e);
            && row'.schedule == row.schedule
            && |fired| <= 1
            && (fired != [] ==>
                  && fired[0].due == row.nextRun <= fired[0].at <= row.nextRun + p.graceSecs
                  && (row'.enabled || Repeats(row.schedule) ==> fired[0].at < row'.nextRun))
            && (row'.enabled || Repeats(row.schedule) ==> row.nextRun <= row'.nextRun)
            && (e != Switch(true) && row'.enabled ==> row.enabled)
            && (e != Switch(true) && !row.enabled ==> fired == [])
  {
    if e.TickAt? {
      NextRunIsLater(row.schedule, e.now);
    }
    hide Schedule.NextRun;
  }

  /** The runs of a schedule that is never resumed, or that never runs dry, lie behind its next due time. */
  lemma {:induction false} FiresLieBehind(p: Policy, row: Row, events: seq<RowEvent>)
    requires IsZone(row.schedule.zone)
    requires Repeats(row.schedule) || NeverResumed(events)
    ensures var fires, row' := FiresOf(p, row, events), RowAfter(p, row, events);
            && row'.schedule == row.schedule
            && (row'.enabled || Repeats(row.schedule) ==> forall f <- fires :: f.at < row'.nextRun)
  {
    hide StepRow, FiredBy, Repeats;
    if events != [] {
      var prefix, e := events[..|events| - 1], events[|events| - 1];
      FiresLieBehind(p, row, prefix);
      OneEventMovesForward(p, RowAfter(p, row, prefix), e);
    }
  }

  /** Every run starts after its due time and within the grace period. */
  lemma {:induction false} FiresAreInTime(p: Policy, row: Row, events: seq<RowEvent>)
    requires IsZone(row.schedule.zone)
    ensures forall f <- FiresOf(p, row, events) :: f.due <= f.at <= f.due + p.graceSecs
  {
    hide StepRow, FiredBy, Repeats;
    if events != [] {
      var prefix, e := events[..|events| - 1], events[|events| - 1];
      FiresAreInTime(p, row, prefix);
      ScheduleIsFixed(p, row, prefix);
      OneEventMovesForward(p, RowAfter(p, row, prefix), e);
    }
  }

  /** Each run was due after the one before had started. */
  ghost predicate InOrder(fires: seq<FireRecord>) {
    forall i, j :: 0 <= i < j < |fires| ==> fires[i].at < fires[j].due
  }

  lemma LaterRunKeepsOrder(fires: seq<FireRecord>, fired: seq<FireRecord>)
    requires InOrder(fires) && |fired| <= 1
    requires fired != [] ==> forall f <- fires :: f.at < fired[0].due
    ensures InOrder(fires + fired)
  {
  }

  /**
   Executor safety, for every run of ticks, pauses and resumes and whatever the clock does: for a
   schedule that repeats, or that is never resumed, due times strictly increase, and every run is
   due after the one before had started.
   */
  lemma {:induction false} DueTimesIncrease(p: Policy, row: Row, events: seq<RowEvent>)
    requires IsZone(row.schedule.zone)
    requires Repeats(row.schedule) || NeverResumed(events)
    ensures InOrder(FiresOf(p, row, events))
  {
    hide StepRow, FiredBy, Repeats, InOrder;
    if events == [] {
      EmptyIsInOrder();
    } else {
      var prefix, e := events[..|events| - 1], events[|events| - 1];
      DueTimesIncrease(p, row, prefix);
      FiresLieBehind(p, row, prefix);
      OneEventMovesForward(p, RowAfter(p, row, prefix), e);
      LaterRunKeepsOrder(FiresOf(p, row, prefix), FiredBy(p, RowAfter(p, row, prefix), e));
    }
  }

  lemma EmptyIsInOrder()
    ensures InOrder([])
  {
  }

  // ---------- No occurrence is passed over ----------

  /**
   A tick that fires or skips moves a schedule to the very next time it comes round, in a fixed zone;
   it is disabled exactly if it never comes round again, and then keeps its old due time.
   */
  lemma TickMovesToTheNextOccurrence(p: Policy, row: Row, offset: int, now: int, ok: bool)
    requires IsFixed(row.schedule.zone, offset) && Punctual(row.schedule, now)
    requires row.enabled && ActionOn(p, row, now) in {Fire, Skip}
    ensures var row', s := Ticked(p, row, now, ok), row.schedule;
            && row'.schedule == s
            && (row'.enabled <==> exists u :: u > now && Happens(s, u))
            && if row'.enabled then IsNext(s, now, row'.nextRun) else row'.nextRun == row.nextRun
  {
    hide Happens, Schedule.NextRun, IsFixed;
    NextRunIsNext(row.schedule, offset, now);
  }

  /** Whether the schedule is switched on after some events, if only switches decide that. */
  function SwitchedOn(enabled: bool, events: seq<RowEvent>): bool {
    if events == [] then enabled
    else
      match events[|events| - 1]
      case Switch(on) => on
      case TickAt(_, _) => SwitchedOn(enabled, events[..|events| - 1])
  }

  /** The latest time the schedule was ticked at while it was switched on. */
  function LatestTick(enabled: bool, events: seq<RowEvent>): Option<int> {
    if events == [] then None
    else
      var prefix, e := events[..|events| - 1], events[|events| - 1];
      var latest := LatestTick(enabled, prefix);
      if !e.TickAt? || !SwitchedOn(enabled, prefix) then latest
      else if latest.Some? then Some(Max(latest.value, e.now))
      else Some(e.now)
  }

  /** When a schedule first due at `first` is due, if the latest tick came at `latest`: first, or next after that. */
  ghost predicate DueAfter(s: Schedule, first: int, latest: Option<int>, due: int) {
    if latest.None? || latest.value < first then due == first else IsNext(s, latest.value, due)
  }

  lemma DueIsUnique(s: Schedule, first: int, latest: Option<int>, a: int, b: int)
    requires DueAfter(s, first, latest, a) && DueAfter(s, first, latest, b)
    ensures a == b
  {
    hide Happens;
  }

  /** Every tick falls where the engine's arithmetic is right. */
  ghost predicate AllPunctual(s: Schedule, events: seq<RowEvent>) {
    forall i :: 0 <= i < |events| && events[i].TickAt? ==> Punctual(s, events[i].now)
  }

  /** A repeating schedule in a fixed zone. */
  ghost predicate RepeatsAt(s: Schedule, offset: int) {
    IsFixed(s.zone, offset) && Repeats(s)
  }

  /** One event moves the due time as the latest tick says. */
  lemma OneEventKeepsDue(p: Policy, row: Row, offset: int, first: int, latest: Option<int>, e: RowEvent)
    requires RepeatsAt(row.schedule, offset) && row.failures < p.maxFailures
    requires DueAfter(row.schedule, first, latest, row.nextRun)
    requires e.TickAt? ==> Punctual(row.schedule, e.now)
    ensures var row', s := StepRow(p, row, e), row.schedule;
            var latest' := if !e.TickAt? || !row.enabled then latest
                           else if latest.Some? then Some(Max(latest.value, e.now)) else Some(e.now);
            && row'.schedule == s
            && row'.enabled == (if e.Switch? then e.enabled else row.enabled)
            && DueAfter(s, first, latest', row'.nextRun)
            && (e.TickAt? ==>
                  (FiredBy(p, row, e) == if row.enabled && row.nextRun <= e.now <= row.nextRun + p.graceSecs
                                         then [FireRecord(row.nextRun, e.now, e.ok)] else []))
            && (e.Switch? ==> FiredBy(p, row, e) == [])
  {
    hide Happens, Schedule.NextRun, IsFixed;
    if e.TickAt? {
      NextRunIsNext(row.schedule, offset, e.now);
      assert row.schedule.NextRun(e.now).Some?;
    }
  }

  lemma {:induction false} FailuresStayBelow(p: Policy, row: Row, events: seq<RowEvent>, e: RowEvent)
    requires RowAfter(p, row, events + [e]).failures < p.maxFailures
    ensures RowAfter(p, row, events).failures < p.maxFailures
  {
    OneMoreEvent(p, row, events, e);
    hide RowAfter;
  }

  /**
   Where the executor stands, for any run of ticks, pauses and resumes of a repeating schedule below
   the failure limit: it is on exactly if last switched on, and due at the very next occurrence after the
   latest tick it was on for, or at its first due time before any such tick. Clocks may run back.
   */
  lemma {:induction false} DueFollowsTheLatestTick(p: Policy, row: Row, offset: int, events: seq<RowEvent>)
    requires RepeatsAt(row.schedule, offset) && AllPunctual(row.schedule, events)
    requires RowAfter(p, row, events).failures < p.maxFailures
    ensures var row' := RowAfter(p, row, events);
            && row'.schedule == row.schedule
            && row'.enabled == SwitchedOn(row.enabled, events)
            && DueAfter(row.schedule, row.nextRun, LatestTick(row.enabled, events), row'.nextRun)
  {
    hide StepRow, FiredBy, RepeatsAt, DueAfter, Punctual;
    if events == [] {
      NotYetTicked(row);
    } else {
      var prefix, e := events[..|events| - 1], events[|events| - 1];
      assert events == prefix + [e];
      FailuresStayBelow(p, row, prefix, e);
      DueFollowsTheLatestTick(p, row, offset, prefix);
      OneEventKeepsDue(p, RowAfter(p, row, prefix), offset, row.nextRun, LatestTick(row.enabled, prefix), e);
    }
  }

  lemma NotYetTicked(row: Row)
    ensures DueAfter(row.schedule, row.nextRun, None, row.nextRun)
  {
  }

  /** Event `i` is a tick in time, while the schedule is on, for the due time that the ticks before it left. */
  ghost predicate Starts(p: Policy, row: Row, events: seq<RowEvent>, i: nat, f: FireRecord)
    requires i < |events|
  {
    && events[i] == TickAt(f.at, f.ok) && SwitchedOn(row.enabled, events[..i])
    && DueAfter(row.schedule, row.nextRun, LatestTick(row.enabled, events[..i]), f.due)
    && f.due <= f.at <= f.due + p.graceSecs
  }

  /**
   Exactly which runs are started: those for which a tick in time finds the schedule on and due. So an
   occurrence is missed only if no such tick comes, or the ticks before it left the schedule due elsewhere.
   */
  lemma {:induction false} RunsAreThoseTickedInTime(
      p: Policy, row: Row, offset: int, events: seq<RowEvent>, f: FireRecord)
    requires RepeatsAt(row.schedule, offset) && AllPunctual(row.schedule, events)
    requires RowAfter(p, row, events).failures < p.maxFailures
    ensures f in FiresOf(p, row, events) <==> exists i :: 0 <= i < |events| && Starts(p, row, events, i, f)
  {
    hide StepRow, FiredBy, RepeatsAt, Punctual, Starts;
    if events != [] {
      var n := |events| - 1;
      var prefix, e := events[..n], events[n];
      assert events == prefix + [e];
      FailuresStayBelow(p, row, prefix, e);
      RunsAreThoseTickedInTime(p, row, offset, prefix, f);
      LastStarts(p, row, offset, prefix, e, f);
      StartsInPrefix(p, row, events, n, f);
      assert f in FiresOf(p, row, events)
        <==> f in FiresOf(p, row, prefix) || f in FiredBy(p, RowAfter(p, row, prefix), e);
    }
  }

  lemma StartsInPrefix(p: Policy, row: Row, events: seq<RowEvent>, n: nat, f: FireRecord)
    requires n <= |events|
    ensures forall i :: 0 <= i < n ==> (Starts(p, row, events[..n], i, f) <==> Starts(p, row, events, i, f))
  {
    hide DueAfter;
    assert forall i :: 0 <= i < n ==> events[..n][..i] == events[..i];
  }

  lemma LastStarts(p: Policy, row: Row, offset: int, prefix: seq<RowEvent>, e: RowEvent, f: FireRecord)
    requires RepeatsAt(row.schedule, offset) && AllPunctual(row.schedule, prefix + [e])
    requires RowAfter(p, row, prefix).failures < p.maxFailures
    ensures f in FiredBy(p, RowAfter(p, row, prefix), e) <==> Starts(p, row, prefix + [e], |prefix|, f)
  {
    hide StepRow, FiredBy, RepeatsAt, Punctual, DueAfter;
    var all, m, latest := prefix + [e], RowAfter(p, row, prefix), LatestTick(row.enabled, prefix);
    assert all[..|prefix|] == prefix && all[|prefix|] == e;
    assert forall i :: 0 <= i < |prefix| ==> prefix[i] == all[i];
    DueFollowsTheLatestTick(p, row, offset, prefix);
    OneEventKeepsDue(p, m, offset, row.nextRun, latest, e);
    if DueAfter(row.schedule, row.nextRun, latest, f.due) {
      DueIsUnique(row.schedule, row.nextRun, latest, f.due, m.nextRun);
    }
  }

  /** A tick that comes too late for one hour skips the next as well, though it is inside that one's grace. */
  lemma LateTickSkipsBoth(zone: Zone)
    ensures var p, hourly := Policy(300, 5), Schedule(Hourly, 0, 0, [], 1, zone, None, 0);
            var row := Row("ws", hourly, 3600, 0, true);
            && Happens(hourly, 3600) && Happens(hourly, 7200)
            && FiresOf(p, row, [TickAt(7300, true)]) == []
            && RowAfter(p, row, [TickAt(7300, true)]).nextRun == 10800
  {
    var p, hourly := Policy(300, 5), Schedule(Hourly, 0, 0, [], 1, zone, None, 0);
    var row := Row("ws", hourly, 3600, 0, true);
    assert Multiple(1, 3600) == 3600 && Multiple(2, 3600) == 7200 && Multiple(3, 3600) == 10800;
    OneMoreEvent(p, row, [], TickAt(7300, true));
    assert [] + [TickAt(7300, true)] == [TickAt(7300, true)];
  }

  predicate NeverPaused(events: seq<RowEvent>) {
    forall i :: 0 <= i < |events| ==> events[i] != Switch(false)
  }

  predicate TicksInOrder(events: seq<RowEvent>) {
    forall i, j :: 0 <= i < j < |events| && events[i].TickAt? && events[j].TickAt? ==> events[i].now <= events[j].now
  }

  /** A tick that comes for the occurrence `v`: within its grace, and before the next occurrence. */
  ghost predicate Serves(p: Policy, s: Schedule, e: RowEvent, v: int) {
    e.TickAt? && v <= e.now <= v + p.graceSecs && forall u :: v < u <= e.now ==> !Happens(s, u)
  }

  ghost predicate Served(p: Policy, s: Schedule, events: seq<RowEvent>, v: int) {
    exists i :: 0 <= i < |events| && Serves(p, s, events[i], v)
  }

  /**
   No occurrence is missed: an enabled repeating schedule below the failure limit, ticked inside the
   grace of each occurrence before the next, starts a run due at every one of them.
   */
  lemma EveryOccurrenceFires(p: Policy, row: Row, offset: int, events: seq<RowEvent>, u: int)
    requires RepeatsAt(row.schedule, offset) && AllPunctual(row.schedule, events)
    requires RowAfter(p, row, events).failures < p.maxFailures
    requires row.enabled && NeverPaused(events) && TicksInOrder(events)
    requires Happens(row.schedule, row.nextRun) && row.nextRun <= u && Happens(row.schedule, u)
    requires forall v :: row.nextRun <= v <= u && Happens(row.schedule, v) ==> Served(p, row.schedule, events, v)
    ensures exists f <- FiresOf(p, row, events) :: f.due == u
  {
    hide Happens, RepeatsAt, AllPunctual, RowAfter, FiresOf, DueAfter, SwitchedOn, LatestTick;
    var s := row.schedule;
    var j :| 0 <= j < |events| && Serves(p, s, events[j], u);
    var i := FirstTickFrom(events, u, j);
    var f := FireRecord(u, events[i].now, events[i].ok);
    StaysOn(events[..i]);
    DueAtItsTurn(p, row, events, u, i);
    assert f.at <= events[j].now;
    RunsAreThoseTickedInTime(p, row, offset, events, f);
    assert Starts(p, row, events, i, f);
  }

  lemma {:induction false} StaysOn(events: seq<RowEvent>)
    requires NeverPaused(events)
    ensures SwitchedOn(true, events)
  {
    if events != [] {
      StaysOn(events[..|events| - 1]);
    }
  }

  lemma {:induction false} FirstTickFrom(events: seq<RowEvent>, u: int, j: nat) returns (i: nat)
    requires j < |events| && events[j].TickAt? && events[j].now >= u
    ensures i <= j && events[i].TickAt? && events[i].now >= u
    ensures forall k :: 0 <= k < i && events[k].TickAt? ==> events[k].now < u
  {
    if k :| 0 <= k < j && events[k].TickAt? && events[k].now >= u {
      i := FirstTickFrom(events, u, k);
    } else {
      i := j;
    }
  }

  /** The latest of the ticks, with none while switched off. */
  lemma {:induction false} LatestTickIsGreatest(events: seq<RowEvent>)
    requires NeverPaused(events)
    ensures var latest := LatestTick(true, events);
            && (forall k :: 0 <= k < |events| && events[k].TickAt? ==> latest.Some? && events[k].now <= latest.value)
            && (latest.Some? ==> exists k :: 0 <= k < |events| && events[k].TickAt? && events[k].now == latest.value)
  {
    if events != [] {
      var prefix := events[..|events| - 1];
      LatestTickIsGreatest(prefix);
      StaysOn(prefix);
      assert forall k :: 0 <= k < |prefix| ==> prefix[k] == events[k];
    }
  }

  /** The occurrence before `u`, not before `first`. */
  lemma {:induction false} OccurrenceBefore(s: Schedule, first: int, u: int) returns (v: int)
    requires first < u && Happens(s, first)
    ensures first <= v < u && Happens(s, v) && forall w :: v < w < u ==> !Happens(s, w)
    decreases u - first
  {
    hide Happens;
    if w :| first < w < u && Happens(s, w) {
      v := OccurrenceBefore(s, w, u);
    } else {
      v := first;
    }
  }

  /** When its first tick comes, event `i`, the ticks before have left the schedule due at `u`. */
  lemma DueAtItsTurn(p: Policy, row: Row, events: seq<RowEvent>, u: int, i: nat)
    requires i < |events| && NeverPaused(events) && TicksInOrder(events)
    requires events[i].TickAt? && events[i].now >= u
    requires forall k :: 0 <= k < i && events[k].TickAt? ==> events[k].now < u
    requires Happens(row.schedule, row.nextRun) && row.nextRun <= u && Happens(row.schedule, u)
    requires forall v :: row.nextRun <= v <= u && Happens(row.schedule, v) ==> Served(p, row.schedule, events, v)
    ensures DueAfter(row.schedule, row.nextRun, LatestTick(true, events[..i]), u)
  {
    hide Happens, LatestTick, TicksInOrder;
    var s, prefix := row.schedule, events[..i];
    LatestTickIsGreatest(prefix);
    if row.nextRun < u {
      var v := OccurrenceBefore(s, row.nextRun, u);
      var k :| 0 <= k < |events| && Serves(p, s, events[k], v);
      assert events[k].now < u;
      LaterTickComesLater(events, i, k);
      assert prefix[k] == events[k];
    }
  }

  lemma LaterTickComesLater(events: seq<RowEvent>, i: nat, k: nat)
    requires i < |events| && k < |events| && events[i].TickAt? && events[k].TickAt?
    requires TicksInOrder(events) && events[k].now < events[i].now
    ensures k < i
  {
  }

  // ---------- Once ----------

  /** A stored one-shot whose due time is its target. */
  predicate IsOnce(row: Row) {
    row.schedule.scheduleType.Once? && row.schedule.onceAt == Some(row.nextRun)
  }

  /** A pause, or a tick at or past the due time, which fires, skips or disables: either ends in disabled. */
  predicate Disarms(due: int, e: RowEvent) {
    e == Switch(false) || (e.TickAt? && e.now >= due)
  }

  /** Enabled at the start or resumed since, and not disarmed after that. */
  predicate Armed(enabled: bool, due: int, events: seq<RowEvent>) {
    || (enabled && forall i :: 0 <= i < |events| ==> !Disarms(due, events[i]))
    || (exists i :: 0 <= i < |events| && events[i] == Switch(true)
                    && forall j :: i < j < |events| ==> !Disarms(due, events[j]))
  }

  /** Event `i` is a tick inside the grace period that finds the one-shot armed. */
  predicate Hits(p: Policy, enabled: bool, due: int, events: seq<RowEvent>, i: nat)
    requires i < |events|
  {
    events[i].TickAt? && due <= events[i].now <= due + p.graceSecs && Armed(enabled, due, events[..i])
  }

  /** No tick finds the one-shot armed inside its grace period. */
  predicate NeverHit(p: Policy, enabled: bool, due: int, events: seq<RowEvent>) {
    forall i :: 0 <= i < |events| ==> !Hits(p, enabled, due, events, i)
  }

  lemma HitsInPrefix(p: Policy, enabled: bool, due: int, events: seq<RowEvent>, n: nat)
    requires n <= |events|
    ensures forall i :: 0 <= i < n ==> (Hits(p, enabled, due, events[..n], i) <==> Hits(p, enabled, due, events, i))
  {
    hide Armed;
    assert forall i :: 0 <= i < n ==> events[..n][..i] == events[..i];
  }

  lemma ArmedNext(enabled: bool, due: int, events: seq<RowEvent>, e: RowEvent)
    ensures Armed(enabled, due, events + [e])
       <==> e == Switch(true) || (Armed(enabled, due, events) && !Disarms(due, e))
  {
    var all := events + [e];
    var n := |events|;
    assert all[n] == e && forall i :: 0 <= i < n ==> all[i] == events[i];
    if e == Switch(true) {
      assert all[n] == Switch(true);
    } else if Armed(enabled, due, events) && !Disarms(due, e) {
      if i :| 0 <= i < n && events[i] == Switch(true) && forall j :: i < j < n ==> !Disarms(due, events[j]) {
        assert all[i] == Switch(true);
      }
    }
  }

  /** One event at a one-shot that has not reached the failure limit. */
  lemma OneEventAtOnce(p: Policy, row: Row, e: RowEvent)
    requires IsOnce(row) && row.failures < p.maxFailures
    ensures var row', fired := StepRow(p, row, e), FiredBy(p, row, e);
            && row'.enabled == (e == Switch(true) || (row.enabled && !Disarms(row.nextRun, e)))
            && row' == row.(enabled := row'.enabled, failures := row'.failures)
            && (fired == [] ==> row'.failures == row.failures)
            && (fired != [] ==>
                  && fired == [FireRecord(row.nextRun, e.now, e.ok)]
                  && row'.failures == if e.ok then 0 else row.failures + 1)
            && (fired != [] <==> row.enabled && e.TickAt? && row.nextRun <= e.now <= row.nextRun + p.graceSecs)
  {
  }

  /** Until it fires, a one-shot only changes between enabled and disabled. */
  lemma {:induction false} UntilItFires(p: Policy, row: Row, events: seq<RowEvent>)
    requires IsOnce(row) && row.failures < p.maxFailures && FiresOf(p, row, events) == []
    ensures RowAfter(p, row, events) == row.(enabled := Armed(row.enabled, row.nextRun, events))
  {
    hide StepRow, FiredBy, Armed, Disarms;
    if events == [] {
      ArmedAtFirst(row.enabled, row.nextRun);
    } else {
      var prefix, e := events[..|events| - 1], events[|events| - 1];
      assert events == prefix + [e];
      UntilItFires(p, row, prefix);
      ArmedNext(row.enabled, row.nextRun, prefix, e);
      OneEventAtOnce(p, RowAfter(p, row, prefix), e);
    }
  }

  lemma ArmedAtFirst(enabled: bool, due: int)
    ensures Armed(enabled, due, []) <==> enabled
  {
  }

  /**
   A one-shot below the failure limit fires exactly when some tick inside its grace period finds it
   armed. For one that has fired, and so is disabled, that takes a resume, with neither a pause nor
   another tick past the due time between it and that tick.
   */
  lemma {:induction false} OnceFiresWhenHit(p: Policy, row: Row, events: seq<RowEvent>)
    requires IsOnce(row) && row.failures < p.maxFailures
    ensures FiresOf(p, row, events) == [] <==> NeverHit(p, row.enabled, row.nextRun, events)
  {
    hide StepRow, FiredBy, Armed, Disarms;
    if events != [] {
      var n := |events| - 1;
      var prefix, e := events[..n], events[n];
      OnceFiresWhenHit(p, row, prefix);
      HitsInPrefix(p, row.enabled, row.nextRun, events, n);
      if FiresOf(p, row, prefix) == [] {
        UntilItFires(p, row, prefix);
        OneEventAtOnce(p, RowAfter(p, row, prefix), e);
        assert FiresOf(p, row, events) == FiredBy(p, RowAfter(p, row, prefix), e);
        assert Hits(p, row.enabled, row.nextRun, events, n) <==> FiredBy(p, RowAfter(p, row, prefix), e) != [];
      }
    }
  }

  /** The first hit fires, and leaves the one-shot disabled with its old due time. */
  lemma FirstHitFires(p: Policy, row: Row, events: seq<RowEvent>, i: nat)
    requires IsOnce(row) && row.failures < p.maxFailures && i < |events|
    requires Hits(p, row.enabled, row.nextRun, events, i)
    requires NeverHit(p, row.enabled, row.nextRun, events[..i])
    ensures FiresOf(p, row, events[..i + 1]) == [FireRecord(row.nextRun, events[i].now, events[i].ok)]
    ensures RowAfter(p, row, events[..i + 1])
         == row.(enabled := false, failures := if events[i].ok then 0 else row.failures + 1)
  {
    hide StepRow, FiredBy, Armed;
    var prefix := events[..i];
    OnceFiresWhenHit(p, row, prefix);
    UntilItFires(p, row, prefix);
    OneEventAtOnce(p, RowAfter(p, row, prefix), events[i]);
    OneMoreEvent(p, row, prefix, events[i]);
    assert prefix + [events[i]] == events[..i + 1];
  }

  lemma {:induction false} RunSplits(p: Policy, row: Row, a: seq<RowEvent>, b: seq<RowEvent>)
    ensures RowAfter(p, row, a + b) == RowAfter(p, RowAfter(p, row, a), b)
    ensures FiresOf(p, row, a + b) == FiresOf(p, row, a) + FiresOf(p, RowAfter(p, row, a), b)
  {
    hide StepRow, FiredBy;
    if b == [] {
      assert a + b == a;
    } else {
      var n := |b| - 1;
      RunSplits(p, row, a, b[..n]);
      assert (a + b)[..|a + b| - 1] == a + b[..n];
    }
  }

  /** Event `i` is the first hit, its run leaves the failure limit unreached, and a resume leads to another. */
  ghost predicate HitAgain(p: Policy, row: Row, events: seq<RowEvent>, i: nat)
    requires i < |events|
  {
    && row.failures < p.maxFailures
    && NeverHit(p, row.enabled, row.nextRun, events[..i]) && Hits(p, row.enabled, row.nextRun, events, i)
    && (events[i].ok || row.failures + 1 < p.maxFailures)
    && !NeverHit(p, false, row.nextRun, events[i + 1..])
  }

  /**
   A one-shot fires at most once exactly when it is not armed and hit again after its first run. That
   takes a resume, so one that is never resumed fires at most once; not every resume does it.
   */
  lemma OnceFiresAtMostOnce(p: Policy, row: Row, events: seq<RowEvent>)
    requires IsOnce(row)
    ensures |FiresOf(p, row, events)| <= 1 <==> forall i :: 0 <= i < |events| ==> !HitAgain(p, row, events, i)
    ensures NeverResumed(events) ==> |FiresOf(p, row, events)| <= 1
    ensures NeverResumed(events) && RowAfter(p, row, events).enabled ==> FiresOf(p, row, events) == []
    ensures RowAfter(p, row, events).nextRun == row.nextRun
  {
    hide FiresOf, Hits, RowAfter, Armed;
    OnceKeepsItsDueTime(p, row, events);
    if row.failures >= p.maxFailures {
      FailedOutNeverFiresAgain(p, row, events);
    } else {
      OnceFiresWhenHit(p, row, events);
      if i :| 0 <= i < |events| && Hits(p, row.enabled, row.nextRun, events, i) {
        var k := FirstHit(p, row.enabled, row.nextRun, events, i);
        FirstHitIsUnique(p, row.enabled, row.nextRun, events, k);
        AfterTheFirstHit(p, row, events, k);
      }
    }
  }

  /** A one-shot keeps its due time through everything, and one still enabled without a resume has not fired. */
  lemma {:induction false} OnceKeepsItsDueTime(p: Policy, row: Row, events: seq<RowEvent>)
    requires IsOnce(row)
    ensures RowAfter(p, row, events).nextRun == row.nextRun && IsOnce(RowAfter(p, row, events))
    ensures NeverResumed(events) && RowAfter(p, row, events).enabled ==> row.enabled && FiresOf(p, row, events) == []
  {
    if events != [] {
      OnceKeepsItsDueTime(p, row, events[..|events| - 1]);
    }
  }

  lemma AfterTheFirstHit(p: Policy, row: Row, events: seq<RowEvent>, k: nat)
    requires IsOnce(row) && row.failures < p.maxFailures && k < |events|
    requires NeverHit(p, row.enabled, row.nextRun, events[..k]) && Hits(p, row.enabled, row.nextRun, events, k)
    ensures |FiresOf(p, row, events)| <= 1 <==> !HitAgain(p, row, events, k)
    ensures NeverResumed(events) ==> |FiresOf(p, row, events)| <= 1
  {
    hide FiresOf, Hits, RowAfter, Armed, NeverHit, NeverResumed;
    FirstHitFires(p, row, events, k);
    var after, rest := RowAfter(p, row, events[..k + 1]), events[k + 1..];
    assert events == events[..k + 1] + rest;
    RunSplits(p, row, events[..k + 1], rest);
    if after.failures < p.maxFailures {
      OnceFiresWhenHit(p, after, rest);
    } else {
      FailedOutNeverFiresAgain(p, after, rest);
    }
    NoHitWithoutResume(p, row.nextRun, events, k + 1);
  }

  lemma {:induction false} FirstHit(p: Policy, enabled: bool, due: int, events: seq<RowEvent>, i: nat) returns (k: nat)
    requires i < |events| && Hits(p, enabled, due, events, i)
    ensures k <= i && Hits(p, enabled, due, events, k) && NeverHit(p, enabled, due, events[..k])
  {
    hide Hits;
    HitsInPrefix(p, enabled, due, events, i);
    if h :| 0 <= h < i && Hits(p, enabled, due, events, h) {
      k := FirstHit(p, enabled, due, events, h);
    } else {
      k := i;
    }
  }

  lemma FirstHitIsUnique(p: Policy, enabled: bool, due: int, events: seq<RowEvent>, k: nat)
    requires k < |events| && Hits(p, enabled, due, events, k) && NeverHit(p, enabled, due, events[..k])
    ensures forall i :: 0 <= i < |events| && i != k ==>
              !Hits(p, enabled, due, events, i) || !NeverHit(p, enabled, due, events[..i])
  {
    hide Hits;
    HitsInPrefix(p, enabled, due, events, k);
    forall i | 0 <= i < |events| && i != k
      ensures !Hits(p, enabled, due, events, i) || !NeverHit(p, enabled, due, events[..i])
    {
      HitsInPrefix(p, enabled, due, events, i);
    }
  }

  lemma NoHitWithoutResume(p: Policy, due: int, events: seq<RowEvent>, k: nat)
    requires k <= |events|
    ensures NeverResumed(events) ==> NeverHit(p, false, due, events[k..])
  {
  }

  /** Resuming a one-shot within its grace period fires it again: its old due time was kept. */
  lemma ResumedOnceFiresAgain(zone: Zone)
    ensures var p := Policy(300, 5);
            var once := Schedule(Once, 0, 0, [], 1, zone, Some(3600), 0);
            var row := Row("ws", once, 3600, 0, true);
            FiresOf(p, row, [TickAt(3600, true), Switch(true), TickAt(3700, true)])
              == [FireRecord(3600, 3600, true), FireRecord(3600, 3700, true)]
  {
    var p := Policy(300, 5);
    var row := Row("ws", Schedule(Once, 0, 0, [], 1, zone, Some(3600), 0), 3600, 0, true);
    var a, b, c := TickAt(3600, true), Switch(true), TickAt(3700, true);
    OneMoreEvent(p, row, [], a);
    OneMoreEvent(p, row, [a], b);
    OneMoreEvent(p, row, [a, b], c);
    assert [] + [a] == [a] && [a] + [b] == [a, b] && [a, b] + [c] == [a, b, c];
    assert RowAfter(p, row, [a]) == row.(enabled := false);
    assert RowAfter(p, row, [a, b]) == row;
  }

  lemma OneMoreEvent(p: Policy, row: Row, events: seq<RowEvent>, e: RowEvent)
    ensures RowAfter(p, row, events + [e]) == StepRow(p, RowAfter(p, row, events), e)
    ensures FiresOf(p, row, events + [e]) == FiresOf(p, row, events) + FiredBy(p, RowAfter(p, row, events), e)
  {
    assert (events + [e])[..|events|] == events;
  }

  // ---------- Intervals ----------

  /** Rescheduling past a due multiple lands on a later multiple, at least one interval on. */
  lemma NextMultiple(due: int, now: int, interval: int, k: int) returns (k': int)
    requires interval > 0 && due == Multiple(k, interval) && now >= due
    ensures NextInterval(now, interval) == Multiple(k', interval) >= due + interval
  {
    k' := TruncDiv(now, interval) + 1;
    NextIntervalIsExact(now, interval);
    MultiplesAscend(k', k, interval);
    MultiplesAscend(k, k', interval);
  }

  ghost predicate IsMultiple(t: int, interval: int) {
    exists k :: t == Multiple(k, interval)
  }

  lemma OneEventKeepsMultiples(p: Policy, row: Row, e: RowEvent)
    requires row.schedule.Interval().Some? && IsMultiple(row.nextRun, row.schedule.Interval().value)
    ensures var n, row', fired := row.schedule.Interval().value, StepRow(p, row, e), FiredBy(p, row, e);
            && row'.schedule == row.schedule && IsMultiple(row'.nextRun, n)
            && row.nextRun <= row'.nextRun
            && |fired| <= 1
            && (fired != [] ==> fired[0].due == row.nextRun && row.nextRun + n <= row'.nextRun)
  {
    var n := row.schedule.Interval().value;
    if e.TickAt? && e.now >= row.nextRun {
      var k :| row.nextRun == Multiple(k, n);
      var k' := NextMultiple(row.nextRun, e.now, n, k);
      assert row.schedule.NextRun(e.now) == Some(NextInterval(e.now, n));
      assert IsMultiple(NextInterval(e.now, n), n);
    }
    hide Schedule.NextRun, NextInterval, Multiple;
  }

  /**
   An interval schedule first due on a multiple of its interval fires only for multiples, and any
   two of its due times are at least one interval apart: at most one run per multiple.
   */
  lemma {:induction false} IntervalFiresOncePerMultiple(p: Policy, row: Row, events: seq<RowEvent>)
    requires row.schedule.Interval().Some? && IsMultiple(row.nextRun, row.schedule.Interval().value)
    ensures var n, fires, row' := row.schedule.Interval().value, FiresOf(p, row, events), RowAfter(p, row, events);
            && row'.schedule == row.schedule && IsMultiple(row'.nextRun, n)
            && (forall f <- fires :: IsMultiple(f.due, n) && f.due + n <= row'.nextRun)
            && (forall i, j :: 0 <= i < j < |fires| ==> fires[i].due + n <= fires[j].due)
  {
    hide StepRow, FiredBy, IsMultiple;
    if events != [] {
      var prefix, e := events[..|events| - 1], events[|events| - 1];
      IntervalFiresOncePerMultiple(p, row, prefix);
      OneEventKeepsMultiples(p, RowAfter(p, row, prefix), e);
      assert forall i :: 0 <= i < |FiresOf(p, row, prefix)| ==> FiresOf(p, row, prefix)[i] in FiresOf(p, row, prefix);
    }
  }

  // ---------- Failures ----------

  /** `k` is just past the last successful run, or 0 when there has been none. */
  ghost predicate LastSuccess(fires: seq<FireRecord>, k: nat) {
    && k <= |fires|
    && (k == 0 || fires[k - 1].ok)
    && forall i :: k <= i < |fires| ==> !fires[i].ok
  }

  /**
   The stored failure count is the number of failed runs since the last successful one, on top of
   the initial count while none has succeeded; skipped runs, pauses and resumes leave it alone,
   and it never passes the limit it started within.
   */
  lemma {:induction false} FailuresAreTheFailedRuns(p: Policy, row: Row, events: seq<RowEvent>) returns (k: nat)
    ensures var fires := FiresOf(p, row, events);
            && LastSuccess(fires, k)
            && RowAfter(p, row, events).failures == |fires| - k + if k == 0 then row.failures else 0
    ensures row.failures <= p.maxFailures ==> RowAfter(p, row, events).failures <= p.maxFailures
  {
    hide StepRow, FiredBy;
    if events == [] {
      return 0;
    }
    var prefix, e := events[..|events| - 1], events[|events| - 1];
    k := FailuresAreTheFailedRuns(p, row, prefix);
    var m := RowAfter(p, row, prefix);
    OneEventAtTheCount(p, m, e);
    if FiredBy(p, m, e) != [] && e.ok {
      k := |FiresOf(p, row, events)|;
    }
  }

  lemma OneEventAtTheCount(p: Policy, row: Row, e: RowEvent)
    ensures var fired := FiredBy(p, row, e);
            && StepRow(p, row, e).failures
                 == (if fired == [] then row.failures else if e.ok then 0 else row.failures + 1)
            && |fired| <= 1
            && (fired != [] ==> e.TickAt? && fired[0].ok == e.ok && row.failures < p.maxFailures)
  {
    hide Schedule.NextRun;
  }

  /**
   Once the failure limit is reached the schedule never fires again, under any sequence of ticks,
   pauses and resumes, and every tick leaves it disabled.
   */
  lemma {:induction false} FailedOutNeverFiresAgain(p: Policy, row: Row, events: seq<RowEvent>)
    requires row.failures >= p.maxFailures
    ensures FiresOf(p, row, events) == []
    ensures RowAfter(p, row, events).failures == row.failures
    ensures events != [] && events[|events| - 1].TickAt? ==> !RowAfter(p, row, events).enabled
  {
    if events != [] {
      FailedOutNeverFiresAgain(p, row, events[..|events| - 1]);
    }
  }

  // ---------- The whole table ----------

  datatype TableEvent =
    | TickAll(now: int, runner: (string, Row, int) -> bool)
    | SwitchOne(id: string, enabled: bool)

  function StepTable(p: Policy, rows: Table, e: TableEvent): Table {
    match e
    case TickAll(now, runner) => TickedTable(p, rows, now, runner)
    case SwitchOne(id, enabled) => if id in rows then rows[id := rows[id].(enabled := enabled)] else rows
  }

  function TableAfter(p: Policy, rows: Table, events: seq<TableEvent>): Table {
    if events == [] then rows
    else StepTable(p, TableAfter(p, rows, events[..|events| - 1]), events[|events| - 1])
  }

  /** The runs of one schedule over a run of the whole table, oldest first. */
  function TableFires(p: Policy, rows: Table, events: seq<TableEvent>, id: string): seq<FireRecord> {
    if events == [] then []
    else
      var prefix, e := events[..|events| - 1], events[|events| - 1];
      var m := TableAfter(p, rows, prefix);
      TableFires(p, rows, prefix, id) + if id in m then FiredIn(p, m[id], e, id) else []
  }

  /** The run a table event starts of one schedule, if any. */
  function FiredIn(p: Policy, row: Row, e: TableEvent, id: string): seq<FireRecord> {
    if e.TickAll? && Fires(p, row, e.now) then [FireRecord(row.nextRun, e.now, e.runner(id, row, e.now))] else []
  }

  /** What a table event means to one row. */
  function SeenBy(id: string, row: Row, e: TableEvent): seq<RowEvent> {
    match e
    case TickAll(now, runner) => [TickAt(now, runner(id, row, now))]
    case SwitchOne(other, enabled) => if other == id then [Switch(enabled)] else []
  }

  /** What a run of the table means to one row, read off its events. */
  function OwnEvents(p: Policy, rows: Table, events: seq<TableEvent>, id: string): seq<RowEvent> {
    if events == [] then []
    else
      var prefix, e := events[..|events| - 1], events[|events| - 1];
      var m := TableAfter(p, rows, prefix);
      OwnEvents(p, rows, prefix, id) + if id in m then SeenBy(id, m[id], e) else []
  }

  /**
   Schedules do not interfere: in any run of the table each row follows the run its own events make,
   with the same runs started, so what holds of one schedule's runs holds of it among the others.
   */
  lemma {:induction false} RowsRunIndependently(p: Policy, rows: Table, events: seq<TableEvent>, id: string)
    requires id in rows
    ensures id in TableAfter(p, rows, events)
    ensures var own := OwnEvents(p, rows, events, id);
            && TableAfter(p, rows, events)[id] == RowAfter(p, rows[id], own)
            && TableFires(p, rows, events, id) == FiresOf(p, rows[id], own)
            && |own| <= |events|
            && ((forall i :: 0 <= i < |events| ==> events[i] != SwitchOne(id, true)) ==> NeverResumed(own))
  {
    hide StepTable, SeenBy, FiredIn, RowAfter, FiresOf, NeverResumed, StepRow, FiredBy;
    if events == [] {
      NothingHappens(p, rows[id]);
    } else {
      var prefix, e := events[..|events| - 1], events[|events| - 1];
      RowsRunIndependently(p, rows, prefix, id);
      var m, own := TableAfter(p, rows, prefix), OwnEvents(p, rows, prefix, id);
      var seen := SeenBy(id, m[id], e);
      OneTableEvent(p, m, e, id);
      if seen == [] {
        assert OwnEvents(p, rows, events, id) == own;
      } else {
        assert seen == [seen[0]];
        OneMoreEvent(p, rows[id], own, seen[0]);
        StillNeverResumed(own, seen[0]);
      }
    }
  }

  lemma NothingHappens(p: Policy, row: Row)
    ensures RowAfter(p, row, []) == row && FiresOf(p, row, []) == [] && NeverResumed([])
  {
  }

  lemma StillNeverResumed(own: seq<RowEvent>, e: RowEvent)
    ensures NeverResumed(own) && e != Switch(true) ==> NeverResumed(own + [e])
  {
  }

  lemma OneTableEvent(p: Policy, m: Table, e: TableEvent, id: string)
    requires id in m
    ensures id in StepTable(p, m, e)
    ensures var seen := SeenBy(id, m[id], e);
            if seen == [] then StepTable(p, m, e)[id] == m[id] && FiredIn(p, m[id], e, id) == []
            else
              && |seen| == 1 && StepTable(p, m, e)[id] == StepRow(p, m[id], seen[0])
              && FiredIn(p, m[id], e, id) == FiredBy(p, m[id], seen[0])
              && (seen[0] == Switch(true) ==> e == SwitchOne(id, true))
  {
    hide Ticked;
  }
}
