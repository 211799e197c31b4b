/**
 The resilient call path: acquire a slot from the shared limiter, call the model, record the
 outcome, and retry by policy. The clock, the sleeper, the model and the limiter's other callers
 are all arbitrary; `Surroundings` stands for them and keeps the log of calls made.
 */
module Engine {
  import opened CircuitBreakers
  import opened Numbers
  import opened RateLimiter
  import opened RetryPolicies
  import opened TokenBuckets
  import opened Wrappers

  datatype FinishReason = Stop | Length | ContentFilter | Other

  datatype LlmRequest = LlmRequest(
    provider: LlmProvider, priority: RequestPriority, model: string, prompt: string)

  datatype LlmResponse = LlmResponse(model: string, text: string, finishReason: FinishReason)

  datatype LlmError = LlmError(failure: FailureClass, retryAfterSecs: Option<int>, detail: string)
  {
    /** Overload or unavailability, which may pass. */
    predicate IsTransient() {
      failure.RateLimited? || failure.ServiceUnavailable?
    }
  }

  type Outcome = Result<LlmResponse, LlmError>

  /**
   One call to the model: whom it went to, when it started and ended, what came back, and the breaker
   just before and just after the outcome was recorded at `handledMs`.
   */
  datatype CallRecord = CallRecord(
    provider: LlmProvider, startedMs: int, endedMs: int, outcome: Outcome, handledMs: int,
    before: Breaker, after: Breaker)
  {
    /** The server's `Retry-After` in seconds, if the call failed with one. */
    function Hint(): Option<int> {
      if outcome.Err? then outcome.error.retryAfterSecs else None
    }

    /** The call failed in a way that is worth trying again. */
    predicate FailedRetryably() {
      outcome.Err? && outcome.error.IsTransient()
    }

    predicate WasRateLimited() {
      outcome.Err? && outcome.error.failure.RateLimited?
    }

    /** The outcome reached the breaker as it should: successes and 429s are told to it, nothing else is. */
    predicate Recorded() {
      && startedMs <= endedMs <= handledMs
      && after == (if outcome.Ok? then before.Succeeded()
                   else if WasRateLimited() then before.Limited(handledMs, InMs(Hint()))
                   else before)
    }
  }

  function InMs(secs: Option<int>): Option<int> {
    if secs.Some? then Some(secs.value * 1000) else None
  }

  /** One turn at the shared limiter: the state it met, what was done, and whether an engine did it. */
  datatype TurnTaken = TurnTaken(before: Limiter, event: LimiterEvent, own: bool)
  {
    predicate Grants(p: LlmProvider) {
      IsGrant(before, event, p)
    }

    /** The wait that a refused attempt was told. */
    function ToldMs(): int {
      if event.Acquire? && before.BucketFor(event.provider, event.now).refillPerMs > 0.0 then
        match before.Decision(event.provider, event.priority, event.now)
        case Granted => 0
        case RetryAfterMs(ms) => ms
        case CircuitOpenMs(ms) => ms
      else
        0
    }
  }

  /** Everything outside the engine. Each oracle is an arbitrary function of how often it was used. */
  class Surroundings {
    /** What the model answers to its n-th call. */
    const client: (nat, LlmRequest) -> Outcome
    /** How long passes unasked before the n-th clock reading. */
    const drift: nat -> nat
    /** What other callers do to the shared limiter before the engine's n-th turn at it. */
    const others: nat -> seq<LimiterEvent>

    var nowMs: int
    var readings: nat
    var turns: nat
    var calls: seq<CallRecord>
    ghost var sleptMs: nat
    ghost var driftedMs: nat
    /** All turns taken at the limiter, the other callers' included. */
    ghost var history: seq<TurnTaken>

    constructor (client: (nat, LlmRequest) -> Outcome, drift: nat -> nat, others: nat -> seq<LimiterEvent>, nowMs: int)
      ensures this.client == client && this.drift == drift && this.others == others
      ensures this.nowMs == nowMs && calls == [] && history == []
    {
      this.client, this.drift, this.others, this.nowMs := client, drift, others, nowMs;
      readings, turns, calls, sleptMs, driftedMs, history := 0, 0, [], 0, 0, [];
    }

    /** No one else uses the limiter. */
    ghost predicate Alone() {
      forall n :: others(n) == []
    }

    /** Time passes only by sleeping and by drift, and drift never runs backwards. */
    twostate predicate Elapses()
      reads this
    {
      && nowMs == old(nowMs) + (sleptMs - old(sleptMs)) + (driftedMs - old(driftedMs))
      && sleptMs >= old(sleptMs) && driftedMs >= old(driftedMs)
    }

    method Now() returns (ms: int)
      modifies this
      ensures Elapses() && sleptMs == old(sleptMs) && calls == old(calls) && turns == old(turns)
      ensures ms == nowMs && history == old(history)
    {
      var d := drift(readings);
      readings, nowMs := readings + 1, nowMs + d;
      driftedMs := driftedMs + d;
      ms := nowMs;
    }

    method Sleep(ms: int)
      modifies this
      ensures Elapses() && sleptMs == old(sleptMs) + Max(ms, 0) && driftedMs == old(driftedMs)
      ensures calls == old(calls) && turns == old(turns) && history == old(history)
    {
      nowMs := nowMs + Max(ms, 0);
      sleptMs := sleptMs + Max(ms, 0);
    }

    method OthersTurn() returns (events: seq<LimiterEvent>)
      modifies this
      ensures Elapses() && nowMs == old(nowMs) && sleptMs == old(sleptMs) && calls == old(calls)
      ensures Alone() ==> events == []
      ensures history == old(history)
    {
      events := others(turns);
      turns := turns + 1;
    }

    /** One call; the log entry is completed when its outcome has been recorded. */
    method Call(request: LlmRequest) returns (startedMs: int, endedMs: int, outcome: Outcome)
      modifies this
      ensures Elapses() && sleptMs == old(sleptMs) && calls == old(calls) && history == old(history)
      ensures outcome == client(|calls|, request)
      ensures old(nowMs) <= startedMs <= endedMs == nowMs
    {
      startedMs := Now();
      endedMs := Now();
      outcome := client(|calls|, request);
    }

    method Log(record: CallRecord)
      modifies this
      ensures calls == old(calls) + [record] && history == old(history)
      ensures Elapses() && nowMs == old(nowMs) && sleptMs == old(sleptMs)
    {
      calls := calls + [record];
    }
  }

  // ---------- Turns at the limiter ----------

  /** The turns lead from `l` to `l'`: each met the state the one before left. */
  ghost predicate Unbroken(l: Limiter, turns: seq<TurnTaken>, l': Limiter) {
    if turns == [] then l' == l
    else
      var last := turns[|turns| - 1];
      Unbroken(l, turns[..|turns| - 1], last.before) && l' == Turn(last.before, last.event)
  }

  lemma {:induction false} UnbrokenJoins(l: Limiter, a: seq<TurnTaken>, m: Limiter, b: seq<TurnTaken>, n: Limiter)
    requires Unbroken(l, a, m) && Unbroken(m, b, n)
    ensures Unbroken(l, a + b, n)
  {
    hide Turn;
    if b == [] {
      assert a + b == a;
    } else {
      UnbrokenJoins(l, a, m, b[..|b| - 1], b[|b| - 1].before);
      assert (a + b)[..|a + b| - 1] == a + b[..|b| - 1];
    }
  }

  /** The turns of other callers, starting from `l`. */
  ghost function OthersTurns(l: Limiter, events: seq<LimiterEvent>): seq<TurnTaken> {
    if events == [] then []
    else
      var prefix := events[..|events| - 1];
      OthersTurns(l, prefix) + [TurnTaken(Run(l, prefix), events[|events| - 1], false)]
  }

  lemma {:induction false} OthersRun(l: Limiter, events: seq<LimiterEvent>)
    ensures Unbroken(l, OthersTurns(l, events), Run(l, events))
    ensures forall i :: 0 <= i < |OthersTurns(l, events)| ==> !OthersTurns(l, events)[i].own
  {
    hide Turn;
    if events != [] {
      var prefix := events[..|events| - 1];
      OthersRun(l, prefix);
      var turns := OthersTurns(l, events);
      assert turns[..|turns| - 1] == OthersTurns(l, prefix);
    }
  }

  /** How many tokens of `p` the engines were granted. */
  ghost function OwnGrants(turns: seq<TurnTaken>, p: LlmProvider): nat {
    if turns == [] then 0
    else
      var last := turns[|turns| - 1];
      OwnGrants(turns[..|turns| - 1], p) + if last.own && last.Grants(p) then 1 else 0
  }

  lemma {:induction false} OwnGrantsAdd(a: seq<TurnTaken>, b: seq<TurnTaken>, p: LlmProvider)
    ensures OwnGrants(a + b, p) == OwnGrants(a, p) + OwnGrants(b, p)
  {
    if b == [] {
      assert a + b == a;
    } else {
      OwnGrantsAdd(a, b[..|b| - 1], p);
      assert (a + b)[..|a + b| - 1] == a + b[..|b| - 1];
    }
  }

  lemma {:induction false} NothingGranted(turns: seq<TurnTaken>, p: LlmProvider)
    requires forall i :: 0 <= i < |turns| ==> !turns[i].own || !turns[i].Grants(p)
    ensures OwnGrants(turns, p) == 0
  {
    hide IsGrant;
    if turns != [] {
      NothingGranted(turns[..|turns| - 1], p);
    }
  }

  ghost function EventsOf(turns: seq<TurnTaken>): seq<LimiterEvent> {
    seq(|turns|, i requires 0 <= i < |turns| => turns[i].event)
  }

  /** Such turns are a run of the limiter, and all it grants is granted to engines or to others. */
  lemma {:induction false} UnbrokenIsARun(l: Limiter, turns: seq<TurnTaken>, l': Limiter, p: LlmProvider)
    requires Unbroken(l, turns, l')
    ensures l' == Run(l, EventsOf(turns))
    ensures OwnGrants(turns, p) <= GrantCount(l, EventsOf(turns), p)
    ensures (forall i :: 0 <= i < |turns| ==> turns[i].own) ==>
              OwnGrants(turns, p) == GrantCount(l, EventsOf(turns), p)
  {
    hide Turn, IsGrant;
    if turns != [] {
      var prefix, last := turns[..|turns| - 1], turns[|turns| - 1];
      UnbrokenIsARun(l, prefix, last.before, p);
      assert EventsOf(turns)[..|turns| - 1] == EventsOf(prefix);
    }
  }

  /** An engine's attempt at the limiter. */
  function AttemptAt(l: Limiter, p: LlmProvider, priority: RequestPriority, now: int): TurnTaken {
    TurnTaken(l, Acquire(p, priority, now), true)
  }

  /** A wait in whole seconds, at least one, as a timeout passes it on. */
  function HintSecs(ms: int): (secs: int)
    ensures secs >= 1 && (ms >= 1000 ==> 1000 * secs <= ms < 1000 * secs + 1000)
  {
    Max(ms / 1000, 1)
  }

  function TimeoutError(ms: int): LlmError {
    LlmError(ServiceUnavailable, Some(HintSecs(ms)), "rate-limit acquire timed out")
  }

  /** Turns that end with an attempt at `now`, the first of an engine's among them. */
  ghost predicate EndInAttempt(turns: seq<TurnTaken>, p: LlmProvider, priority: RequestPriority, now: int) {
    && turns != []
    && turns[|turns| - 1] == AttemptAt(turns[|turns| - 1].before, p, priority, now)
    && forall i :: 0 <= i < |turns| - 1 ==> !turns[i].own
  }

  /**
   A wait for a slot from `fromMs` on: the engine's turns are all attempts, and after each the next
   came no sooner than the wait it was told, or the deadline if that was earlier.
   */
  ghost predicate Patient(
      turns: seq<TurnTaken>, p: LlmProvider, priority: RequestPriority, fromMs: int, untilMs: int, deadline: int)
  {
    && (forall i :: 0 <= i < |turns| && turns[i].own ==>
          turns[i].event.Acquire? && turns[i].event == Acquire(p, priority, turns[i].event.now)
          && fromMs <= turns[i].event.now <= untilMs)
    && (forall i, j :: 0 <= i < j < |turns| && turns[i].own && turns[j].own ==>
          && !turns[i].Grants(p)
          && turns[j].event.now >= Min(turns[i].event.now + turns[i].ToldMs(), deadline))
  }

  /** A wait that ends with its first grant. */
  ghost predicate EndsInGrant(turns: seq<TurnTaken>, p: LlmProvider) {
    turns != [] && turns[|turns| - 1].own && turns[|turns| - 1].Grants(p)
  }

  /** A wait in which every attempt was refused, the last one included. */
  ghost predicate AllRefused(turns: seq<TurnTaken>, p: LlmProvider) {
    && turns != [] && turns[|turns| - 1].own
    && forall i :: 0 <= i < |turns| && turns[i].own ==> !turns[i].Grants(p)
  }

  /** What the attempts together were told to wait. */
  ghost function ToldInAll(turns: seq<TurnTaken>): int {
    if turns == [] then 0
    else ToldInAll(turns[..|turns| - 1]) + if turns[|turns| - 1].own then turns[|turns| - 1].ToldMs() else 0
  }

  lemma OneMoreTurn(l: Limiter, others: seq<TurnTaken>, m: Limiter, attempt: TurnTaken)
    requires Unbroken(l, others, m) && attempt.before == m
    ensures Unbroken(l, others + [attempt], Turn(m, attempt.event))
  {
    hide Turn;
    assert (others + [attempt])[..|others|] == others;
  }

  /** One more attempt, which the wait so far has led up to. */
  lemma OneMoreAttempt(
      turns: seq<TurnTaken>, more: seq<TurnTaken>, p: LlmProvider, priority: RequestPriority,
      fromMs: int, t: int, now: int, deadline: int)
    requires Patient(turns, p, priority, fromMs, t, deadline) && Overdue(turns, p, t, deadline)
    requires EndInAttempt(more, p, priority, now) && fromMs <= t <= now
    ensures Patient(turns + more, p, priority, fromMs, now, deadline)
    ensures EndsInGrant(turns + more, p) <==> more[|more| - 1].Grants(p)
    ensures AllRefused(turns + more, p) <==> !more[|more| - 1].Grants(p)
  {
    hide TurnTaken.ToldMs, TurnTaken.Grants;
    var all, n := turns + more, |turns + more| - 1;
    assert all[n] == more[|more| - 1];
    assert forall i :: |turns| <= i < n ==> all[i] == more[i - |turns|] && !all[i].own;
    assert forall i :: 0 <= i < |turns| ==> all[i] == turns[i];
  }

  /** Every attempt so far was refused, and at `t` the next one may be made. */
  ghost predicate Overdue(turns: seq<TurnTaken>, p: LlmProvider, t: int, deadline: int) {
    forall i :: 0 <= i < |turns| && turns[i].own ==>
      !turns[i].Grants(p) && turns[i].event.Acquire? && t >= Min(turns[i].event.now + turns[i].ToldMs(), deadline)
  }

  /** Time passing breaks no patience. */
  lemma TimePasses(
      turns: seq<TurnTaken>, p: LlmProvider, priority: RequestPriority, fromMs: int, t: int, now: int, deadline: int)
    requires Patient(turns, p, priority, fromMs, t, deadline) && t <= now
    ensures Patient(turns, p, priority, fromMs, now, deadline)
  {
    hide TurnTaken.ToldMs, TurnTaken.Grants;
  }

  /** After a refusal at `t` and a sleep until `now`, long enough for the last attempt, the next one may be made. */
  lemma AfterTheSleep(
      turns: seq<TurnTaken>, more: seq<TurnTaken>, p: LlmProvider, priority: RequestPriority,
      t: int, asked: int, now: int, deadline: int)
    requires Overdue(turns, p, t, deadline) && EndInAttempt(more, p, priority, asked) && t <= now
    requires !more[|more| - 1].Grants(p) && now >= Min(asked + more[|more| - 1].ToldMs(), deadline)
    ensures Overdue(turns + more, p, now, deadline)
  {
    hide TurnTaken.ToldMs, TurnTaken.Grants;
    var all, n := turns + more, |turns + more| - 1;
    assert all[n] == more[|more| - 1];
    assert forall i :: |turns| <= i < n ==> all[i] == more[i - |turns|] && !all[i].own;
    assert forall i :: 0 <= i < |turns| ==> all[i] == turns[i];
  }

  lemma {:induction false} ToldAdds(
      turns: seq<TurnTaken>, more: seq<TurnTaken>, p: LlmProvider, priority: RequestPriority, now: int)
    requires EndInAttempt(more, p, priority, now)
    ensures ToldInAll(turns + more) == ToldInAll(turns) + more[|more| - 1].ToldMs()
  {
    hide TurnTaken.ToldMs;
    var all := turns + more;
    assert all[..|all| - 1] == turns + more[..|more| - 1];
    ToldByOthers(turns, more[..|more| - 1]);
  }

  lemma {:induction false} ToldByOthers(turns: seq<TurnTaken>, others: seq<TurnTaken>)
    requires forall i :: 0 <= i < |others| ==> !others[i].own
    ensures ToldInAll(turns + others) == ToldInAll(turns)
  {
    hide TurnTaken.ToldMs;
    if others == [] {
      assert turns + others == turns;
    } else {
      assert (turns + others)[..|turns + others| - 1] == turns + others[..|others| - 1];
      ToldByOthers(turns, others[..|others| - 1]);
    }
  }

  /**
   A wait for a slot, from `fromMs` until `untilMs`: what it did at the limiter, which it found as `l`
   and left as `l'`, never polling early, and sleeping no longer than it was told to.
   */
  ghost predicate Waited(
      l: Limiter, turns: seq<TurnTaken>, l': Limiter, p: LlmProvider, priority: RequestPriority,
      fromMs: int, untilMs: int, deadline: int, sleptMs: int)
  {
    && Unbroken(l, turns, l')
    && Patient(turns, p, priority, fromMs, untilMs, deadline)
    && sleptMs <= ToldInAll(turns)
  }

  lemma AttemptInWait(
      l: Limiter, turns: seq<TurnTaken>, m: Limiter, p: LlmProvider, priority: RequestPriority, fromMs: int, t: int,
      deadline: int, sleptMs: int, more: seq<TurnTaken>, l': Limiter, asked: int)
    requires Waited(l, turns, m, p, priority, fromMs, t, deadline, sleptMs) && Overdue(turns, p, t, deadline)
    requires Unbroken(m, more, l') && EndInAttempt(more, p, priority, asked) && fromMs <= t <= asked
    ensures more != []
    ensures EndsInGrant(turns + more, p) <==> more[|more| - 1].Grants(p)
    ensures AllRefused(turns + more, p) <==> !more[|more| - 1].Grants(p)
    ensures var all, told := turns + more, more[|more| - 1].ToldMs();
            && more[|more| - 1] == all[|all| - 1]
            && (forall now, slept: int :: asked <= now && slept <= sleptMs + told ==>
                  Waited(l, all, l', p, priority, fromMs, now, deadline, slept))
            && (!more[|more| - 1].Grants(p) ==>
                  forall now :: asked <= now && now >= Min(asked + told, deadline) ==> Overdue(all, p, now, deadline))
  {
    hide Patient, Overdue, Unbroken, EndsInGrant, AllRefused, ToldInAll, TurnTaken.Grants, TurnTaken.ToldMs;
    var all, told := turns + more, more[|more| - 1].ToldMs();
    OneMoreAttempt(turns, more, p, priority, fromMs, t, asked, deadline);
    UnbrokenJoins(l, turns, m, more, l');
    ToldAdds(turns, more, p, priority, asked);
    forall now | asked <= now
      ensures Patient(all, p, priority, fromMs, now, deadline)
    {
      TimePasses(all, p, priority, fromMs, asked, now, deadline);
    }
    forall now | !more[|more| - 1].Grants(p) && asked <= now && now >= Min(asked + told, deadline)
      ensures Overdue(all, p, now, deadline)
    {
      AfterTheSleep(turns, more, p, priority, t, asked, now, deadline);
    }
  }

  lemma TailGrows(early: seq<TurnTaken>, past: seq<TurnTaken>, now: seq<TurnTaken>)
    requires early <= past <= now
    ensures early <= now && now[|early|..] == past[|early|..] + now[|past|..]
  {
  }

  ghost predicate AllOwn(turns: seq<TurnTaken>) {
    forall i :: 0 <= i < |turns| ==> turns[i].own
  }

  lemma OneMoreOwn(turns: seq<TurnTaken>, more: seq<TurnTaken>, p: LlmProvider, priority: RequestPriority, now: int)
    requires EndInAttempt(more, p, priority, now) && |more| == 1 && AllOwn(turns)
    ensures AllOwn(turns + more)
  {
  }

  lemma NothingAskedYet(l: Limiter, p: LlmProvider, priority: RequestPriority, fromMs: int, deadline: int)
    ensures AllOwn([]) && forall t :: Settles(l.circuit, l.circuit, t)
    ensures forall t :: fromMs <= t ==> Waited(l, [], l, p, priority, fromMs, t, deadline, 0)
    ensures forall t :: Overdue([], p, t, deadline)
  {
  }

  /** An attempt after the others' turns, as it is taken at the limiter, and what a refused one is told. */
  lemma AttemptTaken(
      l0: Limiter, others: seq<TurnTaken>, l: Limiter, p: LlmProvider, priority: RequestPriority, now: int)
    requires l.BucketFor(p, now).refillPerMs > 0.0
    requires Unbroken(l0, others, l) && forall i :: 0 <= i < |others| ==> !others[i].own
    ensures var attempt, decision := AttemptAt(l, p, priority, now), l.Decision(p, priority, now);
            && Unbroken(l0, others + [attempt], l.AfterAcquire(p, priority, now))
            && EndInAttempt(others + [attempt], p, priority, now)
            && (decision == Granted <==> attempt.Grants(p))
            && attempt.ToldMs() == if decision == Granted then 0 else decision.ms
  {
    hide Limiter.AfterAcquire, Limiter.WaitMs, Limiter.ReserveTokens, Bucket.Grants;
    OneMoreTurn(l0, others, l, AttemptAt(l, p, priority, now));
    hide Unbroken;
  }

  // ---------- Calls and grants ----------

  ghost function CallsTo(calls: seq<CallRecord>, p: LlmProvider): nat {
    if calls == [] then 0
    else CallsTo(calls[..|calls| - 1], p) + if calls[|calls| - 1].provider == p then 1 else 0
  }

  lemma {:induction false} CallsAdd(a: seq<CallRecord>, b: seq<CallRecord>, p: LlmProvider)
    ensures CallsTo(a + b, p) == CallsTo(a, p) + CallsTo(b, p)
  {
    if b == [] {
      assert a + b == a;
    } else {
      CallsAdd(a, b[..|b| - 1], p);
      assert (a + b)[..|a + b| - 1] == a + b[..|b| - 1];
    }
  }

  /**
   The turns that led the limiter from `l` to `l'` granted the engines exactly the calls they made: no
   call without a token, and no token without a call.
   */
  ghost predicate Accounted(l: Limiter, turns: seq<TurnTaken>, calls: seq<CallRecord>, l': Limiter) {
    Unbroken(l, turns, l') && forall p :: OwnGrants(turns, p) == CallsTo(calls, p)
  }

  /** Requests one after another, by one engine or several, keep the account. */
  lemma AccountsJoin(
      l: Limiter, a: seq<TurnTaken>, made: seq<CallRecord>, m: Limiter, b: seq<TurnTaken>, more: seq<CallRecord>,
      l': Limiter)
    requires Accounted(l, a, made, m) && Accounted(m, b, more, l')
    ensures Accounted(l, a + b, made + more, l')
  {
    hide Unbroken, OwnGrants, CallsTo;
    UnbrokenJoins(l, a, m, b, l');
    forall p
      ensures OwnGrants(a + b, p) == CallsTo(made + more, p)
    {
      OwnGrantsAdd(a, b, p);
      CallsAdd(made, more, p);
    }
  }

  /**
   So the engines' calls to a provider, over any number of requests, never exceed its capacity plus one
   refill rate per elapsed millisecond. Used alone, they are all the limiter granted.
   */
  lemma CallsAreWithinTheRate(
      l: Limiter, turns: seq<TurnTaken>, calls: seq<CallRecord>, l': Limiter, p: LlmProvider, lo: int, hi: int)
    requires l.Valid() && lo <= hi && Accounted(l, turns, calls, l')
    requires forall i :: 0 <= i < |turns| ==> Within(lo, hi, turns[i].event)
    ensures CallsTo(calls, p) as real <= CapacityOf(l, p) + Accrued(hi - lo, CapacityOf(l, p) / 60000.0)
    ensures AllOwn(turns) ==> CallsTo(calls, p) == GrantCount(l, EventsOf(turns), p)
  {
    hide Unbroken, OwnGrants, CallsTo, GrantCount, Within, Accrued, CapacityOf;
    UnbrokenIsARun(l, turns, l', p);
    ElapsedRateBound(l, EventsOf(turns), p, lo, hi);
  }

  ghost predicate OwnWithin(turns: seq<TurnTaken>, lo: int, hi: int) {
    forall i :: 0 <= i < |turns| && turns[i].own ==> Within(lo, hi, turns[i].event)
  }

  lemma OwnWithinJoins(a: seq<TurnTaken>, b: seq<TurnTaken>, lo: int, mid: int, hi: int)
    requires OwnWithin(a, lo, mid) && OwnWithin(b, mid, hi) && lo <= mid <= hi
    ensures OwnWithin(a + b, lo, hi)
    ensures AllOwn(a) && AllOwn(b) ==> AllOwn(a + b)
  {
  }

  /** The engine's turns among these tell the limiter something, and ask it nothing. */
  ghost predicate NoAttempt(turns: seq<TurnTaken>) {
    forall i :: 0 <= i < |turns| && turns[i].own ==> !turns[i].event.Acquire?
  }

  /** A wait that ends in a grant, and what is told after its call, account for that one call. */
  lemma RoundAccounts(
      l: Limiter, waited: seq<TurnTaken>, m: Limiter, told: seq<TurnTaken>, l': Limiter, record: CallRecord,
      priority: RequestPriority, fromMs: int, t: int, deadline: int, sleptMs: int, untilMs: int)
    requires Waited(l, waited, m, record.provider, priority, fromMs, t, deadline, sleptMs)
    requires EndsInGrant(waited, record.provider)
    requires Unbroken(m, told, l') && NoAttempt(told) && OwnWithin(told, t, untilMs) && fromMs <= t <= untilMs
    ensures Accounted(l, waited + told, [record], l') && OwnWithin(waited + told, fromMs, untilMs)
  {
    hide Unbroken, TurnTaken.ToldMs, ToldInAll;
    UnbrokenJoins(l, waited, m, told, l');
    assert OwnWithin(waited, fromMs, t);
    OwnWithinJoins(waited, told, fromMs, t, untilMs);
    var before, last := waited[..|waited| - 1], waited[|waited| - 1];
    forall p
      ensures OwnGrants(waited + told, p) == CallsTo([record], p)
    {
      OwnGrantsAdd(waited, told, p);
      NothingGranted(told, p);
      NothingGranted(before, p);
      assert CallsTo([], p) == 0 && [record][..0] == [];
    }
  }

  /** A wait that was refused throughout accounts for no call. */
  lemma RefusalAccounts(
      l: Limiter, waited: seq<TurnTaken>, l': Limiter, p: LlmProvider, priority: RequestPriority, fromMs: int, t: int,
      deadline: int, sleptMs: int)
    requires Waited(l, waited, l', p, priority, fromMs, t, deadline, sleptMs) && AllRefused(waited, p)
    ensures Accounted(l, waited, [], l') && OwnWithin(waited, fromMs, t)
  {
    hide Unbroken, TurnTaken.ToldMs, ToldInAll;
    forall q
      ensures OwnGrants(waited, q) == CallsTo([], q)
    {
      NothingGranted(waited, q);
    }
  }

  /** A wait from `fromMs` on that was refused throughout, until the time allowed for it had passed. */
  ghost predicate TimedOut(
      turns: seq<TurnTaken>, p: LlmProvider, priority: RequestPriority, fromMs: int, untilMs: int, timeoutMs: int)
  {
    && Patient(turns, p, priority, fromMs, untilMs, fromMs + timeoutMs)
    && AllRefused(turns, p)
    && fromMs + timeoutMs <= untilMs
  }

  /** Since the last of the calls was handled the request has waited in vain for another slot. */
  ghost predicate WaitedInVain(
      request: LlmRequest, turns: seq<TurnTaken>, made: seq<CallRecord>, untilMs: int, timeoutMs: int)
  {
    exists n, fromMs :: 0 <= n <= |turns|
      && TimedOut(turns[n..], request.provider, request.priority, fromMs, untilMs, timeoutMs)
      && (made != [] ==> made[|made| - 1].handledMs <= fromMs)
  }

  lemma WaitTimedOut(
      l: Limiter, waited: seq<TurnTaken>, l': Limiter, p: LlmProvider, priority: RequestPriority, fromMs: int, t: int,
      timeoutMs: int, sleptMs: int)
    requires Waited(l, waited, l', p, priority, fromMs, t, fromMs + timeoutMs, sleptMs) && AllRefused(waited, p)
    requires fromMs + timeoutMs <= t
    ensures TimedOut(waited, p, priority, fromMs, t, timeoutMs)
  {
    hide Patient, AllRefused, Unbroken;
  }

  lemma OwnWithinSince(turns: seq<TurnTaken>, lo: int, mid: int, hi: int)
    requires OwnWithin(turns, mid, hi) && lo <= mid
    ensures OwnWithin(turns, lo, hi)
  {
  }

  lemma OwnTogether(a: seq<TurnTaken>, b: seq<TurnTaken>)
    ensures AllOwn(a) && AllOwn(b) ==> AllOwn(a + b)
  {
  }

  lemma RoundJoins(
      l: Limiter, a: seq<TurnTaken>, made: seq<CallRecord>, m: Limiter, b: seq<TurnTaken>, more: seq<CallRecord>,
      l': Limiter, lo: int, mid: int, hi: int)
    requires Accounted(l, a, made, m) && Accounted(m, b, more, l')
    requires OwnWithin(a, lo, mid) && OwnWithin(b, mid, hi) && lo <= mid <= hi
    ensures Accounted(l, a + b, made + more, l') && OwnWithin(a + b, lo, hi)
    ensures AllOwn(a) && AllOwn(b) ==> AllOwn(a + b)
  {
    AccountsJoin(l, a, made, m, b, more, l');
    OwnWithinJoins(a, b, lo, mid, hi);
    hide *;
  }

  /** Turns that start at `l` start with it, and the second follows from the first. */
  lemma {:induction false} FirstTurns(l: Limiter, turns: seq<TurnTaken>, l': Limiter)
    requires Unbroken(l, turns, l') && turns != []
    ensures turns[0].before == l
    ensures |turns| > 1 ==> turns[1].before == Turn(l, turns[0].event)
  {
    hide Turn;
    var n := |turns| - 1;
    if n == 0 {
      assert turns[..0] == [];
    } else {
      FirstTurns(l, turns[..n], turns[n].before);
      if n == 1 {
        assert turns[..1][..0] == [];
      }
    }
  }

  /**
   A caller alone at the limiter is served on its second attempt: refused by a bucket that has room for its
   reserve, with the clock not behind, it comes back when a token is there. Only a deadline
   that cuts its wait short can make it try in vain.
   */
  lemma LoneCallerIsServed(
      l: Limiter, turns: seq<TurnTaken>, l': Limiter, p: LlmProvider, priority: RequestPriority,
      fromMs: int, untilMs: int, deadline: int, sleptMs: int)
    requires l.Valid() && AllOwn(turns) && |turns| > 1
    requires Waited(l, turns, l', p, priority, fromMs, untilMs, deadline, sleptMs)
    requires l.circuit.Allows(turns[0].event.now)
    requires var now := turns[0].event.now;
             && 1.0 + l.ReserveTokens(p, priority, now) <= l.BucketFor(p, now).capacity
             && l.BucketFor(p, now).lastRefillMs <= now
    ensures (|turns| == 2 && EndsInGrant(turns, p))
         || deadline <= turns[1].event.now < turns[0].event.now + turns[0].ToldMs()
  {
    hide Unbroken, ToldInAll, TurnTaken.ToldMs, Limiter.Grants, Limiter.AfterAcquire, Limiter.Valid;
    var first, second := turns[0], turns[1];
    FirstTurns(l, turns, l');
    var now, t := first.event.now, second.event.now;
    assert first == AttemptAt(l, p, priority, now) && !first.Grants(p);
    assert second == AttemptAt(l.AfterAcquire(p, priority, now), p, priority, t);
    assert |turns| > 2 ==> turns[2].own && !second.Grants(p);
    if t >= now + first.ToldMs() {
      SecondAttemptIsGranted(l, p, priority, now, t);
      assert second.Grants(p);
    }
  }

  lemma SecondAttemptIsGranted(l: Limiter, p: LlmProvider, priority: RequestPriority, now: int, t: int)
    requires l.Valid() && l.circuit.Allows(now) && !l.Grants(p, priority, now)
    requires 1.0 + l.ReserveTokens(p, priority, now) <= l.BucketFor(p, now).capacity
    requires l.BucketFor(p, now).lastRefillMs <= now
    requires t >= now + AttemptAt(l, p, priority, now).ToldMs()
    ensures l.AfterAcquire(p, priority, now).Grants(p, priority, t)
  {
    BucketRefuses(l, p, priority, now);
    var wait, l' := l.Decision(p, priority, now).ms, l.AfterAcquire(p, priority, now);
    RefusedCallerReturnsOnTime(l, p, priority, now);
    hide *;
    GrantsLater(l', p, priority, now + wait, t);
  }

  lemma BucketRefuses(l: Limiter, p: LlmProvider, priority: RequestPriority, now: int)
    requires l.Valid() && l.circuit.Allows(now) && !l.Grants(p, priority, now)
    ensures l.BucketFor(p, now).refillPerMs > 0.0 && l.Decision(p, priority, now).RetryAfterMs?
    ensures var l' := l.AfterAcquire(p, priority, now);
            && l'.Valid() && l'.circuit.state != Open && p in l'.buckets
            && AttemptAt(l, p, priority, now).ToldMs() == l.Decision(p, priority, now).ms
  {
    AcquireKeepsValid(l, p, priority, now);
    RefusalIsPositive(l, p, priority, now);
    hide Accrued, Share, Limiter.Valid, Bucket.Asked, Bucket.Grants, Bucket.TimeUntilMs;
  }

  /** What is granted now is granted later, while no one else comes. */
  lemma GrantsLater(l: Limiter, p: LlmProvider, priority: RequestPriority, now: int, later: int)
    requires l.Valid() && l.circuit.state != Open && p in l.buckets && now <= later
    requires l.Grants(p, priority, now)
    ensures l.Grants(p, priority, later)
  {
    hide Share;
    var b := l.buckets[p];
    RefilledIsValid(b, now);
    RefilledIsValid(b.Refilled(now), later);
    RefillIsPathIndependent(b, now, later);
    hide Bucket.Refilled;
  }

  /** What an engine tells the limiter of a call is one turn at it, or none. */
  ghost function ToldTurns(l: Limiter, p: LlmProvider, outcome: Outcome, now: int): seq<TurnTaken> {
    if outcome.Ok? then [TurnTaken(l, Succeeded, true)]
    else if outcome.error.failure.RateLimited? then
      [TurnTaken(l, LimiterEvent.RateLimited(p, InMs(outcome.error.retryAfterSecs), now), true)]
    else []
  }

  lemma TellingIsATurn(
      l: Limiter, others: seq<TurnTaken>, m: Limiter, p: LlmProvider, outcome: Outcome, now: int)
    requires Unbroken(l, others, m) && forall i :: 0 <= i < |others| ==> !others[i].own
    ensures var turns := others + ToldTurns(m, p, outcome, now);
            && Unbroken(l, turns, Told(m, p, outcome, now))
            && NoAttempt(turns) && OwnWithin(turns, now, now)
            && (others == [] ==> AllOwn(turns))
  {
    hide Limiter.AfterSuccess, Limiter.AfterRateLimit, ToldTurns, Told, Turn, Unbroken, Within;
    var told := ToldTurns(m, p, outcome, now);
    TellingInOneTurn(m, p, outcome, now);
    if told != [] {
      OneMoreTurn(l, others, m, told[0]);
      assert told == [told[0]];
    } else {
      assert others + told == others;
    }
  }

  lemma TellingInOneTurn(m: Limiter, p: LlmProvider, outcome: Outcome, now: int)
    ensures var told := ToldTurns(m, p, outcome, now);
            if told == [] then Told(m, p, outcome, now) == m
            else
              && |told| == 1 && told[0].before == m && told[0].own
              && Turn(m, told[0].event) == Told(m, p, outcome, now)
              && !told[0].event.Acquire? && Within(now, now, told[0].event)
  {
    hide Limiter.AfterSuccess, Limiter.AfterRateLimit;
  }

  /** Without other callers a breaker only changes, by `now`, by being asked. */
  predicate Settles(a: Breaker, b: Breaker, now: int) {
    b == a || b == a.Asked(now)
  }

  lemma CircuitAfterAcquire(l: Limiter, p: LlmProvider, priority: RequestPriority, now: int)
    ensures l.AfterAcquire(p, priority, now).circuit == l.circuit.Asked(now)
    ensures l.BucketFor(p, now).refillPerMs > 0.0 && l.Decision(p, priority, now) == Granted ==>
              l.circuit.Asked(now).state != Open
  {
    hide Limiter.Grants, Limiter.WaitMs;
  }

  /** The limiter after it was told how a call went: of successes and 429s, and of nothing else. */
  function Told(l: Limiter, p: LlmProvider, outcome: Outcome, now: int): Limiter {
    if outcome.Ok? then l.AfterSuccess()
    else if outcome.error.failure.RateLimited? then l.AfterRateLimit(p, InMs(outcome.error.retryAfterSecs), now)
    else l
  }

  /** What that does to the breaker, and after a 429 to the provider's bucket. */
  lemma ToldCases(l: Limiter, p: LlmProvider, outcome: Outcome, now: int)
    ensures var l' := Told(l, p, outcome, now);
            && l'.circuit == (if outcome.Ok? then l.circuit.Succeeded()
                              else if outcome.error.failure.RateLimited?
                              then l.circuit.Limited(now, InMs(outcome.error.retryAfterSecs))
                              else l.circuit)
            && (outcome.Err? && outcome.error.failure.RateLimited? && p in l'.buckets ==> l'.buckets[p].tokens == 0.0)
  {
  }

  lemma StillSettles(a: Breaker, b: Breaker, t: int, c: Breaker, u: int)
    requires t <= u
    ensures Settles(a, b, t) && Settles(b, c, u) ==> forall v :: u <= v ==> Settles(a, c, v)
  {
  }

  lemma CircuitSettles(b: Breaker, now: int)
    ensures Settles(b, b, now) && Settles(b, b.Asked(now), now)
  {
  }

  lemma SettlesOn(a: Breaker, b: Breaker, c: Breaker, t: int, u: int)
    requires Settles(a, b, t) && Settles(b, c, u) && t <= u
    ensures Settles(a, c, u)
  {
  }

  /**
   A log kept by engines that are the limiter's only callers: calls come one after another, and
   every call starts with a breaker that is not open and that has done nothing but settle since
   the call before.
   */
  ghost predicate QuietLog(calls: seq<CallRecord>, circuit: Breaker, now: int) {
    && (forall i :: 0 <= i < |calls| ==>
          calls[i].Recorded() && calls[i].handledMs <= now && calls[i].before.state != Open)
    && (forall i, j :: 0 <= i < j < |calls| ==> calls[i].handledMs <= calls[j].startedMs)
    && (forall i :: 0 < i < |calls| ==> Settles(calls[i - 1].after, calls[i].before, calls[i].startedMs))
    && (calls != [] ==> Settles(calls[|calls| - 1].after, circuit, now))
  }

  /** The calls of one request: every failure is followed by at least the delay the policy chose. */
  ghost predicate Spaced(policy: RetryPolicy, calls: seq<CallRecord>) {
    forall k :: 0 < k < |calls| ==>
      calls[k].startedMs >= calls[k - 1].endedMs + 1000 * policy.DelaySecs(k, calls[k - 1].Hint())
  }

  ghost predicate AllFailedRetryably(calls: seq<CallRecord>) {
    forall k :: 0 <= k < |calls| ==> calls[k].FailedRetryably()
  }

  /** The calls of a request that goes on: all failed retryably, and at `now` the next one is due. */
  ghost predicate GoesOn(policy: RetryPolicy, made: seq<CallRecord>, now: int) {
    && |made| < Max(policy.maxAttempts, 1)
    && (forall k :: 0 <= k < |made| ==> made[k].Recorded())
    && AllFailedRetryably(made)
    && Spaced(policy, made)
    && (made != [] ==>
          var last := made[|made| - 1];
          now >= last.handledMs && now >= last.endedMs + 1000 * policy.DelaySecs(|made|, last.Hint()))
  }

  /**
   How a request ends: with at most `max(1, maxAttempts)` calls, properly recorded and spaced, all
   but the last a retryable failure. The result is the last call's answer, or its error when that
   is permanent or the attempts are used up, or else the timeout of a wait `inVain` after the last call.
   */
  ghost predicate Ends(policy: RetryPolicy, made: seq<CallRecord>, r: Outcome, inVain: bool) {
    && |made| <= Max(policy.maxAttempts, 1)
    && (forall k :: 0 <= k < |made| ==> made[k].Recorded())
    && (made != [] ==> AllFailedRetryably(made[..|made| - 1]))
    && Spaced(policy, made)
    && (r.Ok? ==> made != [] && made[|made| - 1].outcome == r)
    && (r.Err? ==>
          || (made != [] && made[|made| - 1].outcome == r
              && (!r.error.IsTransient() || |made| >= policy.maxAttempts))
          || (inVain && AllFailedRetryably(made) && |made| < Max(policy.maxAttempts, 1)
              && r.error.failure == ServiceUnavailable && r.error.retryAfterSecs.Some?))
  }

  /** The calls carry the model's own answers, in order, from its `first` one on. */
  ghost predicate AnsweredBy(
      client: (nat, LlmRequest) -> Outcome, request: LlmRequest, first: nat, made: seq<CallRecord>)
  {
    forall k :: 0 <= k < |made| ==> made[k].outcome == client(first + k, request)
  }

  lemma AnsweredNext(
      client: (nat, LlmRequest) -> Outcome, request: LlmRequest, first: nat, made: seq<CallRecord>, record: CallRecord)
    requires AnsweredBy(client, request, first, made) && record.outcome == client(first + |made|, request)
    ensures AnsweredBy(client, request, first, made + [record])
  {
  }

  lemma WaitIsInVain(
      policy: RetryPolicy, request: LlmRequest, turns: seq<TurnTaken>, waited: seq<TurnTaken>, made: seq<CallRecord>,
      now: int, untilMs: int, timeoutMs: int)
    requires GoesOn(policy, made, now)
    requires TimedOut(waited, request.provider, request.priority, now, untilMs, timeoutMs)
    ensures WaitedInVain(request, turns + waited, made, untilMs, timeoutMs)
  {
    hide TimedOut, CallRecord.Recorded, RetryPolicy.DelaySecs;
    assert (turns + waited)[|turns|..] == waited;
  }

  lemma EndsByTimeout(policy: RetryPolicy, made: seq<CallRecord>, now: int, error: LlmError)
    requires GoesOn(policy, made, now) && error.failure == ServiceUnavailable && error.retryAfterSecs.Some?
    ensures Ends(policy, made, Err(error), true)
  {
    hide CallRecord.Recorded, RetryPolicy.DelaySecs;
  }

  /** One more call either ends the request or, once the chosen delay has passed, lets it go on. */
  lemma CallMade(policy: RetryPolicy, made: seq<CallRecord>, now: int, record: CallRecord, inVain: bool)
    requires GoesOn(policy, made, now) && record.Recorded() && now <= record.startedMs
    ensures var made' := made + [record];
            if record.outcome.Ok? then Ends(policy, made', record.outcome, inVain)
            else
              match policy.Decide(record.outcome.error.failure, |made'|, record.Hint())
              case GiveUp => Ends(policy, made', record.outcome, inVain)
              case Retry(delay) =>
                forall t :: t >= record.handledMs && t >= record.endedMs + 1000 * delay ==> GoesOn(policy, made', t)
  {
    hide CallRecord.Recorded, RetryPolicy.DelaySecs;
    var made' := made + [record];
    assert made'[..|made|] == made;
  }

  /** How long the engine sleeps after the `k`-th call of a request. */
  function PauseMs(policy: RetryPolicy, k: nat, outcome: Outcome): nat {
    if outcome.Ok? then 0
    else
      match policy.Decide(outcome.error.failure, k, outcome.error.retryAfterSecs)
      case GiveUp => 0
      case Retry(secs) => Max(secs * 1000, 0)
  }

  /** The pauses of a request together. */
  function PausesMs(policy: RetryPolicy, made: seq<CallRecord>): nat {
    if made == [] then 0
    else PausesMs(policy, made[..|made| - 1]) + PauseMs(policy, |made|, made[|made| - 1].outcome)
  }

  /** What `rounds` waits for a slot and the pauses so far may sleep at most. */
  function SleepLimitMs(policy: RetryPolicy, timeoutMs: int, rounds: nat, made: seq<CallRecord>): int {
    rounds * Max(timeoutMs, 0) + PausesMs(policy, made)
  }

  lemma OneMoreRound(policy: RetryPolicy, timeoutMs: int, rounds: nat, most: nat, made: seq<CallRecord>)
    requires rounds < most
    ensures SleepLimitMs(policy, timeoutMs, rounds + 1, made)
         == SleepLimitMs(policy, timeoutMs, rounds, made) + Max(timeoutMs, 0)
    ensures SleepLimitMs(policy, timeoutMs, rounds + 1, made) <= SleepLimitMs(policy, timeoutMs, most, made)
  {
    hide PausesMs;
    var t := Max(timeoutMs, 0);
    assert (rounds + 1) * t == rounds * t + t;
    ProductIsNonNegative(most - rounds - 1, t);
    assert (most - rounds - 1) * t == most * t - (rounds + 1) * t;
  }

  lemma PauseIsTheDelay(policy: RetryPolicy, k: nat, error: LlmError)
    ensures var decision := policy.Decide(error.failure, k, error.retryAfterSecs);
            decision.Retry? ==>
              k < policy.maxAttempts && PauseMs(policy, k, Err(error)) == Max(decision.afterSecs * 1000, 0)
  {
  }

  lemma OneMorePause(policy: RetryPolicy, timeoutMs: int, made: seq<CallRecord>, record: CallRecord)
    ensures forall n: nat :: SleepLimitMs(policy, timeoutMs, n, made + [record])
                          == SleepLimitMs(policy, timeoutMs, n, made) + PauseMs(policy, |made| + 1, record.outcome)
  {
    hide PauseMs;
    assert (made + [record])[..|made|] == made;
  }

  // ---------- A request from start to end ----------

  /**
   What one request did: the limiter as it met and left it, the turns taken there, the calls made, when
   there were `first` in the log already, and the time it took and slept.
   */
  datatype Dealings = Dealings(
    before: Limiter, turns: seq<TurnTaken>, after: Limiter, first: nat, made: seq<CallRecord>,
    fromMs: int, untilMs: int, sleptMs: int)
  {
    function With(more: seq<TurnTaken>, after: Limiter, calls: seq<CallRecord>, untilMs: int, slept: int): Dealings {
      Dealings(before, turns + more, after, first, made + calls, fromMs, untilMs, sleptMs + slept)
    }

    function Rested(untilMs: int, slept: int): Dealings {
      this.(untilMs := untilMs, sleptMs := sleptMs + slept)
    }
  }

  /** The calls are the request's own, answered by the model, and each made on a token granted for it. */
  ghost predicate InOrder(d: Dealings, request: LlmRequest, client: (nat, LlmRequest) -> Outcome) {
    && Accounted(d.before, d.turns, d.made, d.after)
    && OwnWithin(d.turns, d.fromMs, d.untilMs) && d.fromMs <= d.untilMs
    && (forall record <- d.made :: record.provider == request.provider)
    && AnsweredBy(client, request, d.first, d.made)
  }

  ghost predicate UnderWay(
      d: Dealings, policy: RetryPolicy, request: LlmRequest, client: (nat, LlmRequest) -> Outcome, timeoutMs: int)
  {
    && InOrder(d, request, client)
    && GoesOn(policy, d.made, d.untilMs)
    && d.sleptMs <= SleepLimitMs(policy, timeoutMs, |d.made|, d.made)
  }

  /** The request is in order, ends as it may, and slept no more than a timeout per attempt and the pauses. */
  ghost predicate Finished(
      d: Dealings, policy: RetryPolicy, request: LlmRequest, client: (nat, LlmRequest) -> Outcome, timeoutMs: int,
      r: Outcome)
  {
    && InOrder(d, request, client)
    && Ends(policy, d.made, r, WaitedInVain(request, d.turns, d.made, d.untilMs, timeoutMs))
    && d.sleptMs <= SleepLimitMs(policy, timeoutMs, Max(policy.maxAttempts, 1), d.made)
  }

  lemma NothingDoneYet(
      l: Limiter, first: nat, now: int, policy: RetryPolicy, request: LlmRequest,
      client: (nat, LlmRequest) -> Outcome, timeoutMs: int)
    ensures UnderWay(Dealings(l, [], l, first, [], now, now, 0), policy, request, client, timeoutMs)
    ensures AllOwn([])
  {
  }

  lemma RoundTimesOut(
      d: Dealings, policy: RetryPolicy, request: LlmRequest, client: (nat, LlmRequest) -> Outcome, timeoutMs: int,
      waited: seq<TurnTaken>, after: Limiter, untilMs: int, slept: int, error: LlmError)
    requires UnderWay(d, policy, request, client, timeoutMs)
    requires Accounted(d.after, waited, [], after) && OwnWithin(waited, d.untilMs, untilMs) && d.untilMs <= untilMs
    requires TimedOut(waited, request.provider, request.priority, d.untilMs, untilMs, timeoutMs)
    requires slept <= Max(timeoutMs, 0)
    requires error.failure == ServiceUnavailable && error.retryAfterSecs.Some?
    ensures Finished(d.With(waited, after, [], untilMs, slept), policy, request, client, timeoutMs, Err(error))
  {
    hide GoesOn, Ends, Accounted, OwnWithin, AllOwn, TimedOut, WaitedInVain, SleepLimitMs, AnsweredBy;
    RoundJoins(d.before, d.turns, d.made, d.after, waited, [], after, d.fromMs, d.untilMs, untilMs);
    assert d.made + [] == d.made;
    WaitIsInVain(policy, request, d.turns, waited, d.made, d.untilMs, untilMs, timeoutMs);
    EndsByTimeout(policy, d.made, d.untilMs, error);
    CallsAreFew(policy, d.made, d.untilMs);
    OneMoreRound(policy, timeoutMs, |d.made|, Max(policy.maxAttempts, 1), d.made);
  }

  lemma CallsAreFew(policy: RetryPolicy, made: seq<CallRecord>, now: int)
    requires GoesOn(policy, made, now)
    ensures |made| < Max(policy.maxAttempts, 1)
  {
  }

  /** A round with a call either ends the request, or leaves it under way once the chosen delay has passed. */
  lemma RoundAnswered(
      d: Dealings, policy: RetryPolicy, request: LlmRequest, client: (nat, LlmRequest) -> Outcome, timeoutMs: int,
      more: seq<TurnTaken>, after: Limiter, record: CallRecord, untilMs: int, slept: int)
    requires UnderWay(d, policy, request, client, timeoutMs)
    requires Accounted(d.after, more, [record], after) && OwnWithin(more, d.untilMs, untilMs)
    requires record.Recorded() && record.provider == request.provider
    requires record.outcome == client(d.first + |d.made|, request)
    requires d.untilMs <= record.startedMs && record.handledMs <= untilMs && slept <= Max(timeoutMs, 0)
    ensures var d', outcome := d.With(more, after, [record], untilMs, slept), record.outcome;
            if outcome.Ok? then Finished(d', policy, request, client, timeoutMs, outcome)
            else
              match policy.Decide(outcome.error.failure, |d'.made|, outcome.error.retryAfterSecs)
              case GiveUp => Finished(d', policy, request, client, timeoutMs, outcome)
              case Retry(delay) =>
                && |d'.made| < Max(policy.maxAttempts, 1)
                && var pause := Max(delay * 1000, 0);
                   forall t :: t >= untilMs + pause ==>
                     UnderWay(d'.Rested(t, pause), policy, request, client, timeoutMs)
  {
    hide GoesOn, Ends, Accounted, OwnWithin, AllOwn, TimedOut, WaitedInVain, SleepLimitMs, AnsweredBy, PauseMs;
    hide RetryPolicy.Decide, RetryPolicy.DelaySecs, CallRecord.Recorded;
    var d' := d.With(more, after, [record], untilMs, slept);
    RecordedEndsBeforeHandled(record);
    RoundJoins(d.before, d.turns, d.made, d.after, more, [record], after, d.fromMs, d.untilMs, untilMs);
    OwnStaysWithin(d'.turns, d.fromMs, untilMs);
    AnsweredNext(client, request, d.first, d.made, record);
    CallMade(policy, d.made, d.untilMs, record,
             WaitedInVain(request, d'.turns, d'.made, untilMs, timeoutMs));
    CallsAreFew(policy, d.made, d.untilMs);
    OneMoreRound(policy, timeoutMs, |d.made|, Max(policy.maxAttempts, 1), d.made);
    OneMorePause(policy, timeoutMs, d.made, record);
    if record.outcome.Err? {
      PauseIsTheDelay(policy, |d'.made|, record.outcome.error);
    }
    assert forall c <- d'.made :: c.provider == request.provider;
  }

  lemma OwnStaysWithin(turns: seq<TurnTaken>, lo: int, hi: int)
    ensures OwnWithin(turns, lo, hi) ==> forall t :: hi <= t ==> OwnWithin(turns, lo, t)
  {
  }

  /** What a wait for a slot began with. */
  datatype WaitBegun = WaitBegun(
    before: Limiter, past: seq<TurnTaken>, provider: LlmProvider, priority: RequestPriority,
    fromMs: int, deadline: int, sleptMs: int)

  class ResilientLlm {
    const limiter: GlobalRateLimiter
    const policy: RetryPolicy
    const world: Surroundings
    const acquireTimeoutMs: int

    ghost predicate Valid()
      reads this, world, limiter, limiter.Repr()
    {
      limiter.Valid() && world !in limiter.Repr()
    }

    constructor (limiter: GlobalRateLimiter, policy: RetryPolicy, world: Surroundings, acquireTimeoutMs: int)
      requires limiter.Valid() && world !in limiter.Repr()
      ensures Valid()
      ensures this.limiter == limiter && this.policy == policy && this.world == world
      ensures this.acquireTimeoutMs == acquireTimeoutMs
    {
      this.limiter, this.policy, this.world, this.acquireTimeoutMs := limiter, policy, world, acquireTimeoutMs;
    }

    /** The provider has no bucket, or an empty one. */
    ghost predicate Drained(p: LlmProvider)
      reads limiter, limiter.circuit, limiter.buckets.Values
    {
      p in limiter.View().buckets ==> limiter.View().buckets[p].tokens == 0.0
    }

    /** Reads the clock, which leaves the limiter alone. */
    method ReadClock() returns (ms: int)
      requires Valid()
      modifies world
      ensures Valid() && limiter.Repr() == old(limiter.Repr()) && limiter.View() == old(limiter.View())
      ensures world.Elapses() && world.sleptMs == old(world.sleptMs) && world.calls == old(world.calls)
      ensures ms == world.nowMs && world.history == old(world.history)
    {
      ms := world.Now();
    }

    /** Sleeps, which leaves the limiter alone. */
    method Pause(ms: int)
      requires Valid()
      modifies world
      ensures Valid() && limiter.Repr() == old(limiter.Repr()) && limiter.View() == old(limiter.View())
      ensures world.Elapses() && world.nowMs == old(world.nowMs) + Max(ms, 0)
      ensures world.sleptMs == old(world.sleptMs) + Max(ms, 0)
      ensures world.calls == old(world.calls) && world.history == old(world.history)
    {
      world.Sleep(ms);
    }

    /** Calls the model, which leaves the limiter alone. */
    method CallModel(request: LlmRequest) returns (startedMs: int, endedMs: int, outcome: Outcome)
      requires Valid()
      modifies world
      ensures Valid() && limiter.Repr() == old(limiter.Repr()) && limiter.View() == old(limiter.View())
      ensures world.Elapses() && world.sleptMs == old(world.sleptMs)
      ensures world.calls == old(world.calls) && world.history == old(world.history)
      ensures outcome == world.client(|world.calls|, request)
      ensures old(world.nowMs) <= startedMs <= endedMs == world.nowMs
    {
      startedMs, endedMs, outcome := world.Call(request);
    }

    /** Lets the other callers take their turn. */
    method LetOthersIn()
      requires Valid()
      modifies world, limiter.Repr()
      ensures Valid() && fresh(limiter.Repr() - old(limiter.Repr()))
      ensures world.Elapses() && world.nowMs == old(world.nowMs) && world.sleptMs == old(world.sleptMs)
      ensures world.calls == old(world.calls) && old(world.history) <= world.history
      ensures var took := world.history[|old(world.history)|..];
              && Unbroken(old(limiter.View()), took, limiter.View())
              && (forall i :: 0 <= i < |took| ==> !took[i].own)
              && (world.Alone() ==> took == [])
      ensures world.Alone() ==> limiter.View() == old(limiter.View())
    {
      hide GlobalRateLimiter.Valid, GlobalRateLimiter.View;
      var events := world.OthersTurn();
      OthersRun(limiter.View(), events);
      ghost var took := OthersTurns(limiter.View(), events);
      world.history := world.history + took;
      assert world.history[|old(world.history)|..] == took;
      limiter.Replay(events);
    }

    /** One attempt at the limiter as it is, at the current reading of the clock. */
    method Ask(provider: LlmProvider, priority: RequestPriority) returns (decision: AcquireDecision)
      requires Valid()
      modifies world, limiter.Repr()
      ensures Valid() && fresh(limiter.Repr() - old(limiter.Repr()))
      ensures world.Elapses() && world.sleptMs == old(world.sleptMs) && world.calls == old(world.calls)
      ensures var l := old(limiter.View());
              && l.BucketFor(provider, world.nowMs).refillPerMs > 0.0
              && world.history == old(world.history) + [AttemptAt(l, provider, priority, world.nowMs)]
              && limiter.View() == l.AfterAcquire(provider, priority, world.nowMs)
              && decision == l.Decision(provider, priority, world.nowMs)
              && (decision != Granted ==> decision.ms >= 1)
    {
      hide GlobalRateLimiter.Valid, GlobalRateLimiter.View, Limiter.AfterAcquire, Limiter.Decision;
      hide Limiter.BucketFor;
      var t := world.Now();
      world.history := world.history + [AttemptAt(limiter.View(), provider, priority, t)];
      decision := limiter.TryAcquire(provider, priority, t);
    }

    /** One attempt at the limiter, when the other callers have had their turn. */
    method TryOnce(provider: LlmProvider, priority: RequestPriority) returns (decision: AcquireDecision)
      requires Valid()
      modifies world, limiter.Repr()
      ensures Valid() && fresh(limiter.Repr() - old(limiter.Repr()))
      ensures world.Elapses() && world.sleptMs == old(world.sleptMs) && world.calls == old(world.calls)
      ensures old(world.history) <= world.history
      ensures var took := world.history[|old(world.history)|..];
              && Unbroken(old(limiter.View()), took, limiter.View())
              && EndInAttempt(took, provider, priority, world.nowMs)
              && (decision == Granted <==> took[|took| - 1].Grants(provider))
              && took[|took| - 1].ToldMs() == (if decision == Granted then 0 else decision.ms)
              && (world.Alone() ==> |took| == 1)
      ensures decision != Granted ==> decision.ms >= 1
      ensures world.Alone() ==>
                && limiter.View().circuit == old(limiter.View().circuit).Asked(world.nowMs)
                && (decision == Granted ==> limiter.View().circuit.state != Open)
    {
      hide GlobalRateLimiter.Valid, GlobalRateLimiter.View, Limiter.AfterAcquire, Limiter.Decision;
      hide TurnTaken.Grants, TurnTaken.ToldMs, Unbroken, EndInAttempt, AttemptAt, Limiter.BucketFor;
      ghost var n, l0 := |world.history|, limiter.View();
      LetOthersIn();
      ghost var others, l := world.history[n..], limiter.View();
      decision := Ask(provider, priority);
      CircuitAfterAcquire(l, provider, priority, world.nowMs);
      AttemptTaken(l0, others, l, provider, priority, world.nowMs);
      assert world.history[n..] == others + [AttemptAt(l, provider, priority, world.nowMs)];
    }

    /** A wait that began with `w` may make its next attempt. */
    ghost predicate InWait(w: WaitBegun)
      reads world, limiter, limiter.circuit, limiter.buckets.Values
    {
      && w.past <= world.history && w.fromMs <= world.nowMs
      && var took := world.history[|w.past|..];
         && Waited(w.before, took, limiter.View(), w.provider, w.priority, w.fromMs, world.nowMs, w.deadline,
                   world.sleptMs - w.sleptMs)
         && Overdue(took, w.provider, world.nowMs, w.deadline)
         && (world.Alone() ==> AllOwn(took) && Settles(w.before.circuit, limiter.View().circuit, world.nowMs))
    }

    /** It has made one at `asked`, and been answered with `decision`. */
    ghost predicate Answered(w: WaitBegun, asked: int, decision: AcquireDecision)
      reads world, limiter, limiter.circuit, limiter.buckets.Values
    {
      && w.past < world.history && w.fromMs <= asked <= world.nowMs
      && var took := world.history[|w.past|..];
         && Waited(w.before, took, limiter.View(), w.provider, w.priority, w.fromMs, world.nowMs, w.deadline,
                   world.sleptMs - w.sleptMs)
         && (decision == Granted <==> EndsInGrant(took, w.provider))
         && (decision != Granted <==> AllRefused(took, w.provider))
         && took[|took| - 1].ToldMs() == (if decision == Granted then 0 else decision.ms)
         && (decision != Granted ==>
               && decision.ms >= 1
               && (forall now :: asked <= now && now >= Min(asked + decision.ms, w.deadline) ==>
                     Overdue(took, w.provider, now, w.deadline))
               && (forall now, slept: int :: asked <= now && slept <= world.sleptMs - w.sleptMs + decision.ms ==>
                     Waited(w.before, took, limiter.View(), w.provider, w.priority, w.fromMs, now, w.deadline, slept)))
         && (world.Alone() ==>
               && AllOwn(took) && Settles(w.before.circuit, limiter.View().circuit, world.nowMs)
               && (decision == Granted ==> limiter.View().circuit.state != Open))
    }

    /**
     How a wait that began with `w` ends: with a slot exactly if its last attempt was granted, its first
     grant, and with the limiter's timeout exactly if every attempt was refused.
     */
    ghost predicate WaitEnds(w: WaitBegun, r: Result<(), LlmError>)
      reads world, limiter, limiter.circuit, limiter.buckets.Values
    {
      && w.past < world.history
      && var took := world.history[|w.past|..];
         && Waited(w.before, took, limiter.View(), w.provider, w.priority, w.fromMs, world.nowMs, w.deadline,
                   world.sleptMs - w.sleptMs)
         && (r.Ok? <==> EndsInGrant(took, w.provider))
         && (r.Err? <==> AllRefused(took, w.provider))
         && (r.Err? ==>
               && r.error.failure == ServiceUnavailable
               && r.error.retryAfterSecs == Some(HintSecs(took[|took| - 1].ToldMs())))
         && (world.Alone() ==>
               && AllOwn(took) && Settles(w.before.circuit, limiter.View().circuit, world.nowMs)
               && (r.Ok? ==> limiter.View().circuit.state != Open))
    }

    lemma AnswerEndsWait(w: WaitBegun, asked: int, decision: AcquireDecision)
      requires Answered(w, asked, decision)
      ensures if decision == Granted then WaitEnds(w, Ok(()))
              else decision.ms >= 1 && WaitEnds(w, Err(TimeoutError(decision.ms)))
      ensures asked <= world.nowMs
    {
      hide GlobalRateLimiter.View, Waited, Overdue, AllOwn, Settles, EndsInGrant, AllRefused, TurnTaken.ToldMs;
      hide HintSecs;
    }

    /** Reads the clock before the first attempt. */
    method StartInWait(ghost w: WaitBegun) returns (now: int)
      requires Valid() && w.before == limiter.View() && w.past == world.history
      requires w.fromMs == world.nowMs && w.sleptMs == world.sleptMs
      modifies world
      ensures Valid() && limiter.Repr() == old(limiter.Repr()) && InWait(w)
      ensures world.Elapses() && world.sleptMs == old(world.sleptMs) && world.calls == old(world.calls)
      ensures now == world.nowMs
    {
      hide GlobalRateLimiter.Valid, GlobalRateLimiter.View, Waited, Overdue, AllOwn, Settles;
      now := ReadClock();
      assert world.history[|w.past|..] == [];
      NothingAskedYet(w.before, w.provider, w.priority, w.fromMs, w.deadline);
    }

    /** The next attempt of a wait. */
    method AskInWait(ghost w: WaitBegun, provider: LlmProvider, priority: RequestPriority)
      returns (decision: AcquireDecision)
      requires Valid() && InWait(w) && provider == w.provider && priority == w.priority
      modifies world, limiter.Repr()
      ensures Valid() && fresh(limiter.Repr() - old(limiter.Repr()))
      ensures world.Elapses() && world.sleptMs == old(world.sleptMs) && world.calls == old(world.calls)
      ensures Answered(w, world.nowMs, decision)
    {
      hide GlobalRateLimiter.Valid, GlobalRateLimiter.View, TurnTaken.Grants, TurnTaken.ToldMs, Waited, AllOwn;
      hide Overdue, EndInAttempt, Unbroken, EndsInGrant, AllRefused, Settles;
      ghost var l, t, past, slept := limiter.View(), world.nowMs, world.history, world.sleptMs - w.sleptMs;
      decision := TryOnce(provider, priority);
      ghost var took, more, l', asked := past[|w.past|..], world.history[|past|..], limiter.View(), world.nowMs;
      TailGrows(w.past, past, world.history);
      AttemptInWait(w.before, took, l, provider, priority, w.fromMs, t, w.deadline, slept, more, l', asked);
      if world.Alone() {
        OneMoreOwn(took, more, provider, priority, asked);
        StillSettles(w.before.circuit, l.circuit, t, l'.circuit, asked);
        CircuitSettles(l.circuit, asked);
      }
    }

    /** Reads the clock after an answer. */
    method ClockInWait(ghost w: WaitBegun, ghost asked: int, decision: AcquireDecision) returns (now: int)
      requires Valid() && Answered(w, asked, decision)
      modifies world
      ensures Valid() && limiter.Repr() == old(limiter.Repr()) && Answered(w, asked, decision)
      ensures world.Elapses() && world.sleptMs == old(world.sleptMs) && world.calls == old(world.calls)
      ensures now == world.nowMs
    {
      hide GlobalRateLimiter.Valid, GlobalRateLimiter.View, TurnTaken.ToldMs, Overdue, AllOwn, Settles;
      hide EndsInGrant, AllRefused, Unbroken, ToldInAll, TurnTaken.Grants;
      ghost var took, l, t := world.history[|w.past|..], limiter.View(), world.nowMs;
      now := ReadClock();
      TimePasses(took, w.provider, w.priority, w.fromMs, t, now, w.deadline);
      hide Patient;
      StillSettles(w.before.circuit, l.circuit, t, l.circuit, now);
      CircuitSettles(l.circuit, now);
    }

    /** Sleeps after a refusal, until the wait it told is over or the deadline is there. */
    method NapInWait(ghost w: WaitBegun, ghost asked: int, decision: AcquireDecision, ms: int)
      requires Valid() && Answered(w, asked, decision) && decision != Granted
      requires 0 <= ms <= decision.ms && world.nowMs + ms >= Min(asked + decision.ms, w.deadline)
      modifies world
      ensures Valid() && limiter.Repr() == old(limiter.Repr()) && InWait(w)
      ensures world.Elapses() && world.nowMs == old(world.nowMs) + ms && world.sleptMs == old(world.sleptMs) + ms
      ensures world.calls == old(world.calls)
    {
      hide GlobalRateLimiter.Valid, GlobalRateLimiter.View, TurnTaken.ToldMs, Overdue, AllOwn, Settles;
      hide EndsInGrant, AllRefused, Waited;
      ghost var l, t := limiter.View(), world.nowMs;
      Pause(ms);
      StillSettles(w.before.circuit, l.circuit, t, l.circuit, world.nowMs);
      CircuitSettles(l.circuit, world.nowMs);
    }

    /**
     Waits until the limiter grants a slot, or gives up at the first refusal at or past the
     deadline. It never sleeps past the deadline, so it always returns.
     */
    method Acquire(provider: LlmProvider, priority: RequestPriority) returns (r: Result<(), LlmError>)
      requires Valid()
      modifies world, limiter.Repr()
      ensures Valid() && fresh(limiter.Repr() - old(limiter.Repr()))
      ensures world.Elapses() && world.calls == old(world.calls)
      ensures WaitEnds(WaitBegun(old(limiter.View()), old(world.history), provider, priority, old(world.nowMs),
                                 old(world.nowMs) + acquireTimeoutMs, old(world.sleptMs)), r)
      ensures r.Err? ==> world.nowMs >= old(world.nowMs) + acquireTimeoutMs
      ensures world.sleptMs <= old(world.sleptMs) + Max(acquireTimeoutMs, 0)
    {
      hide Valid, GlobalRateLimiter.View, InWait, Answered, WaitEnds, TimeoutError;
      ghost var w := WaitBegun(limiter.View(), world.history, provider, priority, world.nowMs,
                               world.nowMs + acquireTimeoutMs, world.sleptMs);
      var start := StartInWait(w);
      var deadline := start + acquireTimeoutMs;
      while true
        invariant Valid() && fresh(limiter.Repr() - old(limiter.Repr())) && InWait(w)
        invariant world.Elapses() && world.calls == old(world.calls) && w.fromMs <= start <= world.nowMs
        invariant world.sleptMs - w.sleptMs <= Min(world.nowMs - start, Max(acquireTimeoutMs, 0))
        decreases Max(deadline - world.nowMs, 0)
      {
        var decision := AskInWait(w, provider, priority);
        ghost var asked := world.nowMs;
        AnswerEndsWait(w, asked, decision);
        if decision == Granted {
          return Ok(());
        }
        var now := ClockInWait(w, asked, decision);
        if now >= deadline {
          AnswerEndsWait(w, asked, decision);
          return Err(TimeoutError(decision.ms));
        }
        NapInWait(w, asked, decision, Max(Min(decision.ms, deadline - now), 1));
      }
    }

    /** Tells the limiter of a success or a 429. */
    method Tell(provider: LlmProvider, outcome: Outcome, now: int)
      requires Valid()
      modifies limiter.Repr()
      ensures Valid() && limiter.Repr() == old(limiter.Repr())
      ensures limiter.View() == Told(old(limiter.View()), provider, outcome, now)
    {
      hide GlobalRateLimiter.Valid, GlobalRateLimiter.View, Limiter.AfterSuccess, Limiter.AfterRateLimit;
      if outcome.Ok? {
        limiter.RecordSuccess();
      } else if outcome.error.failure.RateLimited? {
        limiter.RecordRateLimit(provider, InMs(outcome.error.retryAfterSecs), now);
      }
    }

    /** Tells the limiter, at the current reading of the clock, how a call went. */
    method Report(provider: LlmProvider, outcome: Outcome) returns (now: int, before: Breaker, after: Breaker)
      requires Valid()
      modifies world, limiter.Repr()
      ensures Valid() && limiter.Repr() == old(limiter.Repr())
      ensures world.Elapses() && world.sleptMs == old(world.sleptMs) && world.calls == old(world.calls)
      ensures now == world.nowMs && before == old(limiter.View()).circuit && after == limiter.View().circuit
      ensures limiter.View() == Told(old(limiter.View()), provider, outcome, now)
      ensures world.history == old(world.history) + ToldTurns(old(limiter.View()), provider, outcome, now)
    {
      hide Told, ToldTurns;
      now := ReadClock();
      world.history := world.history + ToldTurns(limiter.View(), provider, outcome, now);
      before := limiter.circuit.View();
      Tell(provider, outcome, now);
      after := limiter.circuit.View();
    }

    method Write(record: CallRecord)
      requires Valid()
      modifies world
      ensures Valid() && limiter.Repr() == old(limiter.Repr()) && limiter.View() == old(limiter.View())
      ensures world.Elapses() && world.nowMs == old(world.nowMs) && world.sleptMs == old(world.sleptMs)
      ensures world.calls == old(world.calls) + [record] && world.history == old(world.history)
    {
      world.Log(record);
    }

    /** Tells the limiter how a call went, and logs it. */
    method Record(request: LlmRequest, startedMs: int, endedMs: int, outcome: Outcome)
      requires Valid() && startedMs <= endedMs <= world.nowMs
      modifies world, limiter.Repr()
      ensures Valid() && fresh(limiter.Repr() - old(limiter.Repr()))
      ensures world.Elapses() && world.sleptMs == old(world.sleptMs)
      ensures |world.calls| == |old(world.calls)| + 1 && old(world.calls) <= world.calls
      ensures var record := world.calls[|old(world.calls)|];
              && record.provider == request.provider
              && record.startedMs == startedMs && record.endedMs == endedMs && record.outcome == outcome
              && record.Recorded() && record.handledMs == world.nowMs
              && record.after == limiter.View().circuit
              && (world.Alone() ==> record.before == old(limiter.View().circuit))
      ensures outcome.Err? && outcome.error.failure.RateLimited? ==> Drained(request.provider)
      ensures old(world.history) <= world.history
      ensures var told := world.history[|old(world.history)|..];
              && Unbroken(old(limiter.View()), told, limiter.View())
              && NoAttempt(told) && OwnWithin(told, old(world.nowMs), world.nowMs)
              && (world.Alone() ==> AllOwn(told))
    {
      hide Valid, GlobalRateLimiter.View, Told, Breaker.Succeeded, Breaker.Limited;
      hide Unbroken, NoAttempt, OwnWithin, AllOwn, ToldTurns;
      ghost var l0, past := limiter.View(), world.history;
      LetOthersIn();
      ghost var l, others, before := limiter.View(), world.history[|past|..], world.history;
      var now, b, after := Report(request.provider, outcome);
      ToldCases(l, request.provider, outcome, now);
      TellingIsATurn(l0, others, l, request.provider, outcome, now);
      TailGrows(past, before, world.history);
      OwnWithinSince(others + ToldTurns(l, request.provider, outcome, now), old(world.nowMs), now, now);
      Write(CallRecord(request.provider, startedMs, endedMs, outcome, now, b, after));
    }

    /** One round: wait for a slot, make the call, record how it went. */
    method Attempt(request: LlmRequest) returns (slot: Result<(), LlmError>, outcome: Outcome)
      requires Valid()
      modifies world, limiter.Repr()
      ensures Valid() && fresh(limiter.Repr() - old(limiter.Repr()))
      ensures world.Elapses() && world.sleptMs <= old(world.sleptMs) + Max(acquireTimeoutMs, 0)
      ensures old(world.history) <= world.history && old(world.calls) <= world.calls
      ensures slot.Err? ==>
                && world.calls == old(world.calls)
                && slot.error.failure == ServiceUnavailable && slot.error.retryAfterSecs.Some?
                && TimedOut(world.history[|old(world.history)|..], request.provider, request.priority,
                            old(world.nowMs), world.nowMs, acquireTimeoutMs)
      ensures var took := world.history[|old(world.history)|..];
              && Accounted(old(limiter.View()), took, world.calls[|old(world.calls)|..], limiter.View())
              && OwnWithin(took, old(world.nowMs), world.nowMs)
              && (world.Alone() ==> AllOwn(took))
      ensures slot.Ok? ==>
                && |world.calls| == |old(world.calls)| + 1
                && var record := world.calls[|old(world.calls)|];
                && world.calls == old(world.calls) + [record]
                && record.Recorded() && record.provider == request.provider
                && record.outcome == outcome == world.client(|old(world.calls)|, request)
                && old(world.nowMs) <= record.startedMs && record.handledMs <= world.nowMs
                && (record.WasRateLimited() ==> Drained(request.provider))
      ensures world.Alone() && QuietLog(old(world.calls), old(limiter.View().circuit), old(world.nowMs)) ==>
                QuietLog(world.calls, limiter.View().circuit, world.nowMs)
    {
      hide Valid, GlobalRateLimiter.View, Settles, CallRecord.Recorded, Waited, EndsInGrant, AllRefused;
      hide Unbroken, NoAttempt, OwnWithin, AllOwn, Accounted, TimedOut, QuietLog, Drained;
      ghost var calls, circuit, t0, slept0 := world.calls, limiter.View().circuit, world.nowMs, world.sleptMs;
      ghost var l0, past, end := limiter.View(), world.history, t0 + acquireTimeoutMs;
      slot := Acquire(request.provider, request.priority);
      ghost var l, waited, t := limiter.View(), world.history[|past|..], world.nowMs;
      ghost var slept := world.sleptMs - slept0;
      QuietUntilGranted(calls, circuit, t0, l.circuit, t);
      if slot.Err? {
        outcome := Err(slot.error);
        RefusalAccounts(l0, waited, l, request.provider, request.priority, t0, t, end, slept);
        WaitTimedOut(l0, waited, l, request.provider, request.priority, t0, t, acquireTimeoutMs, slept);
        assert world.calls[|calls|..] == [];
        return;
      }
      ghost var before := world.history;
      var startedMs, endedMs;
      startedMs, endedMs, outcome := CallModel(request);
      Record(request, startedMs, endedMs, outcome);
      ghost var record, told := world.calls[|calls|], world.history[|before|..];
      assert world.calls == calls + [record];
      assert world.calls[|calls|..] == [record];
      TailGrows(past, before, world.history);
      OwnWithinSince(told, t, endedMs, world.nowMs);
      RoundAccounts(l0, waited, l, told, limiter.View(), record, request.priority, t0, t, end, slept, world.nowMs);
      OwnTogether(waited, told);
      if world.Alone() && QuietLog(calls, circuit, t0) {
        QuietLogGrows(calls, l.circuit, t, record);
      }
    }

    /** The dealings of a request since `start`, which holds what was there before it. */
    ghost predicate Tracks(start: Dealings, d: Dealings)
      reads world, limiter, limiter.circuit, limiter.buckets.Values
    {
      && start.turns <= world.history && start.made <= world.calls
      && d == Dealings(start.before, world.history[|start.turns|..], limiter.View(), |start.made|,
                       world.calls[|start.made|..], start.fromMs, world.nowMs, world.sleptMs - start.sleptMs)
    }

    lemma TracksIs(start: Dealings, d: Dealings)
      requires Tracks(start, d)
      ensures start.turns <= world.history && start.made <= world.calls
      ensures d == Dealings(start.before, world.history[|start.turns|..], limiter.View(), |start.made|,
                            world.calls[|start.made|..], start.fromMs, world.nowMs, world.sleptMs - start.sleptMs)
    {
    }

    lemma StartTracking(start: Dealings, request: LlmRequest) returns (d: Dealings)
      requires start == Dealings(limiter.View(), world.history, limiter.View(), |world.calls|, world.calls,
                                 world.nowMs, world.nowMs, world.sleptMs)
      ensures Tracks(start, d) && d.made == [] && AllOwn(d.turns)
      ensures UnderWay(d, policy, request, world.client, acquireTimeoutMs)
    {
      hide GlobalRateLimiter.View, UnderWay;
      d := Dealings(start.before, [], start.before, start.first, [], start.fromMs, start.fromMs, 0);
      NothingDoneYet(start.before, start.first, start.fromMs, policy, request, world.client, acquireTimeoutMs);
      assert world.history[|start.turns|..] == [] && world.calls[|start.made|..] == [];
    }

    /** One round of a request under way. */
    method Round(request: LlmRequest, ghost start: Dealings, ghost d: Dealings)
      returns (slot: Result<(), LlmError>, outcome: Outcome, ghost d': Dealings)
      requires Valid() && Tracks(start, d) && UnderWay(d, policy, request, world.client, acquireTimeoutMs)
      modifies world, limiter.Repr()
      ensures Valid() && fresh(limiter.Repr() - old(limiter.Repr())) && world.Elapses()
      ensures Tracks(start, d')
      ensures slot.Err? ==> Finished(d', policy, request, world.client, acquireTimeoutMs, Err(slot.error))
      ensures slot.Ok? ==>
                && |d'.made| == |d.made| + 1
                && if outcome.Ok? then Finished(d', policy, request, world.client, acquireTimeoutMs, outcome)
                   else
                     match policy.Decide(outcome.error.failure, |d'.made|, outcome.error.retryAfterSecs)
                     case GiveUp => Finished(d', policy, request, world.client, acquireTimeoutMs, outcome)
                     case Retry(delay) =>
                       && |d'.made| < Max(policy.maxAttempts, 1)
                       && var pause := Max(delay * 1000, 0);
                          forall t :: t >= world.nowMs + pause ==>
                            UnderWay(d'.Rested(t, pause), policy, request, world.client, acquireTimeoutMs)
      ensures world.Alone() && AllOwn(d.turns) ==> AllOwn(d'.turns)
      ensures world.Alone() && QuietLog(old(world.calls), old(limiter.View().circuit), old(world.nowMs)) ==>
                QuietLog(world.calls, limiter.View().circuit, world.nowMs)
    {
      hide Valid, GlobalRateLimiter.View, CallRecord.Recorded, QuietLog, Drained, UnderWay, Finished;
      hide PauseMs, RetryPolicy.DelaySecs, RetryPolicy.Decide, Accounted, OwnWithin, AllOwn, TimedOut;
      ghost var before, calls, slept := world.history, world.calls, world.sleptMs;
      slot, outcome := Attempt(request);
      ghost var more, l, now := world.history[|before|..], limiter.View(), world.nowMs;
      TailGrows(start.turns, before, world.history);
      OwnTogether(d.turns, more);
      if slot.Err? {
        assert world.calls[|calls|..] == [] && d.made + [] == d.made;
        RoundTimesOut(d, policy, request, world.client, acquireTimeoutMs, more, l, now, world.sleptMs - slept,
                      slot.error);
        d' := d.With(more, l, [], now, world.sleptMs - slept);
      } else {
        ghost var record := world.calls[|calls|];
        assert world.calls[|calls|..] == [record];
        assert world.calls[|start.made|..] == d.made + [record];
        RoundAnswered(d, policy, request, world.client, acquireTimeoutMs, more, l, record, now, world.sleptMs - slept);
        d' := d.With(more, l, [record], now, world.sleptMs - slept);
      }
    }

    /** The pause between two rounds. */
    method Rest(ms: int, ghost start: Dealings, ghost d: Dealings) returns (ghost d': Dealings)
      requires Valid() && Tracks(start, d)
      modifies world
      ensures Valid() && limiter.Repr() == old(limiter.Repr()) && world.Elapses()
      ensures world.nowMs == old(world.nowMs) + Max(ms, 0)
      ensures d' == d.Rested(world.nowMs, Max(ms, 0)) && Tracks(start, d')
      ensures QuietLog(old(world.calls), old(limiter.View().circuit), old(world.nowMs)) ==>
                QuietLog(world.calls, limiter.View().circuit, world.nowMs)
    {
      hide GlobalRateLimiter.View, QuietLog;
      SleepKeepsQuiet(world.calls, limiter.View().circuit, world.nowMs);
      Pause(ms);
      d' := d.Rested(world.nowMs, Max(ms, 0));
    }

    /**
     Runs one request to an end, which `Finished` describes for the calls it added to the log and the
     turns it took at the limiter. Used alone, it never calls through an open breaker.
     */
    method Complete(request: LlmRequest) returns (r: Outcome)
      requires Valid()
      modifies world, limiter.Repr()
      ensures Valid() && fresh(limiter.Repr() - old(limiter.Repr()))
      ensures world.Elapses() && old(world.calls) <= world.calls && old(world.history) <= world.history
      ensures var took, made := world.history[|old(world.history)|..], world.calls[|old(world.calls)|..];
              && Finished(
                   Dealings(old(limiter.View()), took, limiter.View(), |old(world.calls)|, made,
                            old(world.nowMs), world.nowMs, world.sleptMs - old(world.sleptMs)),
                   policy, request, world.client, acquireTimeoutMs, r)
              && (world.Alone() ==> AllOwn(took))
      ensures world.Alone() && QuietLog(old(world.calls), old(limiter.View().circuit), old(world.nowMs)) ==>
                QuietLog(world.calls, limiter.View().circuit, world.nowMs)
    {
      hide Valid, GlobalRateLimiter.View, QuietLog, UnderWay, Finished, Tracks, AllOwn;
      hide RetryPolicy.Decide, RetryPolicy.DelaySecs, CallRecord.Recorded, PauseMs;
      var attempts: nat := 0;
      ghost var start := Dealings(limiter.View(), world.history, limiter.View(), |world.calls|, world.calls,
                                  world.nowMs, world.nowMs, world.sleptMs);
      ghost var d := StartTracking(start, request);
      while true
        invariant Valid() && fresh(limiter.Repr() - old(limiter.Repr())) && world.Elapses()
        invariant Tracks(start, d) && attempts == |d.made| < Max(policy.maxAttempts, 1)
        invariant UnderWay(d, policy, request, world.client, acquireTimeoutMs)
        invariant world.Alone() ==> AllOwn(d.turns)
        invariant world.Alone() && QuietLog(start.made, start.before.circuit, start.fromMs) ==>
                    QuietLog(world.calls, limiter.View().circuit, world.nowMs)
        decreases Max(policy.maxAttempts, 1) - attempts
      {
        var slot, outcome;
        slot, outcome, d := Round(request, start, d);
        TracksIs(start, d);
        if slot.Err? {
          return Err(slot.error);
        }
        if outcome.Ok? {
          return outcome;
        }
        attempts := attempts + 1;
        var decision := policy.Decide(outcome.error.failure, attempts, outcome.error.retryAfterSecs);
        if decision.GiveUp? {
          return outcome;
        }
        d := Rest(decision.afterSecs * 1000, start, d);
      }
    }
  }

  /**
   The backoff as documented: call `k + 1` comes at least `base * 2^(k-1)` seconds, capped, after
   failure `k`, and never sooner than the server's hint.
   */
  lemma CallsBackOff(policy: RetryPolicy, made: seq<CallRecord>, r: Outcome, inVain: bool, k: nat)
    requires Ends(policy, made, r, inVain) && 1 <= k < |made|
    requires 0 <= policy.baseSecs <= I64_MAX && IsI64(policy.maxSecs)
    requires k <= 63 || policy.baseSecs != 1 || policy.maxSecs <= Pow2(62)
    ensures var wait := made[k].startedMs - made[k - 1].endedMs;
            && wait >= 1000 * Min(policy.baseSecs * Pow2(k - 1), policy.maxSecs)
            && (made[k - 1].Hint().Some? ==> wait >= 1000 * made[k - 1].Hint().value)
            && made[k - 1].FailedRetryably()
  {
    BackoffIsCappedDoubling(policy, k);
    assert made[..|made| - 1][k - 1].FailedRetryably();
    hide Pow2, RetryPolicy.BackoffSecs, CallRecord.Recorded;
  }

  lemma RecordedEndsBeforeHandled(record: CallRecord)
    requires record.Recorded()
    ensures record.startedMs <= record.endedMs <= record.handledMs
  {
  }

  /** Waiting leaves the log quiet, whatever the breaker settles into meanwhile. */
  lemma QuietLogWaits(calls: seq<CallRecord>, circuit: Breaker, now: int, circuit': Breaker, now': int)
    requires QuietLog(calls, circuit, now) && Settles(circuit, circuit', now') && now <= now'
    ensures QuietLog(calls, circuit', now')
  {
    hide CallRecord.Recorded;
    if calls != [] {
      SettlesOn(calls[|calls| - 1].after, circuit, circuit', now, now');
    }
  }

  lemma QuietUntilGranted(calls: seq<CallRecord>, circuit: Breaker, now: int, circuit': Breaker, now': int)
    requires now <= now'
    ensures QuietLog(calls, circuit, now) && Settles(circuit, circuit', now') ==> QuietLog(calls, circuit', now')
  {
    if QuietLog(calls, circuit, now) && Settles(circuit, circuit', now') {
      QuietLogWaits(calls, circuit, now, circuit', now');
    }
  }

  lemma SleepKeepsQuiet(calls: seq<CallRecord>, circuit: Breaker, now: int)
    ensures QuietLog(calls, circuit, now) ==> forall t :: now <= t ==> QuietLog(calls, circuit, t)
  {
    if QuietLog(calls, circuit, now) {
      forall t | now <= t
        ensures QuietLog(calls, circuit, t)
      {
        QuietLogWaits(calls, circuit, now, circuit, t);
      }
    }
  }

  /** A call made on the breaker the log ends with keeps the log quiet. */
  lemma QuietLogGrows(calls: seq<CallRecord>, circuit: Breaker, now: int, record: CallRecord)
    requires QuietLog(calls, circuit, now) && circuit.state != Open
    requires record.Recorded() && record.before == circuit && now <= record.startedMs
    ensures QuietLog(calls + [record], record.after, record.handledMs)
  {
    RecordedEndsBeforeHandled(record);
    hide CallRecord.Recorded;
    if calls != [] {
      SettlesOn(calls[|calls| - 1].after, circuit, circuit, now, record.startedMs);
    }
  }

  /**
   With one engine as the limiter's only caller, a 429 that leaves the breaker open keeps every
   later call out until both the configured cooldown and the seconds of the server's hint have
   passed.
   */
  lemma NoCallInsideOpenWindow(calls: seq<CallRecord>, circuit: Breaker, now: int, i: nat, j: nat)
    requires QuietLog(calls, circuit, now) && i < j < |calls|
    requires calls[i].WasRateLimited() && calls[i].after.state == Open
    ensures calls[j].startedMs >= SaturatingAdd(calls[i].handledMs, calls[i].before.cooldownMs)
    ensures calls[i].Hint().Some? ==>
              calls[j].startedMs >= SaturatingAdd(calls[i].handledMs, 1000 * calls[i].Hint().value)
  {
    assert Settles(calls[i].after, calls[i + 1].before, calls[i + 1].startedMs);
    assert calls[i + 1].Recorded();
  }
}
