/**
 The process-wide rate limiter: one circuit breaker and one token bucket per provider, shared by
 every caller. Each public operation runs under a single lock, so concurrent callers are an
 arbitrary sequence of `LimiterEvent`s. `Limiter` is its value; `GlobalRateLimiter` the object.
 */
module RateLimiter {
  import opened CircuitBreakers
  import opened Numbers
  import opened TokenBuckets
  import opened Wrappers

  datatype LlmProvider = Anthropic | OpenRouter

  datatype RequestPriority = Low | Normal | Manual

  datatype RateLimitConfig = RateLimitConfig(
    defaultRpm: nat,
    circuitFailureThreshold: nat,
    circuitSuccessThreshold: nat,
    circuitOpenMs: int,
    normalReserveFraction: real)

  datatype AcquireDecision = Granted | RetryAfterMs(ms: int) | CircuitOpenMs(ms: int)

  /** The fraction of a bucket a priority must leave untouched. */
  function ReserveFor(priority: RequestPriority, f: real): real {
    match priority
    case Manual => 0.0
    case Normal => f
    case Low => f * 2.0
  }

  /** How many tokens of a bucket a fraction of its capacity is. */
  function Share(fraction: real, capacity: real): real {
    fraction * capacity
  }

  lemma ShareIsMonotone(f: real, g: real, capacity: real)
    requires 0.0 <= f <= g && capacity >= 0.0
    ensures 0.0 <= Share(f, capacity) <= Share(g, capacity)
  {
  }

  datatype Limiter = Limiter(
    buckets: map<LlmProvider, Bucket>, circuit: Breaker, config: RateLimitConfig)
  {
    ghost predicate Valid() {
      && (forall p | p in buckets :: buckets[p].Valid())
      && circuit.Configured()
      && config.normalReserveFraction >= 0.0
    }

    /** The provider's bucket, or the full one its first use would create. */
    function BucketFor(p: LlmProvider, now: int): Bucket {
      if p in buckets then buckets[p] else FullBucket(config.defaultRpm, now)
    }

    function ReserveTokens(p: LlmProvider, priority: RequestPriority, now: int): real {
      Share(ReserveFor(priority, config.normalReserveFraction), BucketFor(p, now).capacity)
    }

    predicate Grants(p: LlmProvider, priority: RequestPriority, now: int) {
      circuit.Allows(now) && BucketFor(p, now).Grants(ReserveTokens(p, priority, now), now)
    }

    /** The wait reported to a caller whom the bucket refuses. */
    function WaitMs(p: LlmProvider, priority: RequestPriority, now: int): int
      requires BucketFor(p, now).refillPerMs > 0.0
    {
      BucketFor(p, now).TimeUntilMs(1.0 + ReserveTokens(p, priority, now), now)
    }

    function AfterTake(p: LlmProvider, priority: RequestPriority, now: int): Limiter {
      this.(buckets := buckets[p := BucketFor(p, now).Asked(ReserveTokens(p, priority, now), now)])
    }

    function AfterAcquire(p: LlmProvider, priority: RequestPriority, now: int): Limiter {
      if circuit.Allows(now) then this.(circuit := circuit.Asked(now)).AfterTake(p, priority, now) else this
    }

    /** The verdict for one attempt: the circuit first, then the bucket less the priority's reserve. */
    function Decision(p: LlmProvider, priority: RequestPriority, now: int): AcquireDecision
      requires BucketFor(p, now).refillPerMs > 0.0
    {
      if !circuit.Allows(now) then CircuitOpenMs(circuit.RetryAfterMs(now))
      else if Grants(p, priority, now) then Granted
      else RetryAfterMs(WaitMs(p, priority, now))
    }

    function AfterSuccess(): Limiter {
      this.(circuit := circuit.Succeeded())
    }

    function AfterRateLimit(p: LlmProvider, hint: Option<int>, now: int): Limiter {
      this.(circuit := circuit.Limited(now, hint),
            buckets := if p in buckets then buckets[p := buckets[p].Drained(now)] else buckets)
    }
  }

  function NewLimiter(config: RateLimitConfig): Limiter {
    Limiter(map[],
            NewBreaker(config.circuitFailureThreshold, config.circuitSuccessThreshold, config.circuitOpenMs),
            config)
  }

  /** What the telemetry snapshot reports: for each bucket, by provider name, its tokens and capacity. */
  datatype RateLimitStatus = RateLimitStatus(
    circuitState: CircuitState, retryAfterMs: int, buckets: seq<(string, real, real)>)

  function NameOf(p: LlmProvider): string {
    match p
    case Anthropic => "anthropic"
    case OpenRouter => "openrouter"
  }

  /** Alphabetical order of names, which differ in their first letters. */
  predicate Precedes(a: string, b: string) {
    a != [] && b != [] && a[0] < b[0]
  }

  /** One instance shared by the whole process. */
  class GlobalRateLimiter {
    var buckets: map<LlmProvider, TokenBucket>
    const circuit: CircuitBreaker
    const config: RateLimitConfig

    ghost function Repr(): set<object>
      reads this
    {
      {this, circuit} + buckets.Values
    }

    ghost predicate Valid()
      reads this, Repr()
    {
      && (forall p, q | p in buckets && q in buckets && p != q :: buckets[p] != buckets[q])
      && (forall p | p in buckets :: buckets[p].View().Valid())
      && circuit.View().Configured()
      && config.normalReserveFraction >= 0.0
    }

    function View(): (l: Limiter)
      reads this, circuit, buckets.Values
      ensures l.buckets.Keys == buckets.Keys && l.circuit == circuit.View() && l.config == config
      ensures forall p | p in buckets :: l.buckets[p] == buckets[p].View()
    {
      Limiter(map p | p in buckets :: buckets[p].View(), circuit.View(), config)
    }

    lemma ViewIsValid()
      requires Valid()
      ensures View().Valid()
    {
    }

    constructor (config: RateLimitConfig)
      requires config.normalReserveFraction >= 0.0
      ensures Valid() && fresh(Repr()) && View() == NewLimiter(config)
    {
      this.config := config;
      buckets := map[];
      circuit := new CircuitBreaker(config.circuitFailureThreshold, config.circuitSuccessThreshold,
                                    config.circuitOpenMs);
    }

    /** Seeds a provider with its own per-minute limit, replacing any bucket it had. */
    method WithProvider(provider: LlmProvider, rpm: nat, now: int)
      requires Valid()
      modifies this
      ensures Valid() && fresh(Repr() - old(Repr()))
      ensures View() == old(View()).(buckets := old(View()).buckets[provider := FullBucket(rpm, now)])
    {
      hide FullBucket, Bucket.Valid, Bucket.Refilled;
      var bucket := new TokenBucket.PerMinute(rpm, now);
      assert forall p | p in buckets :: buckets[p] != bucket && buckets[p].View().Valid();
      buckets := buckets[provider := bucket];
      assert View().buckets == old(View()).buckets[provider := FullBucket(rpm, now)];
    }

    /** The provider's bucket, created full on its first use. */
    method BucketFor(provider: LlmProvider, now: int) returns (bucket: TokenBucket)
      requires Valid()
      modifies this
      ensures Valid() && fresh(Repr() - old(Repr()))
      ensures provider in buckets && bucket == buckets[provider]
      ensures View() == old(View()).(buckets := old(View()).buckets[provider := old(View()).BucketFor(provider, now)])
    {
      if provider !in buckets {
        bucket := new TokenBucket.PerMinute(config.defaultRpm, now);
        buckets := buckets[provider := bucket];
      } else {
        bucket := buckets[provider];
      }
      assert View().buckets == old(View()).buckets[provider := old(View()).BucketFor(provider, now)];
    }

    method AskCircuit(now: int) returns (allowed: bool)
      requires Valid()
      modifies circuit
      ensures Valid() && allowed == old(View()).circuit.Allows(now)
      ensures View() == old(View()).(circuit := old(View()).circuit.Asked(now))
    {
      hide Bucket.Valid;
      allowed := circuit.Allows(now);
      assert View().buckets == old(View()).buckets;
    }

    method Spend(provider: LlmProvider, reserve: real, now: int) returns (granted: bool)
      requires Valid() && provider in buckets && reserve >= 0.0
      modifies buckets[provider]
      ensures Valid() && granted == old(View()).buckets[provider].Grants(reserve, now)
      ensures var was := old(View());
              View() == was.(buckets := was.buckets[provider := was.buckets[provider].Asked(reserve, now)])
    {
      hide Bucket.Valid, Bucket.Asked, Bucket.Grants;
      granted := buckets[provider].TryAcquireReserving(reserve, now);
      assert View().buckets == old(View()).buckets[provider := old(View()).buckets[provider].Asked(reserve, now)];
    }

    method DrainBucket(provider: LlmProvider, now: int)
      requires Valid() && provider in buckets
      modifies buckets[provider]
      ensures Valid()
      ensures var was := old(View());
              View() == was.(buckets := was.buckets[provider := was.buckets[provider].Drained(now)])
    {
      hide Bucket.Valid, Bucket.Drained;
      buckets[provider].Drain(now);
      assert View().buckets == old(View()).buckets[provider := old(View()).buckets[provider].Drained(now)];
    }

    /** The bucket half of an attempt: create on first use, then spend above the priority's reserve. */
    method Take(provider: LlmProvider, priority: RequestPriority, now: int)
      returns (granted: bool, waitMs: int)
      requires Valid()
      modifies this, buckets.Values
      ensures Valid() && fresh(Repr() - old(Repr()))
      ensures old(View()).BucketFor(provider, now).Valid()
      ensures old(View()).BucketFor(provider, now).refillPerMs > 0.0
      ensures View() == old(View()).AfterTake(provider, priority, now)
      ensures var was := old(View());
              granted == was.BucketFor(provider, now).Grants(was.ReserveTokens(provider, priority, now), now)
      ensures !granted ==> waitMs == old(View()).WaitMs(provider, priority, now)
    {
      hide Accrued, Share, Bucket.Refilled, Bucket.TimeUntilMs, Bucket.Grants, Bucket.Asked, Bucket.Valid, FullBucket;
      hide View, Limiter.WaitMs, Limiter.Valid, Limiter.ReserveTokens, Limiter.BucketFor, Limiter.AfterTake, ReserveFor;
      ghost var before := View();
      ViewIsValid();
      TakeInSteps(before, provider, priority, now);
      var bucket := BucketFor(provider, now);
      assert bucket.View() == before.BucketFor(provider, now);
      var reserve := Share(ReserveFor(priority, config.normalReserveFraction), bucket.capacity);
      granted := Spend(provider, reserve, now);
      assert bucket.View() == View().buckets[provider];
      waitMs := 0;
      if !granted {
        waitMs := bucket.View().TimeUntilMs(1.0 + reserve, now);
      }
    }

    method TryAcquire(provider: LlmProvider, priority: RequestPriority, now: int)
      returns (decision: AcquireDecision)
      requires Valid()
      modifies Repr()
      ensures Valid() && fresh(Repr() - old(Repr()))
      ensures old(View()).BucketFor(provider, now).refillPerMs > 0.0
      ensures View() == old(View()).AfterAcquire(provider, priority, now)
      ensures decision == old(View()).Decision(provider, priority, now)
      ensures decision != Granted ==> decision.ms >= 1
    {
      hide Accrued, Share, Bucket.TimeUntilMs, Bucket.Grants, Bucket.Asked, Bucket.Valid, FullBucket, View;
      hide Limiter.AfterTake, Limiter.AfterAcquire, Limiter.Valid, Limiter.Decision, Limiter.BucketFor;
      hide Limiter.ReserveTokens, Limiter.WaitMs;
      ViewIsValid();
      AcquireInSteps(View(), provider, priority, now);
      var allowed := AskCircuit(now);
      if allowed {
        var granted, waitMs := Take(provider, priority, now);
        decision := if granted then Granted else RetryAfterMs(waitMs);
      } else {
        decision := CircuitOpenMs(circuit.View().RetryAfterMs(now));
      }
    }

    method RecordSuccess()
      requires Valid()
      modifies Repr()
      ensures Valid() && Repr() == old(Repr())
      ensures View() == old(View()).AfterSuccess()
    {
      circuit.OnSuccess();
      assert View().buckets == old(View()).buckets;
    }

    /** A 429 from `provider` trips the shared circuit and drains that provider's bucket. */
    method RecordRateLimit(provider: LlmProvider, hint: Option<int>, now: int)
      requires Valid()
      modifies Repr()
      ensures Valid() && Repr() == old(Repr())
      ensures View() == old(View()).AfterRateLimit(provider, hint, now)
    {
      hide Bucket.Valid, Bucket.Drained;
      circuit.OnRateLimit(now, hint);
      assert View().buckets == old(View()).buckets;
      if provider in buckets {
        DrainBucket(provider, now);
      }
    }

    /** A read-only snapshot, sorted by name: it reports what each bucket would hold and changes nothing. */
    method Status(now: int) returns (status: RateLimitStatus)
      requires Valid()
      ensures status.circuitState == View().circuit.state
      ensures status.retryAfterMs == View().circuit.RetryAfterMs(now)
      ensures forall row :: row in status.buckets <==>
                exists p :: p in View().buckets
                            && row == (NameOf(p), View().buckets[p].Available(now), View().buckets[p].capacity)
      ensures |status.buckets| == |View().buckets|
      ensures forall i, j :: 0 <= i < j < |status.buckets| ==> Precedes(status.buckets[i].0, status.buckets[j].0)
    {
      hide Bucket.Refilled, Bucket.Valid;
      var rows := [];
      if Anthropic in buckets {
        rows := rows + [("anthropic", buckets[Anthropic].View().Available(now), buckets[Anthropic].capacity)];
      }
      if OpenRouter in buckets {
        rows := rows + [("openrouter", buckets[OpenRouter].View().Available(now), buckets[OpenRouter].capacity)];
      }
      KeysAreProviders(View().buckets);
      status := RateLimitStatus(circuit.state, circuit.View().RetryAfterMs(now), rows);
    }

    /** One caller's turn at the shared limiter. */
    method TakeTurn(e: LimiterEvent)
      requires Valid()
      modifies Repr()
      ensures Valid() && fresh(Repr() - old(Repr()))
      ensures View() == Turn(old(View()), e)
    {
      hide Accrued, Share, Limiter.AfterAcquire, Limiter.AfterSuccess, Limiter.AfterRateLimit, Limiter.Decision;
      hide Bucket.Refilled, Bucket.Valid, View, Valid;
      match e {
        case Acquire(p, priority, now) => var _ := TryAcquire(p, priority, now);
        case Succeeded => RecordSuccess();
        case RateLimited(p, hint, now) => RecordRateLimit(p, hint, now);
        case Observe(now) => var _ := Status(now);
      }
    }

    /** Other callers' turns, one after another. */
    method Replay(events: seq<LimiterEvent>)
      requires Valid()
      modifies Repr()
      ensures Valid() && fresh(Repr() - old(Repr()))
      ensures View() == Run(old(View()), events)
    {
      hide Turn, View, Valid, Bucket.Valid;
      for i := 0 to |events|
        invariant Valid() && fresh(Repr() - old(Repr()))
        invariant View() == Run(old(View()), events[..i])
      {
        assert events[..i + 1][..i] == events[..i];
        TakeTurn(events[i]);
      }
      assert events[..|events|] == events;
    }
  }

  lemma KeysAreProviders<T>(m: map<LlmProvider, T>)
    ensures |m| == (if Anthropic in m then 1 else 0) + if OpenRouter in m then 1 else 0
  {
    var keys := (if Anthropic in m then {Anthropic} else {}) + if OpenRouter in m then {OpenRouter} else {};
    forall p | p in m
      ensures p in keys
    {
      match p
      case Anthropic =>
      case OpenRouter =>
    }
    assert m.Keys == keys;
  }

  /** Reading the wait off the bucket that was just refilled gives the same wait. */
  lemma TakenWait(l: Limiter, p: LlmProvider, priority: RequestPriority, now: int)
    requires l.Valid()
    ensures var b, reserve := l.BucketFor(p, now), l.ReserveTokens(p, priority, now);
            && b.refillPerMs > 0.0
            && b.Asked(reserve, now).refillPerMs > 0.0
            && (!b.Grants(reserve, now) ==>
                  b.Asked(reserve, now).TimeUntilMs(1.0 + reserve, now) == l.WaitMs(p, priority, now))
  {
    AcquireKeepsValid(l, p, priority, now);
    AskedIsValid(l.BucketFor(p, now), l.ReserveTokens(p, priority, now), now);
    hide Accrued, Share;
  }

  /** Taking is looking the bucket up, then spending from it less the reserve. */
  lemma TakeInSteps(l: Limiter, p: LlmProvider, priority: RequestPriority, now: int)
    requires l.Valid()
    ensures var b := l.BucketFor(p, now);
            var reserve := Share(ReserveFor(priority, l.config.normalReserveFraction), b.capacity);
            var found := l.(buckets := l.buckets[p := b]);
            && b.Valid() && b.refillPerMs > 0.0 && reserve >= 0.0 && reserve == l.ReserveTokens(p, priority, now)
            && found.(buckets := found.buckets[p := b.Asked(reserve, now)]) == l.AfterTake(p, priority, now)
            && b.Asked(reserve, now).refillPerMs > 0.0
            && (!b.Grants(reserve, now) ==>
                  b.Asked(reserve, now).TimeUntilMs(1.0 + reserve, now) == l.WaitMs(p, priority, now))
  {
    AcquireKeepsValid(l, p, priority, now);
    TakenWait(l, p, priority, now);
    hide Accrued, Share, Bucket.Asked, Bucket.Grants, Bucket.TimeUntilMs;
    var b := l.BucketFor(p, now);
    var after := b.Asked(l.ReserveTokens(p, priority, now), now);
    assert l.buckets[p := b][p := after] == l.buckets[p := after];
  }

  /** An attempt is asking the circuit, and then, if it allows, taking from the bucket. */
  lemma AcquireInSteps(l: Limiter, p: LlmProvider, priority: RequestPriority, now: int)
    requires l.Valid()
    ensures var asked, b := l.(circuit := l.circuit.Asked(now)), l.BucketFor(p, now);
            && b.refillPerMs > 0.0
            && asked.BucketFor(p, now) == b
            && asked.ReserveTokens(p, priority, now) == l.ReserveTokens(p, priority, now)
            && asked.WaitMs(p, priority, now) == l.WaitMs(p, priority, now)
            && (l.circuit.Allows(now) ==> l.AfterAcquire(p, priority, now) == asked.AfterTake(p, priority, now))
            && (!l.circuit.Allows(now) ==> l.AfterAcquire(p, priority, now) == l == asked)
            && l.Decision(p, priority, now)
                 == (if !l.circuit.Allows(now) then CircuitOpenMs(l.circuit.RetryAfterMs(now))
                     else if b.Grants(l.ReserveTokens(p, priority, now), now) then Granted
                     else RetryAfterMs(l.WaitMs(p, priority, now)))
            && (l.Decision(p, priority, now) != Granted ==> l.Decision(p, priority, now).ms >= 1)
  {
    hide Accrued, Share, Bucket.TimeUntilMs, Bucket.Grants, Bucket.Asked, Bucket.Valid, FullBucket;
    RefusalIsPositive(l, p, priority, now);
  }

  /** Every refusal names a wait of at least one millisecond. */
  lemma RefusalIsPositive(l: Limiter, p: LlmProvider, priority: RequestPriority, now: int)
    requires l.Valid()
    ensures l.BucketFor(p, now).refillPerMs > 0.0
    ensures l.Decision(p, priority, now) != Granted ==> l.Decision(p, priority, now).ms >= 1
  {
    AcquireKeepsValid(l, p, priority, now);
    var b, reserve := l.BucketFor(p, now), l.ReserveTokens(p, priority, now);
    hide Accrued, Share;
    if !b.Grants(reserve, now) {
      RefusalWaitIsPositive(b, reserve, now);
    }
  }

  lemma AcquireKeepsValid(l: Limiter, p: LlmProvider, priority: RequestPriority, now: int)
    requires l.Valid()
    ensures l.BucketFor(p, now).Valid() && l.ReserveTokens(p, priority, now) >= 0.0
    ensures l.AfterAcquire(p, priority, now).Valid()
  {
    ShareIsMonotone(0.0, ReserveFor(priority, l.config.normalReserveFraction), l.BucketFor(p, now).capacity);
    hide Accrued, Share;
    AskedIsValid(l.BucketFor(p, now), l.ReserveTokens(p, priority, now), now);
  }

  // ---------- Runs of interleaved callers ----------

  datatype LimiterEvent =
    | Acquire(provider: LlmProvider, priority: RequestPriority, now: int)
    | Succeeded
    | RateLimited(provider: LlmProvider, hint: Option<int>, now: int)
    | Observe(now: int)

  function Turn(l: Limiter, e: LimiterEvent): Limiter {
    match e
    case Acquire(p, priority, now) => l.AfterAcquire(p, priority, now)
    case Succeeded => l.AfterSuccess()
    case RateLimited(p, hint, now) => l.AfterRateLimit(p, hint, now)
    case Observe(_) => l
  }

  /** The limiter after a run of turns, oldest first. */
  function Run(l: Limiter, events: seq<LimiterEvent>): Limiter {
    if events == [] then l else Turn(Run(l, events[..|events| - 1]), events[|events| - 1])
  }

  /** What a turn tells the shared breaker. */
  function CircuitEvent(e: LimiterEvent): seq<BreakerEvent> {
    match e
    case Acquire(_, _, now) => [Ask(now)]
    case Succeeded => [Success]
    case RateLimited(_, hint, now) => [RateLimit(now, hint)]
    case Observe(_) => []
  }

  function CircuitEvents(events: seq<LimiterEvent>): seq<BreakerEvent> {
    if events == [] then [] else CircuitEvents(events[..|events| - 1]) + CircuitEvent(events[|events| - 1])
  }

  lemma TurnAtTheCircuit(l: Limiter, e: LimiterEvent)
    ensures CircuitEvent(e) == [] ==> Turn(l, e).circuit == l.circuit
    ensures CircuitEvent(e) != [] ==>
              Turn(l, e).circuit == Step(l.circuit, CircuitEvent(e)[0]) && |CircuitEvent(e)| == 1
  {
    hide Accrued, Share, Bucket.Asked, Bucket.Drained, Limiter.BucketFor;
  }

  lemma OneMoreCircuitEvent(b: Breaker, history: seq<BreakerEvent>, e: BreakerEvent)
    ensures After(b, history + [e]) == Step(After(b, history), e)
  {
    hide Step;
    assert (history + [e])[..|history|] == history;
  }

  /**
   Whatever the callers do, the shared breaker is the breaker after the history of what they told it:
   all that holds of a breaker's histories holds of the limiter's runs.
   */
  lemma {:induction false} CircuitFollowsItsHistory(l: Limiter, events: seq<LimiterEvent>)
    ensures Run(l, events).circuit == After(l.circuit, CircuitEvents(events))
  {
    hide Turn, Step, CircuitEvent;
    if events != [] {
      var prefix, e := events[..|events| - 1], events[|events| - 1];
      CircuitFollowsItsHistory(l, prefix);
      TurnAtTheCircuit(Run(l, prefix), e);
      if CircuitEvent(e) != [] {
        assert CircuitEvent(e) == [CircuitEvent(e)[0]];
        OneMoreCircuitEvent(l.circuit, CircuitEvents(prefix), CircuitEvent(e)[0]);
      } else {
        assert CircuitEvents(events) == CircuitEvents(prefix);
      }
    }
  }

  /**
   So in every run of a new limiter, over all providers together, the circuit is closed exactly while
   fewer 429s than the threshold were told it since the last success that left it closed.
   */
  lemma SharedCircuitClosedIffRunBelowThreshold(config: RateLimitConfig, events: seq<LimiterEvent>) returns (k: nat)
    ensures var history := CircuitEvents(events);
            var b := NewLimiter(config).circuit;
            && LastClosing(b, history, k)
            && (Run(NewLimiter(config), events).circuit.state == Closed
                <==> CountRateLimits(history[k..]) < Max(config.circuitFailureThreshold, 1))
  {
    hide After, LastClosing;
    CircuitFollowsItsHistory(NewLimiter(config), events);
    k := ClosedIffRunBelowThreshold(config.circuitFailureThreshold, config.circuitSuccessThreshold,
                                    config.circuitOpenMs, CircuitEvents(events));
  }

  /**
   Nor does the circuit recover early: told of a success, the limiter closes it, unless it is
   half-open and the successes told since the last probe are still fewer than the threshold.
   */
  lemma SharedCircuitRecovers(config: RateLimitConfig, events: seq<LimiterEvent>) returns (k: nat)
    ensures var l, history := NewLimiter(config), CircuitEvents(events) + [Success];
            var threshold := Max(config.circuitSuccessThreshold, 1);
            if Run(l, events).circuit.state == HalfOpen
            then
              && LastProbe(l.circuit, CircuitEvents(events), k)
              && CountSuccesses(history[k..]) <= threshold
              && Run(l, events + [Succeeded]).circuit.state
                   == if CountSuccesses(history[k..]) == threshold then Closed else HalfOpen
            else
              Run(l, events + [Succeeded]).circuit.state == Closed
  {
    hide After, LastProbe, CountSuccesses, Turn;
    var l := NewLimiter(config);
    CircuitFollowsItsHistory(l, events);
    CircuitFollowsItsHistory(l, events + [Succeeded]);
    assert (events + [Succeeded])[..|events|] == events;
    k := SuccessClosesAtTheThreshold(config.circuitFailureThreshold, config.circuitSuccessThreshold,
                                     config.circuitOpenMs, CircuitEvents(events));
  }

  predicate IsGrant(l: Limiter, e: LimiterEvent, p: LlmProvider) {
    e.Acquire? && e.provider == p && l.Grants(p, e.priority, e.now)
  }

  /** How many requests to `p` a run lets through, whatever their priority. */
  function GrantCount(l: Limiter, events: seq<LimiterEvent>, p: LlmProvider): nat {
    if events == [] then 0
    else
      var prefix := events[..|events| - 1];
      GrantCount(l, prefix, p) + if IsGrant(Run(l, prefix), events[|events| - 1], p) then 1 else 0
  }

  lemma {:induction false} TurnKeepsValid(l: Limiter, e: LimiterEvent)
    requires l.Valid()
    ensures Turn(l, e).Valid() && Turn(l, e).config == l.config
    ensures l.buckets.Keys <= Turn(l, e).buckets.Keys
  {
    hide Accrued, Share;
    match e
    case Acquire(p, priority, now) => AcquireKeepsValid(l, p, priority, now);
    case Succeeded =>
    case RateLimited(p, hint, now) => if p in l.buckets { DrainedIsValid(l.buckets[p], now); }
    case Observe(_) =>
  }

  lemma {:induction false} RunKeepsValid(l: Limiter, events: seq<LimiterEvent>)
    requires l.Valid()
    ensures Run(l, events).Valid() && Run(l, events).config == l.config
    ensures l.buckets.Keys <= Run(l, events).buckets.Keys
  {
    if events != [] {
      RunKeepsValid(l, events[..|events| - 1]);
      TurnKeepsValid(Run(l, events[..|events| - 1]), events[|events| - 1]);
    }
  }

  /** One turn pays for its grant out of the bucket's credit. */
  lemma TurnPaysForGrant(l: Limiter, e: LimiterEvent, p: LlmProvider)
    requires l.Valid() && p in l.buckets
    ensures p in Turn(l, e).buckets
    ensures var b, b' := l.buckets[p], Turn(l, e).buckets[p];
            && b'.capacity == b.capacity && b'.refillPerMs == b.refillPerMs && b'.lastRefillMs >= b.lastRefillMs
            && (if IsGrant(l, e, p) then 1.0 else 0.0) + Credit(b') <= Credit(b)
  {
    hide Accrued, Share;
    var b := l.buckets[p];
    if (e.Acquire? || e.RateLimited?) && e.provider == p {
      AskingPays(b, if e.Acquire? then l.ReserveTokens(p, e.priority, e.now) else 0.0, e.now);
      RefilledIsValid(b, e.now);
      RefillRaisesNoCredit(b, e.now);
      hide Credit, Bucket.Refilled;
    }
  }

  lemma {:induction false} RunPaysForGrants(l: Limiter, events: seq<LimiterEvent>, p: LlmProvider)
    requires l.Valid() && p in l.buckets
    ensures p in Run(l, events).buckets
    ensures var b, b' := l.buckets[p], Run(l, events).buckets[p];
            && b'.capacity == b.capacity && b'.refillPerMs == b.refillPerMs && b'.lastRefillMs >= b.lastRefillMs
            && GrantCount(l, events, p) as real + Credit(b') <= Credit(b)
  {
    hide Credit, Turn, IsGrant;
    if events != [] {
      RunPaysForGrants(l, events[..|events| - 1], p);
      RunKeepsValid(l, events[..|events| - 1]);
      TurnPaysForGrant(Run(l, events[..|events| - 1]), events[|events| - 1], p);
    }
  }

  /**
   The shared rate bound. Over any interleaving of callers, priorities and 429s, and with clock
   readings that may even run backwards, the requests granted to a provider and the tokens left
   are together at most the tokens held at the start plus the refill rate times the advance of
   the bucket's refill mark.
   */
  lemma SharedRateBound(l: Limiter, events: seq<LimiterEvent>, p: LlmProvider)
    requires l.Valid() && p in l.buckets
    ensures p in Run(l, events).buckets
    ensures var b, b' := l.buckets[p], Run(l, events).buckets[p];
            && b'.Valid() && b'.capacity == b.capacity && b'.lastRefillMs >= b.lastRefillMs
            && GrantCount(l, events, p) as real + b'.tokens
               <= b.tokens + Accrued(b'.lastRefillMs - b.lastRefillMs, b.refillPerMs)
  {
    hide Run, GrantCount, Accrued;
    RunKeepsValid(l, events);
    RunPaysForGrants(l, events, p);
    var b, b' := l.buckets[p], Run(l, events).buckets[p];
    AccruedAdds(b'.lastRefillMs - b.lastRefillMs, b.lastRefillMs, b.refillPerMs);
  }

  /** While accrual stays below the capacity, one turn spends exactly its grant. */
  lemma TurnSpendsExactly(l: Limiter, e: LimiterEvent, p: LlmProvider)
    requires l.Valid() && p in l.buckets && !(e.RateLimited? && e.provider == p)
    requires var b := l.buckets[p];
             b.tokens + Accrued(Turn(l, e).buckets[p].lastRefillMs - b.lastRefillMs, b.refillPerMs) <= b.capacity
    ensures var b, b' := l.buckets[p], Turn(l, e).buckets[p];
            (if IsGrant(l, e, p) then 1.0 else 0.0) + b'.tokens
              == b.tokens + Accrued(b'.lastRefillMs - b.lastRefillMs, b.refillPerMs)
  {
    hide Share;
  }

  /**
   Nothing is lost below the capacity: over a run without 429s of its own, whose accrual never
   fills the bucket, the grants and the tokens left are together exactly what there was and what
   accrued. So a grant costs one token, no more, and refusals and snapshots cost nothing.
   */
  lemma {:induction false} BelowCapacityNothingIsLost(l: Limiter, events: seq<LimiterEvent>, p: LlmProvider)
    requires l.Valid() && p in l.buckets && p in Run(l, events).buckets
    requires forall i :: 0 <= i < |events| ==> !(events[i].RateLimited? && events[i].provider == p)
    requires var b := l.buckets[p];
             b.tokens + Accrued(Run(l, events).buckets[p].lastRefillMs - b.lastRefillMs, b.refillPerMs) <= b.capacity
    ensures var b, b' := l.buckets[p], Run(l, events).buckets[p];
            GrantCount(l, events, p) as real + b'.tokens
              == b.tokens + Accrued(b'.lastRefillMs - b.lastRefillMs, b.refillPerMs)
  {
    hide Turn, IsGrant, Accrued;
    var b := l.buckets[p];
    if events == [] {
      AccruedIsMonotone(0, 0, b.refillPerMs);
    } else {
      var prefix, e := events[..|events| - 1], events[|events| - 1];
      var m, after := Run(l, prefix), Run(l, events);
      RunPaysForGrants(l, prefix, p);
      RunKeepsValid(l, prefix);
      TurnPaysForGrant(m, e, p);
      var mark, mark' := m.buckets[p].lastRefillMs, after.buckets[p].lastRefillMs;
      AccruedIsMonotone(mark - b.lastRefillMs, mark' - b.lastRefillMs, b.refillPerMs);
      BelowCapacityNothingIsLost(l, prefix, p);
      AccruedAdds(mark - b.lastRefillMs, mark' - mark, b.refillPerMs);
      TurnSpendsExactly(m, e, p);
    }
  }

  // ---------- The bound in elapsed time ----------

  predicate Within(lo: int, hi: int, e: LimiterEvent) {
    (e.Acquire? || e.RateLimited?) ==> lo <= e.now <= hi
  }

  /** The capacity a provider's bucket has, or will have once its first request creates it. */
  function CapacityOf(l: Limiter, p: LlmProvider): real {
    if p in l.buckets then l.buckets[p].capacity else Max(l.config.defaultRpm, 1) as real
  }

  /**
   If every reading lies between `lo` and `hi`, a run grants a provider at most its capacity plus
   one refill rate per elapsed millisecond, however long the bucket sat idle before. The bucket
   may be created anywhere inside the run.
   */
  lemma ElapsedRateBound(l: Limiter, events: seq<LimiterEvent>, p: LlmProvider, lo: int, hi: int)
    requires l.Valid() && lo <= hi
    requires forall i :: 0 <= i < |events| ==> Within(lo, hi, events[i])
    ensures GrantCount(l, events, p) as real
         <= CapacityOf(l, p) + Accrued(hi - lo, CapacityOf(l, p) / 60000.0)
  {
    hide Accrued, Run, GrantCount;
    var c := CapacityOf(l, p);
    AccruedIsMonotone(0, hi - lo, c / 60000.0);
    if p in l.buckets && lo <= l.buckets[p].lastRefillMs {
      SharedRateBound(l, events, p);
      RefillMarkWithin(l, events, p, hi);
      var b := l.buckets[p];
      AccruedIsMonotone(Run(l, events).buckets[p].lastRefillMs - b.lastRefillMs, hi - lo, b.refillPerMs);
    } else {
      if p in l.buckets {
        CreditAfterIdling(l, events, p, lo, hi);
      } else {
        CreditBeforeCreation(l, events, p, lo, hi);
      }
      if p in Run(l, events).buckets {
        var b := Run(l, events).buckets[p];
        AccruedAdds(b.lastRefillMs - lo, lo, b.refillPerMs);
        AccruedIsMonotone(b.lastRefillMs - lo, hi - lo, b.refillPerMs);
      }
    }
  }

  /** The first turn at a bucket idle since before `lo` fills it no further than its capacity. */
  lemma FirstTouchPaysForGrant(l: Limiter, e: LimiterEvent, p: LlmProvider, lo: int, hi: int)
    requires l.Valid() && p in l.buckets && l.buckets[p].lastRefillMs < lo && Within(lo, hi, e)
    ensures p in Turn(l, e).buckets
    ensures var b, b' := l.buckets[p], Turn(l, e).buckets[p];
            || (b' == b && !IsGrant(l, e, p))
            || (lo <= b'.lastRefillMs <= hi && b'.Valid() && b'.capacity == b.capacity
                && (if IsGrant(l, e, p) then 1.0 else 0.0) + Credit(b') <= b.capacity - Accrued(lo, b.refillPerMs))
  {
    hide Accrued, Share;
    var b := l.buckets[p];
    if (e.Acquire? || e.RateLimited?) && e.provider == p {
      var reserve := if e.Acquire? then l.ReserveTokens(p, e.priority, e.now) else 0.0;
      if e.Acquire? {
        AcquireKeepsValid(l, p, e.priority, e.now);
      }
      RefilledIsValid(b, e.now);
      RefillIsPathIndependent(b, e.now, e.now);
      AskingPays(b.Refilled(e.now), reserve, e.now);
      AskedIsValid(b, reserve, e.now);
      DrainedIsValid(b, e.now);
      AccruedIsMonotone(lo, e.now, b.refillPerMs);
      assert b.Refilled(e.now).Asked(reserve, e.now) == b.Asked(reserve, e.now);
      assert b.Refilled(e.now).Drained(e.now) == b.Drained(e.now);
      hide Credit, Bucket.Refilled;
      assert Credit(b.Refilled(e.now)) <= b.capacity - Accrued(lo, b.refillPerMs) by {
        CreditOf(b.Refilled(e.now));
      }
    }
  }

  lemma CreditOf(b: Bucket)
    ensures Credit(b) == b.tokens - Accrued(b.lastRefillMs, b.refillPerMs)
  {
  }

  /** Follows a run that starts with an idle bucket through the turn that first touches it. */
  lemma {:induction false} CreditAfterIdling(
      l: Limiter, events: seq<LimiterEvent>, p: LlmProvider, lo: int, hi: int)
    requires l.Valid() && lo <= hi && p in l.buckets && l.buckets[p].lastRefillMs < lo
    requires forall i :: 0 <= i < |events| ==> Within(lo, hi, events[i])
    ensures p in Run(l, events).buckets
    ensures var b, b' := l.buckets[p], Run(l, events).buckets[p];
            || (b' == b && GrantCount(l, events, p) == 0)
            || (lo <= b'.lastRefillMs <= hi && b'.Valid() && b'.capacity == b.capacity
                && GrantCount(l, events, p) as real + Credit(b') <= b.capacity - Accrued(lo, b.refillPerMs))
  {
    hide Credit, IsGrant, Accrued, Turn;
    if events != [] {
      var prefix, last := events[..|events| - 1], events[|events| - 1];
      CreditAfterIdling(l, prefix, p, lo, hi);
      RunKeepsValid(l, prefix);
      var m := Run(l, prefix);
      TurnKeepsValid(m, last);
      assert Within(lo, hi, last);
      if m.buckets[p] == l.buckets[p] && GrantCount(l, prefix, p) == 0 {
        FirstTouchPaysForGrant(m, last, p, lo, hi);
      } else {
        TurnPaysForGrant(m, last, p);
        RefillMarkWithin(m, [last], p, hi);
        assert Run(m, [last]) == Turn(m, last) by { assert [last][..0] == []; }
      }
    }
  }

  lemma {:induction false} RefillMarkWithin(l: Limiter, events: seq<LimiterEvent>, p: LlmProvider, hi: int)
    requires l.Valid() && p in l.buckets
    requires forall i :: 0 <= i < |events| ==> events[i].Acquire? || events[i].RateLimited? ==> events[i].now <= hi
    ensures p in Run(l, events).buckets
    ensures Run(l, events).buckets[p].lastRefillMs <= Max(l.buckets[p].lastRefillMs, hi)
  {
    hide Accrued, Share;
    if events != [] {
      var prefix := events[..|events| - 1];
      RefillMarkWithin(l, prefix, p, hi);
      RunKeepsValid(l, prefix);
    }
  }

  /** Turns before the bucket exists grant nothing, and the turn that creates it leaves it full. */
  lemma CreationPaysForGrant(l: Limiter, e: LimiterEvent, p: LlmProvider, lo: int)
    requires l.Valid() && p !in l.buckets
    requires e.Acquire? ==> lo <= e.now
    ensures p !in Turn(l, e).buckets ==> !IsGrant(l, e, p)
    ensures p in Turn(l, e).buckets ==>
              var b := Turn(l, e).buckets[p];
              && b.Valid() && b.capacity == CapacityOf(l, p) && b.lastRefillMs == e.now
              && (if IsGrant(l, e, p) then 1.0 else 0.0) + Credit(b) <= b.capacity - Accrued(lo, b.refillPerMs)
  {
    hide Accrued, Share;
    if e.Acquire? && e.provider == p && l.circuit.Allows(e.now) {
      var full, reserve := FullBucket(l.config.defaultRpm, e.now), l.ReserveTokens(p, e.priority, e.now);
      AcquireKeepsValid(l, p, e.priority, e.now);
      AskedIsValid(full, reserve, e.now);
      AskingPays(full, reserve, e.now);
      AccruedIsMonotone(lo, e.now, full.refillPerMs);
      assert Turn(l, e).buckets[p] == full.Asked(reserve, e.now);
      assert Credit(full) <= full.capacity - Accrued(lo, full.refillPerMs);
      assert full.Asked(reserve, e.now).refillPerMs == full.refillPerMs;
      hide Credit, Bucket.Refilled;
    }
  }

  /** Follows a run that starts without the bucket through the turn that creates it. */
  lemma {:induction false} CreditBeforeCreation(
      l: Limiter, events: seq<LimiterEvent>, p: LlmProvider, lo: int, hi: int)
    requires l.Valid() && lo <= hi && p !in l.buckets
    requires forall i :: 0 <= i < |events| ==> Within(lo, hi, events[i])
    ensures p !in Run(l, events).buckets ==> GrantCount(l, events, p) == 0
    ensures p in Run(l, events).buckets ==>
              var b := Run(l, events).buckets[p];
              && b.Valid() && b.capacity == CapacityOf(l, p) && b.lastRefillMs <= hi
              && GrantCount(l, events, p) as real + Credit(b) <= b.capacity - Accrued(lo, b.refillPerMs)
  {
    if events != [] {
      var prefix, last := events[..|events| - 1], events[|events| - 1];
      CreditBeforeCreation(l, prefix, p, lo, hi);
      RunKeepsValid(l, prefix);
      var m := Run(l, prefix);
      TurnKeepsValid(m, last);
      assert Within(lo, hi, last);
      hide Credit, IsGrant, Accrued, Share;
      if p in m.buckets {
        TurnPaysForGrant(m, last, p);
        RefillMarkWithin(m, [last], p, hi);
        assert Run(m, [last]) == Turn(m, last) by { assert [last][..0] == []; }
        hide Turn;
      } else {
        CreationPaysForGrant(m, last, p, lo);
        hide Turn;
      }
    }
  }

  // ---------- Priorities and the wait, at the limiter ----------

  /** How many priorities outrank one. */
  function Outranked(priority: RequestPriority): nat {
    match priority
    case Low => 2
    case Normal => 1
    case Manual => 0
  }

  /** What a priority leaves to those that outrank it: one configured share of the capacity for each. */
  function HeldBack(l: Limiter, p: LlmProvider, priority: RequestPriority): real {
    Outranked(priority) as real * Share(l.config.normalReserveFraction, CapacityOf(l, p))
  }

  lemma ReserveIsHeldBack(l: Limiter, p: LlmProvider, priority: RequestPriority, now: int)
    ensures l.BucketFor(p, now).capacity == CapacityOf(l, p)
    ensures l.ReserveTokens(p, priority, now) == HeldBack(l, p, priority)
  {
    var f, c := l.config.normalReserveFraction, CapacityOf(l, p);
    assert (f * 2.0) * c == 2.0 * (f * c);
  }

  /** A grant leaves in the bucket what its priority holds back for the others. */
  lemma GrantLeavesTheReserve(l: Limiter, p: LlmProvider, priority: RequestPriority, now: int)
    requires l.Grants(p, priority, now)
    ensures var b := l.AfterAcquire(p, priority, now).buckets[p];
            b.tokens == l.BucketFor(p, now).Available(now) - 1.0 && b.tokens >= HeldBack(l, p, priority)
  {
    ReserveIsHeldBack(l, p, priority, now);
    hide Share, HeldBack, Accrued;
  }

  /**
   After a 429 a provider's next request is granted exactly once the circuit allows it and a token and
   what its priority holds back have accrued since: there is no burst back into the limit.
   */
  lemma RateLimitedMustRefill(
      l: Limiter, p: LlmProvider, hint: Option<int>, now: int, priority: RequestPriority, t: int)
    requires l.Valid() && p in l.buckets && l.buckets[p].lastRefillMs <= now
    ensures var l', need := l.AfterRateLimit(p, hint, now), 1.0 + HeldBack(l, p, priority);
            l'.Grants(p, priority, t) <==>
              && l'.circuit.Allows(t)
              && need <= CapacityOf(l, p) && Accrued(t - now, l.buckets[p].refillPerMs) >= need
  {
    var l' := l.AfterRateLimit(p, hint, now);
    ReserveIsHeldBack(l', p, priority, t);
    AcquireKeepsValid(l, p, priority, t);
    ReserveIsHeldBack(l, p, priority, t);
    DrainedMustRefill(l.buckets[p], HeldBack(l, p, priority), now, t);
    hide Accrued, Share, HeldBack, Bucket.Grants, Breaker.Limited;
  }

  function Burst(p: LlmProvider, priority: RequestPriority, now: int, n: nat): seq<LimiterEvent> {
    if n == 0 then [] else Burst(p, priority, now, n - 1) + [Acquire(p, priority, now)]
  }

  /** How many whole tokens there are above a reserve. */
  function Spendable(available: real, reserve: real): nat {
    Max((available - reserve).Floor, 0)
  }

  function SpendableAt(l: Limiter, p: LlmProvider, priority: RequestPriority, now: int): nat {
    Spendable(l.BucketFor(p, now).Available(now), HeldBack(l, p, priority))
  }

  /**
   A burst at one instant is granted the whole tokens above the reserve, one each, and no more. At a
   provider's first use that is its whole minute's limit, less what the priority holds back.
   */
  lemma {:induction false} BurstIsGrantedDownToTheReserve(
      l: Limiter, p: LlmProvider, priority: RequestPriority, now: int, n: nat)
    requires l.Valid() && l.circuit.state == Closed
    ensures GrantCount(l, Burst(p, priority, now, n), p) == Min(n, SpendableAt(l, p, priority, now))
    ensures p !in l.buckets ==> l.BucketFor(p, now).Available(now) == Max(l.config.defaultRpm, 1) as real
  {
    BurstSpends(l, p, priority, now, n);
  }

  /** The tokens are there in the middle of the burst less what it was granted. */
  ghost predicate SpentBy(l: Limiter, m: Limiter, p: LlmProvider, now: int, granted: nat) {
    && m.circuit == l.circuit && m.config == l.config && CapacityOf(m, p) == CapacityOf(l, p)
    && m.BucketFor(p, now).Available(now) == l.BucketFor(p, now).Available(now) - granted as real
  }

  lemma {:induction false} BurstSpends(l: Limiter, p: LlmProvider, priority: RequestPriority, now: int, n: nat)
    requires l.Valid() && l.circuit.state == Closed
    ensures var burst, spendable := Burst(p, priority, now, n), SpendableAt(l, p, priority, now);
            && GrantCount(l, burst, p) == Min(n, spendable)
            && SpentBy(l, Run(l, burst), p, now, GrantCount(l, burst, p))
  {
    hide *;
    if n == 0 {
      NothingSpentYet(l, p, priority, now);
    } else {
      var before, burst := Burst(p, priority, now, n - 1), Burst(p, priority, now, n);
      BurstSpends(l, p, priority, now, n - 1);
      OneMoreInTheBurst(l, p, priority, now, n);
      RunKeepsValid(l, before);
      OneMoreRequest(l, Run(l, before), p, priority, now, GrantCount(l, before, p));
      MinOf(n - 1, SpendableAt(l, p, priority, now));
      MinOf(n, SpendableAt(l, p, priority, now));
    }
  }

  lemma MinOf(a: int, b: int)
    ensures Min(a, b) == if a <= b then a else b
  {
  }

  lemma NothingSpentYet(l: Limiter, p: LlmProvider, priority: RequestPriority, now: int)
    ensures var burst := Burst(p, priority, now, 0);
            && GrantCount(l, burst, p) == 0 == Min(0, SpendableAt(l, p, priority, now))
            && SpentBy(l, Run(l, burst), p, now, 0)
  {
    hide HeldBack, Bucket.Available;
  }

  lemma OneMoreInTheBurst(l: Limiter, p: LlmProvider, priority: RequestPriority, now: int, n: nat)
    requires n > 0
    ensures var before, burst := Burst(p, priority, now, n - 1), Burst(p, priority, now, n);
            && Run(l, burst) == Run(l, before).AfterAcquire(p, priority, now)
            && GrantCount(l, burst, p)
                 == GrantCount(l, before, p) + if Run(l, before).Grants(p, priority, now) then 1 else 0
  {
    hide Limiter.AfterAcquire, Limiter.Grants;
    var before, burst := Burst(p, priority, now, n - 1), Burst(p, priority, now, n);
    assert burst[..|burst| - 1] == before;
  }

  lemma AskingSpendsOne(b: Bucket, reserve: real, now: int)
    requires b.Valid()
    ensures b.Asked(reserve, now).Available(now) == b.Available(now) - if b.Grants(reserve, now) then 1.0 else 0.0
    ensures b.Asked(reserve, now).capacity == b.capacity
  {
    RefilledIsValid(b, now);
    hide Accrued;
  }

  lemma WholeTokensAbove(available: real, reserve: real, granted: nat)
    ensures available - granted as real >= 1.0 + reserve <==> granted < Spendable(available, reserve)
  {
  }

  lemma OneMoreRequest(l: Limiter, m: Limiter, p: LlmProvider, priority: RequestPriority, now: int, granted: nat)
    requires SpentBy(l, m, p, now, granted) && m.Valid() && l.circuit.state == Closed
    ensures m.Grants(p, priority, now) <==> granted < SpendableAt(l, p, priority, now)
    ensures SpentBy(l, m.AfterAcquire(p, priority, now), p, now,
                    granted + if m.Grants(p, priority, now) then 1 else 0)
  {
    hide Accrued, Share, Spendable, Bucket.Refilled, Bucket.Available, Bucket.Asked, Bucket.Valid, FullBucket;
    var b, reserve := m.BucketFor(p, now), m.ReserveTokens(p, priority, now);
    ReserveIsHeldBack(m, p, priority, now);
    ReserveIsHeldBack(l, p, priority, now);
    AcquireKeepsValid(m, p, priority, now);
    AskingSpendsOne(b, reserve, now);
    WholeTokensAbove(l.BucketFor(p, now).Available(now), reserve, granted);
    hide HeldBack;
    assert b.Grants(reserve, now) <==> b.Available(now) >= 1.0 + reserve;
  }

  /** A lower priority is never let through where a higher one would be refused. */
  lemma HigherPriorityIsNeverWorse(l: Limiter, p: LlmProvider, now: int)
    requires l.Valid()
    ensures l.Grants(p, Low, now) ==> l.Grants(p, Normal, now)
    ensures l.Grants(p, Normal, now) ==> l.Grants(p, Manual, now)
  {
    var f, c := l.config.normalReserveFraction, l.BucketFor(p, now).capacity;
    AcquireKeepsValid(l, p, Manual, now);
    ShareIsMonotone(0.0, f, c);
    ShareIsMonotone(f, f * 2.0, c);
    hide Accrued, Share;
  }

  lemma AllowedStaysAllowed(l: Limiter, p: LlmProvider, priority: RequestPriority, now: int)
    requires l.circuit.Allows(now)
    ensures var l' := l.AfterAcquire(p, priority, now);
            forall t :: l'.Grants(p, priority, t)
              <==> l.BucketFor(p, now).Asked(l.ReserveTokens(p, priority, now), now)
                   .Grants(l.ReserveTokens(p, priority, now), t)
  {
    hide Accrued, Share;
  }

  /**
   The wait a refused caller is told is exact: on an untouched limiter the same priority is
   refused at every earlier reading, and is granted on return exactly when its reserve leaves
   room for a token and the clock was not behind the bucket's refill mark.
   */
  lemma RefusedCallerReturnsOnTime(l: Limiter, p: LlmProvider, priority: RequestPriority, now: int)
    requires l.Valid()
    requires l.BucketFor(p, now).refillPerMs > 0.0 && l.Decision(p, priority, now).RetryAfterMs?
    ensures var wait := l.Decision(p, priority, now).ms;
            var l' := l.AfterAcquire(p, priority, now);
            && wait >= 1
            && (l'.Grants(p, priority, now + wait)
                <==> (1.0 + l.ReserveTokens(p, priority, now) <= l.BucketFor(p, now).capacity
                      && l.BucketFor(p, now).lastRefillMs <= now))
            && forall t :: t < now + wait ==> !l'.Grants(p, priority, t)
  {
    AcquireKeepsValid(l, p, priority, now);
    var b, reserve := l.BucketFor(p, now), l.ReserveTokens(p, priority, now);
    var l' := l.AfterAcquire(p, priority, now);
    RefusalWaitIsPositive(b, reserve, now);
    ReportedWaitIsExact(b, reserve, now);
    AllowedStaysAllowed(l, p, priority, now);
    hide *;
  }
}
