/**
 The circuit breaker of the shared rate limiter: `Breaker` is its value, `CircuitBreaker` the
 object that changes in place, and the lemmas relate the breaker to the history of what it was
 told.
 */
module CircuitBreakers {
  import opened Numbers
  import opened Wrappers

  datatype CircuitState = Closed | Open | HalfOpen

  datatype Breaker = Breaker(
    failureThreshold: nat,
    successThreshold: nat,
    cooldownMs: int,
    consecutiveFailures: nat,
    consecutiveSuccesses: nat,
    openUntilMs: int,
    state: CircuitState)
  {
    predicate Configured() {
      failureThreshold >= 1 && successThreshold >= 1
    }

    /** Whether a request may proceed at `now`. */
    predicate Allows(now: int) {
      state != Open || now >= openUntilMs
    }

    /** The breaker after being asked at `now`: an elapsed cooldown turns into half-open. */
    function Asked(now: int): Breaker {
      if state == Open && now >= openUntilMs then this.(state := HalfOpen, consecutiveSuccesses := 0) else this
    }

    function RetryAfterMs(now: int): int {
      if state == Open then Max(openUntilMs - now, 0) else 0
    }

    function Succeeded(): Breaker {
      if state == HalfOpen then
        if consecutiveSuccesses + 1 >= successThreshold then
          this.(state := Closed, consecutiveFailures := 0, consecutiveSuccesses := 0)
        else
          this.(consecutiveSuccesses := consecutiveSuccesses + 1)
      else
        this.(consecutiveFailures := 0, state := Closed)
    }

    /** The pause a rate limit asks for: the configured one, or the server's hint when longer. */
    function Pause(hint: Option<int>): int {
      if hint.Some? then Max(hint.value, cooldownMs) else cooldownMs
    }

    function Limited(now: int, hint: Option<int>): Breaker {
      var b := this.(consecutiveFailures := consecutiveFailures + 1);
      if state == HalfOpen || b.consecutiveFailures >= failureThreshold then
        b.(openUntilMs := SaturatingAdd(now, Pause(hint)), state := Open)
      else
        b
    }
  }

  function NewBreaker(failureThreshold: nat, successThreshold: nat, cooldownMs: int): Breaker {
    Breaker(Max(failureThreshold, 1), Max(successThreshold, 1), cooldownMs, 0, 0, 0, Closed)
  }

  class CircuitBreaker {
    var failureThreshold: nat
    var successThreshold: nat
    var cooldownMs: int
    var consecutiveFailures: nat
    var consecutiveSuccesses: nat
    var openUntilMs: int
    var state: CircuitState

    function View(): Breaker
      reads this
    {
      Breaker(failureThreshold, successThreshold, cooldownMs, consecutiveFailures, consecutiveSuccesses,
              openUntilMs, state)
    }

    constructor (failureThreshold: nat, successThreshold: nat, cooldownMs: int)
      ensures View() == NewBreaker(failureThreshold, successThreshold, cooldownMs)
    {
      this.failureThreshold := Max(failureThreshold, 1);
      this.successThreshold := Max(successThreshold, 1);
      this.cooldownMs := cooldownMs;
      this.consecutiveFailures := 0;
      this.consecutiveSuccesses := 0;
      this.openUntilMs := 0;
      this.state := Closed;
    }

    method Allows(now: int) returns (allowed: bool)
      modifies this
      ensures allowed == old(View()).Allows(now)
      ensures View() == old(View()).Asked(now)
      ensures allowed == (state != Open)
    {
      match state {
        case Closed => allowed := true;
        case HalfOpen => allowed := true;
        case Open =>
          if now >= openUntilMs {
            state := HalfOpen;
            consecutiveSuccesses := 0;
            allowed := true;
          } else {
            allowed := false;
          }
      }
    }

    method OnSuccess()
      modifies this
      ensures View() == old(View()).Succeeded()
    {
      match state {
        case HalfOpen =>
          consecutiveSuccesses := consecutiveSuccesses + 1;
          if consecutiveSuccesses >= successThreshold {
            state := Closed;
            consecutiveFailures := 0;
            consecutiveSuccesses := 0;
          }
        case _ =>
          consecutiveFailures := 0;
          state := Closed;
      }
    }

    method OnRateLimit(now: int, hint: Option<int>)
      modifies this
      ensures View() == old(View()).Limited(now, hint)
    {
      consecutiveFailures := consecutiveFailures + 1;
      if state == HalfOpen || consecutiveFailures >= failureThreshold {
        var cooldown := if hint.Some? then Max(hint.value, cooldownMs) else cooldownMs;
        openUntilMs := SaturatingAdd(now, cooldown);
        state := Open;
      }
    }
  }

  // ---------- Histories ----------

  datatype BreakerEvent = Ask(now: int) | Success | RateLimit(now: int, hint: Option<int>)

  function Step(b: Breaker, e: BreakerEvent): Breaker {
    match e
    case Ask(now) => b.Asked(now)
    case Success => b.Succeeded()
    case RateLimit(now, hint) => b.Limited(now, hint)
  }

  /** The breaker after a history, oldest event first. */
  function After(b: Breaker, history: seq<BreakerEvent>): Breaker {
    if history == [] then b else Step(After(b, history[..|history| - 1]), history[|history| - 1])
  }

  /** How many rate limits a stretch of history holds. */
  function CountRateLimits(history: seq<BreakerEvent>): nat {
    if history == [] then 0
    else CountRateLimits(history[..|history| - 1]) + if history[|history| - 1].RateLimit? then 1 else 0
  }

  function CountSuccesses(history: seq<BreakerEvent>): nat {
    if history == [] then 0
    else CountSuccesses(history[..|history| - 1]) + if history[|history| - 1].Success? then 1 else 0
  }

  /** Event `i` is a success that left the breaker closed. */
  predicate ClosesAt(b: Breaker, history: seq<BreakerEvent>, i: nat)
    requires i < |history|
  {
    history[i].Success? && After(b, history[..i + 1]).state == Closed
  }

  /** Event `i` is the question that turned an elapsed cooldown into half-open. */
  predicate ProbesAt(b: Breaker, history: seq<BreakerEvent>, i: nat)
    requires i < |history|
  {
    After(b, history[..i]).state == Open && After(b, history[..i + 1]).state == HalfOpen
  }

  /** `k` is just past the last closing success, or 0 when there has been none. */
  ghost predicate LastClosing(b: Breaker, history: seq<BreakerEvent>, k: nat) {
    && k <= |history|
    && (k == 0 || ClosesAt(b, history, k - 1))
    && forall i :: k <= i < |history| ==> !ClosesAt(b, history, i)
  }

  /** `k` is just past the question that opened the current probing period. */
  ghost predicate LastProbe(b: Breaker, history: seq<BreakerEvent>, k: nat) {
    && 0 < k <= |history|
    && ProbesAt(b, history, k - 1)
    && forall i :: k <= i < |history| ==> !ProbesAt(b, history, i)
  }

  lemma PrefixAgrees(b: Breaker, history: seq<BreakerEvent>, i: nat)
    requires i <= |history| - 1
    ensures history[..|history| - 1][..i] == history[..i]
  {
  }

  lemma DropLastOfSuffix(history: seq<BreakerEvent>, k: nat)
    requires k < |history|
    ensures history[k..][..|history[k..]| - 1] == history[..|history| - 1][k..]
    ensures history[k..][|history[k..]| - 1] == history[|history| - 1]
  {
  }

  lemma ThresholdsAreFixed(b: Breaker, history: seq<BreakerEvent>)
    ensures After(b, history).failureThreshold == b.failureThreshold
    ensures After(b, history).successThreshold == b.successThreshold
    ensures After(b, history).cooldownMs == b.cooldownMs
  {
  }

  /**
   The breaker's failure run is the number of rate limits since the last success that left it
   closed, and it is closed exactly while that number is below the threshold.
   */
  lemma {:induction false} ClosedIffRunBelowThreshold(
      failures: nat, successes: nat, cooldownMs: int, history: seq<BreakerEvent>)
    returns (k: nat)
    ensures var b := NewBreaker(failures, successes, cooldownMs);
            && LastClosing(b, history, k)
            && After(b, history).consecutiveFailures == CountRateLimits(history[k..])
            && (After(b, history).state == Closed <==> CountRateLimits(history[k..]) < Max(failures, 1))
  {
    var b := NewBreaker(failures, successes, cooldownMs);
    var n := |history|;
    if n == 0 {
      return 0;
    }
    var prefix := history[..n - 1];
    var j := ClosedIffRunBelowThreshold(failures, successes, cooldownMs, prefix);
    ThresholdsAreFixed(b, prefix);
    assert history[..n] == history;
    if ClosesAt(b, history, n - 1) {
      return n;
    }
    ClosingCarriesOver(b, history, j);
    DropLastOfSuffix(history, j);
    return j;
  }

  lemma ClosingCarriesOver(b: Breaker, history: seq<BreakerEvent>, k: nat)
    requires history != [] && LastClosing(b, history[..|history| - 1], k) && !ClosesAt(b, history, |history| - 1)
    ensures LastClosing(b, history, k)
  {
    hide After;
    var n := |history|;
    var prefix := history[..n - 1];
    forall i | k <= i < n - 1
      ensures !ClosesAt(b, history, i)
    {
      PrefixAgrees(b, history, i + 1);
      assert !ClosesAt(b, prefix, i);
    }
    if k > 0 {
      PrefixAgrees(b, history, k);
      assert ClosesAt(b, prefix, k - 1);
    }
  }

  /**
   Half-open is always a probing period that began with an allowed question, and the successes
   it holds are those since that question, fewer than the threshold.
   */
  lemma {:induction false} HalfOpenCountsItsSuccesses(
      failures: nat, successes: nat, cooldownMs: int, history: seq<BreakerEvent>)
    returns (k: nat)
    requires After(NewBreaker(failures, successes, cooldownMs), history).state == HalfOpen
    ensures var b := NewBreaker(failures, successes, cooldownMs);
            && LastProbe(b, history, k)
            && After(b, history).consecutiveSuccesses == CountSuccesses(history[k..]) < Max(successes, 1)
  {
    var b := NewBreaker(failures, successes, cooldownMs);
    var n := |history|;
    var prefix := history[..n - 1];
    assert history[..n] == history;
    ThresholdsAreFixed(b, prefix);
    if ProbesAt(b, history, n - 1) {
      assert history[n..] == [];
      return n;
    }
    assert After(b, prefix).state == HalfOpen;
    k := HalfOpenCountsItsSuccesses(failures, successes, cooldownMs, prefix);
    ProbeCarriesOver(b, history, k);
    DropLastOfSuffix(history, k);
  }

  lemma ProbeCarriesOver(b: Breaker, history: seq<BreakerEvent>, k: nat)
    requires history != [] && LastProbe(b, history[..|history| - 1], k) && !ProbesAt(b, history, |history| - 1)
    ensures LastProbe(b, history, k)
  {
    hide After;
    var n := |history|;
    var prefix := history[..n - 1];
    forall i | k <= i < n - 1
      ensures !ProbesAt(b, history, i)
    {
      PrefixAgrees(b, history, i);
      PrefixAgrees(b, history, i + 1);
      assert !ProbesAt(b, prefix, i);
    }
    PrefixAgrees(b, history, k);
    PrefixAgrees(b, history, k - 1);
    assert ProbesAt(b, prefix, k - 1);
  }

  /**
   What a success does, in every history: it closes the breaker, unless the breaker is half-open and
   the successes since the last probe, this one included, are still fewer than the threshold.
   */
  lemma SuccessClosesAtTheThreshold(failures: nat, successes: nat, cooldownMs: int, history: seq<BreakerEvent>)
    returns (k: nat)
    ensures var b, told := NewBreaker(failures, successes, cooldownMs), history + [Success];
            if After(b, history).state == HalfOpen
            then
              && LastProbe(b, history, k)
              && CountSuccesses(told[k..]) <= Max(successes, 1)
              && After(b, told).state == if CountSuccesses(told[k..]) == Max(successes, 1) then Closed else HalfOpen
            else
              After(b, told).state == Closed
  {
    var b, told := NewBreaker(failures, successes, cooldownMs), history + [Success];
    assert told[..|history|] == history;
    ThresholdsAreFixed(b, history);
    k := 0;
    if After(b, history).state == HalfOpen {
      k := HalfOpenCountsItsSuccesses(failures, successes, cooldownMs, history);
      DropLastOfSuffix(told, k);
    }
  }

  /** No rate limit interrupts this stretch. */
  predicate NoRateLimit(stretch: seq<BreakerEvent>) {
    forall i :: 0 <= i < |stretch| ==> !stretch[i].RateLimit?
  }

  /**
   Recovery takes exactly the success threshold: while no 429 comes, the breaker stays half-open
   after a probe through fewer successes than that, and is closed from then on.
   */
  lemma {:induction false} RecoveryTakesTheThreshold(
      failures: nat, successes: nat, cooldownMs: int, past: seq<BreakerEvent>, since: seq<BreakerEvent>)
    requires past != [] && NoRateLimit(since)
    requires ProbesAt(NewBreaker(failures, successes, cooldownMs), past, |past| - 1)
    ensures After(NewBreaker(failures, successes, cooldownMs), past + since).state
         == if CountSuccesses(since) < Max(successes, 1) then HalfOpen else Closed
    decreases |since|
  {
    var b := NewBreaker(failures, successes, cooldownMs);
    var all := past + since;
    if since == [] {
      assert all == past && past[..|past|] == past;
    } else {
      var before := since[..|since| - 1];
      assert all[..|all| - 1] == past + before;
      RecoveryTakesTheThreshold(failures, successes, cooldownMs, past, before);
      ProbingCounts(b, past, before);
    }
  }

  /** While it probes, a breaker counts the successes since the probe. */
  lemma {:induction false} ProbingCounts(b: Breaker, past: seq<BreakerEvent>, since: seq<BreakerEvent>)
    requires past != [] && NoRateLimit(since) && ProbesAt(b, past, |past| - 1)
    ensures After(b, past + since).successThreshold == b.successThreshold
    ensures After(b, past + since).state != Open
    ensures After(b, past + since).state == HalfOpen ==>
              After(b, past + since).consecutiveSuccesses == CountSuccesses(since)
    decreases |since|
  {
    var all := past + since;
    ThresholdsAreFixed(b, all);
    if since == [] {
      assert all == past && past[..|past|] == past;
    } else {
      var before := since[..|since| - 1];
      assert all[..|all| - 1] == past + before;
      ProbingCounts(b, past, before);
    }
  }

  // ---------- The open window ----------

  /** Only questions, at least one of them no earlier than `t`. */
  predicate AskedNoEarlierThan(t: int, questions: seq<BreakerEvent>) {
    exists i :: 0 <= i < |questions| && questions[i].Ask? && questions[i].now >= t
  }

  lemma AskedLast(t: int, questions: seq<BreakerEvent>, last: BreakerEvent)
    ensures AskedNoEarlierThan(t, questions + [last])
       <==> AskedNoEarlierThan(t, questions) || (last.Ask? && last.now >= t)
  {
    var all := questions + [last];
    assert all[|questions|] == last;
    assert forall i :: 0 <= i < |questions| ==> all[i] == questions[i];
  }

  lemma {:induction false} OpenUntilAsked(b: Breaker, questions: seq<BreakerEvent>)
    requires b.state == Open
    requires forall i :: 0 <= i < |questions| ==> questions[i].Ask?
    ensures After(b, questions).openUntilMs == b.openUntilMs
    ensures After(b, questions).state == if AskedNoEarlierThan(b.openUntilMs, questions) then HalfOpen else Open
  {
    if questions != [] {
      var n := |questions|;
      OpenUntilAsked(b, questions[..n - 1]);
      AskedLast(b.openUntilMs, questions[..n - 1], questions[n - 1]);
      assert questions[..n - 1] + [questions[n - 1]] == questions;
    }
  }

  /**
   After a rate limit at `t` that left the breaker open, as long as no success and no further rate
   limit intervenes, a question at `now` is allowed exactly when it or an earlier question came
   no sooner than `t` plus the longer of the cooldown and the server's hint. In particular, with
   a clock that does not run backwards nothing is allowed before that instant.
   */
  lemma OpenWindowIsExact(
      b: Breaker, t: int, hint: Option<int>, questions: seq<BreakerEvent>, now: int)
    requires b.state == HalfOpen || b.consecutiveFailures + 1 >= b.failureThreshold
    requires forall i :: 0 <= i < |questions| ==> questions[i].Ask?
    ensures var until := SaturatingAdd(t, b.Pause(hint));
            && (After(b.Limited(t, hint), questions).Allows(now)
                <==> AskedNoEarlierThan(until, questions + [Ask(now)]))
            && ((forall i :: 0 <= i < |questions| ==> questions[i].now <= now) ==>
                  (After(b.Limited(t, hint), questions).Allows(now) <==> now >= until))
  {
    var until := SaturatingAdd(t, b.Pause(hint));
    OpenUntilAsked(b.Limited(t, hint), questions);
    AskedLast(until, questions, Ask(now));
  }

  /** The pause is the longer of the configured cooldown and the server's hint. */
  lemma PauseIsTheLonger(b: Breaker, hint: Option<int>)
    ensures b.Pause(hint) >= b.cooldownMs && (hint.Some? ==> b.Pause(hint) >= hint.value)
    ensures b.Pause(hint) == b.cooldownMs || hint == Some(b.Pause(hint))
  {
  }

  /** The wait a refused caller is told is the least one after which the untouched breaker allows it. */
  lemma ReportedOpenWaitIsExact(b: Breaker, now: int)
    requires !b.Allows(now)
    ensures b.RetryAfterMs(now) >= 1
    ensures forall t :: b.Asked(now).Allows(t) <==> t >= now + b.RetryAfterMs(now)
  {
  }
}
