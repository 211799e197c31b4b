/** The failure taxonomy and the retry policy: whether to try again after a failure, and how long to wait. */
module RetryPolicies {
  import opened Numbers
  import opened Wrappers

  datatype FailureClass = RateLimited | QuotaExceeded | InvalidRequest | ServiceUnavailable | Unknown {
    predicate IsRetryable() {
      RateLimited? || ServiceUnavailable?
    }
  }

  function Pow2(n: nat): nat {
    if n == 0 then 1 else 2 * Pow2(n - 1)
  }

  datatype RetryDecision = Retry(afterSecs: int) | GiveUp

  datatype RetryPolicy = RetryPolicy(baseSecs: int, maxSecs: int, maxAttempts: nat) {

    /** The delay after `attemptsMade` failures, in 64-bit arithmetic with the shift held at 62. */
    function BackoffSecs(attemptsMade: nat): int {
      Min(SaturatingMul(baseSecs, Pow2(Min(Max(attemptsMade - 1, 0), 62))), maxSecs)
    }

    /** The delay before the next attempt: the backoff, or the server's hint when longer. */
    function DelaySecs(attemptsMade: nat, hint: Option<int>): int {
      if hint.Some? then Max(hint.value, BackoffSecs(attemptsMade)) else BackoffSecs(attemptsMade)
    }

    function Decide(failure: FailureClass, attemptsMade: nat, hint: Option<int>): RetryDecision {
      if !failure.IsRetryable() || attemptsMade >= maxAttempts then GiveUp
      else Retry(DelaySecs(attemptsMade, hint))
    }
  }

  lemma {:induction false} Pow2IsMonotone(m: nat, n: nat)
    requires m <= n
    ensures 1 <= Pow2(m) <= Pow2(n)
  {
    if m < n {
      Pow2IsMonotone(m, n - 1);
    } else if m > 0 {
      Pow2IsMonotone(m - 1, m - 1);
    }
  }

  lemma ScaledIsMonotone(base: int, m: nat, n: nat)
    requires base >= 0 && m <= n
    ensures base * m <= base * n
  {
  }

  lemma Pow2At62()
    ensures Pow2(62) == 0x4000_0000_0000_0000
    ensures Pow2(63) == 0x8000_0000_0000_0000
  {
    assert Pow2(8) == 0x100;
    Pow2Adds(8, 8);
    Pow2Adds(16, 16);
    Pow2Adds(32, 16);
    Pow2Adds(48, 8);
    Pow2Adds(56, 6);
    assert Pow2(6) == 0x40;
  }

  lemma {:induction false} Pow2Adds(m: nat, n: nat)
    ensures Pow2(m + n) == Pow2(m) * Pow2(n)
  {
    if n > 0 {
      Pow2Adds(m, n - 1);
    }
  }

  lemma NegativeScaledIsMonotone(base: int, m: nat, n: nat)
    requires base <= 0 && m <= n
    ensures base * n <= base * m
  {
  }

  /**
   The delay after failure `k` is exactly `base * 2^(k-1)` capped at `maxSecs`, except where the
   machine's arithmetic shows. For a non-negative base that is one corner: a base of one second,
   more than 63 failures and a cap above `2^62`, where the shift is held. For a negative base it
   is wherever the doubling leaves the 64-bit range or the shift is held, unless the cap is the
   least number there is.
   */
  lemma BackoffIsCappedDoubling(p: RetryPolicy, k: nat)
    requires k >= 1 && IsI64(p.baseSecs) && IsI64(p.maxSecs)
    ensures p.BackoffSecs(k) == Min(p.baseSecs * Pow2(k - 1), p.maxSecs)
       <==> (if p.baseSecs >= 0 then !(p.baseSecs == 1 && k > 63 && p.maxSecs > Pow2(62))
             else p.baseSecs * Pow2(k - 1) >= I64_MIN && (k <= 63 || p.maxSecs == I64_MIN))
  {
    hide Pow2;
    if p.baseSecs >= 0 {
      DoublingUp(p, k);
    } else {
      DoublingDown(p, k);
    }
  }

  lemma DoublingUp(p: RetryPolicy, k: nat)
    requires k >= 1 && 0 <= p.baseSecs <= I64_MAX && IsI64(p.maxSecs)
    ensures p.BackoffSecs(k) == Min(p.baseSecs * Pow2(k - 1), p.maxSecs)
       <==> !(p.baseSecs == 1 && k > 63 && p.maxSecs > Pow2(62))
  {
    hide Pow2;
    Pow2At62();
    if k - 1 <= 62 {
      Pow2IsMonotone(0, k - 1);
    } else {
      Pow2IsMonotone(63, k - 1);
      ScaledIsMonotone(p.baseSecs, Pow2(63), Pow2(k - 1));
    }
  }

  lemma DoublingDown(p: RetryPolicy, k: nat)
    requires k >= 1 && I64_MIN <= p.baseSecs < 0 && IsI64(p.maxSecs)
    ensures p.BackoffSecs(k) == Min(p.baseSecs * Pow2(k - 1), p.maxSecs)
       <==> p.baseSecs * Pow2(k - 1) >= I64_MIN && (k <= 63 || p.maxSecs == I64_MIN)
  {
    hide Pow2;
    Pow2At62();
    if k - 1 <= 62 {
      Pow2IsMonotone(0, k - 1);
    } else {
      Pow2IsMonotone(63, k - 1);
      NegativeScaledIsMonotone(p.baseSecs, Pow2(63), Pow2(k - 1));
    }
  }

  /**
   What is waited is the larger of the documented doubling and the server's hint, and no more than that;
   exactly the transient failures, overload and unavailability, are retried, while attempts are left.
   */
  lemma DecisionIsAsDocumented(p: RetryPolicy, failure: FailureClass, k: nat, hint: Option<int>)
    requires k >= 1 && 0 <= p.baseSecs <= I64_MAX && IsI64(p.maxSecs)
    requires k <= 63 || p.baseSecs != 1 || p.maxSecs <= Pow2(62)
    ensures var doubling, decision := Min(p.baseSecs * Pow2(k - 1), p.maxSecs), p.Decide(failure, k, hint);
            && (decision.Retry? <==> failure in {RateLimited, ServiceUnavailable} && k < p.maxAttempts)
            && (decision.Retry? ==>
                  && decision.afterSecs >= doubling && (hint.Some? ==> decision.afterSecs >= hint.value)
                  && (decision.afterSecs == doubling || hint == Some(decision.afterSecs)))
  {
    hide Pow2, RetryPolicy.BackoffSecs;
    BackoffIsCappedDoubling(p, k);
  }

  /** Waits never get shorter from one failure to the next, and never pass the cap. */
  lemma BackoffIsMonotone(p: RetryPolicy, j: nat, k: nat)
    requires 1 <= j <= k
    ensures p.baseSecs >= 0 ==> p.BackoffSecs(j) <= p.BackoffSecs(k)
    ensures p.baseSecs <= 0 ==> p.BackoffSecs(k) <= p.BackoffSecs(j)
    ensures p.BackoffSecs(k) <= p.maxSecs
  {
    hide Pow2;
    var a, b := Min(j - 1, 62), Min(k - 1, 62);
    Pow2IsMonotone(a, b);
    if p.baseSecs >= 0 {
      ScaledIsMonotone(p.baseSecs, Pow2(a), Pow2(b));
    }
    if p.baseSecs <= 0 {
      NegativeScaledIsMonotone(p.baseSecs, Pow2(a), Pow2(b));
    }
  }
}
