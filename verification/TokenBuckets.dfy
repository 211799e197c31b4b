/**
 The token bucket of the shared rate limiter: `Bucket` is its value, with the transitions as
 functions, and `TokenBucket` the object that changes in place. Tokens are reals, so the model
 has no rounding. Clock readings are arbitrary integers and may go backwards.
 */
module TokenBuckets {
  import opened Numbers

  /** The tokens that accrue over `elapsedMs` at `perMs` tokens a millisecond. */
  function Accrued(elapsedMs: int, perMs: real): real {
    elapsedMs as real * perMs
  }

  datatype Bucket = Bucket(capacity: real, tokens: real, refillPerMs: real, lastRefillMs: int) {

    ghost predicate Valid() {
      && 1.0 <= capacity
      && 0.0 <= tokens <= capacity
      && refillPerMs == capacity / 60000.0
    }

    /** The bucket after accruing tokens up to `now`; a reading behind the last refill accrues nothing. */
    function Refilled(now: int): Bucket {
      if now > lastRefillMs then
        this.(tokens := MinReal(tokens + Accrued(now - lastRefillMs, refillPerMs), capacity), lastRefillMs := now)
      else
        this
    }

    function Available(now: int): real {
      Refilled(now).tokens
    }

    /** Whether one token can be spent at `now` with `reserve` tokens remaining. */
    predicate Grants(reserve: real, now: int) {
      Available(now) >= 1.0 + reserve
    }

    /** The bucket after an attempt to spend one token above `reserve`. */
    function Asked(reserve: real, now: int): Bucket {
      var b := Refilled(now);
      if Grants(reserve, now) then b.(tokens := b.tokens - 1.0) else b
    }

    function Drained(now: int): Bucket {
      Refilled(now).(tokens := 0.0)
    }

    /** Milliseconds until `target` tokens are available, as reported to the caller. */
    function TimeUntilMs(target: real, now: int): int
      requires refillPerMs > 0.0
    {
      if Available(now) >= target then 0 else Ceil((target - Available(now)) / refillPerMs)
    }
  }

  function FullBucket(rpm: nat, now: int): Bucket {
    var capacity := Max(rpm, 1) as real;
    Bucket(capacity, capacity, capacity / 60000.0, now)
  }

  /** One bucket shared by every request to a provider. */
  class TokenBucket {
    var capacity: real
    var tokens: real
    var refillPerMs: real
    var lastRefillMs: int

    function View(): Bucket
      reads this
    {
      Bucket(capacity, tokens, refillPerMs, lastRefillMs)
    }

    constructor PerMinute(rpm: nat, now: int)
      ensures View() == FullBucket(rpm, now) && View().Valid()
    {
      capacity := Max(rpm, 1) as real;
      tokens := Max(rpm, 1) as real;
      refillPerMs := Max(rpm, 1) as real / 60000.0;
      lastRefillMs := now;
    }

    method Refill(now: int)
      requires View().Valid()
      modifies this
      ensures View() == old(View()).Refilled(now)
      ensures View().Valid()
    {
      if now > lastRefillMs {
        AccruedIsMonotone(0, now - lastRefillMs, refillPerMs);
        tokens := MinReal(tokens + Accrued(now - lastRefillMs, refillPerMs), capacity);
        lastRefillMs := now;
      }
    }

    /** Spends one token if at least `reserve` would remain. */
    method TryAcquireReserving(reserve: real, now: int) returns (granted: bool)
      requires View().Valid()
      modifies this
      ensures View() == old(View()).Asked(reserve, now)
      ensures granted == old(View()).Grants(reserve, now)
      ensures reserve >= 0.0 ==> View().Valid()
      ensures granted ==> tokens >= reserve
    {
      Refill(now);
      if tokens >= 1.0 + reserve {
        tokens := tokens - 1.0;
        granted := true;
      } else {
        granted := false;
      }
    }

    method Drain(now: int)
      requires View().Valid()
      modifies this
      ensures View() == old(View()).Drained(now)
      ensures View().Valid()
    {
      Refill(now);
      tokens := 0.0;
    }
  }

  // ---------- Refill ----------

  lemma AccruedIsMonotone(d: int, e: int, r: real)
    requires d <= e && r >= 0.0
    ensures Accrued(0, r) == 0.0
    ensures Accrued(d, r) <= Accrued(e, r)
  {
  }

  lemma AccruedAdds(d: int, e: int, r: real)
    ensures Accrued(d + e, r) == Accrued(d, r) + Accrued(e, r)
  {
  }

  lemma RefilledIsValid(b: Bucket, now: int)
    requires b.Valid()
    ensures b.Refilled(now).Valid()
    ensures b.Refilled(now).lastRefillMs == Max(b.lastRefillMs, now)
    ensures b.tokens <= b.Refilled(now).tokens
  {
    AccruedIsMonotone(0, Max(b.lastRefillMs, now) - b.lastRefillMs, b.refillPerMs);
    hide Accrued;
  }

  /** A bucket's tokens less what its refill mark has been worth so far. */
  function Credit(b: Bucket): real {
    b.tokens - Accrued(b.lastRefillMs, b.refillPerMs)
  }

  lemma RefillRaisesNoCredit(b: Bucket, now: int)
    requires b.Valid()
    ensures Credit(b.Refilled(now)) <= Credit(b)
    ensures b.Refilled(now).refillPerMs == b.refillPerMs && b.Refilled(now).capacity == b.capacity
  {
    AccruedAdds(now - b.lastRefillMs, b.lastRefillMs, b.refillPerMs);
    hide Accrued;
  }

  /** A granted token is paid for out of the credit; draining only gives credit away. */
  lemma AskingPays(b: Bucket, reserve: real, now: int)
    requires b.Valid()
    ensures Credit(b.Asked(reserve, now)) + (if b.Grants(reserve, now) then 1.0 else 0.0) <= Credit(b)
    ensures Credit(b.Drained(now)) <= Credit(b)
  {
    hide Accrued;
    RefillRaisesNoCredit(b, now);
    RefilledIsValid(b, now);
    hide Bucket.Refilled;
  }

  /**
   Accrual does not depend on when it is observed: refilling at `t1` and then at `t2` gives the
   bucket that refilling once at the later of the two gives.
   */
  lemma RefillIsPathIndependent(b: Bucket, t1: int, t2: int)
    requires b.Valid()
    ensures b.Refilled(t1).Refilled(t2) == b.Refilled(Max(t1, t2))
  {
    AccruedAdds(t1 - b.lastRefillMs, t2 - t1, b.refillPerMs);
    AccruedIsMonotone(0, Max(t2 - t1, 0), b.refillPerMs);
    hide Accrued;
  }

  lemma AskedIsValid(b: Bucket, reserve: real, now: int)
    requires b.Valid() && reserve >= 0.0
    ensures b.Asked(reserve, now).Valid()
    ensures b.Asked(reserve, now).lastRefillMs == Max(b.lastRefillMs, now)
  {
    RefilledIsValid(b, now);
  }

  lemma DrainedIsValid(b: Bucket, now: int)
    requires b.Valid()
    ensures b.Drained(now).Valid()
    ensures b.Drained(now).lastRefillMs == Max(b.lastRefillMs, now)
  {
    RefilledIsValid(b, now);
  }

  /** A drained bucket grants nothing until it has accrued, since the drain, a token and the reserve. */
  lemma DrainedMustRefill(b: Bucket, reserve: real, now: int, t: int)
    requires b.Valid() && reserve >= 0.0
    ensures b.Drained(now).Grants(reserve, t)
       <==> 1.0 + reserve <= b.capacity && Accrued(t - Max(b.lastRefillMs, now), b.refillPerMs) >= 1.0 + reserve
  {
    DrainedIsValid(b, now);
    AccruedIsMonotone(Min(t - Max(b.lastRefillMs, now), 0), 0, b.refillPerMs);
    hide Accrued;
  }

  // ---------- The reported wait ----------

  /** `Ceil(x / r)` is the least whole number of steps of size `r` that covers `x`. */
  lemma CeilDivIsLeastCover(x: real, r: real, n: int)
    requires r > 0.0
    ensures Accrued(n, r) >= x <==> n >= Ceil(x / r)
  {
    var q := x / r;
    assert q * r == x;
    assert n as real * r >= q * r <==> n as real >= q;
  }

  /** How an untouched, just-refused bucket answers at a later instant `t`. */
  lemma GrantedFrom(b: Bucket, reserve: real, now: int, t: int)
    requires b.Valid() && reserve >= 0.0
    requires !b.Grants(reserve, now) && 1.0 + reserve <= b.capacity
    ensures b.Asked(reserve, now).Grants(reserve, t)
       <==> t >= Max(b.lastRefillMs, now) + b.TimeUntilMs(1.0 + reserve, now)
  {
    AskedIsValid(b, reserve, now);
    AccruedIsMonotone(0, 1, b.refillPerMs);
    var after := b.Asked(reserve, now);
    var missing := 1.0 + reserve - after.tokens;
    assert after.tokens == b.Available(now);
    CeilDivIsLeastCover(missing, b.refillPerMs, 0);
    CeilDivIsLeastCover(missing, b.refillPerMs, t - after.lastRefillMs);
    hide Accrued;
  }

  /** A refused caller is always told to wait a positive number of milliseconds. */
  lemma RefusalWaitIsPositive(b: Bucket, reserve: real, now: int)
    requires b.Valid() && !b.Grants(reserve, now)
    ensures b.TimeUntilMs(1.0 + reserve, now) >= 1
  {
    CeilDivIsLeastCover(1.0 + reserve - b.Available(now), b.refillPerMs, 0);
  }

  /**
   The reported wait is exact precisely when the request fits in the bucket and the clock is not
   behind the refill mark: then, and only then, waiting that long on an untouched bucket is
   enough, and at no earlier millisecond would the same request have been granted.
   */
  lemma ReportedWaitIsExact(b: Bucket, reserve: real, now: int)
    requires b.Valid() && reserve >= 0.0 && !b.Grants(reserve, now)
    ensures var wait := b.TimeUntilMs(1.0 + reserve, now);
            && (b.Asked(reserve, now).Grants(reserve, now + wait)
                <==> 1.0 + reserve <= b.capacity && b.lastRefillMs <= now)
            && forall t :: t < now + wait ==> !b.Asked(reserve, now).Grants(reserve, t)
  {
    var wait := b.TimeUntilMs(1.0 + reserve, now);
    if 1.0 + reserve <= b.capacity {
      GrantedFrom(b, reserve, now, now + wait);
      forall t | t < now + wait
        ensures !b.Asked(reserve, now).Grants(reserve, t)
      {
        GrantedFrom(b, reserve, now, t);
      }
    } else {
      forall t
        ensures !b.Asked(reserve, now).Grants(reserve, t)
      {
        OversizedRequestNeverGranted(b, reserve, now, t);
      }
    }
  }

  /** A request whose reserve does not leave room for one token is refused at every instant. */
  lemma OversizedRequestNeverGranted(b: Bucket, reserve: real, now: int, t: int)
    requires b.Valid() && reserve >= 0.0 && 1.0 + reserve > b.capacity
    ensures !b.Grants(reserve, t)
    ensures !b.Asked(reserve, now).Grants(reserve, t)
  {
    RefilledIsValid(b, t);
    AskedIsValid(b, reserve, now);
    RefilledIsValid(b.Asked(reserve, now), t);
  }
}
