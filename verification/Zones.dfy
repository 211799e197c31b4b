/**
 Time zones as offset functions: the seconds a zone's local clock is ahead of UTC at each instant,
 always less than a day. Resolving a local time takes the earliest instant that reads it.
 */
module Zones {
  import opened Wrappers

  const SECS_PER_DAY: int := 86400

  datatype Zone = Zone(offset: int -> int)

  ghost predicate IsZone(z: Zone) {
    forall t :: -SECS_PER_DAY < z.offset(t) < SECS_PER_DAY
  }

  /** A zone without transitions. */
  ghost predicate IsFixed(z: Zone, offset: int) {
    -SECS_PER_DAY < offset < SECS_PER_DAY && forall t :: z.offset(t) == offset
  }

  function LocalTime(z: Zone, t: int): int {
    t + z.offset(t)
  }

  /** The number of the local calendar day at `t`. */
  function LocalDay(z: Zone, t: int): int {
    LocalTime(z, t) / SECS_PER_DAY
  }

  function LocalSecondOfDay(z: Zone, t: int): int {
    LocalTime(z, t) % SECS_PER_DAY
  }

  function EarliestFrom(z: Zone, local: int, t: int): Option<int>
    decreases local + SECS_PER_DAY - t
  {
    if t >= local + SECS_PER_DAY then None
    else if LocalTime(z, t) == local then Some(t)
    else EarliestFrom(z, local, t + 1)
  }

  /** The earliest instant at which the zone's clock reads `local`; none inside a skipped hour. */
  function Resolve(z: Zone, local: int): Option<int> {
    EarliestFrom(z, local, local - SECS_PER_DAY)
  }

  lemma {:induction false} EarliestFromIsEarliest(z: Zone, local: int, t: int)
    ensures match EarliestFrom(z, local, t)
            case Some(u) => t <= u && LocalTime(z, u) == local && forall v :: t <= v < u ==> LocalTime(z, v) != local
            case None => forall v :: t <= v < local + SECS_PER_DAY ==> LocalTime(z, v) != local
    decreases local + SECS_PER_DAY - t
  {
    if t < local + SECS_PER_DAY && LocalTime(z, t) != local {
      EarliestFromIsEarliest(z, local, t + 1);
    }
  }

  /** Resolution is exact in every zone: the least instant reading `local`, or none if there is none. */
  lemma ResolveIsEarliest(z: Zone, local: int)
    requires IsZone(z)
    ensures match Resolve(z, local)
            case Some(u) => LocalTime(z, u) == local && forall v :: LocalTime(z, v) == local ==> u <= v
            case None => forall v :: LocalTime(z, v) != local
  {
    EarliestFromIsEarliest(z, local, local - SECS_PER_DAY);
    forall v | LocalTime(z, v) == local
      ensures local - SECS_PER_DAY < v < local + SECS_PER_DAY
    {
      assert -SECS_PER_DAY < z.offset(v) < SECS_PER_DAY;
    }
  }

  lemma ResolveFixed(z: Zone, offset: int, local: int)
    requires IsFixed(z, offset)
    ensures IsZone(z) && Resolve(z, local) == Some(local - offset)
  {
    ResolveIsEarliest(z, local);
    assert LocalTime(z, local - offset) == local;
  }
}
