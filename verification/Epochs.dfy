/** Epoch arithmetic: six-hour epochs counted from the network's genesis time. */
module Epochs {
  import opened Common

  type Epoch = x: nat | x < U64

  const MAX_INT64 := 0x7FFF_FFFF_FFFF_FFFF

  /** Times are nanoseconds; `startTime` is the genesis time. */
  datatype EpochManager = EpochManager(startTime: int, epochDuration: int)
  {
    /** What `NewEpochManagerWithCustomStart` insists on. */
    predicate Valid() {
      0 < epochDuration
    }

    /** Times before genesis are epoch 0; the elapsed duration saturates at the int64 maximum. */
    function EpochAt(t: int): (e: Epoch)
      requires Valid()
    {
      if t < startTime then 0
      else
        var elapsed := if t - startTime > MAX_INT64 then MAX_INT64 else t - startTime;
        QuotientBound(elapsed, epochDuration);
        elapsed / epochDuration
    }

    /** The current epoch and the three before it, never a future one. */
    predicate IsValidEpoch(epoch: Epoch, now: int)
      requires Valid()
    {
      epoch <= EpochAt(now) && EpochAt(now) - epoch <= 3
    }

    /** Epochs never run backwards under a clock that does not. */
    lemma EpochMonotone(t: int, u: int)
      requires Valid() && t <= u
      ensures EpochAt(t) <= EpochAt(u)
    {
      if startTime <= t {
        var a := if t - startTime > MAX_INT64 then MAX_INT64 else t - startTime;
        var b := if u - startTime > MAX_INT64 then MAX_INT64 else u - startTime;
        QuotientMonotone(a, b, epochDuration);
      }
    }

    function EpochStart(epoch: nat): int {
      startTime + epoch * epochDuration
    }

    /** A time from genesis on lies in its epoch, until the elapsed time saturates. */
    lemma EpochContains(t: int)
      requires Valid() && startTime <= t <= startTime + MAX_INT64
      ensures EpochStart(EpochAt(t)) <= t < EpochStart(EpochAt(t) + 1)
    {
      var e := EpochAt(t);
      assert t - startTime == e * epochDuration + (t - startTime) % epochDuration;
      assert (e + 1) * epochDuration == e * epochDuration + epochDuration;
    }

    /** Lists exactly the valid epochs, each once, newest first. */
    method GetRecentEpochs(now: int) returns (epochs: seq<Epoch>)
      requires Valid()
      ensures forall e :: e in epochs <==> IsValidEpoch(e, now)
      ensures forall i, j | 0 <= i < j < |epochs| :: epochs[i] > epochs[j]
    {
      var current := EpochAt(now);
      epochs := [];
      for i := 0 to 4
        invariant forall e :: e in epochs <==> e <= current && current - e < i
        invariant forall j, k | 0 <= j < k < |epochs| :: epochs[j] > epochs[k]
      {
        if current >= i {
          assert forall j | 0 <= j < |epochs| :: epochs[j] in epochs;
          epochs := epochs + [current - i];
        }
      }
    }
  }

  lemma QuotientStep(a: nat, d: int)
    requires 0 < d <= a
    ensures a / d == (a - d) / d + 1
  {
    var q, r := (a - d) / d, (a - d) % d;
    assert a - d == d * q + r;
    QuotientUnique(a, d, q + 1, r);
  }

  lemma {:induction false} QuotientBound(a: nat, d: int)
    requires 0 < d
    ensures 0 <= a / d <= a
  {
    if d <= a {
      QuotientStep(a, d);
      QuotientBound(a - d, d);
    }
  }

  lemma {:induction false} QuotientMonotone(a: nat, b: nat, d: int)
    requires a <= b && 0 < d
    ensures a / d <= b / d
  {
    if d <= a {
      QuotientStep(a, d);
      QuotientStep(b, d);
      QuotientMonotone(a - d, b - d, d);
    } else {
      QuotientBound(b, d);
    }
  }
}
