/**
 * The leap array itself: a fixed-length ring of bucket references, shared
 * with the callers that hold buckets, with window resolution and aggregation.
 * Time is a parameter; the model runs on one thread.
 */
module LeapArrays {
  import opened Wrappers
  import opened Windows
  import opened LeapSpec

  class LeapArray<T> {
    const buckets: int
    const totalTimesInMills: int
    /** The length of one bucket's interval, in milliseconds. */
    const perBucketsTimes: int
    /** The ring of slots; `null` is a slot never used yet. */
    const ring: array<WindowWrap?<T>>

    /**
     * The configuration is consistent, and no bucket object sits in two slots
     * (each slot receives its own fresh bucket), so changing one bucket changes
     * one slot.
     */
    ghost predicate Valid()
      reads this, ring
    {
      0 < buckets <= totalTimesInMills &&
      perBucketsTimes == totalTimesInMills / buckets &&
      perBucketsTimes > 0 &&
      ring.Length == buckets &&
      forall i, j :: 0 <= i < ring.Length && 0 <= j < ring.Length && i != j && ring[i] != null ==>
        ring[i] != ring[j]
    }

    /** What each slot holds right now, in slot order. */
    ghost function View(): (v: seq<Slot<T>>)
      reads this, ring, ring[..]
      ensures |v| == ring.Length
      ensures forall i :: 0 <= i < ring.Length ==> v[i] == SlotOf(ring[i])
    {
      seq(ring.Length, i requires 0 <= i < ring.Length reads ring, ring[..] => SlotOf(ring[i]))
    }

    /** The slot `now` maps to. */
    function Index(now: int): (idx: int)
      reads this
      requires now >= 0 && perBucketsTimes > 0 && buckets > 0
    {
      BucketIndex(now, perBucketsTimes, buckets)
    }

    constructor (buckets: int, totalTimesInMills: int)
      requires 0 < buckets <= totalTimesInMills
      ensures Valid() && fresh(ring)
      ensures this.buckets == buckets && this.totalTimesInMills == totalTimesInMills
      ensures perBucketsTimes == totalTimesInMills / buckets
      ensures forall i :: 0 <= i < ring.Length ==> ring[i] == null
      ensures View() == seq(buckets, _ => Empty)
    {
      this.buckets := buckets;
      this.totalTimesInMills := totalTimesInMills;
      this.perBucketsTimes := totalTimesInMills / buckets;
      ring := new WindowWrap?<T>[buckets](_ => null);
      new;
      SpanPositive(totalTimesInMills, buckets);
    }

    /**
     * Resolves the bucket for time `now`. The slot `Index(now)` changes as
     * `Resolve` says and no other slot changes. A created bucket is fresh and
     * is installed in the slot; a kept or recycled bucket is the very object
     * that was in the slot, so the in-place reset is visible through both the
     * returned reference and the ring. `Stuck` stands for the loop that never
     * exits; nothing is returned then.
     */
    method CurrentWindow(now: int) returns (outcome: Outcome, w: WindowWrap?<T>)
      requires Valid() && now >= 0
      modifies ring, ring[Index(now)]
      ensures Valid()
      ensures var idx := Index(now);
        var step := Resolve(old(View())[idx], now, perBucketsTimes);
        outcome == step.outcome && View() == old(View())[idx := step.slot]
      ensures forall i :: 0 <= i < ring.Length && i != Index(now) ==> ring[i] == old(ring[i])
      ensures outcome == Created ==> w != null && fresh(w) && ring[Index(now)] == w
      ensures (outcome == Hit || outcome == Recycled) ==> w != null && w == old(ring[Index(now)]) && ring[Index(now)] == w
      ensures outcome == Stuck <==> w == null
      ensures outcome != Created ==> ring[..] == old(ring[..])
    {
      var idx := Index(now);
      var startIndex := now - now % perBucketsTimes;
      var source := ring[idx];
      if source == null {
        // single thread: the compare-and-set from null succeeds
        var windowWrap := new WindowWrap<T>(now, None);
        ring[idx] := windowWrap;
        return Created, windowWrap;
      } else if source.windowStart == startIndex {
        return Hit, source;
      } else if source.windowStart < startIndex {
        // single thread: the try-lock succeeds; the next pass takes the equal branch
        source.SetWindowStart(startIndex);
        source.SetData(None);
        return Recycled, source;
      } else {
        return Stuck, null;
      }
    }

    /**
     * The aggregation scan at time `now`: the data of every slot the filter
     * keeps, in slot order. Changes nothing.
     */
    method Scan(now: int) returns (list: seq<Option<T>>)
      requires Valid()
      ensures list == Collect(View(), now, perBucketsTimes)
    {
      list := [];
      var i := 0;
      while i < ring.Length
        invariant 0 <= i <= ring.Length
        invariant list == Collect(View()[..i], now, perBucketsTimes)
      {
        var w := ring[i];
        assert View()[..i + 1][..i] == View()[..i];
        if w != null && NotDeprecated(now, w.windowStart, perBucketsTimes) {
          list := list + [w.data];
        }
        i := i + 1;
      }
      assert View()[..ring.Length] == View();
    }

    /**
     * Resolves the window at `now1`, then scans at `now2`. The ring keeps its
     * bucket objects, except that an empty slot `Index(now1)` receives a fresh
     * one, so buckets held by callers stay shared with the ring. When the
     * resolution is stuck the call never returns (`None`). Otherwise the list is the data
     * of the kept slots of the ring as left by the resolution, it has at most
     * one entry per slot, and the slot just resolved is not among the kept
     * ones when `now2` is still in the same interval.
     */
    method Values(now1: int, now2: int) returns (list: Option<seq<Option<T>>>)
      requires Valid() && 0 <= now1 && 0 <= now2
      modifies ring, ring[Index(now1)]
      ensures Valid()
      ensures var idx := Index(now1);
        var step := Resolve(old(View())[idx], now1, perBucketsTimes);
        View() == old(View())[idx := step.slot] &&
        (list.None? <==> step.outcome == Stuck)
      ensures forall i :: 0 <= i < ring.Length && i != Index(now1) ==> ring[i] == old(ring[i])
      ensures old(ring[Index(now1)]) != null ==> ring[..] == old(ring[..])
      ensures old(ring[Index(now1)]) == null ==> ring[Index(now1)] != null && fresh(ring[Index(now1)])
      ensures list.Some? ==> list.value == Collect(View(), now2, perBucketsTimes) && |list.value| <= buckets
      ensures list.Some? && now1 / perBucketsTimes == now2 / perBucketsTimes ==>
        Index(now1) !in Passing(View(), now2, perBucketsTimes)
    {
      ghost var before := View();
      ghost var idx := Index(now1);
      var outcome, _ := CurrentWindow(now1);
      if outcome == Stuck {
        return None;
      }
      var scanned := Scan(now2);
      list := Some(scanned);
      if now1 / perBucketsTimes == now2 / perBucketsTimes {
        ResolvedSlotNotListed(before[idx], now1, now2, perBucketsTimes);
        assert !Live(View()[idx], now2, perBucketsTimes);
      }
    }
  }
}
