/**
 * Clients of the leap array that walk through concrete timelines on a ring of
 * ten buckets covering one second (100 ms per bucket). Each assertion follows
 * from the contracts alone.
 */
module Scenarios {
  import opened Wrappers
  import opened Windows
  import opened LeapSpec
  import opened LeapArrays

  /**
   * Creation, sharing, a second creation, and recycling one ring later: the
   * bucket created at t=0 is the one reset at t=1050, and the data a caller
   * stored in it through its own reference is cleared.
   */
  method RotationTimeline() {
    var la := new LeapArray<int>(10, 1000);
    assert la.perBucketsTimes == 100;

    var o0, w0 := la.CurrentWindow(0);
    assert la.Index(0) == 0;
    assert o0 == Created && la.View()[0] == Filled(0, None);

    w0.SetData(Some(7));
    assert la.View()[0] == SlotOf(w0) == Filled(0, Some(7));

    var o1, w1 := la.CurrentWindow(950);
    assert la.Index(950) == 9;
    assert o1 == Created && la.View()[9] == Filled(950, None);
    assert la.View()[0] == Filled(0, Some(7));

    var o2, w2 := la.CurrentWindow(1050);
    assert la.Index(1050) == 0 && AlignedStart(1050, 100) == 1000;
    assert o2 == Recycled && w2 == w0;
    assert w0.windowStart == 1000 && w0.data == None;
    assert la.View()[9] == Filled(950, None);
  }

  /**
   * A bucket created at an unaligned moment carries that moment as its start,
   * so the next resolution in the same interval finds a start later than the
   * aligned one and never returns.
   */
  method StuckTimeline() {
    var la := new LeapArray<int>(10, 1000);
    var o1, w1 := la.CurrentWindow(950);
    assert o1 == Created && la.View()[9] == Filled(950, None);

    var o2, w2 := la.CurrentWindow(960);
    assert la.Index(960) == 9 && AlignedStart(960, 100) == 900;
    assert o2 == Stuck && w2 == null;

    var values := la.Values(970, 970);
    assert values == None;
  }

  /**
   * Aggregation within the interval just resolved leaves its bucket out: at
   * 50 ms the bucket of [0, 100) is not more than one span old.
   */
  method AggregationLeavesCurrentOut() {
    var la := new LeapArray<int>(10, 1000);
    var o0, w0 := la.CurrentWindow(0);
    w0.SetData(Some(7));
    var early := la.Values(30, 50);
    assert early.Some? && 0 !in Passing(la.View(), 50, 100);
  }

  /**
   * A bucket a caller holds is still the ring's bucket after aggregation, so
   * a later write through the caller's reference shows in the ring.
   */
  method SharingSurvivesAggregation() {
    var la := new LeapArray<int>(10, 1000);
    var o0, w0 := la.CurrentWindow(0);
    var r := la.Values(950, 950);
    assert la.ring[0] == w0;
    w0.SetData(Some(9));
    assert la.View()[0] == Filled(0, Some(9));
  }

  /**
   * Aggregation keeps a bucket once it is more than one span old: at 250 ms
   * the bucket of [0, 100), with the data a caller stored in it, is the one
   * entry.
   */
  method AggregationKeepsOldBucket() {
    var la := new LeapArray<int>(10, 1000);
    ghost var empty: seq<Slot<int>> := seq(10, _ => Empty);
    var o0, w0 := la.CurrentWindow(0);
    w0.SetData(Some(7));
    ghost var v := empty[0 := Filled(0, Some(7))];
    assert la.View() == v;

    var late := la.Values(30, 250);
    assert la.View() == v;
    LoneLiveSlot(v, 250, 100);
    assert late == Some([Some(7)]);
  }

  /** In this ring only slot 0 is kept, so the aggregation is its data alone. */
  lemma LoneLiveSlot(v: seq<Slot<int>>, now: int, span: int)
    requires |v| == 10 && Live(v[0], now, span)
    requires forall i :: 1 <= i < 10 ==> v[i] == Empty
    ensures Collect(v, now, span) == [v[0].data]
  {
    assert v == [v[0]] + v[1..];
    CollectAppend([v[0]], v[1..], now, span);
    CollectNoneLive(v[1..], now, span);
    assert Collect([v[0]], now, span) == Collect([], now, span) + [v[0].data];
  }
}
