/**
 * The mutable window record of the sliding window: the start time of the
 * interval the bucket currently stands for, and the caller's payload.
 */
module Windows {
  import opened Wrappers

  /** One bucket. Both fields are overwritten in place when the bucket is recycled. */
  class WindowWrap<T> {
    var windowStart: int
    var data: Option<T>

    /** The all-arguments constructor. */
    constructor (windowStart: int, data: Option<T>)
      ensures this.windowStart == windowStart && this.data == data
    {
      this.windowStart := windowStart;
      this.data := data;
    }

    method SetWindowStart(windowStart: int)
      modifies this
      ensures this.windowStart == windowStart && data == old(data)
    {
      this.windowStart := windowStart;
    }

    method SetData(data: Option<T>)
      modifies this
      ensures this.data == data && windowStart == old(windowStart)
    {
      this.data := data;
    }
  }

  /** The value held by one ring slot: nothing yet, or a bucket's two fields. */
  datatype Slot<T> = Empty | Filled(windowStart: int, data: Option<T>)

  /** What a slot reference shows at this moment. */
  function SlotOf<T>(w: WindowWrap?<T>): Slot<T>
    reads w
  {
    if w == null then Empty else Filled(w.windowStart, w.data)
  }
}
