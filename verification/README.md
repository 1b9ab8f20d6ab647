# Leap array: a time-bucketed ring of mutable windows

This project models, in Dafny, the sliding-window structure of the JYlimiter
repository: `LeapArray<T>`, a fixed-length ring of `WindowWrap<T>` buckets. Each
bucket holds the start time (milliseconds) of the interval it currently stands
for and a caller-owned payload.

- **`currentWindow()`** maps a timestamp `now` to slot `(now / span) % buckets` and
  to the aligned start `now - now % span`. It then does one of four things:
  - An empty slot gets a fresh bucket stamped with the unaligned `now`.
  - A bucket whose start equals the aligned start is returned as it is.
  - An older bucket is reset in place: its start becomes the aligned start and
    its data `null`. That same object is returned.
  - A bucket whose start is later than the aligned start matches no branch, and
    the loop never exits.
- **`values()`** resolves the current window first. It then scans the ring in
  slot order and collects the data of every bucket with
  `now - windowStart > span`.

The files:

- `wrappers.dfy`: `Option`, which stands for a nullable payload.
- `window_wrap.dfy` (module `Windows`): the bucket is a class with the two
  mutable fields, its constructor and setters. `Slot` is the value one ring slot
  shows: `Empty` for `null`, or `Filled(windowStart, data)`.
- `leap_spec.dfy` (module `LeapSpec`): the value-level facts.
  - Slot index and aligned start, with their arithmetic properties.
  - `Resolve`, one resolution of one slot, with its `Outcome`:
    `Created | Hit | Recycled | Stuck`.
  - `Collect` and `Passing`: the data list, and the indices of the slots the
    filter keeps.
  - The lemmas about all of these.
- `leap_array.dfy` (module `LeapArrays`): the class `LeapArray`.
  - The ring is an `array<WindowWrap?<T>>`.
  - `Valid()` requires a consistent configuration and no bucket object in two
    slots.
  - `View()` is the ring as a sequence of `Slot`s.
  - `CurrentWindow`, `Scan` and `Values` are proved against `Resolve` and
    `Collect`.
- `scenarios.dfy`: client timelines on a ring of 10 buckets of 100 ms. Their
  assertions are proved from the contracts alone:
  - creation, then recycling one ring later (the same object, with the
    caller's data cleared);
  - the stuck second call;
  - aggregation leaving out the current bucket and keeping an older one;
  - a bucket the caller holds staying shared with the ring after aggregation,
    so a later write through it shows in the ring.

Time is a parameter. `CurrentWindow(now)` takes the reading that the source
takes from the system clock. `Values(now1, now2)` takes the two readings the
source makes. The clock may go backwards between them, so they are in no
particular order.

The model runs on one thread:
- the compare-and-set into an empty slot succeeds;
- the try-lock before recycling succeeds, up to the lock's limit of 2^31-1
  holds (see "Left out");
- the source's `while (true)` loop becomes a case split.
  `Recycled` covers two passes of that loop: the reset, then the pass that finds
  the start equal and returns. `Stuck` is the pass that repeats forever.

What the code does, in three places where a reader might expect otherwise:
- A new bucket is stamped with the unaligned `now` (LeapArray.java:40), not the
  aligned start. So a bucket's start is not always a multiple of the span: a
  bucket created at 950 ms in a 100 ms ring starts at 950, not 900
  (`Scenarios.RotationTimeline`).
- The recycle lock is never released (LeapArray.java:50-55), so every recycle
  adds one hold. Single-threaded, re-entrant acquisition succeeds up to the
  lock's limit of 2^31-1 holds, so below that limit this makes no difference
  to the model.
- A failed compare-and-set retries against the same slot reading taken before
  the loop (LeapArray.java:37-43), not a fresh one.

## Model

| member | source | states |
|---|---|---|
| `Windows.WindowWrap.constructor` | src/main/java/com/wentong/window/WindowWrap.java:9-14 | the new bucket's start and data are the constructor arguments |
| `Windows.WindowWrap.SetWindowStart` | src/main/java/com/wentong/window/WindowWrap.java:9-13 | the start becomes the argument; the data is unchanged |
| `Windows.WindowWrap.SetData` | src/main/java/com/wentong/window/WindowWrap.java:9-14 | the data becomes the argument; the start is unchanged |
| `LeapArrays.LeapArray.constructor` | src/main/java/com/wentong/window/LeapArray.java:25-30 | the span is `totalTimesInMills / buckets` (integer division) and is positive; the ring is fresh, of length `buckets`, every slot `null` |
| `LeapSpec.SpanPositive` | src/main/java/com/wentong/window/LeapArray.java:28 | when `0 < buckets <= totalTimesInMills`, the integer span is at least 1 |
| `LeapSpec.BucketIndex` | src/main/java/com/wentong/window/LeapArray.java:35 | for a non-negative time, the slot index is in `[0, buckets)` |
| `LeapSpec.AlignedStart` | src/main/java/com/wentong/window/LeapArray.java:36 | the aligned start is a multiple of the span, at most `now`, and less than one span before `now` |
| `LeapSpec.SameIntervalSameSlot` | src/main/java/com/wentong/window/LeapArray.java:35-36 | two times in the same interval share the slot index and the aligned start |
| `LeapSpec.FullCycleSameSlot` | src/main/java/com/wentong/window/LeapArray.java:35-36 | times `span * buckets` apart share the slot; the later interval starts exactly one ring later |
| `LeapSpec.Resolve` | src/main/java/com/wentong/window/LeapArray.java:38-57 | the four-way case split of the loop body: only an empty slot gets a new bucket; whenever resolution ends, the slot holds a bucket whose interval contains `now`; a stuck slot holds a bucket that starts less than one span before `now`, or later |
| `LeapSpec.ResolveOutcomeSlots` | src/main/java/com/wentong/window/LeapArray.java:38-57 | a created bucket starts at the unaligned `now` with no data. Hit leaves the slot as it was. Recycled gives the aligned start and no data. Stuck changes nothing |
| `LeapSpec.SecondCallInSameInterval` | src/main/java/com/wentong/window/LeapArray.java:38-57 | a second resolution in the same interval returns the same bucket unchanged. The exception is a first call that created the bucket at an unaligned time: then the second call is stuck (never returns), and only then |
| `LeapSpec.LaterIntervalRecycles` | src/main/java/com/wentong/window/LeapArray.java:49-52 | a bucket resolved at `now1` is recycled at any `now2` in a later interval: it gets the new aligned start and its data is cleared |
| `LeapSpec.OneRingLaterRecycles` | src/main/java/com/wentong/window/LeapArray.java:35-52 | one full ring later the same slot is hit and its bucket is recycled to a start exactly one ring later, with its data cleared |
| `LeapArrays.LeapArray.CurrentWindow` | src/main/java/com/wentong/window/LeapArray.java:32-58 | slot `(now / span) % buckets` changes as `Resolve` says, and no other slot changes. A created bucket is fresh and installed in the slot. A hit or recycled bucket is the very object that was in the slot, so an in-place reset shows through the ring. The array's references change only on creation. Stuck returns nothing |
| `LeapSpec.NotDeprecated` | src/main/java/com/wentong/window/LeapArray.java:74-76 | the literal filter `now - windowStart > span`; with a non-negative span, a bucket it keeps started strictly before `now` (its exact meaning for aligned starts is `NotDeprecatedByAge`) |
| `LeapSpec.NotDeprecatedByAge` | src/main/java/com/wentong/window/LeapArray.java:74-76 | for an aligned start, the filter holds exactly for buckets more than one interval back, or exactly one interval back when `now` is unaligned. It never holds for the current interval's bucket |
| `LeapSpec.Collect` | src/main/java/com/wentong/window/LeapArray.java:63-71 | the collected list has at most one entry per slot |
| `LeapSpec.Passing` | src/main/java/com/wentong/window/LeapArray.java:65-70 | the indices the scan keeps are strictly increasing, each passes the null check and the filter, and every slot that passes is listed |
| `LeapSpec.CollectIsPassingData` | src/main/java/com/wentong/window/LeapArray.java:63-71 | the collected list is exactly the data of the kept slots, in increasing slot order |
| `LeapSpec.CollectAppend` | src/main/java/com/wentong/window/LeapArray.java:65-70 | scanning a ring in two parts yields the first part's list followed by the second's |
| `LeapSpec.CollectNoneLive` | src/main/java/com/wentong/window/LeapArray.java:65-70 | when the filter keeps no slot, the list is empty |
| `LeapArrays.LeapArray.Scan` | src/main/java/com/wentong/window/LeapArray.java:62-71 | the index loop over the ring returns `Collect` of the current ring and changes nothing |
| `LeapSpec.ResolvedSlotNotListed` | src/main/java/com/wentong/window/LeapArray.java:61-75 | the slot just resolved at `now1` is never kept by a scan at a `now2` in the same interval |
| `LeapArrays.LeapArray.Values` | src/main/java/com/wentong/window/LeapArray.java:60-72 | resolves slot `Index(now1)` as `CurrentWindow` does. Every other slot keeps its bucket object. The resolved slot keeps its object unless it was empty, in which case it gets a fresh one. So buckets held by callers stay shared with the ring. It then returns the data of the kept slots of the resulting ring at `now2`, at most `buckets` of them. The slot just resolved is not among them while `now2` is in the same interval. A stuck resolution means no result (`None`) |

## Left out

- Concurrency is not modelled: the compare-and-set on `AtomicReferenceArray`, `ReentrantLock.tryLock`, `Thread.yield`, and the retries they cause. A failed compare-and-set would spin forever, because the slot is never re-read. The lock is never released. The model is single-threaded, so the compare-and-set succeeds, and the re-entrant try-lock succeeds up to its limit of 2^31-1 holds.
- `System.currentTimeMillis()` becomes the parameters `now`, `now1` and `now2`.
- `LeapArrays.LeapArray.CurrentWindow`: non-termination is reported as the outcome `Stuck` with no bucket, not modelled as a loop that does not end.
- `LeapArrays.LeapArray.CurrentWindow`: the lock's hold count is not modelled. Each recycle takes the lock and never releases it. Past 2^31-1 holds, `ReentrantLock` throws `java.lang.Error` ("Maximum lock count exceeded") out of `currentWindow()` and `values()` before the bucket is touched. The model recycles indefinitely.
- `LeapArrays.LeapArray.Values`: a stuck resolution is reported as `None`, not modelled as divergence.
- Java `long` and `int` overflow, and the `(int)` cast of the slot index, are not modelled. Integers are unbounded, and times are required to be non-negative, as clock readings are. For negative times Java's truncating `/` and `%` would differ from Dafny's.
- `LeapArrays.LeapArray.constructor` requires `0 < buckets <= totalTimesInMills`. Java would do something else outside that range:
  - `buckets == 0` throws `ArithmeticException`;
  - a negative length throws `NegativeArraySizeException`;
  - a span of 0 makes every `currentWindow()` divide by zero;
  - `buckets > 0` with `totalTimesInMills <= -buckets` builds a ring with a negative span; Java's `/` and `%` truncate toward zero, so the index `(now / span) % buckets` (LeapArray.java:35) lies in `(-buckets, 0]`. For every `now` whose index is non-zero, `currentWindow()` computes a negative index and `array.get` throws `IndexOutOfBoundsException`. Where the index is 0, slot 0 is resolved as in the modelled range: it is created, kept or recycled, or the loop spins.
- The Lombok getters are plain field reads in the model. The generated `equals`, `hashCode` and `toString` are not modelled. The `@Getter`s on `buckets` and `totalTimesInMills` are the class's `const` fields.
- The payload type `T` is opaque, and `null` is `None`.
