# secbuf, verified

A Dafny model of secbuf's stateful data structures, with proofs of the claims its comments make:

- the **lock-free pool with thread caches** as an interleaved step system (`FastPool*`): any number
  of threads, any number of pools, one cache per thread shared by all pools; one step is one access
  to shared memory. How far the length counter drifts, how far the queue overshoots
  `max_pool_size`, who owns each buffer, what a holder can see while all others go on, what the
  statistics mean, and how many steps a call can take;
- the **ring buffer** (`Rings`, `RingFifo`, `RingRuns`, `CircularBuffers`) as a refinement of a
  bounded byte queue, by copying or by zero-copy calls, with the mask and the modulo wrap in lockstep;
- the **linear buffer and its wire codec** (`Buffers`, `LinearBuffers`, `BufferRuns`, `BufferTape`, `Codec`), the
  buffer as a refinement of a tape cut in three;
- the **mutex pool** (`StandardPool*`), as a refinement of a stack of buffer sizes, and the **connection packet queue**
  (`Connections`), over whole runs.

## How it is built

Each component has a value model - what a call does to the state, as a function - and, where the
source updates fields in place, a class whose methods do the same in place, with the source's loops
and segment copies, each proved to do to its view exactly what the function says. Properties of
single calls, of several calls together and of whole runs are lemmas about the functions.
`Runs` defines a run once: a list of events, each possible when it happens. The lock-free pool is
the step system itself; `FastPoolSolo.Solo` drives one thread of it through the source's loops
while the other threads stand still, along a recorded run, and its methods state the whole new state.
The linear buffer and the ring are arrays written in place (`LinearBuffers`, `CircularBuffers`).

`dafny verify dfyconfig.toml` checks the whole project.

## What the proofs found

- The pool's "small constant" overshoot (src/pool/fast.rs:42-46) is T - 1 for T threads without
  `warm`, and with `warm` up to w it is (T - 1) * min(w, max_pool_size); for every T, w and configuration
  a run attains the bound. The overshoot is called transient, but nothing trims the queue: it is still
  there when every thread is idle again. All idle states keep the limits in all runs without `warm` exactly
  for T = 1 (`QueueBoundAttained`, `OvershootAttained`, `NoLastingOvershootIffSolo`).
- The length counter drifts down to 1 - T and no further, and for every T a run gets there: with two
  threads or more `available()` and `stats()` can report 2^64 - (T - 1) for an empty queue; it never
  goes below zero in any run exactly when T = 1 (`CounterDrift`, `CounterWrapsBelowZero`,
  `CounterNeverNegativeIffSolo`). A wrapped counter never makes a size test succeed wrongly, because it is
  larger than any `max_pool_size` the bounds admit - but it makes the test refuse wrongly
  (`TestRefusesIff`): `warm(1)` can leave an empty pool empty, in some run exactly when T > 1
  (`WarmMissesIffNotSolo`), against src/pool/fast.rs:268-269. From a counter at or above zero, and while
  nobody dequeues, `warm` keeps its promise (`WarmReachesTarget`).
- `stats()` makes five separate loads. `pool_hit_rate` stays within 0..100% in every snapshot;
  `cache_hit_rate` (src/pool/stats.rs:127-132) stays in its documented range in all runs exactly for T = 1.
  `in_use` (src/pool/stats.rs:105-107) never saturates in any run exactly for T = 1, and even then it is
  not the number of buffers in use: with one thread it counts the live handles and every buffer ever
  leaked or dropped with `drop_now`, so it is what it is documented to be exactly while there are none of
  those (`SoloInUse`, `InUseExactIffSolo`, `DropNowStaysInUse`). With two threads one snapshot can report a
  hit rate of 200% and no buffer in use while a handle is live (`SnapshotContradictsItself`). The error is
  at most the number of acquires begun on that pool between two of the loads (`SnapshotWindow`).
- `clear` has no bound of its own: with two threads another can push a buffer for each one it takes, for
  ever; its steps are bounded exactly when T = 1, and in general by the buffers others enqueue meanwhile
  (`ClearBoundedIffSolo`, `CallBounds`).
- `burn` of a connection is a no-op while the `burned` flag is set, and `init_*` does not clear the
  flag: a second burn leaves later data in place (`BurnClearsIffNotBurnedSince`, `SurvivesNextBurn`,
  `SecondBurnLeavesData`), although the comment calls repeated burns safe.
- `incr_write` does not allocate; without an earlier zero-copy call the ring counts bytes that no
  read returns (`IncrWriteBackedIff`, `UnbackedRingLosesBytes`).
- `put_string`, `get_string` and `eat_string` are not all-or-nothing (`PutStringFailure`,
  `GetStringFailure`); `in_use()` counts leaked buffers for ever (`InUseExactIff`).
- The comment on `into_vec` (src/buffer/core.rs:611-612) promises the bytes from pos to len; the code
  returns those from 0 to len, and the model follows the code. The two are the same exactly when the
  cursor stands at 0, which it does not in the comment's own example (`IntoVecFromPosIff`,
  `IntoVecIgnoresCursor`).
- `get_bool` accepts any non-zero byte, so re-encoding reproduces the input exactly when every boolean
  byte was 0 or 1 (`ReencodeIff`).

## Model

| member | source | states |
|---|---|---|
| FastPoolBound.QueueBound | src/pool/fast.rs:275-303 | in every interleaving of T threads, when no `warm` asks for more than w, no queue ever exceeds max(min_pool_size, max_pool_size + (T-1) * min(w, max_pool_size)), although every size test reads a counter that lags the queue and wraps |
| FastPoolBound.OvershootWithoutWarm | src/pool/fast.rs:290-401 | races of acquire, drop, clear and clear_thread_cache overshoot `max_pool_size` by at most T - 1 |
| FastPoolBound.OvershootWithWarm | src/pool/fast.rs:269-283 | with `warm` racing too, the queue holds at most max(min_pool_size, T * max_pool_size) |
| FastPoolWitness.QueueBoundAttained | src/pool/fast.rs:269-303 | for every T, every configuration and every w, a run that QueueBound admits reaches its bound exactly, and the excess is still there when all threads are idle |
| FastPoolWitness.OvershootAttained | src/pool/fast.rs:290-303 | for every T and max_pool_size > 0 a run without `warm` reaches max_pool_size + T - 1 and keeps it when all threads are idle |
| FastPoolWitness.WarmBoundAttained | src/pool/fast.rs:275-283 | for every T and configuration, a run of `warm` calls reaches max(min_pool_size, T * max_pool_size) |
| FastPoolWitness.NoLastingOvershootIffSolo | src/pool/fast.rs:42-46 | in all runs without `warm` every pool is within its size limits whenever all threads are idle, if and only if T = 1 |
| FastPoolDrift.CounterDrift | src/pool/fast.rs:76-93 | at every step the counter is queue length + dequeued-not-subtracted - enqueued-not-added modulo 2^64, and unwrapped it is never below 1 - T |
| FastPoolDrift.CounterWrapsBelowZero | src/pool/fast.rs:77-87 | for every T a run reaches 1 - T with an empty queue, and the statistics show that value modulo 2^64 |
| FastPoolDrift.CounterNeverNegativeIffSolo | src/pool/fast.rs:57-62 | the counter stays at or above zero in all runs if and only if T = 1 |
| FastPoolBound.AvailableExactWhenQuiet | src/pool/fast.rs:240-242 | `available()` is exact whenever no thread is inside a push or a pop |
| FastPoolBound.TestSeesCounter | src/pool/fast.rs:294-396 | a size test that succeeds has read an unwrapped counter |
| FastPoolRoom.TestRefusesIff | src/pool/fast.rs:294-396 | in every reachable state the size test refuses exactly when the unwrapped counter shows no room or is below zero; otherwise a refusal has seen queued + being dequeued >= max_pool_size |
| FastPoolRoom.WarmReachesTarget | src/pool/fast.rs:268-283 | from a counter at or above zero and while nobody dequeues, `warm(n)` ends with at least min(n, max_pool_size) queued, whatever else the other threads do |
| FastPoolRoom.WarmMissesIffNotSolo | src/pool/fast.rs:268-283 | an undisturbed `warm` can leave an empty pool empty in some run if and only if T > 1 |
| FastPoolOwnership.OwnershipPartition | src/pool/fast.rs:123-401 | in every reachable state each buffer ever created is in exactly one place over all pools and threads, and each cache holds at most 16 |
| FastPoolOwnership.HandlesDisjoint | src/pool/fast.rs:315-320 | no two live handles share a buffer |
| FastPoolOwnership.IdleBuffersClean | src/pool/fast.rs:26-28 | every buffer in a queue or cache is zeroed with both cursors at 0, which is what justifies pushing unburned in clear_thread_cache |
| FastPoolOwnership.AcquiredIsClean | src/pool/fast.rs:193-234 | whichever tier serves an acquire, the buffer handed out is clean and nobody else holds it |
| FastPoolSecrecy.OthersCannotTouch | src/pool/fast.rs:315-401 | no event but the holder's own use or release changes a held buffer, takes its handle away or makes another handle on it, whatever any thread drops, flushes, burns or writes elsewhere |
| FastPoolSecrecy.LeakedStaysUntouched | src/pool/fast.rs:323-329 | a buffer handed out by `leak` is changed by no event of the pool |
| FastPoolSecrecy.ExclusiveUse | src/pool/fast.rs:344-355 | however a holder's operations interleave with events of all threads, it keeps its handle, gets the answers, and leaves the buffer, that it would alone |
| FastPoolSecrecy.AcquiredActsAsNew | src/pool/fast.rs:193-234 | over any interleaved run from the acquire on, the buffer handed out acts as a new one of its size |
| FastPoolSecrecy.AcquirerSeesOnlyZeros | src/pool/fast.rs:367-371 | over any interleaved run, an acquirer that has stored nothing sees only zeros, whatever earlier holders did |
| FastPoolOwnership.Progress | src/pool/fast.rs:193-401 | a thread inside a call can always make its next access; every live handle can be dropped, leaked or used |
| FastPoolProgress.OwnAccessesBounded | src/pool/fast.rs:193-401 | a call makes no more queue and counter operations of its own than it had left, plus two for every buffer that others enqueue into a pool it clears; what the queue does inside one operation is not counted |
| FastPoolProgress.CallBounds | src/pool/fast.rs:193-401 | per call, in every run that follows its start: 3 for acquire, 4 for drop, 5 for stats, 65 for clear_thread_cache, 1 + 2 min(n, max_pool_size) for warm(n), and for clear 1 + 2 (queue length + buffers enqueued meanwhile) |
| FastPoolProgress.ClearCanBeFed | src/pool/fast.rs:264-266 | for every T > 1, queue length and n, a run in which one `clear` makes 2n operations and is no nearer to its end |
| FastPoolProgress.ClearBoundedIffSolo | src/pool/fast.rs:264-266 | the operations of a `clear` are bounded over all runs if and only if T = 1, and then by 1 + 2 * queue length |
| FastPoolOutcomes.ClearReturnsAfterEmpty | src/pool/fast.rs:264-266 | in every interleaving a `clear` that returns has found the queue empty at some moment, enqueued and handed out nothing, and destroyed only what it took from the head of the queue |
| FastPoolOutcomes.ClearEmptiesUnlessFed | src/pool/fast.rs:264-266 | if nobody enqueues meanwhile, the queue is empty when `clear` returns |
| FastPoolOutcomes.AcquireOutcome | src/pool/fast.rs:193-234 | in every interleaving an `acquire` that returns gives one handle: the buffer cached last if there was one, else one that was at the head of the queue, else - after finding the queue empty - a new one |
| FastPoolOutcomes.DropOutcome | src/pool/fast.rs:366-401 | in every interleaving a drop that returns has put its buffer last into a cache with room, else behind the queue after the counter showed room, else destroyed it after the counter showed none |
| FastPoolOutcomes.FlushOutcome | src/pool/fast.rs:290-303 | in every interleaving `clear_thread_cache` leaves the cache empty; its buffers, from the end, were enqueued or destroyed, each only after the counter showed room or none |
| FastPoolOutcomes.WarmOutcome | src/pool/fast.rs:275-283 | in every interleaving `warm(n)` enqueues new buffers only, as many as the counter was short of min(n, max_pool_size) at some moment |
| FastPoolOutcomes.LeakOutcome | src/pool/fast.rs:323-329 | `leak` hands the buffer out exactly as its holder left it |
| FastPoolOutcomes.DropNowOutcome | src/pool/fast.rs:331-336 | `drop_now` zeroes the buffer and destroys it; no cache and no queue receives it |
| FastPoolOutcomes.ExitOutcome | src/pool/fast.rs:125-130 | a thread that exits destroys its cached buffers and can neither acquire nor cache again |
| FastPoolStats.StatisticsLedger | src/pool/fast.rs:193-372 | at every interleaving point acquired = cache hits + queue hits + allocations + under way, and acquired = returned + live + leaked + dropped + under way |
| FastPoolSnapshots.SnapshotPoolHitRate | src/pool/stats.rs:152-158 | `pool_hit_rate` of every non-atomic snapshot is within 0..100% and its subtraction never saturates |
| FastPoolSnapshots.SoloSnapshots | src/pool/stats.rs:105-132 | in a program of one thread `cache_hit_rate` is within 0..100% and `in_use` never saturates |
| FastPoolSnapshots.SoloInUse | src/pool/stats.rs:105-107 | in every run of one thread `in_use` is the live handles plus all buffers leaked or dropped with drop_now, hence the live handles exactly when there are none of those |
| FastPoolSnapshots.SnapshotWindow | src/pool/fast.rs:247-259 | for any number of threads, a snapshot's cache hits and returns exceed its acquires by at most the acquires begun on that pool between the loads - by none when nobody else acquires from it meanwhile |
| FastPoolReports.SnapshotContradictsItself | src/pool/fast.rs:247-259 | for every T > 1, a run whose snapshot shows two cache hits and two returns for one acquire, while a handle is live |
| FastPoolReports.DropNowStaysInUse | src/pool/fast.rs:332-336 | for every T, one included, a run whose snapshot reports one buffer in use when no handle is live, nothing was leaked and all threads are idle |
| FastPoolReports.CacheHitRateInRangeIffSolo | src/pool/stats.rs:127-132 | the documented range of `cache_hit_rate` holds in all runs if and only if T = 1 |
| FastPoolReports.InUseNeverSaturatesIffSolo | src/pool/stats.rs:105-107 | the saturating subtraction of `in_use` never saturates in any run if and only if T = 1; it says nothing about what the difference counts |
| FastPoolReports.InUseExactIffSolo | src/pool/stats.rs:105-107 | in all runs every snapshot of a pool that lost nothing to leak or drop_now counts exactly its live handles, if and only if T = 1 |
| FastPoolSolo.SettledWhenQuiet | src/pool/fast.rs:240-242 | in every reachable state with no push or pop of the pool under way, the counter shows the queue as it is, without wrap-around |
| FastPoolSolo.SettledWhenAlone | src/pool/fast.rs:240-242 | so it does in every reachable state of a program of one thread that is between calls |
| FastPoolSolo.Solo.ReadyWhenAlone | src/pool/fast.rs:240-242 | such a program can make any of the calls below from any state it reaches |
| FastPoolSolo.Solo.NewPool | src/pool/fast.rs:168-178 | the new pool holds min_pool_size fresh buffers, its counter shows them, and no other pool, thread or handle is disturbed |
| FastPoolSolo.Solo.Warm | src/pool/fast.rs:275-283 | undisturbed, `warm(n)` leaves exactly max(old, min(n, max_pool_size)) buffers, the new ones fresh and queued behind the old; nothing else changes |
| FastPoolSolo.Solo.Clear | src/pool/fast.rs:264-266 | undisturbed, `clear` destroys every queued buffer in order and leaves the counter at 0; nothing else changes |
| FastPoolSolo.Solo.ClearThreadCache | src/pool/fast.rs:290-303 | undisturbed, the cache is emptied from its end: as many buffers as max_pool_size leaves room for go behind the queued ones with their contents untouched, the others are burned and destroyed; nothing else changes |
| FastPoolSolo.Solo.Acquire | src/pool/fast.rs:193-234 | undisturbed, the three-tier cascade: most recently cached, else oldest queued, else a fresh one of this pool's size; the tier is counted and nothing else changes |
| FastPoolSolo.Solo.Drop | src/pool/fast.rs:366-401 | undisturbed, the buffer is burned and then kept by the cache below 16, else behind the queue below max_pool_size, else freed; nothing else changes |
| FastPoolSolo.Solo.Stats | src/pool/fast.rs:247-259 | undisturbed, the five loads show one moment and the true queue length, and the state is otherwise as it was |
| RingRuns.RingRefinesFifo | src/circular/buffer.rs:301-431 | for every sequence of copying and paired zero-copy calls, clear and free, the ring answers as a bounded byte queue and stands for its contents |
| RingRuns.BytesConserved | src/circular/buffer.rs:301-369 | bytes written = bytes read out followed by current contents, in order |
| RingRuns.CursorInvariant | src/circular/buffer.rs:53-80 | after every run used <= size and write_pos = (read_pos + used) mod size |
| RingRuns.CursorsCountBytes | src/circular/buffer.rs:73-80 | from a new ring, until the first clear or free, the cursors are the numbers of bytes read and written so far modulo the size, whichever calls moved them |
| RingRuns.RawStepValid | src/circular/buffer.rs:176-422 | every single call, paired or not, failing or not, keeps cursors, fill count and storage consistent |
| RingRuns.MaskAndModuloLockstep | src/circular/buffer.rs:601-619 | two rings of one power-of-two size, one per wrap branch, give the same answers, cursors and storage on every sequence of calls |
| Rings.MaskWrapEqualsModuloWrap | src/circular/buffer.rs:73-80 | (pos + delta) & (size - 1) = (pos + delta) % size for every power of two, position and delta |
| RingRuns.NewRings | src/circular/buffer.rs:94-132 | new rings are empty queues, and `new_pow2(k)` is `new(2^k)` |
| RingFifo.WriteAppends | src/circular/buffer.rs:301-335 | `write` succeeds exactly when the bytes fit, then appends all of them; otherwise nothing changes |
| RingFifo.PeekIsPrefix | src/circular/buffer.rs:372-394 | `peek` copies the oldest bytes |
| RingFifo.ReadRemovesPrefix | src/circular/buffer.rs:340-369 | `read` removes exactly the bytes it copies |
| RingFifo.ReadPtrsAreContents | src/circular/buffer.rs:172-194 | the two slices of `read_ptrs` are the whole contents |
| RingFifo.TakeThenAdvanceIsRead | src/circular/buffer.rs:279-287 | taking n bytes of `read_ptrs` and then `incr_read(n)` is `read` |
| RingFifo.IncrReadRemoves | src/circular/buffer.rs:279-287 | `incr_read(n)` is refused exactly when fewer than n bytes are buffered, and then changes nothing; otherwise exactly the first n bytes go |
| RingFifo.IncrWriteAppends | src/circular/buffer.rs:267-276 | `incr_write(n)` is refused exactly when n bytes do not fit, and then changes nothing; otherwise the n stored bytes behind the write cursor are appended |
| RingFifo.ClearRestarts | src/circular/buffer.rs:404-408 | after `clear` the ring is as new but for its storage, which stays, and can be lent as one block |
| RingFifo.FreeRestarts | src/circular/buffer.rs:414-422 | after `free` the ring is as new, without storage |
| RingFifo.SlicesInRange | src/circular/buffer.rs:225-263 | `write_slices_mut(n)` succeeds exactly when n fits and lends two disjoint blocks of n bytes in all |
| RingFifo.SlicesAvoidContents | src/circular/buffer.rs:234-263 | no lent byte is a buffered byte |
| RingFifo.SlicesThenAdvanceIsWrite | src/circular/buffer.rs:239-276 | filling the lent slices and then `incr_write(n)` ends in the state of `write`, and fails exactly when `write` does |
| RingFifo.PtrThenAdvanceIsWrite | src/circular/buffer.rs:200-223 | `write_ptr` succeeds exactly when the block fits without wrapping; filling it and advancing is `write` |
| RingFifo.IncrWriteBackedIff | src/circular/buffer.rs:265-276 | `incr_write` leaves counted bytes without storage exactly when nothing was allocated before |
| RingFifo.UnbackedRingLosesBytes | src/circular/buffer.rs:265-276 | a concrete ring that counts one byte and returns none |
| CircularBuffers.CircularBuffer.constructor | src/circular/buffer.rs:94-107 | an empty unallocated ring, masking exactly for powers of two |
| CircularBuffers.CircularBuffer.Pow2Sized | src/circular/buffer.rs:118-132 | an empty unallocated masking ring of size 2^k |
| CircularBuffers.CircularBuffer.EnsureAllocated | src/circular/buffer.rs:439-443 | allocates zeroed storage once |
| CircularBuffers.CircularBuffer.Write | src/circular/buffer.rs:301-335 | the two-segment copy in place appends to the contents, or fails and changes nothing |
| CircularBuffers.CircularBuffer.Read | src/circular/buffer.rs:340-369 | the two-segment copy out fills the start of the output with the oldest bytes and keeps exactly the rest |
| CircularBuffers.CircularBuffer.Peek | src/circular/buffer.rs:372-394 | the same copy without consuming |
| CircularBuffers.CircularBuffer.ReadPtrs | src/circular/buffer.rs:176-194 | two segments that together are the contents |
| CircularBuffers.CircularBuffer.WritePtr | src/circular/buffer.rs:208-223 | the contiguous block at the write cursor, or the error for too little space or for crossing the end |
| CircularBuffers.CircularBuffer.WriteSlicesMut | src/circular/buffer.rs:239-263 | one or two blocks at the write cursor |
| CircularBuffers.CircularBuffer.IncrWrite | src/circular/buffer.rs:267-276 | moves the write cursor and the fill count |
| CircularBuffers.CircularBuffer.IncrRead | src/circular/buffer.rs:279-287 | moves the read cursor and the fill count |
| CircularBuffers.CircularBuffer.WriteThroughSlices | src/circular/buffer.rs:225-276 | lending, filling in place and advancing ends as `write` would |
| CircularBuffers.CircularBuffer.Clear | src/circular/buffer.rs:404-408 | resets the cursors and keeps the storage |
| CircularBuffers.CircularBuffer.Free | src/circular/buffer.rs:414-422 | zeroes the storage, lets go of it and resets the cursors |
| Codec.RoundTrip | src/buffer/ops.rs:13-149 | any list of typed fields that fits reads back identically by its schema, ending at the same position, with no byte outside the written range changed |
| Codec.PutAllSpec | src/buffer/ops.rs:13-139 | a list of fields is written exactly when all of it fits and every string is at most 400000 bytes, and then as its encoding |
| Codec.ReencodeIff | src/buffer/ops.rs:24-149 | re-encoding the fields read reproduces the bytes consumed if and only if every boolean byte was 0 or 1 |
| Codec.ReencodeBoolFree | src/buffer/ops.rs:24-149 | for schemas without booleans it always does |
| Codec.PrefixFree | src/buffer/ops.rs:13-149 | for a fixed schema encodings are injective and none is a proper prefix of another |
| Codec.EatAgreesWithGet | src/buffer/ops.rs:143-159 | from every state `eat_string` and `get_string` succeed on the same buffers and leave the same position, in success and failure, and when their errors differ |
| Codec.SkipThenRead | src/buffer/ops.rs:143-159 | k skips and then a read give the (k+1)-th string |
| Codec.PutStringFailure | src/buffer/ops.rs:133-139 | `put_string` fails half-way exactly when the prefix fits and the text does not |
| Codec.GetStringFailure | src/buffer/ops.rs:143-149 | a failing `get_string` leaves the cursor 4 bytes on exactly when the prefix was there |
| Codec.WritePtrThenAdvanceIsPut | src/buffer/core.rs:413-433 | filling `get_write_ptr(n)` and then `incr_write_pos(n)` is `put_bytes`, exactly while the end stays within BUF_MAX_SIZE |
| Codec.IntoVecFromPosIff | src/buffer/core.rs:611-634 | `into_vec` returns the documented bytes from pos to len if and only if the cursor stands at 0 |
| Codec.IntoVecIgnoresCursor | src/buffer/core.rs:617-626 | in the documentation's own example all five bytes are returned though none lies after the cursor |
| Codec.IntoVecAfterWrites | src/buffer/core.rs:606-634 | `into_vec` and `shrink_to_fit` of a buffer filled from `new` keep exactly what was written, wherever the cursor stands |
| LinearBuffers.Buffer.PutBytesAvx2 | src/buffer/ops.rs:188-209 | the 32-byte loop plus tail ends in the state of the plain copy, for every length, position and content |
| LinearBuffers.Buffer.PutBytesFast | src/buffer/ops.rs:164-184 | with or without AVX2, `put_bytes_fast` is `put_bytes`, errors included |
| BufferRuns.Run | src/buffer/core.rs:277-609 | every sequence of safe operations, failing ones included, keeps pos <= len <= data.len() and answers each call |
| BufferTape.BufferRefinesTape | src/buffer/core.rs:277-609 | on every sequence of safe operations the buffer answers exactly as a tape cut into valid bytes before the cursor, valid bytes after it and spare storage does, errors included, and stands for it at the end |
| BufferTape.AbsInjective | src/buffer/core.rs:35-42 | different buffers are different tapes, so the comparison covers bytes, cursor, valid length and storage |
| BufferTape.NewTapes | src/buffer/core.rs:68-136 | the tapes of new buffers, and what `into_vec` hands over |
| BufferTape.SetLenCursor | src/buffer/core.rs:305-318 | `set_len(n)` leaves the cursor where it is, or at n if that comes first; then exactly the positions up to n can be sought |
| BufferTape.SetLenKeepsReads | src/buffer/core.rs:305-318 | after raising the length every read that succeeded before gives the same answer and leaves the cursor at the same place |
| BufferTape.GetBoolIff | src/buffer/ops.rs:125-129 | `get_bool` is false exactly for the byte 0 |
| BufferTape.GetPtrIsGetBytes | src/buffer/ops.rs:85-90 | `get_ptr(n)` succeeds exactly when `get_bytes(n)` does and n is within its limit, with the same bytes |
| BufferRuns.CursorInvariant | src/buffer/core.rs:68-136 | in particular from `new`, `with_capacity` and `from_vec` |
| BufferRuns.FailureFrame | src/buffer/ops.rs:13-159 | a failing operation changes nothing, except that string operations may leave the cursor past the 4-byte length |
| BufferRuns.StoragePreserved | src/buffer/core.rs:305-609 | growing, shrinking, seeking and reading alter no byte that stays, add only zeros, and only `resize` cuts valid bytes |
| BufferRuns.SeekingUndone | src/buffer/core.rs:277-374 | `incr_pos` and `decr_pos` undo each other and `set_pos` undoes both |
| BufferRuns.OnlyZerosVisible | src/buffer/core.rs:305-609 | from a zeroed buffer, any sequence of operations that stores nothing shows only zeros |
| Buffers.Buf.Burn | src/buffer/core.rs:476-484 | all bytes zero, cursors at 0, storage length kept |
| Buffers.New | src/buffer/core.rs:68-80 | zeroed storage of the given size, cursors at 0 |
| Bytes.DecodeEncodeBE | src/buffer/unsafe_ops.rs:13-79 | big-endian integers that fit their width decode to themselves |
| Bytes.EncodeDecodeBE | src/buffer/unsafe_ops.rs:13-79 | every byte string is the encoding of the integer it decodes to |
| LinearBuffers.Buffer.constructor | src/buffer/core.rs:68-80 | freshly allocated zeroed storage, cursors at 0 |
| LinearBuffers.Buffer.WithCapacity | src/buffer/core.rs:104-116 | no live storage yet |
| LinearBuffers.Buffer.FromVec | src/buffer/core.rs:133-136 | takes over the caller's memory, all bytes valid, cursor at 0 |
| LinearBuffers.Buffer.PutBytesUnchecked | src/buffer/unsafe_ops.rs:87-96 | stores in place at the cursor, moves it behind, and extends the valid length if passed |
| LinearBuffers.Buffer.PutU32Unchecked | src/buffer/unsafe_ops.rs:13-27 | stores the four bytes most significant first |
| LinearBuffers.Buffer.GetU32Unchecked | src/buffer/unsafe_ops.rs:35-47 | reads four bytes most significant first |
| LinearBuffers.Buffer.PutU64Unchecked | src/buffer/unsafe_ops.rs:55-64 | eight byte stores in place, most significant first, from which the value decodes |
| LinearBuffers.Buffer.GetU64Unchecked | src/buffer/unsafe_ops.rs:72-79 | eight byte loads give the one value whose big-endian image stands there |
| LinearBuffers.Buffer.GetBytesUnchecked | src/buffer/unsafe_ops.rs:104-111 | the next bytes, and the cursor behind them |
| LinearBuffers.Buffer.PutU32 | src/buffer/ops.rs:13-21 | the checked write, refused exactly beyond the storage |
| LinearBuffers.Buffer.GetU32 | src/buffer/ops.rs:25-30 | the checked read, refused exactly beyond the valid length |
| LinearBuffers.Buffer.PutU64 | src/buffer/ops.rs:34-42 | the checked write, refused exactly beyond the storage |
| LinearBuffers.Buffer.GetU64 | src/buffer/ops.rs:46-51 | the checked read, refused exactly beyond the valid length |
| LinearBuffers.Buffer.PutBytes | src/buffer/ops.rs:55-63 | the checked write, refused exactly beyond the storage |
| LinearBuffers.Buffer.GetBytes | src/buffer/ops.rs:67-73 | the checked read, refused exactly beyond the valid length |
| LinearBuffers.Buffer.PutByte | src/buffer/ops.rs:102-112 | the checked write of one byte |
| LinearBuffers.Buffer.GetByte | src/buffer/ops.rs:116-123 | the checked read of one byte |
| LinearBuffers.Buffer.PutString | src/buffer/ops.rs:133-139 | length prefix, then text, each checked on its own |
| LinearBuffers.Buffer.GetString | src/buffer/ops.rs:143-149 | length prefix, limit, then text |
| LinearBuffers.Buffer.EatString | src/buffer/ops.rs:153-159 | length prefix, limit, then a seek |
| LinearBuffers.Buffer.GetPtr | src/buffer/ops.rs:85-90 | the next bytes without moving the cursor |
| LinearBuffers.Buffer.GetWritePtr | src/buffer/ops.rs:93-98 | a block inside the storage, or an error |
| LinearBuffers.Buffer.SetLen | src/buffer/core.rs:305-318 | sets the valid length, growing storage with zeros and pulling the cursor back |
| LinearBuffers.Buffer.IncrLen | src/buffer/core.rs:385-402 | extends the valid length, growing storage with zeros |
| LinearBuffers.Buffer.IncrWritePos | src/buffer/core.rs:413-433 | moves the cursor past bytes written directly, growing as needed |
| LinearBuffers.Buffer.Burn | src/buffer/core.rs:476-484 | the very bytes that held the data are zero, without reallocation, and the cursors at 0 |
| LinearBuffers.Buffer.ResizeTo | src/buffer/core.rs:561-569 | truncates or extends with zeros and clamps both cursors |
| LinearBuffers.Buffer.ShrinkToFit | src/buffer/core.rs:606-609 | drops the storage beyond the valid length |
| LinearBuffers.Buffer.IntoVec | src/buffer/core.rs:627-634 | hands over the valid bytes - the memory itself when nothing is cut off - and keeps none |
| StandardPool.MutexPoolLedger | src/pool/standard.rs:98-235 | over all runs: a hard cap of max(min, max) idle buffers, exact counters, exact idle count, and every idle buffer zeroed |
| StandardPool.InUseExactIff | src/pool/stats.rs:35-37 | `in_use` never saturates, and equals the live handles exactly while nothing was leaked or dropped with drop_now |
| StandardPool.AcquiredIsClean | src/pool/standard.rs:12-15 | the buffer handed out is zeroed, whoever held it before |
| StandardPoolSecrecy.OthersCannotTouch | src/pool/standard.rs:160-235 | no event but the holder's own use or release changes a live buffer or takes it away |
| StandardPoolSecrecy.ExclusiveUse | src/pool/standard.rs:199-213 | however a holder's operations interleave with all other events, it gets the answers that it would alone |
| StandardPoolSecrecy.AcquiredActsAsNew | src/pool/standard.rs:98-111 | over any run from the acquire on, the buffer handed out acts as a new one of its size; an acquirer that has stored nothing sees only zeros |
| StandardPool.ShrinkAndGrow | src/pool/standard.rs:134-158 | `shrink` leaves min(idle, min_pool_size), `grow(n)` leaves max(idle, min(n, max_pool_size)) |
| StandardPool.ReturnThenAcquire | src/pool/standard.rs:222-235 | a returned buffer is kept exactly if fewer than max_pool_size are idle; then it is the next handed out, as new, and nothing else has changed |
| StandardPoolStack.PoolRefinesStack | src/pool/standard.rs:78-235 | after every run the pool stands for a stack of buffer sizes: which buffers are idle, in what order, of what size, and what was handed out |
| StandardPoolClasses.BufferPool.constructor | src/pool/standard.rs:78-92 | min_pool_size zeroed buffers, counters at 0 |
| StandardPoolClasses.BufferPool.Acquire | src/pool/standard.rs:98-111 | a clean buffer: the last idle one, or a fresh one, counted |
| StandardPoolClasses.BufferPool.Shrink | src/pool/standard.rs:134-139 | keeps the first min_pool_size idle buffers |
| StandardPoolClasses.BufferPool.Clear | src/pool/standard.rs:144-147 | no idle buffers left |
| StandardPoolClasses.BufferPool.Grow | src/pool/standard.rs:150-158 | the while loop adds fresh buffers up to min(n, max_pool_size) |
| StandardPoolClasses.PooledBuffer.Drop | src/pool/standard.rs:222-235 | burns, counts, and keeps the buffer exactly if there is room; nothing for an emptied handle |
| StandardPoolClasses.PooledBuffer.Leak | src/pool/standard.rs:179-181 | hands the buffer out untouched and empties the handle |
| StandardPoolClasses.PooledBuffer.DropNow | src/pool/standard.rs:184-189 | burns the buffer and empties the handle without returning it |
| Connections.PacketQueueInvariant | src/connection.rs:129-210 | over all runs the byte counter is the sum of queued lengths, both limits hold, and packets leave in the order of acceptance |
| Connections.DequeueIsFifo | src/connection.rs:143-149 | `dequeue_packet` gives the oldest packet still queued and its saturating subtraction never saturates |
| Connections.RefusedIff | src/connection.rs:129-140 | a packet is refused exactly when it would break a limit |
| Connections.RefusalIs | src/connection.rs:129-140 | the refusal names the count limit exactly when it is reached, and the byte limit exactly when only that would break |
| Connections.ResetEmpties | src/connection.rs:174-187 | after `reset` of any reachable connection every stream stands for the empty queue of its size, as ready as a new ring, both linear buffers show nothing, the queue is empty, the flag is clear, and all storage is kept |
| Connections.BurnKeepsShape | src/connection.rs:192-210 | after an effective burn both buffers are as new ones of their length and every stream as a new ring of its size |
| Connections.BurnClearsIffNotBurnedSince | src/connection.rs:192-210 | over all runs the flag is set exactly when some burn follows the last reset, and the next burn leaves nothing exactly when none does or nothing is there |
| Connections.SurvivesNextBurn | src/connection.rs:105-210 | after an effective burn and any calls without a reset, the next burn changes nothing; it leaves nothing if and only if the buffers attached or used last since are zeroed, every stream is unallocated and every accepted packet has left |
| Connections.SecondBurnLeavesData | src/connection.rs:105-112 | a run in which data attached after a burn survives the next one |
| Connections.ConnectionBuffers.QueuePacket | src/connection.rs:129-140 | appended and counted, or the limit that refuses it |
| Connections.ConnectionBuffers.DequeuePacket | src/connection.rs:143-149 | the front packet, uncounted |
| Connections.ConnectionBuffers.ResetBuffers | src/connection.rs:174-187 | cursors and queue cleared, storage kept, flag cleared |
| Connections.ConnectionBuffers.BurnBuffers | src/connection.rs:192-210 | from a clear flag: linear buffers zeroed, every ring unallocated, queue empty |
| Connections.ConnectionBuffers.constructor | src/connection.rs:89-99 | nothing allocated, nothing queued, flag clear |
| Connections.ConnectionBuffers.InitReadBuf | src/connection.rs:106-108 | a fresh inbound buffer; the flag stays, so the next burn does nothing if it was set and leaves nothing if it was clear |
| Connections.ConnectionBuffers.InitWriteBuf | src/connection.rs:111-113 | a fresh outbound buffer; the flag stays, so the next burn does nothing if it was set and leaves nothing if it was clear |
| Connections.ConnectionBuffers.AddStreamBuf | src/connection.rs:116-118 | one more unallocated ring; the flag stays, so the next burn does nothing if it was set and leaves nothing if it was clear |

## Left out

- Weak memory: every atomic of the lock-free pool is relaxed; the model interleaves atomic steps on one current value, takes the segmented queue as an atomic FIFO and a mutex section as one step.
- Wrap-around of the four statistics counters and of `total_*`: they are unbounded naturals; only the length counter wraps.
- Panics are preconditions: sizes above the maxima, zero-length advances of a ring of size 0, a shift of 64 or more in `new_pow2`, lock poisoning, use of the cache after its thread's exit.
- Index arithmetic near the largest machine word (a huge `get_bytes` length): lengths are naturals.
- Allocator behaviour: spare vector capacity, `reserve`, `capacity()`; the model has `data.len()`. The unchecked writers document `capacity()` as their limit; the model requires the storage length that the checked wrappers test.
- Cursor-only methods of the linear buffer (`set_pos`, `incr_pos`, `decr_pos`, `reset`) are verified but have no row of their own; their properties are those of `BufferRuns`.
- Compiler resistance of zeroing, raw pointers, SIMD registers and CPU detection: their effect on bytes is modelled, AVX2 support is a parameter.
- A destroyed buffer's memory: destruction is a place, and what the destructor zeroes is not observed, except where the source burns first.
- Dropping a whole pool while handles live, and `mem::forget` of a handle.
- `burn_free` of either buffer: consumes the value, nothing is left to observe.
- Progress of the segmented queue itself: one enqueue or dequeue counts as one operation, though it retries inside under contention.
- Borrowed slices are blocks (start and length) or copies; Rust's borrow rules are not modelled.
- The connection's rings and buffers are values owned by it, not shared objects.
- Error conversions and messages, floating-point percentages, `leaked_bytes`, `has_leak_concern`, pool presets, `PooledConnectionBuffers`, `memory_usage`, and `is_queue_near_full` (documented as at least 80%, coded as strictly more).
- Outside mutation of the public fields of `ConnectionBuffers` other than through its buffers.
