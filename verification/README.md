# Turbo Stream: verified model

Turbo Stream is a buffer between writers and readers. Writers append to an active ring; when it is
full, or when a time and fill strategy says so, it is retired, the passive ring becomes active, and a
goroutine draws a sequence number for the retired ring and pushes it into a min-heap. A reader takes
the rings out of the heap in the order of their numbers, empties them, and gives them back to a pool.
This project models that machinery in Dafny and proves what it guarantees: over whole runs, for every
interleaving of the modelled steps, and for every input.

## How it is organised

| files | what they model |
|---|---|
| `stream.dfy`, `stream_safety.dfy`, `stream_order.dfy`, `stream_progress.dfy` | the double buffer as a transition system: its runs, the invariant, order and conservation, progress of reads and writes |
| `fine_stream.dfy` | the same system with the write of one writer and the rotation of the monitor taken apart, and goroutines and the reader in between; what holds as long as the writer is outside a push while the monitor rotates |
| `fine_calls.dfy`, `deliveries.dfy` | what an uninterrupted write and rotation do there, step by step; no item is delivered twice in any run, also with overlaps |
| `interrupted_pushes.dfy`, `refused_writes.dfy` | pushes and rotations that overlap: exactly when items are lost, delivered out of order, or refused |
| `double_buffer.dfy` | the `DoubleBuffer` object on references; each method is proved to make the step of the transition system |
| `ring.dfy`, `smart_buffer.dfy` | index arithmetic with 32-bit wrap-around, and the `SmartBuffer` on an array, refined to a bounded queue that latches |
| `ring_threads.dfy`, `ring_fifo.dfy` | `Push` and `Pop` taken apart into atomic loads, compare-and-swaps, stores and additions, for any number of threads; bounds of the count; the queue for one writer and one reader |
| `ring_calls.dfy` | one `Push` or `Pop` run alone among these threads, and the answers that all calls get |
| `ring_losses.dfy` | several writers on one ring: exactly when a push stores on top of an unread item |
| `min_heap.dfy` | the heap with `up` and `down` of container/heap, and the positions the items record |
| `rotation.dfy` | `switchChannel` and `Close` in any number of threads, statement by statement |
| `waiters.dfy` | blocked readers and their wake-up |
| `life_cycle.dfy` | the pools that track payloads by address: accounting, validity and cleaning |
| `payload.dfy`, `payload_reads.dfy`, `payload_store.dfy` | the memory behind payloads: who owns which byte buffer, what bytes a read hands out, as a transition system and on arrays |
| `config.dfy`, `switch_strategy.dfy` | the versioned configuration with its one-token notification, and the switching strategies |
| `minimum.dfy`, `sets.dfy` | small facts about sets |

Goroutines are pending work that may run at any later step, ordered by an arbitrary schedule. Clocks,
map iteration order and what a `sync.Pool` hands out are arbitrary choices. One reader uses the double
buffer at a time, as its `currentBuffer` field is unprotected, and has registered a read mode. Memory
is sequentially consistent.

## What does not hold as documented, and when it does

- Global order (`docs/en/README.md:20-21`): a goroutine draws its number after the rotation has
  ended, so two of them can draw in the wrong order, and the reader then follows the numbers. In runs
  of whole writes of distinct items, order is kept if and only if the rotations the reader has followed
  are, leaving out empty ones, the first ones in their order (`OrderKeptIffSpawnOrder`,
  `OutOfOrderRun`); the same holds with the writes of one writer and the rotations of the monitor taken
  apart, if the two never overlap (`ApartOrderKeptIff`). An overlap breaks the order even when the
  numbers are right: with one writer and numbers drawn in spawn order, for each positive capacity, the
  deliveries are a prefix of the accepted writes in every run if and only if the writer is never inside
  a push - from its load of the active buffer to its addition to the ring's count - while the monitor
  is inside its rotation (`OrderKeptIff`).
- No loss, one writer: an overlap of a push and a rotation by the monitor can lose an item that has
  been accepted (`LosingRun`). For each positive capacity, nothing can be lost if and only if the
  writer is never inside a push while the monitor is inside its rotation (`NothingLostIff`). Whatever
  overlaps, no item is delivered twice, and none that was not written (`DeliveredAtMostOnce`).
- No loss, several writers: two writers that both see the last free place of a ring lose an item
  without any rotation; both writes report success (`TwoWritersLose`). With n writers and one reader,
  every push stores into an empty slot in every run if and only if n <= 1 and, for n = 1, the capacity
  divides 2^32 (`StoresIntoEmptyIff`).
- Success of a write: one that runs alone succeeds if and only if the capacity is at least 1
  (`WriteSucceedsIffCapacity`). With the monitor, the goroutines and the reader in between, no write of
  one writer is ever refused if and only if the capacity is at least 1, the writer is never between its
  load of the active buffer and its check of the ring while the monitor is inside its rotation, and,
  for capacity 1, never inside a push at all then (`NothingRefusedIff`); over all positive capacities,
  if and only if it is never inside a push then (`AllCapacitiesIff`).
- The ring's 32-bit indices: once they wrap, unread items can be overwritten. With one writer and one
  reader the ring is a queue for ever if and only if its capacity divides 2^32
  (`QueueForeverIffCapacityDividesWord`). Inside the double buffer, in runs of whole writes, a ring is
  reset before its index passes the capacity (`BuffersInEveryRun`).
- The ring's count: `Pop` tests for 0 and not for a negative count. It stays between 0 and capacity +
  n - 1 for n writers if and only if there is at most one reader and this fits into 32 bits; with two
  readers it takes every 32-bit value (`CountInRangeIff`, `CountTakesAnyValue`).
- `notify`: its comment (`core/waiters.go:63-65`) speaks of batches of 32 and at most 1024; the code
  wakes at most 64 waiters per call (`Notify`).
- A second `Close` of the waiter manager panics if and only if some waiter's channel is closed already
  (`Close`, `CloseTwice`).
- Configuration: the single token reaches every monitor if and only if there is at most one
  (`FreshIffOneMonitor`).
- `BigDataPool`: `currentSize` exceeds the recorded sizes if and only if an entry was overwritten or
  cleaned up (`CountExactIffLeakFree`). An entry left alone by Put and Free can be cleaned up if and
  only if it has been released exactly once; after two releases it stays (`RemovableAfterOneRelease`,
  `TwoPutsTwoReleasesStay`).
- `MediumPool`: a payload counts as valid for its two minutes if and only if no cleanup ends between
  one and two minutes after it was put (`ValidForTtlIff`).
- The size-only strategy implies the default one if and only if the buffer size is at least 1
  (`SizeImpliesDefaultIffSizePositive`).
- Payloads: what is delivered is what was written, whatever callers do to their memory, if and only if
  the payload is shorter than 1024 bytes (`SnapshotIffSmall`). A longer one is delivered as written if
  no caller stores into it between the write and the read (`DeliveredAsWritten`).

## Model

| member | source | states |
|---|---|---|
| `StreamOrder.FifoInSpawnOrder` | core/double_buffer.go:177-327 | in every run of whole writes, timed rotations, goroutine steps and reader steps whose goroutines number themselves in spawn order, accepted = delivered ++ rest of the current buffer ++ numbered batches ++ unnumbered batches ++ active buffer; deliveries are a prefix of the accepted writes; FineStream.ApartRunsAreFifo takes the writes apart |
| `StreamOrder.PipelineIsQueue` | core/double_buffer.go:266-327 | the same equation in any state that satisfies the invariant and whose numbers followed spawn order |
| `StreamOrder.OrderKeptIffSpawnOrder` | docs/en/README.md:20-21 | in runs of whole writes of distinct items, the reader sees the accepted order if and only if the rotations it has followed are, leaving out those of an empty buffer, the first ones in their order |
| `StreamOrder.OutOfOrderRun` | core/double_buffer.go:272-278 | a run of two writes and two rotations in which the second write is delivered and the first is not |
| `StreamOrder.PrefixForcesIdentity` | core/double_buffer.go:272-278 | delivering the batches in some order yields a prefix of the accepted items only if that order is the order of rotation |
| `StreamOrder.ConservationInEveryRun` | core/double_buffer.go:177-327 | for whole writes, under every goroutine schedule: accepted = delivered + stored, as multisets; the rotated batches and the active buffer are the accepted writes cut in order; deliveries go through the batches by sequence number. A rotation in the middle of a write can lose an item: InterruptedPushes.LosingRun |
| `FineStream.ApartRunsConserve` | core/double_buffer.go:203-279 | with the write of one writer taken apart into load, check, claim, store, addition, count, second look and rotation, and the rotation of the monitor into taking the state, freezing, swapping and giving the state back, interleaved with goroutines and reader: nothing accepted is lost or duplicated in any run in which the writer is never inside a push while the monitor is inside its rotation |
| `FineStream.ApartRunsAreFifo` | core/double_buffer.go:203-327 | in such a run with numbers in spawn order, the whole double buffer is a queue |
| `FineStream.StepFollows` | core/double_buffer.go:203-327 | each fine step is a step, or part of one, of the system with whole writes and rotations |
| `FineStream.ApartOrderKeptIff` | docs/en/README.md:20-21 | in such a run, and with distinct items, the reader sees the accepted order if and only if the rotations it has followed are, leaving out empty ones, the first ones |
| `FineStream.ApartWritesSucceed` | core/double_buffer.go:203-231 | in such a run no write into a double buffer of positive capacity is refused; the accepted items are those of the calls, in order |
| `FineStream.CallsAnswered` | core/double_buffer.go:203-231 | in every run, also when pushes and rotations overlap, each call of Write is accepted, refused or under way, and as long as none is refused the accepted items are those of the calls, in order |
| `InterruptedPushes.Strands` | core/double_buffer.go:253-279 | the monitor rotates while the writer is at any stage of a push, from the load of the active buffer to the addition to the count: the push is completed in a pooled ring and Write reports success |
| `InterruptedPushes.LosesAt` | core/double_buffer.go:253-279 | for each positive capacity and each such stage, a run that loses the item: the pool drops the ring |
| `InterruptedPushes.LosingRun` | core/double_buffer.go:253-279 | a rotation between the claim and the store loses an accepted item also by overwriting it: the ring is published, found empty, reset and pooled, and a later push stores over the item |
| `InterruptedPushes.NothingLostIff` | core/double_buffer.go:203-279 | with one writer, for each capacity: no run in which the writer is at given stages while the monitor rotates loses an accepted item if and only if none of these stages is inside a push, or the capacity is 0 |
| `InterruptedPushes.OvertakesAt` | core/double_buffer.go:253-327 | for each positive capacity and each stage inside a push, a run with numbers in spawn order in which the first write is accepted and never delivered, and a later one is delivered |
| `InterruptedPushes.OrderKeptIff` | docs/en/README.md:20-21 | with one writer and numbers in spawn order, for each capacity: the deliveries are a prefix of the accepted writes in every run in which the writer is at given stages while the monitor rotates if and only if none of these stages is inside a push, or the capacity is 0 |
| `RefusedWrites.NothingRefused` | core/double_buffer.go:203-231 | no write of one writer is refused if there is room for two items and the writer is never between load and check while the monitor rotates, or room for one and it is never inside a push then |
| `RefusedWrites.RunStaysLoose` | core/double_buffer.go:160-231 | with room for two items and overlaps only after the check, no write is refused: a pooled or passive ring never holds more than one item, so a second attempt finds room |
| `RefusedWrites.RefusedAtCheck` | core/double_buffer.go:203-231 | for each positive capacity, a refused write: the ring is retired between load and check, in both attempts |
| `RefusedWrites.RefusedByStranded` | core/double_buffer.go:203-285 | with room for one item, a refused write for each stage of a push: the pooled ring with the late item comes back as the active one |
| `RefusedWrites.NothingRefusedIff` | core/double_buffer.go:203-231 | with one writer: no write is ever refused if and only if the capacity is at least 1, the writer is never between load and check while the monitor rotates, and, for capacity 1, never inside a push then |
| `RefusedWrites.AllCapacitiesIff` | core/double_buffer.go:203-231 | double buffers of every positive capacity take all writes of one writer if and only if it is never inside a push while the monitor rotates |
| `FineCalls.LoneWriteIsWhole` | core/double_buffer.go:203-231 | a write of the single steps that nothing interrupts is possible from every sound state, and is the whole write of the coarse system: accepted if and only if the capacity is at least 1 |
| `FineCalls.LoneRotationIsWhole` | core/double_buffer.go:253-279 | likewise the four steps of an uninterrupted rotation by the monitor are the whole rotation |
| `FineCalls.SecondAttemptOnly` | core/double_buffer.go:212-230 | a writer that looks again and finds a new active ring with room writes there, without a rotation of its own |
| `FineCalls.RefusedMeanwhile` | core/double_buffer.go:203-231 | a write that runs between the freezing and the swap of the monitor is refused, with nothing else changed |
| `Deliveries.DeliveredAtMostOnce` | core/double_buffer.go:203-327 | in every run of one writer, one reader and one monitor, with overlaps of any kind: each delivery is of a written item, and each written item is delivered at most once |
| `InterruptedPushes.CountsTooLate` | core/component/smart_buffer.go:113-132 | a ring reset between the store and the addition of a push comes back with a count of 1, an item in its slot and head = tail = -1 |
| `StreamOrder.BatchesAreSegments` | core/double_buffer.go:266-285 | the k-th rotated batch is a contiguous segment of the accepted writes, starting where the previous one ended |
| `StreamOrder.StepConserves` | core/double_buffer.go:177-511 | each single step keeps the conservation equation |
| `StreamSafety.RunInv` | core/double_buffer.go:177-327 | every run keeps the whole invariant: one role per buffer, the sequence window, contents of rings, numbering, frozen batches, history |
| `StreamSafety.StepInv` | core/double_buffer.go:177-327 | every single step keeps it |
| `StreamSafety.WriteInv` | core/double_buffer.go:203-230 | a write, with the rotation it may trigger, keeps it |
| `StreamSafety.RotateInv` | core/double_buffer.go:266-285 | a rotation, also of an empty or partly filled active buffer, keeps it |
| `StreamSafety.NumberInv` | core/double_buffer.go:272-273 | drawing a number keeps it: the window grows by the new number, carried by that goroutine alone |
| `StreamSafety.PublishInv` | core/double_buffer.go:273-274 | pushing into the heap keeps it |
| `StreamSafety.PickInv` | core/double_buffer.go:310-313 | a pick, of whatever number is least, keeps it |
| `StreamSafety.PushBackInv` | core/double_buffer.go:321-322 | putting back an item whose turn has not come keeps it |
| `StreamSafety.AdoptInv` | core/double_buffer.go:315-319 | adopting the buffer whose turn it is keeps it, and the deliveries go on with exactly that batch |
| `StreamSafety.RecycleInv` | core/double_buffer.go:481-487 | resetting and pooling the exhausted current buffer keeps it |
| `StreamSafety.TakeInv` | core/double_buffer.go:494-510 | the pop that ends a read keeps it |
| `StreamSafety.CollectInv` | core/double_buffer.go:160-164 | the buffer pool may drop members at any time |
| `StreamProgress.BuffersInEveryRun` | core/double_buffer.go:160-206 | in every run of whole writes each buffer in use is pooled or has exactly one role; passive and pooled buffers are empty, write-only and have head = tail = -1; `count` is the length of the active buffer; head + 1 never exceeds the capacity; ring states stay in {WriteOnly, ReadOnly} |
| `StreamProgress.WriteSucceedsIffCapacity` | core/double_buffer.go:203-230 | a write that runs alone succeeds if and only if the capacity is at least 1; then it rotates at most once, exactly when the active buffer is full, and appends exactly its item to the history |
| `StreamProgress.PickLoopCases` | core/double_buffer.go:305-327 | the retry loop left alone takes the awaited buffer if it has reached the heap, and otherwise gives up with nothing changed or lost |
| `StreamProgress.PickFindsCurrent` | core/double_buffer.go:310-319 | if the awaited number is in the heap the next pick finds it |
| `StreamProgress.MissedPick` | core/double_buffer.go:321-322 | a pick of another number is undone completely; the reader looks again after the first and the second, and gives up after the third |
| `StreamProgress.ThreeMissesEnd` | core/double_buffer.go:308-326 | Begin and three picks of other numbers are a possible run, and it ends the call with nothing changed |
| `StreamProgress.ThirdLookFinds` | core/double_buffer.go:308-326 | if the awaited batch is pushed into the heap after two missed picks, the third pick of the same call adopts it and the call delivers its first item |
| `StreamProgress.TryReadCases` | core/double_buffer.go:480-511 | the outcome of a whole uninterrupted read in three cases |
| `StreamProgress.ReadWorks` | core/double_buffer.go:480-511 | with no goroutine on its way, one read does one unit of the remaining work (an item, or one empty batch), and reports ErrNoBuffer exactly when no work is left |
| `StreamProgress.DrainInExactlyWorkCalls` | core/double_buffer.go:480-511 | each of the first (items + empty batches) reads yields an item or the error of an empty batch, the next one is the first to report ErrNoBuffer, and by then all rotated items are delivered in sequence order |
| `StreamProgress.DrainDeliversAll` | core/double_buffer.go:480-511 | if numbers followed spawn order, everything accepted has then been delivered in order, up to the contents of the active buffer |
| `StreamProgress.ReadIsARun` | core/double_buffer.go:480-511 | an uninterrupted read is a run of the reader steps Begin, Pick, Decide and Take |
| `StreamProgress.AfterIsARun` | core/double_buffer.go:480-511 | so the states of the draining theorem are reached by steps of the reader alone |
| `DoubleBuffers.DoubleBuffer.constructor` | core/double_buffer.go:130-175 | the object starts as the initial state of the transition system |
| `DoubleBuffers.DoubleBuffer.WriteActive` | core/double_buffer.go:204-209 | `active.Write` and the count are the transition system's write attempt |
| `DoubleBuffers.DoubleBuffer.PoolGet` | core/double_buffer.go:267 | a pooled buffer or a new one, whose memory no other buffer shares |
| `DoubleBuffers.DoubleBuffer.SwapChannels` | core/double_buffer.go:281-285 | the old active buffer is returned, passive becomes active, the new buffer passive |
| `DoubleBuffers.DoubleBuffer.Retire` | core/double_buffer.go:255-266 | only the state and the active ring's state change |
| `DoubleBuffers.DoubleBuffer.SwitchChannel` | core/double_buffer.go:253-279 | on references, with the goroutine still to run, it is exactly the rotation step (without the time stamp and the notification) |
| `DoubleBuffers.DoubleBuffer.WriteSlowly` | core/double_buffer.go:212-230 | the slow path: a rotation if and only if the active buffer is read-only, then a second attempt |
| `DoubleBuffers.DoubleBuffer.Write` | core/double_buffer.go:203-231 | for an item filed by lines 182-201: closed: refused, nothing changed; otherwise exactly the write step of the transition system |
| `DoubleBuffers.DoubleBuffer.RunNumber` | core/double_buffer.go:272-273 | drawing the number is the numbering step |
| `DoubleBuffers.DoubleBuffer.RunPublish` | core/double_buffer.go:273-274 | pushing the new heap item is the publication step; the heap holds exactly the published buffers |
| `DoubleBuffers.DoubleBuffer.Unfile` | core/double_buffer.go:310-313 | the heap hands out the buffer with the least number, or nothing when no buffer is filed |
| `DoubleBuffers.DoubleBuffer.PickOnce` | core/double_buffer.go:309-323 | one round of the retry loop: empty, adopted, or put back without a trace |
| `DoubleBuffers.DoubleBuffer.PickBufferFromHeap` | core/double_buffer.go:305-327 | succeeds if and only if the awaited number is in the heap |
| `DoubleBuffers.DoubleBuffer.Recycle` | core/double_buffer.go:482-486 | the exhausted buffer is reset, pooled and no longer current |
| `DoubleBuffers.DoubleBuffer.TakeItem` | core/double_buffer.go:494-510 | pops the oldest item of the current buffer; ErrRead exactly from an empty one, in both modes |
| `DoubleBuffers.DoubleBuffer.TryRead` | core/double_buffer.go:480-511 | in both modes exactly the read of the transition system, so all statements about it hold of the object; neither mode ever gives up on an item that Write queued |
| `DoubleBuffers.DoubleBuffer.DrainProcessor` | core/double_buffer.go:521-528 | every published buffer ends in the pool, the heap is empty, contents are untouched |
| `DoubleBuffers.DoubleBuffer.Close` | core/double_buffer.go:530-546 | closes once; active, passive and published buffers are pooled with their contents; during a switch, and a second time, it does nothing; goroutines still on their way stay pending |
| `Ring.CalcPosIsEuclidean` | core/component/smart_buffer.go:76-86 | Go's remainder with the two corrections is the non-negative remainder |
| `Ring.CalcPosIsBijective` | core/component/smart_buffer.go:76-86 | any window of `capacity` consecutive indices, wherever it starts, is mapped one-to-one onto the slots |
| `Ring.SafeNextSlot` | core/component/smart_buffer.go:101-117 | the next push lands on a slot without an unread item, as long as the indices have not wrapped or the capacity divides 2^32 |
| `Ring.WrapCollides` | core/component/smart_buffer.go:101-104 | otherwise the push after index 2^31 - 1 lands on an unread item of a ring that is not full |
| `Ring.RingSoundForeverIffCapacityDividesWord` | core/component/smart_buffer.go:76-104 | slots of unread items stay apart for ever if and only if the capacity divides 2^32 |
| `Ring.PushAllLatches` | core/component/smart_buffer.go:89-99 | any series of pushes fills the free places in order; the first push beyond latches the ring read-only and all later ones are refused |
| `Ring.ClosedRefuses` | core/component/smart_buffer.go:68-74 | a closed ring refuses every write with its own error, also where a push would find room |
| `SmartBuffers.SmartBuffer.constructor` | core/component/smart_buffer.go:42-54 | a new ring is pristine |
| `SmartBuffers.SmartBuffer.Write` | core/component/smart_buffer.go:68-74 | refuses a closed ring, else pushes; tied to the bounded queue the ring stands for |
| `SmartBuffers.SmartBuffer.Push` | core/component/smart_buffer.go:89-122 | appends to the queue, or latches and refuses at capacity, or refuses |
| `SmartBuffers.SmartBuffer.Pop` | core/component/smart_buffer.go:139-172 | removes and returns the oldest item, or the nil item from an empty ring |
| `SmartBuffers.SmartBuffer.Reset` | core/component/smart_buffer.go:124-132 | back to the pristine queue |
| `RingThreads.CountInRange` | core/component/smart_buffer.go:95-165 | with n writers and at most one reader, interleaved step by step, 0 <= count <= capacity + n - 1, when this fits into 32 bits |
| `RingThreads.OvershootReached` | core/component/smart_buffer.go:95-118 | n writers reach capacity + n - 1, or the 32-bit number it wraps to |
| `RingThreads.CountInRangeIff` | core/component/smart_buffer.go:95-165 | 0 <= count <= capacity + n - 1 in every run if and only if there is at most one reader and capacity + n - 1 fits into 32 bits |
| `RingThreads.CountTakesAnyValue` | core/component/smart_buffer.go:141-165 | with two or more readers the count reaches every 32-bit number: Pop only tests for 0, so the count sinks to the smallest and wraps to the largest |
| `RingThreads.CountNotNegativeIff` | core/component/smart_buffer.go:141-165 | the count is never negative if and only if there is at most one reader and no overshoot wraps |
| `RingThreads.CountWithinOvershootIff` | core/component/smart_buffer.go:95-165 | the count never exceeds capacity + n - 1 if and only if there is at most one reader, or no 32-bit number exceeds it |
| `RingCalls.LonePush` | core/component/smart_buffer.go:89-122 | from every state and whatever other threads are at, a push that runs alone is refused by a read-only ring; at capacity it is refused and makes the ring read-only; otherwise it fills the slot of `head` |
| `RingCalls.LonePop` | core/component/smart_buffer.go:139-172 | a pop that runs alone returns nothing exactly for a count of 0, and otherwise takes out what the slot of `tail` holds |
| `RingCalls.ThreeLooks` | core/component/smart_buffer.go:149-157 | a pop looks three times at a slot that is empty, and then goes on with what it read |
| `RingCalls.PushIsPushValue` | core/component/smart_buffer.go:89-122 | a push that runs alone is the push of the bounded queue: same contents, same mode, same answer |
| `RingCalls.PopIsPopValue` | core/component/smart_buffer.go:139-172 | a pop that runs alone is the pop of the bounded queue |
| `RingCalls.LatchedForGood` | core/component/smart_buffer.go:89-99 | read-only is never left, in any run of any threads, and only pushes that had looked at the state before still claim a slot |
| `RingCalls.CallsAnswered` | core/component/smart_buffer.go:89-172 | in every run of any threads, each push called has claimed a slot, been refused, or is still deciding; likewise each pop |
| `RingFifo.OneWriterOneReaderIsQueue` | core/component/smart_buffer.go:89-172 | one writer and one reader, interleaved at each load, swap, store and addition: the k-th completed pop returns the k-th pushed item, 0 <= count <= stored items <= capacity, a push stores into an empty slot, a pop never meets an empty one |
| `RingFifo.QueueForeverIffCapacityDividesWord` | core/component/smart_buffer.go:89-172 | this holds in every run, however long, if and only if the capacity divides 2^32 |
| `RingFifo.WrapOverwrites` | core/component/smart_buffer.go:101-118 | for any other capacity, a run of one writer and one reader that stores on top of an unread item |
| `RingLosses.StoresIntoEmptyIff` | core/component/smart_buffer.go:89-122 | with n writers and one reader, every push of every run stores into an empty slot if and only if there is at most one writer and, for one, the capacity divides 2^32 |
| `RingLosses.TwoWritersLose` | core/component/smart_buffer.go:95-118 | for each capacity, a run of two writers in which both pushes are accepted and the first item is in no slot, without any pop |
| `RingFifo.StepKeeps` | core/component/smart_buffer.go:89-172 | every single atomic step keeps the queue invariant |
| `RingFifo.StoreFindsEmptySlot` | core/component/smart_buffer.go:106-117 | the slot a claimed push writes to is empty |
| `RingFifo.LookFindsItem` | core/component/smart_buffer.go:149-157 | the slot a claimed pop reads from holds its item |
| `MinHeaps.RootIsLeast` | core/min_heap.go:39-41 | in a heap the root has the least sequence number |
| `MinHeaps.SiftedUp` | core/min_heap.go:84-88 | one step of `up` moves the only violation one level up |
| `MinHeaps.SiftedDown` | core/min_heap.go:90-99 | one step of `down` moves it one level down |
| `MinHeaps.WrapHeap.Swap` | core/min_heap.go:43-47 | exchanges two items and keeps every recorded index right |
| `MinHeaps.WrapHeap.Append` | core/min_heap.go:49-54 | the appended item records its position |
| `MinHeaps.WrapHeap.RemoveLast` | core/min_heap.go:56-63 | the removed item records -1 |
| `MinHeaps.WrapHeap.Up` | core/min_heap.go:84-88 | restores heap order, same multiset of items |
| `MinHeaps.WrapHeap.Down` | core/min_heap.go:90-99 | restores heap order in the first n items, moves no other |
| `MinHeaps.WrapHeap.Push` | core/min_heap.go:84-88 | insertion into the multiset; order and indices kept |
| `MinHeaps.WrapHeap.Pick` | core/min_heap.go:90-99 | takes out an item of least sequence number, None exactly from an empty heap |
| `MinHeaps.WrapHeap.PickAll` | core/double_buffer.go:521-528 | repeated picks yield a sorted permutation of the heap, all marked as removed |
| `Rotation.SwitchesExclude` | core/double_buffer.go:253-264 | any number of threads: the state reads Switching exactly while one thread, and only one, is between its compare-and-swap and its restoring store; Close succeeds at most once, never during a switch |
| `Rotation.SwitchesSerialize` | core/double_buffer.go:253-285 | the statements of the switch body, interleaved, take effect as whole rotations one after the other; a retired buffer was made read-only first |
| `Rotation.ClosedIsFinal` | core/double_buffer.go:530-542 | after a successful Close the state, the buffers and the list of spawned goroutines never change again, and exactly the active and the passive buffer are pooled |
| `Rotation.LoneSwitchRotates` | core/double_buffer.go:253-279 | called while the state is Writing and the lock free, and left alone: the old active buffer is made read-only and passed to the goroutine, the passive one becomes active, the spare one passive; the state is Writing and the lock free again |
| `Rotation.LoneCloseCloses` | core/double_buffer.go:530-542 | called while the state is Writing and left alone: the state is Closed, exactly the active and then the passive buffer are pooled |
| `Rotation.LoneCallsRefused` | core/double_buffer.go:253-256 | in any other state both functions return with nothing done |
| `Rotation.StepExclusive` | core/double_buffer.go:253-264 | every single step keeps mutual exclusion, and Closed is never left |
| `Rotation.StepInBody` | core/double_buffer.go:266-278 | every statement of the body keeps the pipeline of buffers |
| `Waiters.Min` | core/waiters.go:128-138 | the minimum of a non-empty list |
| `Waiters.Channel.TrySend` | core/waiters.go:102-106 | a non-blocking send succeeds exactly on an empty channel; it is only allowed on an open one |
| `Waiters.WaiterManager.Register` | core/waiters.go:38-48 | a number never used before and an empty channel no other waiter has |
| `Waiters.WaiterManager.Unregister` | core/waiters.go:50-61 | a waiting waiter leaves and its channel is pooled; otherwise nothing happens |
| `Waiters.WaiterManager.Collect` | core/waiters.go:90-99 | the range loop yields min(n, waiters) different waiters, in whatever order |
| `Waiters.WaiterManager.SendAll` | core/waiters.go:101-107 | every send of a batch succeeds |
| `Waiters.WaiterManager.Round` | core/waiters.go:89-111 | one round wakes and forgets exactly the collected waiters |
| `Waiters.WaiterManager.Rounds` | core/waiters.go:89-116 | the loop terminates, having woken min(total, waiters) waiters |
| `Waiters.WaiterManager.Notify` | core/waiters.go:69-117 | wakes exactly min(64, dataSize, waiters) waiters, each once and with a token, leaves the others untouched; a closed manager sends nothing |
| `Waiters.WaiterManager.Close` | core/waiters.go:119-126 | closes the channel of every waiter; panics if and only if one of them was closed before, which needs an earlier Close |
| `Waiters.WaiterManager.TryReceive` | core/double_buffer.go:470-472 | before Close, only a woken waiter receives anything |
| `Waiters.WaiterManager.NotifyEach` | core/waiters.go:69-117 | a series of notifications wakes exactly min(waiters, sum of min(64, dataSize)) waiters, each with one token; the woken and the still waiting ones partition those waiting before |
| `Waiters.WokenByIsOffered` | core/waiters.go:83-87 | adding up the wake-ups of the single notifications |
| `Waiters.CloseTwice` | core/waiters.go:119-126 | Register, Close and Close again panics |
| `LifeCycle.BigDataPool.Put` | pools/life_cycle.go:168-178 | the accounting step of Put; the equation is kept |
| `LifeCycle.BigDataPool.Release` | pools/life_cycle.go:181-191 | one reference less on that entry only, possibly below 0 |
| `LifeCycle.BigDataPool.Free` | pools/life_cycle.go:193-203 | drops the entry and subtracts the caller's size, only if the entry exists |
| `LifeCycle.BigDataPool.Cleanup` | pools/life_cycle.go:144-166 | removes min(201, n) of the n entries with counter 0 and no other, in whatever map order |
| `LifeCycle.AllFreedCountsNothing` | pools/life_cycle.go:144-203 | without leaks, the size count is 0 once every entry has been freed |
| `LifeCycle.FreesAll` | pools/life_cycle.go:193-203 | from any state, freeing every entry empties the pool and takes exactly the recorded sizes from the count |
| `LifeCycle.PerformBalances` | pools/life_cycle.go:144-203 | currentSize = recorded sizes + sizes overwritten by Put + sizes removed by cleanup + what Free was given too little |
| `LifeCycle.CountExactIffLeakFree` | pools/life_cycle.go:144-203 | if each Free of a recorded address passes the recorded size, the count never falls short of the recorded sizes, and exceeds them if and only if some Put replaced an entry or some cleanup removed one |
| `LifeCycle.RemovableAfterOneRelease` | pools/life_cycle.go:155-191 | an entry that is put and then left alone by Put and Free can be cleaned up if and only if it has been released exactly once, and is still there |
| `LifeCycle.TwoPutsTwoReleasesStay` | pools/life_cycle.go:168-191 | two puts and two releases of one address leave a counter of -1, and no later cleanup removes the entry |
| `LifeCycle.CleanupsRemoveAll` | pools/life_cycle.go:144-166 | k cleanups remove min(n, 201 k) unreferenced entries and keep every referenced one |
| `LifeCycle.MediumPool.Cleanup` | pools/life_cycle.go:109-128 | removes only entries older than a minute at its end, and all that were at its start unless 201 are gone, each with its own clock reading |
| `LifeCycle.ValidForTtlIff` | pools/life_cycle.go:81-128 | a payload left alone counts as valid throughout its two minutes, in all runs with given cleanups, if and only if none of them ends more than one and less than two minutes after the Put |
| `LifeCycle.SweptTooEarly` | pools/life_cycle.go:109-128 | the run in which such a cleanup takes a payload that would still be valid |
| `SwitchStrategy.CombinedExact` | core/switch_strategy.go:48-57 | the weighted factor reaches the threshold if and only if 8 e s + 12 c i >= 17 s i |
| `SwitchStrategy.NeedSwitchExact` | core/switch_strategy.go:35-58 | the whole default decision in integers |
| `SwitchStrategy.NeedSwitchMonotone` | core/switch_strategy.go:35-58 | across all branches: monotone in count and elapsed time, antitone in buffer size and interval |
| `SwitchStrategy.DefaultOfOneFactor` | core/switch_strategy.go:35-78 | with nothing in the buffer the default strategy is the time-window one, and with no time passed the size-only one |
| `SwitchStrategy.EarlySwitch` | core/switch_strategy.go:40-57 | an early switch takes more than 3/4 of the capacity and more than 5/8 of the interval |
| `SwitchStrategy.TimeImpliesDefault` | core/switch_strategy.go:76-78 | the time-window strategy implies the default one |
| `SwitchStrategy.SizeImpliesDefaultIffSizePositive` | core/switch_strategy.go:66-68 | the size-only strategy implies the default one if and only if the buffer size is at least 1 |
| `Config.Validate` | config/config.go:57-67 | no error exactly for a percentage in 0..100 and a non-negative threshold; the percentage is checked first |
| `Config.NewSwitchCondition` | config/config.go:38-55 | the validation error, or version 1, the stored configuration and a first token |
| `Config.SwitchCondition.UpdateConfig` | config/config.go:73-91 | an invalid configuration changes nothing; a valid one is stored under the next version and leaves a token |
| `ConfigThreads.VersionCountsUpdates` | config/config.go:73-91 | any number of concurrent updaters: after k updates the version is k + 1, the current configuration is the last one stored, the lock is held by one |
| `ConfigThreads.LoneUpdate` | config/config.go:73-91 | an update left alone stores its own configuration under the next version and leaves a token |
| `ConfigThreads.StoresWhatIsPassed` | config/config.go:73-91 | in every run, each configuration stored is one that was passed to a call |
| `ConfigThreads.FreshIffOneMonitor` | core/double_buffer.go:243-247 | a monitor with an old version always has a token waiting, an updater about to send, or a fetch under way - if and only if there is at most one monitor |
| `ConfigThreads.SecondMonitorMisses` | core/double_buffer.go:243-247 | a run in which a second monitor is left with an old version and no token |
| `ConfigThreads.CheckRefreshes` | core/double_buffer.go:243-247 | once no update is under way, one check brings the only monitor up to date |
| `Payloads.SmallPayloadsAreSnapshots` | core/double_buffer.go:188-196 | in every run of writes, reads in both modes, releases, and stores of the callers into their own memory, a chunk of a small payload reads as the payload was when it was written, until its release; chunks come in the order of the writes |
| `Payloads.SnapshotIffSmall` | core/double_buffer.go:188-201 | in either mode, what is delivered of payloads of a given length is what was written, whatever the callers do, if and only if the length is below 1024 |
| `Payloads.ChangedRun` | core/double_buffer.go:197-201 | for any length from 1024 on, a run in each mode that delivers other bytes than were written |
| `Payloads.StepInv` | core/double_buffer.go:188-455 | every step keeps pooled, queued, handed-out and callers' buffers disjoint and small payloads intact |
| `Payloads.CopyInv` | core/double_buffer.go:190-195 | a copy sits in a buffer that is neither pooled, queued, handed out nor a caller's |
| `Payloads.ReleaseInv` | core/chunk.go:26-31 | returning a released buffer to the pool keeps all roles disjoint |
| `PayloadReads.WriteQueues` | core/double_buffer.go:182-201 | a write queues exactly the bytes the payload has at that moment: in place from 1024 bytes on, below that in a buffer that is neither pooled nor a caller's |
| `PayloadReads.ReadDelivers` | core/double_buffer.go:381-455 | a read in either mode, of a payload of any length, hands out the bytes of the head of the queue |
| `PayloadReads.ReadPlaces` | core/double_buffer.go:381-455 | where they lie: in place for a read without copy, above 32768 bytes, and for a valid medium payload; otherwise in a copy, which goes back to the pool only below 1024 bytes |
| `PayloadReads.ReleaseReturns` | core/chunk.go:26-31 | the first release of a chunk returns its small buffer, the second changes nothing |
| `PayloadReads.DeliveredAsWritten` | core/double_buffer.go:188-455 | for payloads of every length, in every run whose callers do not store into a payload between its write and its read, each chunk is handed out with the bytes that were written |
| `PayloadReads.ExpiredCopyStays` | core/double_buffer.go:412-425 | the copy of an expired medium payload keeps these bytes in every run that follows |
| `PayloadStores.PayloadStore.Write` | core/double_buffer.go:188-201 | on arrays, the write step; an empty payload panics after taking a buffer |
| `PayloadStores.PayloadStore.CopyOf` | core/double_buffer.go:190-195 | on arrays, the copy into a pooled or new small buffer |
| `PayloadStores.PayloadStore.SafeRead` | core/double_buffer.go:381-432 | on arrays, the copying read step, in its three size classes |
| `PayloadStores.PayloadStore.ZeroCopyRead` | core/double_buffer.go:436-455 | on arrays, the step of the read without a copy |
| `PayloadStores.PayloadStore.Release` | core/chunk.go:26-31 | on arrays, the release step; a second release changes nothing |
| `PayloadStores.PayloadStore.ChunkReads` | core/chunk.go:22-24 | the bytes of an unreleased small chunk are those of its write |

## Left out

- Metrics, logging, Prometheus and gopsutil adapters: I/O around the modelled code.
- `core/queue.go`: the double buffer does not use it, and its maximum size is not enforced.
- Tickers, sleeps, contexts and the two background workers: their effects are steps of the runs (rotation, cleanup); the time between steps is arbitrary.
- Several writers that interfere with each other inside `Write`: `stream.dfy` has whole writes, `fine_stream.dfy` takes apart the write of one writer; several writers at once are modelled for the ring alone (`ring_threads.dfy`, `ring_losses.dfy`) and for `switchChannel` against `Close` (`rotation.dfy`). In `fine_stream.dfy` one writer pushes; there the two loads of a check are one step, as are the load of the state and of the active buffer, the load and the compare-and-swap of a claim, the writer's own rotation, the swap of the monitor's rotation with the stores and the goroutine that follow it, and the pop of the reader.
- Runs of the double buffer after `Close`: the code pools rings with their contents and does not wait for publishing goroutines; `Close` itself is modelled, what comes after it is not.
- The wake-up of `BlockingRead`: it reads first and registers afterwards, so a notification can fall between the two; the code does not rule this out, and only the waiter manager is modelled.
- More than one reader of `currentBuffer`: unprotected in the code.
- An unregistered read mode: reading it dereferences a nil pointer.
- `RegisterCallback` and `BatchRead`: stubs.
- `Push`'s three looks at its slot before it stores: they have no effect. The `sem` channel of the ring: nothing sends on it.
- `PeekFirst` and `Len` of the heap: single reads.
- Copies of a `DataChunk` value, each with its own `free` field: `Release` is once per chunk object.
- InterruptedPushes.NothingLostIff: speaks of one writer; several writers lose items without any rotation (`RingLosses.TwoWritersLose`), and the rotation of another writer can overlap with a push like one of the monitor.
- InterruptedPushes.OrderKeptIff: speaks of one writer, likewise.
- RefusedWrites.NothingRefusedIff: speaks of one writer; another writer can fill the active ring between two attempts.
- StreamProgress.BuffersInEveryRun: speaks of whole writes; `count` is off by one when a rotation falls between the addition to the ring's count and the one to the double buffer's.
- SwitchStrategy.NeedSwitchExact: states the decision over real numbers; the rounding of the 64-bit factors is not modelled.
- SwitchStrategy.CombinedExact: likewise over real numbers.
- SwitchStrategy.EarlySwitch: likewise over real numbers.
- DoubleBuffers.DoubleBuffer.Close: does not model the wait for the two background workers, which hold no buffers.
- DoubleBuffers.DoubleBuffer.SwitchChannel: does not model the time stamp of the switch, which only the strategy reads, nor the notification of waiters, which is `Waiters.WaiterManager.Notify`.
- DoubleBuffers.DoubleBuffer.Write: takes the item as it is after lines 182-201 of the source, which are `Payloads.Written`.
- Rotation.SwitchesSerialize: leaves out the stores to `count` and `lastSwitch` in the switch body; the count is in `stream.dfy` and `fine_stream.dfy`.
- PayloadStores.PayloadStore.SafeRead: takes the answer of `MediumPool.IsValid` as an input, and the pipeline between a write and its read as one queue of slices; which slice is popped when is the subject of the stream modules and does not matter to who owns it.
- PayloadStores.PayloadStore.ZeroCopyRead: leaves out the calls of the read and of its closure into `BigDataPool`, which are `LifeCycle.BigDataPool.Release` and `LifeCycle.BigDataPool.Free`.
- LifeCycle.BigDataPool.Free: does not model the finalizer it clears.
- Addresses reused by the garbage collector, finalizers and `Preload`: an address is a number in the pools and a reference in `payload_store.dfy`.
- The `Free` closures of medium and big payloads: `payload.dfy` records only that the chunk was released; the bookkeeping they do is in `life_cycle.dfy`.
