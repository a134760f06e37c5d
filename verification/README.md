# Verified models of the framework's concurrent and in-place cores

This project states, in Dafny, what the hard parts of the framework promise, and proves it for every input, every
history and every interleaving. `dafny verify dfyconfig.toml` checks it all.

Concurrency is modelled as interleaved steps under sequential consistency, one step for each atomic load, store,
compare-and-swap, semaphore or notification operation, critical section and, in the rings, each copied byte. A protocol
module holds the state and the steps as functions; a run is any sequence of steps by any threads. Where the source works
on memory, a class with the source's fields, or methods on an array, do the same work in place and are proved to be
those steps, or to meet a specification whose properties are proved beside it.

- **AVL tree** (`AvlSpec`, `AvlBalance`, `AvlPath`, `AvlHeap`, `AvlSplice`, `AvlTree`). Trees as values, related to the
  sorted sequence of their entries; then nodes on the heap with parent links and cached depths, spliced and rotated in
  place by loops that walk down and up. Insertion keeps balance. Deletion keeps it exactly when its upward walk meets no
  bad tie: in the left-heavy case a tie goes to the double rotation (`avltree.c:196-203`), which strands a short side if
  the inner grandchild leans right.
- **MPSC ring** (`MpscProtocol`, `MpscSafety`, `MpscTheorems`, `MpscCalls`, `MpscWrap`, `MpscRingbuf`). Any number of
  producers reserve slots by compare-and-swap; first in, first out below 2^32 reservations, and what comes out is what
  the callers passed. No run delivers more than 2^32 - 1 items, and runs there lose an item, refuse one with room left,
  or reserve a slot in use.
- **Workqueue** (`WorkqueueProtocol`, `WorkqueueSafety`, `WorkqueueThreads`, `WorkqueuePromises`, `WorkqueueStop`,
  `WorkqueueWake`, `WorkqueueLife`, `WorkqueueAlone`, `CoreList`, `WorkqueueMemory`). Any number of threads in enqueue,
  cancel, flush, start and stop, with workers. What is accepted is what a caller brought while the queue was RUNNING, a
  RUNNING queue has a worker or a start about to create it, each accepted work has one fate, which is final, and flush
  is a barrier. The documentation says that an accepted work is executed once and that stop drains the list before the
  worker leaves (`workqueue.c:343-345`); the code can discard an accepted work (`StopDiscardsAccepted`), and start can
  lose a wake-up (`StartSwallowsPost`). `StopDiscardsExactly` and `DrainExact` say exactly when. The model follows the
  code, in a build where `OSAL_ASSERT` does nothing.
- **Completion** (`CompletionProtocol`, `CompletionCalls`, `CompletionPreempted`, `CompletionMemory`). Both backends
  refine one one-shot event when the waiter cannot preempt a done. Otherwise a late post can leave a token that belongs
  to no done, on either backend; the exact condition, and the promises of every run in which it is met.
- **SPSC ring** (`SpscProtocol`, `SpscSafety`, `SpscCalls`, `RingSlots`, `RingArithmetic`, `Ringbuf`, `SpscRingbuf`). It
  refines a bounded queue while its 32-bit positions wrap without bound, publishes prefixes of what its caller passed,
  and makes the two-piece copies on a flat buffer, call by call and byte by byte.
- **Log ring** (`LogRing`). Doorbell, conservation, order, delivery, and drop warnings, both when they come and when
  not. The ring inside it is the bounded queue to which the SPSC ring is proved to refine; a producer's critical section
  may fall between the consumer's load and its store.
- **Log formatter** (`LogWriter`, `LogNumber`, `LogSpec`, `LogMeaning`, `LogReads`, `LogFormatter`). Capturing arguments
  and formatting later prints what formatting now prints; what each conversion prints reads back as its argument;
  segments, digits and fields.
- **Flash partitions** (`FlashGeometry`, `Partition`). A device is the list of its sectors; alignment, erase units and
  the queries over them agree with that list.
- **Check sums** (`BitStream`, `ShiftRegister`, `Crc8`, `Crc16`, `CrcFrames`). Table and loop against a register shifted
  one bit at a time, for which burst detection is proved from a few laws. The CRC16 is the FCS-16 of Appendix C.2 of RFC
  1662 without the final complement; its start value is that definition's complement of the first 16 bits.

Memory allocation, the clock and the outcome of device reads are parameters. Atomic wrappers, semaphores, interrupt
locks and task notifications are atomic steps: a semaphore is a counter with a maximum, a notification a count.

## Model

| member | source | states |
|---|---|---|
| AvlSpec.LookupMeaning | lib/data_struct/src/avltree.c:384-406 | search reaches an entry exactly when the sorted sequence of entries holds the key, and then that entry |
| AvlSpec.InsertInorder | lib/data_struct/src/avltree.c:284-373 | insertion puts the entry at its place in the sorted sequence of entries; a duplicate leaves the sequence alone |
| AvlSpec.PutMeaning | lib/data_struct/src/avltree.c:284-373 | the reference insertion keeps a sequence sorted, adds exactly the new key, and changes nothing when the key is there |
| AvlSpec.DeleteInorder | lib/data_struct/src/avltree.c:427-541 | deletion removes the key from the sorted sequence and nothing else |
| AvlSpec.RemoveMeaning | lib/data_struct/src/avltree.c:427-541 | the reference removal keeps a sequence sorted, takes out exactly the key, and changes nothing when it is absent |
| AvlSpec.AdjustInorder | lib/data_struct/src/avltree.c:183-219 | no rebalancing changes which entries there are or their order |
| AvlSpec.InsertNewGrows | lib/data_struct/src/avltree.c:284-373 | an insertion raises the number of entries by one |
| AvlSpec.DeleteShrinks | lib/data_struct/src/avltree.c:427-541 | a deletion of a present key lowers the number of entries by one |
| AvlBalance.InsertNewBalanced | lib/data_struct/src/avltree.c:284-373 | insertion into a balanced tree leaves it balanced, at most one level taller; a subtree it made taller leans to one side, so the tie is never met |
| AvlBalance.AdjustLeaning | lib/data_struct/src/avltree.c:183-219 | rotating a node whose heavy child leans restores balance and takes exactly one level off |
| AvlBalance.AdjustTie | lib/data_struct/src/avltree.c:196-203 | at the left-heavy tie the double rotation keeps the height, and keeps balance if and only if the inner grandchild does not lean right |
| AvlBalance.DeleteBalanced | lib/data_struct/src/avltree.c:427-541 | deletion from a balanced tree leaves it balanced if and only if the walk back to the root meets no bad tie, and lowers the height by at most one |
| AvlBalance.WitnessIsReached | lib/data_struct/src/avltree.c:284-373 | the eight insertions 50, 20, 60, 10, 30, 70, 5, 40 lead to the witness tree |
| AvlBalance.DeleteUnbalancesWitness | lib/data_struct/src/avltree.c:196-203 | deleting 70 from that reachable, balanced tree leaves key 20 with children of heights 2 and 0 |
| AvlBalance.BalancedIsShallow | lib/data_struct/src/avltree.c:183-219 | a balanced tree of n entries is at most 2 log2(n + 1) + 1 high, and at most log(n + 1) to the base 8/5 |
| AvlBalance.SparsestIsSparse | lib/data_struct/src/avltree.c:183-219 | and for every height a balanced search tree exists that has no more entries than the bound demands |
| AvlBalance.HistorySound | lib/data_struct/src/avltree.c:284-541 | after every history of adds and deletes: a search tree with exactly the entries of a reference sequence, and balanced as long as no delete met a bad tie |
| AvlPath.ResumeOver | lib/data_struct/src/avltree.c:516-538 | walking up a joined path is walking up its lower part and then, with the result, its upper part |
| AvlHeap.HeightIsExact | lib/data_struct/src/avltree.c:19-23 | on linked nodes the HEIGHT macro, computed from depth fields, is the true height |
| AvlHeap.UpdateDepth | lib/data_struct/src/avltree.c:351 | renewing one depth field leaves the subtree linked and every depth exact |
| AvlHeap.RotateRightAt | lib/data_struct/src/avltree.c:121-139 | the rotation in place turns linked nodes of a tree into linked nodes of the rotated tree, with mutual parent links and exact depths |
| AvlHeap.RotateLeftAt | lib/data_struct/src/avltree.c:141-159 | the mirror image |
| AvlHeap.RotateLeftRightAt | lib/data_struct/src/avltree.c:167-171 | the double rotation in place is the two rotations of the tree one after the other |
| AvlHeap.RotateRightLeftAt | lib/data_struct/src/avltree.c:161-165 | the mirror image |
| AvlHeap.AdjustAt | lib/data_struct/src/avltree.c:183-219 | adjusting in place gives the adjusted tree, links and depths exact, and no rotation meets a null child whatever the shape |
| AvlHeap.ClimbOnce | lib/data_struct/src/avltree.c:349-370 | one turn of the upward walk renews a depth, adjusts the node and hangs it from its parent on the side it came from |
| AvlSplice.FindGreatest | lib/data_struct/src/avltree.c:451-456 | the descent finds the greatest node of a subtree and the linked path down to it |
| AvlSplice.SpliceGreatest | lib/data_struct/src/avltree.c:451-473 | moving the greatest left descendant into the place of the deleted node leaves a linked tree without that node |
| AvlSplice.SpliceLeast | lib/data_struct/src/avltree.c:476-502 | the mirror image on the right |
| AvlSplice.ReplaceChild | lib/data_struct/src/avltree.c:505-511 | the parent of the deleted node points at the replacement and nothing else above changes |
| AvlTree.AvlTree.Query | lib/data_struct/src/avltree.c:384-406 | null exactly when the tree does not hold the key, and otherwise the node of the key |
| AvlTree.AvlTree.Locate | lib/data_struct/src/avltree.c:391-404 | and the loop ends at the linked subtree of the key, or at an empty place |
| AvlTree.AvlTree.WalkUp | lib/data_struct/src/avltree.c:349-370 | the loop shared by add and delete rebuilds every subtree from its start up to the root as the specification does |
| AvlTree.AvlTree.Add | lib/data_struct/src/avltree.c:284-373 | add changes the heap tree into the tree with the entry inserted, links and depths exact; a duplicate or a failed allocation changes nothing |
| AvlTree.AvlTree.DeleteByKey | lib/data_struct/src/avltree.c:427-541 | delete changes the heap tree into the tree without the key and returns success exactly when the key was there |
| MpscTheorems.Fifo | lib/data_struct/src/mpsc_ringbuf.c:145-187 | for any number of producers and every interleaving below 2^32 reservations, what the consumer got is a prefix of the items in the order of the successful swaps, at most a capacity behind, and every peek saw an item of that order |
| MpscCalls.DeliversWhatWasPassed | lib/data_struct/src/mpsc_ringbuf.c:145-187 | below 2^32 reservations the i-th item that mpscrb_out returns is the one that the thread of the i-th successful swap had passed to mpscrb_in when it last began a call before that swap |
| MpscCalls.ReservesWhatWasPassed | lib/data_struct/src/mpsc_ringbuf.c:145-167 | in every run, of any length, each reserved item is the one its owner passed to mpscrb_in in the call whose swap reserved the slot |
| MpscCalls.InHandWasPassed | lib/data_struct/src/mpsc_ringbuf.c:145-167 | whoever is inside mpscrb_in has in hand the item it passed |
| MpscCalls.PeeksConsumeNothing | lib/data_struct/src/mpsc_ringbuf.c:189-206 | while only mpscrb_out_peek is called, whatever the producers do meanwhile, nothing is delivered, readPos stands, and no ready flag is cleared, or changed at all unless a producer ends its call |
| MpscCalls.InSucceeds | lib/data_struct/src/mpsc_ringbuf.c:145-167 | left alone in any reachable state with room, mpscrb_in reserves last, and leaves its item whole in its slot, marked ready |
| MpscCalls.InRefused | lib/data_struct/src/mpsc_ringbuf.c:158-160 | left alone with the ring full, mpscrb_in is refused and changes nothing |
| MpscCalls.OutFindsFirst | lib/data_struct/src/mpsc_ringbuf.c:169-206 | left alone, mpscrb_out takes the first reserved item not yet taken if its flag is up, and mpscrb_out_peek shows it and changes nothing |
| MpscCalls.OutFindsNothing | lib/data_struct/src/mpsc_ringbuf.c:176-181 | left alone, both change nothing when no such item is reserved or its flag is down |
| MpscTheorems.StepKeepsInv | lib/data_struct/src/mpsc_ringbuf.c:145-206 | each atomic step of any thread keeps the invariant on counters, ready flags, half-written slots and every place in the code |
| MpscTheorems.RunKeepsInv | lib/data_struct/src/mpsc_ringbuf.c:145-206 | so does every run |
| MpscTheorems.SlotsAreExclusive | lib/data_struct/src/mpsc_ringbuf.c:161-183 | no two producers write one slot, no producer writes the slot being read, and no slot is reused before it was consumed |
| MpscTheorems.RefusedExactly | lib/data_struct/src/mpsc_ringbuf.c:156-160 | an item is turned away if and only if the loaded position is a capacity ahead of the consumer, and then the ring is full at that load, or is so only modulo 2^32, for a producer stalled until within a capacity of the wrap |
| MpscTheorems.FreeCountExact | lib/data_struct/src/mpsc_ringbuf.c:158 | for every position a producer can hold, however stale, the unsigned free count is 0 exactly a capacity ahead of the consumer, in true or in wrapped numbers |
| MpscTheorems.RetriesAreOthersSuccesses | lib/data_struct/src/mpsc_ringbuf.c:154-161 | in one call the failed swaps never exceed the successful ones, all by others, since the call began |
| MpscTheorems.NothingToTake | lib/data_struct/src/mpsc_ringbuf.c:176-181 | the consumer finds nothing exactly when nothing is reserved, or when the owner of the head slot is still writing it |
| MpscTheorems.EmptyTestExact | lib/data_struct/src/mpsc_ringbuf.c:177 | the comparison of raw counters agrees with emptiness exactly when both counters have wrapped equally often |
| MpscWrap.DeliveryEnds | lib/data_struct/src/mpsc_ringbuf.c:176-185 | for every capacity and every run of any length at most 2^32 - 1 items are ever delivered, and after that many every call finds the ring empty |
| MpscWrap.ItemLostAtWrap | lib/data_struct/src/mpsc_ringbuf.c:177 | a run to the 2^32nd reservation leaves a ready item that the consumer is told is not there |
| MpscWrap.RefusedWithRoom | lib/data_struct/src/mpsc_ringbuf.c:156-160 | a run in which a stalled producer is turned away by an empty ring |
| MpscWrap.StaleSwapSucceeds | lib/data_struct/src/mpsc_ringbuf.c:161 | a run in which a stalled producer reserves the only slot of a full ring, because the position has come round |
| MpscSafety.CopyKeepsInv | lib/data_struct/src/mpsc_ringbuf.c:30-46 | copying one byte disturbs no other slot in use |
| MpscSafety.SwapKeepsInv | lib/data_struct/src/mpsc_ringbuf.c:161 | a successful swap hands out a slot that is free and not ready |
| MpscRingbuf.ByteIndexInSlot | lib/data_struct/src/mpsc_ringbuf.c:36-45 | the two-piece copy of one item never leaves its slot |
| MpscRingbuf.MpscRingbuf.constructor | lib/data_struct/src/mpsc_ringbuf.c:72-94 | initialisation gives the empty ring with no slot ready |
| MpscRingbuf.MpscRingbuf.InSwaps | lib/data_struct/src/mpsc_ringbuf.c:161 | the compare-and-swap on the shared position is the reservation step of the protocol |
| MpscRingbuf.MpscRingbuf.InCopies | lib/data_struct/src/mpsc_ringbuf.c:30-46 | each byte stored in the flat buffer is the copy step of the protocol on the slot |
| MpscRingbuf.MpscRingbuf.InLoadsRead | lib/data_struct/src/mpsc_ringbuf.c:157-160 | the load and the test of the free count are the protocol step, and tell whether the item was refused |
| MpscRingbuf.MpscRingbuf.InSetsReady | lib/data_struct/src/mpsc_ringbuf.c:165 | raising the flag in the array publishes the slot |
| MpscRingbuf.MpscRingbuf.OutLoadsWrite | lib/data_struct/src/mpsc_ringbuf.c:177-178 | the emptiness test is the protocol step |
| MpscRingbuf.MpscRingbuf.OutReads | lib/data_struct/src/mpsc_ringbuf.c:54-70 | each byte read from the flat buffer is the read step of the protocol |
| MpscRingbuf.MpscRingbuf.OutStoresRead | lib/data_struct/src/mpsc_ringbuf.c:185-186 | the store releases the slot and returns the item |
| RingSlots.RowsUpdate | lib/data_struct/src/mpsc_ringbuf.c:30-46 | writing a byte of a slot of a flat buffer changes that byte of that slot and no other slot |
| RingArithmetic.RoundUpPowerOfTwo | lib/data_struct/include/data_struct/ringbuffer.h:95-105 | for 1 to 2^31 the result is the least power of two not below the argument; 0 and larger arguments give 0 |
| RingArithmetic.WrappedSlot | lib/data_struct/src/ringbuffer.c:64 | a position that wrapped at 2^32 still finds the slot of the true position |
| RingArithmetic.MaskIsRemainder | lib/data_struct/src/ringbuffer.c:64 | for every power-of-two capacity the mask is the remainder by the capacity |
| WorkqueueThreads.StepKeepsInv | lib/async/src/workqueue.c:103-601 | every step of any thread keeps custody of the one worker, list order, flags, claims, fates, calls and wake-ups |
| WorkqueueThreads.RunKeepsInv | lib/async/src/workqueue.c:103-601 | every run from init keeps them |
| WorkqueueSafety.CustodyKept | lib/async/src/workqueue.c:280-409 | there is never more than one of: a live worker, an unconsumed completion, a start before its worker, a stop past its wait |
| WorkqueueSafety.SingleWorker | lib/async/src/workqueue.c:280-340 | so there is at most one worker |
| WorkqueuePromises.OneFate | lib/async/src/workqueue.c:388-397 | each accepted enqueue is pending, claimed or settled, and exactly one of these |
| WorkqueueLife.AcceptsWhatWasBrought | lib/async/src/workqueue.c:433-486 | in every run each accepted work is the one that the linking thread passed to enqueue, or the barrier of its flush, when it last passed the state test, and the queue was RUNNING then |
| WorkqueueLife.EntersOnlyInLife | lib/async/src/workqueue.c:285-296 | no thread gets past the state test of enqueue, flush or stop unless the queue is RUNNING at that step, and past that of start only from IDLE |
| WorkqueueLife.LifeChanges | lib/async/src/workqueue.c:112-121 | the life state goes from IDLE to RUNNING by a start alone, to STOPPING only from RUNNING, by a stop or a failed semaphore, and to IDLE only by the end of a stop or a failed start |
| WorkqueueLife.LinkExact | lib/async/src/workqueue.c:472-484 | at the lock an enqueue is refused, without a change, if and only if an earlier accepted enqueue of the same work is unsettled; otherwise the work goes last with the next ticket |
| WorkqueueLife.CancelExact | lib/async/src/workqueue.c:516-545 | a cancel removes exactly the one entry of the work and frees the work if it is pending, and otherwise changes nothing |
| WorkqueueLife.CancelledNeverRuns | lib/async/src/workqueue.c:540-542 | whatever runs afterwards, the function of a cancelled ticket is never called |
| WorkqueuePromises.FatesAreFinal | lib/async/src/workqueue.c:103-601 | no run changes a fate once given |
| WorkqueuePromises.Conservation | lib/async/src/workqueue.c:433-545 | accepted enqueues = executed + cancelled + discarded + pending + running, in every reachable state |
| WorkqueuePromises.RunsBalance | lib/async/src/workqueue.c:433-545 | so the balance holds after every run |
| WorkqueuePromises.ExecutedOnce | lib/async/src/workqueue.c:155-165 | functions run in enqueue order, exactly once for each executed work and never for a cancelled or discarded one |
| WorkqueueAlone.RoundExecutesAll | lib/async/src/workqueue.c:123-166 | a worker that takes, with nobody else moving, calls every pending function once in the order of the enqueues, and comes to its exit test with the rest as it was |
| WorkqueueAlone.WokenDelivers | lib/async/src/workqueue.c:107-152 | a woken worker of a RUNNING queue does so and sleeps again |
| WorkqueueAlone.EnqueueAloneExact | lib/async/src/workqueue.c:433-490 | left alone, an enqueue is refused and changes nothing if and only if the queue is not RUNNING or the work is unsettled; otherwise the work is last and the semaphore up |
| WorkqueueAlone.FlushAloneExact | lib/async/src/workqueue.c:580-601 | a flush with only a sleeping worker besides returns after every pending function has been called in order |
| WorkqueueAlone.StartAloneExact | lib/async/src/workqueue.c:280-340 | left alone, a start of an idle queue makes it RUNNING with the semaphore down, the completion reset and one worker asleep |
| WorkqueueAlone.StopAloneExact | lib/async/src/workqueue.c:351-413 | a stop with only a sleeping worker besides calls every pending function in order, ends the worker and leaves the queue IDLE |
| WorkqueueAlone.FailedWaitLeaves | lib/async/src/workqueue.c:111-122 | a worker whose semaphore wait fails runs nothing, ends RUNNING and completes the completion |
| WorkqueuePromises.FlagsTellTruth | lib/async/src/workqueue.c:472-487 | a work is PENDING exactly when it stands on the list, once, and RUNNING exactly when the one worker has claimed it |
| WorkqueuePromises.FlushBarrier | lib/async/src/workqueue.c:580-601 | when flush sees its barrier IDLE, all that was pending or running when the barrier was linked has finished, been cancelled or been discarded, whatever ran meanwhile |
| WorkqueuePromises.FlushWaits | lib/async/src/workqueue.c:596-601 | in a run, a poll of flush returns exactly when its barrier has been executed or discarded, and then all that was pending or running when the barrier was linked has its fate |
| WorkqueueStop.StopAccountsForAll | lib/async/src/workqueue.c:388-397 | when stop has cleared the list no worker is left, nothing is pending, and exactly what was pending is discarded |
| WorkqueueStop.StopKeepsAccepted | lib/async/src/workqueue.c:350-409 | while no enqueuer stands between state test and lock, and the worker looks at the list again or nothing is pending, no run to the end of the stop discards an accepted work |
| WorkqueueStop.StopDiscardsExactly | lib/async/src/workqueue.c:144-150 | while stop waits for a worker that is awake or has a post coming, some run discards an accepted work if and only if an enqueuer stands between state test and lock, or something is pending and the worker is past its last look at the list |
| WorkqueueStop.QuietExitKept | lib/async/src/workqueue.c:144-150 | from a worker at or past its exit test with nothing pending and no enqueuer between state test and lock, every run to the end of the stop leaves the list empty and every fate as it is |
| WorkqueueStop.StopDiscardsAccepted | lib/async/src/workqueue.c:439 | a run in which an enqueue returned OK and its work is discarded without running, because both state tests are outside the lock |
| WorkqueueWake.NoLostWakeup | lib/async/src/workqueue.c:303-305 | in every run in which each start ends its drain over an empty list, or with an enqueuer still about to post, no worker ever sleeps over work that nobody is about to announce |
| WorkqueueLife.PendingIsWatched | lib/async/src/workqueue.c:107-152 | in the same runs: RUNNING, no start in progress and work pending imply a live worker that is awake before its last look at the list, or a semaphore that is up, or an enqueuer about to raise it |
| WorkqueueLife.RunIsStaffed | lib/async/src/workqueue.c:107-152 | in every run, a RUNNING queue has a live worker or a start still about to create it, and a worker on its way out has STOPPING |
| WorkqueueWake.DrainExact | lib/async/src/workqueue.c:303-305 | the end of a drain of start leads to a lost wake-up, with no other drain to blame, if and only if work is pending and no enqueuer is about to post |
| WorkqueueWake.SleepsOn | lib/async/src/workqueue.c:107-122 | a lost wake-up stays lost: in every run without a later post the worker stays asleep and no function runs |
| WorkqueueWake.StartSwallowsPost | lib/async/src/workqueue.c:294-305 | a run in which the drain of start swallows a post and the worker sleeps over an accepted work |
| WorkqueueMemory.Workqueue.Enqueue | lib/async/src/workqueue.c:472-487 | the critical section on linked nodes is the protocol's step: an idle work is appended and PENDING, any other refused, list and flags as in the protocol's next state |
| WorkqueueMemory.Workqueue.Take | lib/async/src/workqueue.c:128-141 | the claim is the protocol step: the oldest work leaves the list and is RUNNING, or the list is empty |
| WorkqueueMemory.Workqueue.Cancel | lib/async/src/workqueue.c:519-545 | cancel is the protocol step: a PENDING work is cut out wherever it stands, a running or idle one is reported without a change |
| WorkqueueMemory.Workqueue.Finish | lib/async/src/workqueue.c:160-165 | the write of IDLE after the function is the protocol step |
| WorkqueueMemory.Workqueue.FlushInit | lib/async/src/workqueue.c:591-593 | the barrier initialised on the stack of flush takes the place of the one of an earlier flush |
| WorkqueueMemory.Workqueue.Clear | lib/async/src/workqueue.c:388-397 | the safe iteration, which unlinks the node it stands on, is the protocol step that empties the list and resets every flag |
| CoreList.ListAddTail | lib/data_struct/include/data_struct/corelist.h:59-62 | a node linked at the tail of a well-formed circular list becomes its last |
| CoreList.ListDel | lib/data_struct/include/data_struct/corelist.h:70-75 | unlinking cuts the node out wherever it stands and leaves it a list of its own |
| CoreList.ListEmpty | lib/data_struct/include/data_struct/corelist.h:77-80 | the test on the head alone is true exactly for the empty list |
| CompletionProtocol.OneShot | lib/sync/src/completion.c:69-204 | on both backends and in every reachable state: successful dones lead taken ones by 0 or 1, waits return only OK or a timeout, a blocked waiter has a token exactly when a done stands, and no token outlives a wait |
| CompletionCalls.NoWaitNeverBlocks | lib/sync/src/completion.c:98-99 | under every interleaving with dones, a wait with timeout 0 never announces itself and never blocks |
| CompletionCalls.WaitTakesStandingDone | lib/sync/src/completion.c:81-93 | a wait that finds a done standing takes it and returns OM_OK, with or without a timeout |
| CompletionCalls.WaitNotWaiting | lib/sync/src/completion.c:98-99 | without a done, a wait with timeout 0 returns OM_ERROR_TIMEOUT and changes nothing |
| CompletionCalls.BlockedWaitIsDone | lib/sync/src/completion.c:145-155 | a blocked wait returns OM_OK after a done and leaves no status, token or registration behind |
| CompletionCalls.BlockedWaitTimesOut | lib/sync/src/completion.c:157-168 | and OM_ERROR_TIMEOUT at the end of its time, with nothing left behind either |
| CompletionCalls.DoneExact | lib/sync/src/completion.c:171-204 | a done is refused if one stands and succeeds otherwise, and gives a token only to a waiter that has announced itself |
| CompletionCalls.SecondWaiterIsRefused | lib/sync/src/completion.c:95-96 | a wait that finds another waiter returns OM_ERROR_BUSY and leaves that waiter alone |
| CompletionCalls.OvertakenWaiterIsRefused | lib/sync/src/completion.c:107-120 | a wait overtaken after its load returns OM_ERROR_BUSY when another waiter is there, and OM_ERROR when another took the done it had met |
| CompletionCalls.UnexpectedStatusIsReset | lib/sync/src/completion.c:133-134 | a waiter that meets any other status resets it and returns OM_ERROR |
| CompletionProtocol.StepRefines | lib/sync/src/completion.c:69-204 | each step is a step of an abstract one-shot: a done stands or is refused, a wait takes a standing done, nothing else changes it |
| CompletionProtocol.RunKeepsInv | lib/sync/src/completion.c:69-204 | every run without preempted dones keeps status, tokens, places and counts consistent |
| CompletionProtocol.TimeoutOnlyWithoutDone | lib/sync/src/completion.c:152-168 | a wait times out only if no done stands at its last look |
| CompletionProtocol.BlockedWaiterWakes | platform/sync/freertos/completion_accel_cas_tn.c:133-142 | a blocked waiter for whom a done stands returns OK in its next steps, on either backend |
| CompletionProtocol.StaleToken | lib/sync/src/completion.c:190-196 | on both backends, a done preempted between its swap and its post, or with the thread handle already loaded, lets two waits succeed on it |
| CompletionProtocol.DoneLost | lib/sync/src/completion.c:190-200 | a done that loses to the swap from WAIT to WAITING returns OM_ERROR and leaves the waiter blocked |
| CompletionPreempted.FirstSwapInOrder | lib/sync/src/completion.c:178-189 | the first swap is the whole done, a refusal, or leaves everything as the waiter saw it |
| CompletionPreempted.SecondSwapExact | lib/sync/src/completion.c:190-200 | the second swap makes the done exactly when the status is as seen; otherwise the return code tells whether another done stands |
| CompletionPreempted.WaiterKeepsPosting | lib/sync/src/completion.c:69-169 | while a post is outstanding each step of the waiter, and the load of the thread handle, leaves the done standing or overtaken |
| CompletionPreempted.LatePostExact | lib/sync/src/completion.c:190-196 | a late post or notification keeps status, tokens and count in order exactly when the done still stands, the waiter is still to drain, or no handle was found; otherwise its token is left over |
| CompletionPreempted.LatePostHarms | lib/sync/src/completion.c:187-197 | after a late post the waiter left alone can succeed on a done nobody has made if and only if the post was not in time |
| CompletionPreempted.OneShotPreempted | lib/sync/src/completion.c:69-204 | in every run in which each post is in time, dones preempted anywhere keep the one-shot promises; OM_ERROR is added, and a token may still be outstanding |
| CompletionPreempted.RunKeepsOrdered | lib/sync/src/completion.c:69-204 | every such run keeps status, tokens, places and counts in order |
| CompletionPreempted.WaiterKeepsOrder | lib/sync/src/completion.c:69-169 | the waiter keeps order even between the two swaps of a done, and takes only a done that stands |
| CompletionMemory.Completion.Phase1 | lib/sync/src/completion.c:80-102 | the loads and swaps on the object are the protocol steps |
| CompletionMemory.Completion.Phase2 | lib/sync/src/completion.c:104-122 | the same for announcing the waiter |
| CompletionMemory.Completion.Phase3 | lib/sync/src/completion.c:124-138 | the same for the swap from WAIT to WAITING |
| CompletionMemory.Completion.Phase4 | lib/sync/src/completion.c:140-150 | the same for the token and the reset of the status |
| CompletionMemory.Completion.AfterTimeout | lib/sync/src/completion.c:152-168 | the same for the timeout path |
| CompletionMemory.Completion.Drain | lib/sync/src/completion.c:28-35 | the drain loop leaves no token |
| CompletionMemory.Completion.DoneFast | lib/sync/src/completion.c:178-184 | the first swap of done is the protocol step |
| CompletionMemory.Completion.DoneSlow | platform/sync/freertos/completion_accel_cas_tn.c:178-205 | the second swap, the post, the load of the thread handle and the notification are protocol steps, one each |
| SpscSafety.Fifo | lib/data_struct/src/ringbuffer.c:78-145 | in every interleaving of any length, across any number of wrap-arounds, what the consumer got is a prefix of what was published, at most a capacity behind |
| SpscCalls.PublishesWhatWasPassed | lib/data_struct/src/ringbuffer.c:78-97 | in every run each step publishes nothing, or a prefix of the items passed to the ringbuf_in in progress, or no more items than ringbuf_update_in was told |
| SpscCalls.ReturnsWhatWasAsked | lib/data_struct/src/ringbuffer.c:118-145 | in every run each step consumes nothing, or no more than the ringbuf_out or ringbuf_update_out in progress asked for; only ringbuf_out_peek shows items without consuming them |
| SpscCalls.InAloneExact | lib/data_struct/src/ringbuffer.c:78-97 | left alone in any reachable state, ringbuf_in appends to the queue as many of the first items of its caller as there is room for |
| SpscCalls.UpdateInAloneExact | lib/data_struct/include/data_struct/ringbuffer.h:83-92 | left alone, ringbuf_update_in publishes as many slots as there is room for, with the bytes its caller left in them |
| SpscCalls.OutAloneExact | lib/data_struct/src/ringbuffer.c:118-145 | left alone, the calls on the way out move as many items as were asked for and are there from the front of the queue; a peek shows the same and changes nothing |
| SpscSafety.StepRefinesFifo | lib/data_struct/src/ringbuffer.c:78-145 | each step appends the published items to a bounded queue, removes the returned ones from its front, or leaves it alone |
| SpscSafety.RunKeepsInv | lib/data_struct/src/ringbuffer.c:78-145 | every run keeps wrapped positions, slots and both threads consistent |
| SpscSafety.LoadReadTakesWhatFits | lib/data_struct/src/ringbuffer.c:84-91 | the load of readPos fixes the copy to exactly what fits at that moment |
| SpscSafety.LoadWriteGivesWhatIsThere | lib/data_struct/src/ringbuffer.c:136-144 | the load of writePos fixes the read, or the skip, to exactly what is there at that moment |
| SpscSafety.UpdateInTakesWhatFits | lib/data_struct/include/data_struct/ringbuffer.h:83-93 | publishing in place takes what the slots hold, as much as fits |
| SpscSafety.WriterAndReaderApart | lib/data_struct/src/ringbuffer.c:58-116 | the slot being written and the slot being read differ |
| SpscSafety.QueriesExact | lib/data_struct/include/data_struct/ringbuffer.h:40-69 | length, free count, full and empty are exact at the second load when the producer asks, at the first when the consumer asks |
| SpscSafety.StoreWriteKeepsInv | lib/data_struct/src/ringbuffer.c:93-95 | publishing appends exactly the copied items |
| SpscSafety.StoreReadKeepsInv | lib/data_struct/src/ringbuffer.c:125-127 | releasing removes exactly the items read |
| Ringbuf.SlotSource | lib/data_struct/src/ringbuffer.c:64-75 | the two-piece copy puts each byte in the slot of its item, whichever piece it is in, and touches no other slot |
| Ringbuf.RowsOverlaid | lib/data_struct/src/ringbuffer.c:58-76 | the copy in lays whole items into the slots from an offset on, going round |
| Ringbuf.RowsBrought | lib/data_struct/src/ringbuffer.c:98-116 | the copy out brings the items of the slots from an offset on, going round |
| Ringbuf.CopyInKeepsInv | lib/data_struct/src/ringbuffer.c:58-95 | copying into the free slots keeps everything stored |
| Ringbuf.Ringbuf.CopyIn | lib/data_struct/src/ringbuffer.c:58-76 | the two memcpy calls on the flat array overlay the slots |
| Ringbuf.Ringbuf.CopyOut | lib/data_struct/src/ringbuffer.c:98-116 | the two memcpy calls out of it bring the items and leave the rest of the destination alone |
| Ringbuf.Ringbuf.In | lib/data_struct/src/ringbuffer.c:78-96 | appends as many items as fit and returns their number |
| Ringbuf.Ringbuf.OutPeek | lib/data_struct/src/ringbuffer.c:130-145 | copies out the oldest items and changes nothing |
| Ringbuf.Ringbuf.Out | lib/data_struct/src/ringbuffer.c:118-128 | removes from the front exactly what it copies out |
| Ringbuf.Ringbuf.UpdateIn | lib/data_struct/include/data_struct/ringbuffer.h:83-93 | publishes what the caller wrote in place |
| Ringbuf.Ringbuf.UpdateOut | lib/data_struct/include/data_struct/ringbuffer.h:71-81 | drops the oldest items |
| Ringbuf.Ringbuf.Queries | lib/data_struct/include/data_struct/ringbuffer.h:40-69 | the four queries agree with the contents |
| SpscRingbuf.ByteIndexInSlot | lib/data_struct/src/ringbuffer.c:58-76 | whichever piece of the copy a byte is in, it lies in the slot of its item |
| SpscRingbuf.SpscRingbuf.InCopies | lib/data_struct/src/ringbuffer.c:74-75 | one byte of the two-piece copy in, with steps of the consumer in between, is the protocol step on the slots |
| SpscRingbuf.SpscRingbuf.OutReads | lib/data_struct/src/ringbuffer.c:114-115 | one byte of the two-piece copy out, with steps of the producer in between, is the protocol step |
| SpscRingbuf.SpscRingbuf.InLoadsRead | lib/data_struct/src/ringbuffer.c:85-89 | the load of readPos and the cut of the count are the protocol step |
| SpscRingbuf.SpscRingbuf.InStoresWrite | lib/data_struct/src/ringbuffer.c:93-95 | the store of writePos is the protocol step |
| SpscRingbuf.SpscRingbuf.OutLoadsWrite | lib/data_struct/src/ringbuffer.c:136-141 | the load of writePos and the cut of the count are the protocol step |
| SpscRingbuf.SpscRingbuf.OutStoresRead | lib/data_struct/src/ringbuffer.c:125-127 | the store of readPos is the protocol step and returns the items |
| LogRing.RunKeepsInv | lib/services/src/log/ring.c:43-86 | in every run: messages offered = emitted + in hand + in the ring + dropped, emission order is acceptance order, and a thread past its drain loop has the doorbell posted if a message is there |
| LogRing.StepKeepsInv | lib/services/src/log/ring.c:43-70 | emptiness test, insert and post in one critical section keep that, even between the load and the store of the consumer |
| LogRing.ThreadDelivers | lib/services/src/log/log_async.c:23-32 | from any reachable state the started thread, left alone, emits every accepted message and only then sleeps |
| LogRing.WarningsAddUp | lib/services/src/log/ring.c:100-133 | below 2^32 drops the reported increments add up to warned_upto, which never exceeds the drops, and two warnings are an interval apart |
| LogRing.WarningIsGiven | lib/services/src/log/ring.c:111-133 | in every run below 2^32 drops: a warning step with no report yet, or the last at least an interval ago, leaves the reported increments equal to the drops; an earlier one reports nothing |
| LogRing.EmitsWhatWasProduced | lib/services/src/log/ring.c:43-58 | what is emitted, in hand and in the ring is, in order, the messages produced while there was room, and the dropped ones are the others |
| LogRing.NewDropsExact | lib/services/src/log/ring.c:111 | the comparison of wrapped counters sees new drops exactly when both have wrapped equally often |
| LogRing.WrapHidesDrops | lib/services/src/log/ring.c:111 | on a ring of any length there is a run after which no further drop is ever reported, whatever happens |
| LogRing.SilentForEver | lib/services/src/log/ring.c:111 | once warned_upto is 2^32 - 1 no run reports anything again |
| LogRing.LogRing.Produce | lib/services/src/log/ring.c:43-58 | the critical section on the instance is the protocol step, wherever the thread is |
| LogRing.LogRing.DropWarn | lib/services/src/log/ring.c:108-133 | warns exactly when there are new drops and the interval has passed, and reports the increment |
| LogRing.LogRing.Drain | lib/services/src/log/ring.c:72-86 | the drain loop empties the ring in order and then warns |
| LogMeaning.DeferredIsDirect | lib/services/src/log/formatter.c:194-421 | for every format of supported conversions and fitting arguments, capturing and formatting later prints exactly what formatting now prints |
| LogMeaning.WordsPrintDirect | lib/services/src/log/formatter.c:322-421 | for every format, unknown conversions and all, the words of its conversions print what its arguments print |
| LogMeaning.UnknownShiftsWords | lib/services/src/log/formatter.c:414-417 | after an unknown conversion, each conversion is given the word of the argument before its own |
| LogMeaning.MissingWordsAreZero | lib/services/src/log/formatter.c:322-421 | conversions beyond the captured words print as if zeros followed |
| LogMeaning.CaptureKeepsValue | lib/services/src/log/msg.c:77-104 | a captured word shows what the argument itself would have shown, on every platform width and either char signedness |
| LogMeaning.CountIsCaptured | lib/services/src/log/msg.c:27-48 | as many words are captured as the pre-scan counts |
| LogMeaning.CountIsNeeded | lib/services/src/log/msg.c:105-109 | capture takes as many arguments as formatting uses exactly when every conversion is supported |
| LogMeaning.DirectAppend | lib/services/src/log/formatter.c:194-292 | a format followed by another prints the one and then the other, the arguments shared out in order |
| LogFormatter.Format | lib/services/src/log/formatter.c:194-292 | the loop writes exactly the formatted text and flushes it |
| LogFormatter.FormatArgs | lib/services/src/log/formatter.c:322-421 | the loop over captured words writes exactly the deferred text and flushes it |
| LogReads.SignedPrinted | lib/services/src/log/formatter.c:231-247 | d and i print the magnitude in base 10 without leading zeros, a minus sign exactly for a negative argument, filled to the width |
| LogReads.UnsignedPrinted | lib/services/src/log/formatter.c:248-258 | u prints base 10, x base 16 in lower case, X in upper case, filled to the width |
| LogReads.PointerPrinted | lib/services/src/log/formatter.c:259-263 | p prints base 16 in lower case, the address cut to the width of long |
| LogReads.FilledReadsBack | lib/services/src/log/formatter.c:126-153 | a field so filled reads back, blanks dropped, as sign and value, with blanks only on the right with the minus flag and only on the left without |
| LogReads.TextPrinted | lib/services/src/log/formatter.c:267-284 | s prints the string, or (null), with blanks on the right with the minus flag and on the left without |
| LogReads.CharacterPrinted | lib/services/src/log/formatter.c:264-266 | c prints the low byte of its argument as one character, whatever the width |
| LogReads.PercentPrinted | lib/services/src/log/formatter.c:228-230 | a second percent sign prints one, whatever stands between |
| LogReads.UnknownPrinted | lib/services/src/log/formatter.c:285-288 | an unknown conversion prints its specification as it stands |
| LogReads.UnfinishedPrinted | lib/services/src/log/formatter.c:213-218 | so does a specification that the end of the format cuts off |
| LogReads.PlainPrinted | lib/services/src/log/formatter.c:196-203 | text without a percent sign prints itself |
| LogReads.LayoutReads | lib/services/src/log/formatter.c:163-188 | the width is the decimal number of all digits of the specification, zeros fill when the first digit is 0 without a minus flag, whatever stands between |
| LogFormatter.CountArgs | lib/services/src/log/msg.c:27-48 | the pre-scan loop counts the argument-taking specifications |
| LogFormatter.LogMsg.Build | lib/services/src/log/msg.c:50-113 | fills the argument buffer with the captured words without overrunning it, or drops the message and counts it, exactly when there are too many |
| LogSpec.SpecNext | lib/services/src/log/formatter.c:158-192 | the loop returns what the whole specification declares: width from all digits, left from any minus, zeros only if the first digit is 0 and no minus stands |
| LogSpec.ParsedMeans | lib/services/src/log/formatter.c:158-192 | a left-to-right scan with one accumulator finds what the whole specification declares |
| LogSpec.LayoutAppend | lib/services/src/log/formatter.c:163-188 | one more character changes that meaning as the branches of the scan do |
| LogNumber.DigitsParseBack | lib/services/src/log/formatter.c:89-114 | the digits of a value parse back to it, in either base |
| LogNumber.DigitCount | lib/services/src/log/formatter.c:89-114 | exactly as many digits as the value needs |
| LogNumber.NoDigitsMissing | lib/services/src/log/formatter.c:95-106 | at least one digit and no leading zero but in 0 |
| LogNumber.DigitsFit | lib/services/src/log/formatter.c:128 | a 64-bit value needs at most 20 decimal or 16 hexadecimal digits, within the 32-byte buffer |
| LogNumber.DigitTables | lib/services/src/log/formatter.c:91-93 | the digit characters are those of the two tables |
| LogNumber.ReversedRemainders | lib/services/src/log/formatter.c:99-113 | the digits come out reversed and the swap loop turns them round |
| LogNumber.FieldLength | lib/services/src/log/formatter.c:129-152 | a field is exactly as wide as asked for, or as its sign and digits need |
| LogNumber.FieldReadsBack | lib/services/src/log/formatter.c:126-153 | whatever the layout, a field read back, blanks dropped, gives the sign and the value |
| LogNumber.FmtUtoa | lib/services/src/log/formatter.c:89-114 | division loop and in-place reversal give the digits of the value |
| LogNumber.ReverseInPlace | lib/services/src/log/formatter.c:107-112 | the swap loop reverses in place |
| LogNumber.FmtNum | lib/services/src/log/formatter.c:126-153 | writes the number in its field: zeros between sign and digits, blanks outside |
| LogWriter.LogBufWriter.Write | lib/services/src/log/formatter.c:50-65 | the text grows by exactly what is written, and every segment sent meanwhile is full |
| LogWriter.LogBufWriter.Flush | lib/services/src/log/formatter.c:36-43 | the segments sent concatenate to the text, the last one neither empty nor longer than the buffer |
| Partition.IsSectorAligned | lib/drivers/src/storage/partition.c:77-110 | for uniform devices and every contiguous region table: true exactly when both window ends are sector boundaries, or the window is empty on a region table |
| Partition.GeomCheck | lib/drivers/src/storage/partition.c:201-225 | an open succeeds exactly for a window inside the device that is so aligned |
| Partition.UnitSizeAt | lib/drivers/src/storage/partition.c:122-146 | the size of the sector that starts at an offset, 0 when none does |
| Partition.TiledExactlyWhenAligned | lib/drivers/src/storage/partition.c:112-180 | the erase units tile the window, with nothing left over, exactly when it is aligned, and then they are the device sectors in between |
| Partition.EraseUnitCount | lib/drivers/src/storage/partition.c:469-491 | the number of units of that tiling |
| Partition.EraseUnitAt | lib/drivers/src/storage/partition.c:156-180 | unit number index and where it starts, or not found past the last |
| Partition.EraseUnitCovering | lib/drivers/src/storage/partition.c:510-546 | the unit that holds a byte; out of range and defensive failure told apart |
| Partition.CoveringNeverInvalid | lib/drivers/src/storage/partition.c:534-545 | on an aligned window the defensive failure never happens |
| Partition.IsUniform | lib/drivers/src/storage/partition.c:548-577 | true exactly when the window is tiled by units of one size |
| Partition.MaxEraseUnit | lib/drivers/src/storage/partition.c:579-604 | the size of the largest unit, 0 when there is none |
| Partition.UnitsErasable | lib/drivers/src/storage/partition.c:112-119 | every unit starts and ends at sector boundaries, so it can be erased on its own |
| Partition.EraseValidate | lib/drivers/src/peripheral/flash/hal_flash.c:85-104 | erasing is let through exactly between sector boundaries inside the device |
| Partition.IsErased | lib/drivers/src/storage/partition.c:606-652 | the answer is right whenever there is one, and there is none only if a chunk cannot be read while all before it is erased |
| FlashGeometry.ValidateRegions | lib/drivers/src/peripheral/flash/hal_flash.c:286-310 | registration accepts a region table exactly when its beginning covers the capacity without gap or overlap |
| FlashGeometry.SectorAt | lib/drivers/src/peripheral/flash/hal_flash.c:21-51 | the sector that holds an address |
| FlashGeometry.IsSectorBoundary | lib/drivers/src/peripheral/flash/hal_flash.c:54-67 | true exactly at sector starts and at the end of the device |
| FlashGeometry.RegionSector | lib/drivers/src/peripheral/flash/hal_flash.c:35-44 | a byte of a region starts a sector exactly when its offset in the region is a multiple of the sector size |
| Crc8.TableIsShift | lib/algorithm/src/protocol/crc.c:32-289 | all 256 entries of the CRC8 table are their index shifted out bit by bit |
| Crc16.TableIsShift | lib/algorithm/src/protocol/crc.c:292-308 | all 256 entries of the CRC16 table are their index shifted out bit by bit |
| Crc8.ByteStepIsFeed | lib/algorithm/src/protocol/crc.c:318-322 | one table step shifts in the eight bits of the byte |
| Crc16.ByteStepIsFeed | lib/algorithm/src/protocol/crc.c:366-370 | one table step shifts in the eight bits of the byte, for CRC16 |
| CrcFrames.GetCrc8 | lib/algorithm/src/protocol/crc.c:315-324 | the table-driven loop gives the bit-by-bit check sum of the message |
| CrcFrames.GetCrc16 | lib/algorithm/src/protocol/crc.c:359-372 | the same for CRC16; a null message gives 0xFFFF |
| Crc8.StartsComplemented | lib/algorithm/src/protocol/crc.c:31 | the CRC8 of a message of at least one byte is what a register that starts at 0 gives once its first 8 bits are complemented |
| Crc16.StartsComplemented | lib/algorithm/src/protocol/crc.c:291 | the CRC16 of a message of at least two bytes is what a register that starts at 0 gives once its first 16 bits are complemented, as FCS-16 is defined |
| CrcFrames.VerifyCrc8 | lib/algorithm/src/protocol/crc.c:331-338 | true exactly for a message of more than two bytes that ends in its check sum |
| CrcFrames.AppendCrc8 | lib/algorithm/src/protocol/crc.c:345-352 | what append leaves verifies, and only the last byte changed; short messages are left alone |
| CrcFrames.VerifyCrc16 | lib/algorithm/src/protocol/crc.c:379-389 | the same as for CRC8, the check sum low byte first |
| CrcFrames.AppendCrc16 | lib/algorithm/src/protocol/crc.c:396-406 | what append leaves verifies, and only the last two bytes changed; short messages are left alone |
| CrcFrames.SealedExactly8 | lib/algorithm/src/protocol/crc.c:331-338 | a message verifies exactly when its own check sum, check byte included, is 0 |
| CrcFrames.SealedExactly16 | lib/algorithm/src/protocol/crc.c:379-389 | the same for CRC16 |
| CrcFrames.Burst8 | lib/algorithm/src/protocol/crc.c:315-324 | any change within 8 consecutive bits of a message of any length changes its CRC8 |
| CrcFrames.Burst16 | lib/algorithm/src/protocol/crc.c:359-372 | any change within 16 consecutive bits changes its CRC16 |
| CrcFrames.OneByteDetected | lib/algorithm/src/protocol/crc.c:331-338 | a verified message with any one byte changed no longer verifies |
| CrcFrames.TwoBytesDetected | lib/algorithm/src/protocol/crc.c:379-389 | a verified message with any two adjacent bytes changed no longer verifies, straddling ones included |
| CrcFrames.LeadingZeroDetected8 | lib/algorithm/src/protocol/crc.c:331-338 | a zero byte put in front of a sealed message is detected by the CRC8 |
| CrcFrames.LeadingZeroDetected16 | lib/algorithm/src/protocol/crc.c:379-389 | and by the CRC16 |
| ShiftRegister.BurstDetected | lib/algorithm/src/protocol/crc.c:315-372 | for every reversible linear register, a change within its width of consecutive bits changes the result |
| ShiftRegister.FeedIsShifts | lib/algorithm/src/protocol/crc.c:318-322 | a few bits act like their word added to the register before it is shifted |
| ShiftRegister.RaisedShifts | lib/algorithm/src/protocol/crc.c:359-372 | what stands n bits up in the register comes down unchanged in n shifts |

## Left out

- MpscTheorems.Fifo: holds below 2^32 reservations only, because the emptiness test compares raw counters; EmptyTestExact says when that test is right, DeliveryEnds what every run comes to, and ItemLostAtWrap shows it go wrong.
- MpscCalls.InSucceeds: stays below 2^32 reservations like Fifo, and so do InRefused, OutFindsFirst and OutFindsNothing.
- CompletionProtocol.OneShot: assumes one waiter, and dones that the waiter cannot preempt, as from an interrupt; OneShotPreempted states what holds otherwise.
- CompletionPreempted.OneShotPreempted: has at most one done in progress at a time, whole or preempted by the waiter; two dones that preempt each other are not modelled.
- WorkqueuePromises.FlushBarrier: relates the state in which the barrier is linked to one in which it is seen idle; that a flush ever returns depends on the scheduler.
- WorkqueueStop.StopDiscardsExactly: leaves out a worker asleep with no post present or due, which only a stop whose post start has swallowed meets and for which StopKeepsAccepted gives the safe direction; both leave out a failing semaphore wait (`workqueue.c:112-121`), after which stop can discard whatever is pending.
- WorkqueueWake.NoLostWakeup: says that an announcement is there, not that the scheduler ever lets the worker see it.
- WorkqueueLife.PendingIsWatched: says the same over runs in which each start drains well, as NoLostWakeup does; StartSwallowsPost shows why.
- WorkqueueAlone.StopAloneExact: begins with the worker asleep, as FlushAloneExact does; StopKeepsAccepted and FlushWaits are about every run.
- The protocol of the workqueue treats its completion as an ideal one-shot event, and models one queue; works of other queues do not interfere.
- LogRing.WarningsAddUp: holds below 2^32 drops, because the comparison of counters is not wrap-safe; NewDropsExact says when it is right.
- LogReads.SignedPrinted: leaves out the smallest long, as DeferredIsDirect does through Fits.
- LogMeaning.DeferredIsDirect: takes the strings behind %s to be the same when captured and when formatted, which the source leaves to its caller.
- LogSpec.SpecNext: reads the width as an unbounded number, so an overflow of `int` by a width of ten digits is not modelled.
- LogFormatter.FormatArgs: negates the smallest long as if it did not overflow; Fits excludes that value from DeferredIsDirect, as the source documents.
- LogFormatter.LogMsg.Build: leaves out module, level and time stamp, which formatting does not read.
- Ringbuf.Ringbuf.In: is the call with no consumer step in between, and so are OutPeek, Out, UpdateIn and UpdateOut; the interleaved form on the same buffer is SpscRingbuf.
- Ringbuf.Ringbuf.constructor: takes a capacity that the rounding, RoundUpPowerOfTwo, has already produced; capacities are divisors of 2^32.
- SpscRingbuf.SpscRingbuf.InCopies: asks for a place that SpscSafety.Inv allows, as every reachable one is; the item count of the copy is at most the capacity.
- WorkqueueMemory.Workqueue.Finish: asks for one clause each of the protocol's invariant, as FlushInit does, which RunKeepsInv gives in every reachable state.
- CrcFrames.GetCrc8: the 16-bit and 32-bit length arguments are unbounded numbers.
- AvlTree.AvlTree.Add: the 16-bit node count, left unset by creation until the first node, is an unbounded number.
- AVL clear, destroy, traversal and element freeing, and the queries and deletions by element.
- Null arguments and interrupt-context checks at the entry of calls, where the call returns an error code at once.
- The workqueue's deinit racing an enqueue, work_wait_idle's sleeping between polls, and the build without an operating system.
- The log build without a log thread, back ends, modules, time stamps and statistics.
- Unknown format conversions for which the caller passes no argument: what capture then reads is undefined; CountIsNeeded says exactly when that happens, and UnknownShiftsWords what is printed when there is one.
- Linear-size queries of the SPSC ring, the pipe, the double buffer and the port layers.
- Partition registry lookup, handles and data path; flash locking, writing and verify-after-erase.
- Memory orderings weaker than sequential consistency.
