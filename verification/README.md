# libdlb in Dafny

A model of the parts of libdlb whose correctness rests on invariants over
unbounded structures or over interleavings, with proofs:

| files | what they model |
|---|---|
| `RbtTree`, `RbtStore`, `RbtInsert`, `RbtCases`, `RbtRemove`, `RbtRemoveCases`, `RbtSwap`, `RbtUnlink`, `Rbt` | the intrusive red-black tree with parent pointers and RBT_FLAG_MODIFIED |
| `RbtIter`, `RbtRange`, `RbtAggregate` | iteration, range queries, and cached subtree summaries |
| `ArenaBlocks`, `ArenaCarving`, `Arena` | the buddy allocator |
| `Ioq`, `IoqWake`, `IoqFd`, `IoqRuns`, `IoqPass`, `IoqTasks` | the IO queue: waits on descriptors, tasks, and the waking of the loop |
| `Runq`, `Waitq`, `WaitqRuns`, `WaitqHook` | the thread pool, and the timers with their wake-up hook |
| `Asock`, `AsockQueue` | the socket multiplexer, alone and on the IO queue |
| `BintLimbs`, `Bint`, `BintShift`, `BintDigits`, `BintDiv` | integers of any size |
| `Primes`, `Hash` | the resizing hash table |
| `Arith`, `Sequences`, `Memory` | powers of two and division; sequences without repetition; the allocator |

How things are represented:

- **Trees.** Nodes are objects with real `left`, `right` and `parent` pointers and
  flags, and the methods rewrite them in place. Ghost trees and zippers
  (`RbtTree.Tree`, `RbtTree.Path`) say what shape the pointers have; `RbtStore.At`
  ties the two together, with every node in one place and no other node in the
  structure. Keys are integers, standing for any total order. Beside each node there
  is a payload of the caller's, a datum and a summary, which no method of the tree
  writes. A summary is the sequence of data below a node; sequences are the free
  monoid, so a result stated for them holds for every associative aggregate. The
  callbacks of a range query are collected in a list, which `RbtAggregate` then works
  off in order.
- **Hash table.** Nodes are objects with a real `next` pointer, relinked in place by
  rehashing, insertion and removal. The buckets are also given as sequences of keys
  (`Hash.Table.chains`), and `Hash.Linked` ties the pointers to them.
- **Arena.** Offsets from the base stand for pointers; headers are 24 bytes and
  sizes are below 2^31, as the shifts on `int` require. The arena's bytes are part of
  the state, so that what an operation does to payloads can be said. `stale` is
  what memory reads as where no header was ever written. A `Free` that takes the tail
  behind the last block for a free block returns false instead of going on.
- **IO queue, pool, timers, sockets.** These are transition systems: a region
  between a lock and its unlock is one step, and so is each unlocked system call
  or event. The kernel's answers and the choice of the next thread are open. A
  theorem about `Reaches` is about every interleaving. Event masks are sets of events.
- **Integers.** A chain of chunks is a sequence of 32-bit components whose length is a
  multiple of four. Zero may carry a negative flag.
- **Allocation.** Integers and hash tables ask `Memory.Allocator`, which grants or refuses
  each request as has been fixed beforehand, in any way. So each operation can say
  how many requests it makes, and that it fails exactly if one of them is refused.

A predicate whose body is written `true == (...)` means its conjunction. In this form
a lemma that concludes the predicate has one obligation instead of one for each
conjunct.

Places where the code does not do what one would expect, each with an input or a run
that shows it and the exact condition:

- `arena_free` may join a block with the unused tail of the arena
  (`Arena.TailHazard`, `Arena.TailHazardExample`); never if the tail is shorter than
  a header (`Arena.ShortTail`). `arena_realloc` inherits this when it moves a block.
- A wait on a descriptor can complete twice if it is for the empty set, or if a
  rewait comes while the wait is being started; and only then (`IoqRuns.PromiseHolds`).
- A socket can be woken by events on which it tries none of its pending operations, so
  that it waits again at once and is woken again: exactly by a hang-up alone if it is
  only accepting or sending, and by an error alone if it is only receiving
  (`Asock.WokenForNothing`, `Asock.WokenForNothingIff`).
- An operation on a socket is never called back, and a descriptor never closed, if
  the socket is closed and at once connected or set to listen again with the operation
  pending (`Asock.ReopenRun`); and only if it is opened again with operations pending
  (`Asock.PromiseHolds`).
- `hash_insert` clears the `next` pointer of the new node before it walks the bucket. A
  node that is in the table already, and not last in its bucket, loses all nodes
  behind it, which stay counted (`Hash.InsertTwice`); `Hash.Table.Insert` says that the
  table is right exactly if that is not the case (`Hash.Safe`), and always for a node
  that is not in the table.
- `mag_add` drops a carry (`Bint.Lost`, `Bint.LostCarryExample`).
- `bint_div` can miss the top bit of the quotient, or lose a carry out of the quotient
  (`BintDiv.TopBitMissedExample`, `BintDiv.LostQuotientExample`). `BintDiv.Exact` says of
  the operands when its result is right, and `BintDiv.Div` that it is right exactly then.
- The comment in `io/waitq.h` says that the wake-up hook runs whenever the earliest
  deadline changes. On removal the code looks at the links of a node that is no
  longer in the tree, and the hook runs exactly if the removed timer was the earliest
  and the root (`WaitqHook.WsetRemove`, `WaitqHook.HookMissed`). The absence of lost
  wake-ups in the IO queue does not depend on it: `Ioq` leaves open whether the hook
  runs on removal.

## Model

| member | source | states |
|---|---|---|
| `RbtTree.PlugInOrder` | src/rbt.c:76-119 | a subtree's nodes stand, in order, between those before and those after its place: what every local change of the tree is measured by |
| `RbtTree.RedBlackPlug` | src/rbt.c:137-199 | a tree is red-black exactly if a subtree and the path above it are, with matching colour and black count |
| `RbtStore.AtLinked` | src/rbt.c:47-119 | in every valid structure child and parent pointers agree and exactly the root has no parent |
| `RbtStore.RotatedAt` | src/rbt.c:76-119 | the six pointer writes of a rotation turn the structure into the rotated tree and keep all other nodes |
| `Rbt.RbTree.FixDownptr` | src/rbt.c:50-61 | the parent's pointer, or the root, now leads to the new child and nothing else changes |
| `Rbt.RbTree.RotateLeft` | src/rbt.c:76-103 | exactly the pointers of a left rotation change |
| `Rbt.RbTree.RotateRight` | src/rbt.c:105-119 | exactly the pointers of a right rotation change |
| `RbtInsert.RedUncle` | src/rbt.c:137-199 | recolouring parent, uncle and grandparent moves the only red-red violation two levels up and keeps order and marks |
| `RbtInsert.InnerNode` | src/rbt.c:137-199 | an inner grandchild turns into an outer one with the same violation |
| `RbtInsert.OuterNode` | src/rbt.c:137-199 | one rotation at the grandparent removes the violation: the tree is red-black with the same order |
| `Rbt.RbTree.RepairAfterInsert` | src/rbt.c:137-199 | from one red-red violation anywhere, a red-black tree with the same in-order sequence |
| `Rbt.RbTree.Insert` | src/rbt.c:201-240 | a new key's node stands at its ordered place and nothing else moved; for a present key the node takes the place of the old one, which is returned; the tree consists of exactly these nodes; all red-black properties, parent links and marks hold |
| `RbtSwap.SwappedRenames` | src/rbt.c:248-291 | the pointer writes of the swap are a renaming of the two nodes, also when they are neighbours |
| `RbtSwap.RenamedInOrder` | src/rbt.c:248-291 | after the swap the two nodes have changed places in the in-order sequence |
| `Rbt.RbTree.SwapWithSuccessor` | src/rbt.c:248-291 | the node stands where its successor stood, with at most one child, and without it the order is as before |
| `RbtRemove.RedSibling` | src/rbt.c:297-420 | a red sibling becomes a black one; the missing black stays at the same node |
| `RbtRemove.BlackFamily` | src/rbt.c:297-420 | an all-black family passes the missing black to the parent |
| `RbtRemove.RedParent` | src/rbt.c:297-420 | a red parent with black sibling and nephews absorbs the missing black |
| `RbtRemove.NearNephew` | src/rbt.c:297-420 | a red near nephew becomes a red far nephew |
| `RbtRemove.FarNephew` | src/rbt.c:297-420 | a red far nephew ends the repair: red-black with the same order |
| `Rbt.RbTree.RepairAfterRemove` | src/rbt.c:297-420 | from one missing black anywhere, a red-black tree with the same in-order sequence |
| `RbtUnlink.UnlinkRed` | src/rbt.c:439-457 | taking out a red node without children breaks nothing |
| `RbtUnlink.UnlinkBlack` | src/rbt.c:439-461 | taking out a black node without children leaves exactly one black missing there |
| `RbtUnlink.UnlinkWithChild` | src/rbt.c:439-451 | a node with one child is black, the child red, and painting it black in the node's place restores everything |
| `Rbt.RbTree.Remove` | src/rbt.c:422-461 | exactly the node is gone, the other nodes keep their order, parent links are consistent, the root is black, no red node has a red child and all paths have the same black count; marks stay sound; and which pointers the removed node is left with |
| `Rbt.RbTree.MarkAncestors` | src/rbt.c:463-469 | the node and all nodes above it are marked, and nothing else changes |
| `RbtTree.MarksPlug` | src/rbt.h:25-26 | sound marks below a fully marked path make the marks of the whole tree sound |
| `RbtUnlink.MarkUpFacts` | src/rbt.c:463-469 | marking a path makes its marks sound whatever changed below, and touches no colour and no order |
| `RbtIter.Find` | src/rbt.c:31-48 | a node with the key if there is one, null exactly if there is none |
| `RbtIter.First` | src/rbt_iter.c:52-60 | the first node of the in-order sequence, with the least key of all nodes, null exactly for the empty tree |
| `RbtIter.Last` | src/rbt_iter.c:62-70 | the last node of the in-order sequence, with the greatest key of all nodes |
| `RbtIter.NodesInOrder` | src/rbt_iter.c:20-70 | the in-order sequence holds exactly the nodes of the tree |
| `RbtIter.Next` | src/rbt_iter.c:20-34 | the node of the tree after this one in order, null at the end, both downwards and up the parent pointers |
| `RbtIter.Prev` | src/rbt_iter.c:36-50 | the node of the tree before this one in order, null at the start |
| `RbtIter.Le` | src/rbt_iter.c:72-92 | the node with the greatest key not above the given one, null exactly if there is none |
| `RbtIter.Ge` | src/rbt_iter.c:94-114 | the node with the least key not below the given one, null exactly if there is none |
| `RbtIter.Lt` | src/rbt_iter.c:116-133 | the node with the greatest key below the given one, null exactly if there is none |
| `RbtIter.Gt` | src/rbt_iter.c:135-152 | the node with the least key above the given one, null exactly if there is none |
| `RbtRange.HeightBound` | src/rbt.c:20-24 | a red-black tree of height h with n nodes has 2^h <= (n+1)^2 |
| `RbtRange.QueryLow` | src/rbt_range.c:19-35 | the callbacks cover exactly the in-range nodes of a subtree that has none after the range, in order, with at most two per level |
| `RbtRange.QueryHigh` | src/rbt_range.c:37-53 | the same for a subtree that has none before the range |
| `RbtRange.QueryOver` | src/rbt_range.c:55-72 | the callbacks cover exactly the in-range nodes, and there are at most 4h - 3 |
| `RbtRange.RangeQuery` | src/rbt_range.c:74-78 | for every contiguous range the callbacks, with subtrees expanded, are exactly the in-range nodes, each once and ascending; at most 4h - 3 callbacks |
| `RbtAggregate.UpdateSubtree` | src/rbt_range.h:43-63 | the subtree's marks are cleared and its root caches the in-order fold of the nodes below it |
| `RbtAggregate.UpdatedMarks` | src/rbt_range.h:43-63 | recomputing summaries keeps the marks sound |
| `RbtAggregate.RangeAggregate` | tests/test_rbt_range.c:49-69 | a range query that uses cached summaries gives the naive fold over the data of the in-range nodes, after any history of inserts, replacements, removals, marked changes and updates, and changes no datum |
| `RbtAggregate.RepData` | src/rbt_range.h:43-63 | the data that a summary stands for are those that the nodes of the subtree hold, in order |
| `RbtAggregate.ChangedInPlace` | src/rbt.h:73-74 | whatever the new datum of a node, marking the way up makes all marks and caches sound again |
| `RbtAggregate.ChangeDatum` | src/rbt.h:73-74 | a datum is changed and the node then marked: the tree is valid, in the same order, and no other datum is written |
| `ArenaBlocks.XorIsBuddy` | src/arena.c:131-138 | flipping bit o of an aligned offset gives the other half of the aligned block of twice the size |
| `ArenaBlocks.FreeRangeInBlock` | src/arena.c:150-176 | with everything coalesced, an aligned free range lies inside one free block |
| `ArenaBlocks.CoalescedUnique` | src/arena.c:140-176 | with nothing allocated there is only one coalesced partition |
| `ArenaBlocks.SplitTiled` | src/arena.c:107-121 | splitting keeps aligned powers of two that tile the arena |
| `ArenaBlocks.SplitCoalesced` | src/arena.c:107-121 | after a split only the two new halves could be joined |
| `ArenaBlocks.JoinTiled` | src/arena.c:163-175 | joining buddies keeps the tiling |
| `ArenaBlocks.JoinCoalesced` | src/arena.c:163-175 | after a join only the new block could be joined further |
| `ArenaCarving.InitialPartition` | src/arena.c:53-81 | the greedy carving tiles all but a tail shorter than 32 bytes, and no two of its blocks can be joined |
| `ArenaCarving.NothingAllocated` | src/arena.c:140-176 | with nothing allocated the partition is exactly the one arena_init built |
| `Arena.EmptyListsNoRoom` | src/arena.c:98-104 | if no list from the required order up has a block, no aligned free range can hold the request |
| `Arena.GrantedRoom` | src/arena.c:84-129 | a request is granted only where an aligned free range existed |
| `Arena.Arena.constructor` | src/arena.c:53-81 | a valid arena with the initial partition |
| `Arena.Arena.RequiredOrder` | src/arena.c:90-96 | the least order whose blocks hold the bytes and a header, or none |
| `Arena.Arena.SplitDown` | src/arena.c:106-121 | a block of the right order, cut from memory that was free; no allocated block or payload changes |
| `Arena.Arena.Alloc` | src/arena.c:84-129 | null if and only if no aligned free range is large enough, and then nothing changed; otherwise the block of least sufficient order is carved from the end of the smallest free block that is large enough, the head of its list, whose other halves stay free; nothing else changes hands, live payloads keep their bytes, and the arena is tiled, listed and coalesced |
| `Arena.FirstIsBest` | src/arena.c:98-104 | the first list that is not empty, from the required order up, holds a free block that no other sufficient one is smaller than |
| `Arena.PiecesSplit` | src/arena.c:107-121 | a split leaves one free half of each order in front of the part still to be split, and nothing changes outside the block |
| `Arena.ExactFit` | src/arena.c:98-128 | a free block of the very order is granted as it is |
| `Arena.Arena.Free` | src/arena.c:140-176 | exactly the block is no longer allocated, live payloads keep their bytes, and the arena is valid again, if and only if it does not run into the tail |
| `Arena.AllocatedApart` | src/arena.c:84-129 | in every state between calls allocated blocks, headers and payloads alike, do not overlap and lie inside the arena |
| `Arena.HitIsHazard` | src/arena.c:153-161 | joining reaches an unwritten tail header only if the tail reads as a free block and everything below it is free |
| `Arena.HazardIsHit` | src/arena.c:153-161 | and in that case it does |
| `Arena.ShortTail` | src/arena.c:156-158 | a tail shorter than a header is never taken for a block |
| `Arena.TailHazardExample` | src/arena.c:156-161 | an arena of 56 bytes in which freeing the only block runs into the tail |
| `Arena.Arena.Realloc` | src/arena.c:178-216 | null if and only if there is no room and the block cannot stay, and then nothing changed; the block stays in place if and only if its order fits or is one larger; otherwise the new one fits, the common prefix of the contents and all other payloads are kept and no other block changes hands; it runs into the tail if and only if it moved and freeing the old block beside the new one does |
| `Arena.HazardOfUsed` | src/arena.c:150-161 | whether freeing a block runs into the tail depends on the allocated blocks only |
| `Arena.PlaceTest` | src/arena.c:198-201 | the test on the sizes that keeps a block in place accepts the least sufficient order and the next one |
| `Arena.Arena.CountFree` | src/arena.c:218-236 | the number of bytes in payloads of free blocks; with nothing allocated, the initial number |
| `IoqWake.WakeKept` | io/ioq_linux.c:22-54 | every step keeps: work the loop will not look at again before it blocks has a byte, a write or a notify on its way |
| `IoqWake.NoLostWakeup` | io/ioq_linux.c:157-191 | in every run, while the loop is blocked with a listed descriptor, a queued job (no background threads) or a timer due before its timeout, a byte is in the pipe or a notify is under way |
| `IoqWake.HookNotifies` | io/ioq_linux.c:51-54 | the wake-up hook of the timers starts a notification whenever it is called |
| `IoqFd.LoopKept` | io/ioq_linux.c:157-240 | every step of the loop keeps flags, list, kernel set and counters in agreement |
| `IoqFd.ClientKept` | io/ioq_linux.c:267-305 | so does every step of a client |
| `IoqRuns.OneCallback` | io/ioq_linux.c:125-305 | in every run: waits equal completions plus the outstanding one; MOD_LIST is set iff the descriptor is on the list, once; a waiting descriptor that nobody is about to look at is registered with the latest requested set |
| `IoqRuns.LoopCanStep` | io/ioq_linux.c:157-252 | the loop always has a next step |
| `IoqRuns.EarlyRewait` | io/ioq_linux.c:267-305 | a run in which a rewait during the start of a wait leads to two completions of one wait |
| `IoqRuns.EmptySetWait` | io/ioq_linux.c:276-281 | a run in which a wait for the empty set leads to two completions |
| `IoqRuns.PromiseHolds` | AsyncIntro.txt:182-184 | completions never outnumber waits if and only if there are no waits for the empty set and no rewaits during the start of a wait |
| `IoqPass.ReadyCompletes` | io/ioq_linux.c:157-240 | over every run: from the return of an event for a descriptor to the end of that pass of dispatch_mods the descriptor has been called back |
| `IoqPass.CancelCompletes` | io/ioq_linux.c:203-239 | over every run: a waiting descriptor that is asked to wait for nothing has been called back when dispatch_mods is next over, unless a rewait for some event comes first |
| `IoqPass.RefusedCompletes` | io/ioq_linux.c:218-240 | over every run: the same after a registration that the kernel refuses |
| `IoqPass.NoCallbackWithoutCause` | io/ioq_linux.c:157-305 | over every run from the start of a wait: without an event, a cancellation or a refusal there is no callback |
| `IoqPass.EventsReachCallback` | io/ioq_linux.c:174-188 | the descriptor then holds exactly the events that epoll_wait returned for it, until its next wait |
| `IoqPass.ErrorMeansRefusal` | io/ioq_linux.c:223-232 | the descriptor holds an error if its registration has been refused since its wait began, and not otherwise |
| `IoqTasks.TasksInOrder` | io/ioq_linux.c:242-252 | over every run tasks are called once each, in the order in which submissions, expired timers and ended waits gave them |
| `IoqTasks.OneTaskEach` | io/ioq_linux.c:203-204 | each completion of a descriptor gives its task to the run queue once |
| `IoqTasks.TimersConserved` | io/waitq.c:39-56 | over every run each added timer leaves once, by expiry or removal, or is still there |
| `IoqTasks.ExpiryGivesTask` | io/waitq.c:92-108 | each expiry gives one task to the run queue |
| `IoqTasks.WakeupUsedUp` | io/ioq_linux.c:35-45 | after intr_ack the loop is not woken again until another byte is written |
| `IoqTasks.OneByteEach` | io/ioq_linux.c:22-54 | between two acknowledgements at most one byte is written, however many notifications there are |
| `Runq.InvKept` | io/runq.c:21-60 | every step of workers, submitters and raisers keeps the pool attended |
| `Runq.PoolAwake` | io/runq.c:162-183 | in every run: while there are jobs each worker will look at the list, has its event raised or is about to; none sleeps once all raisers are done; tasks leave once each, in the order of submission, and none is in the list twice |
| `Runq.EachTaskCalledOnce` | io/runq.c:21-60 | in every run, task by task: submissions are the entries in the list, the calls under way in workers and dispatchers, and the calls that have returned |
| `Runq.EventUsedUp` | io/runq.c:43-60 | a worker that has cleared its event goes to sleep when it finds no more jobs, unless its event has been raised again |
| `Waitq.CompareIsOrder` | io/waitq.c:21-37 | deadline and address are a strict total order |
| `Waitq.DueInFront` | io/waitq.c:39-56 | the due timers are exactly those at the front of the set |
| `Waitq.Waitq.ExpireOne` | io/waitq.c:39-56 | the earliest timer leaves if and only if it is due |
| `Waitq.Waitq.Dispatch` | io/waitq.c:92-108 | if no other thread comes between: without a limit, all timers due at the clock reading and no others go to the run queue, in order of deadline |
| `Waitq.Waitq.NextDeadline` | io/waitq.c:71-90 | the least time to a deadline, zero if one has passed, -1 exactly without timers |
| `Waitq.Waitq.Insert` | io/waitq.c:116-128 | the timer joins the set in order, and the hook is called exactly if it is the earliest |
| `Waitq.InvKept` | io/waitq.c:116-172 | every step keeps each timer in at most one hand and under its current deadline in the set, and no task in the run queue twice |
| `Waitq.OneExecPerWait` | io/waitq.c:150-172 | each wait gives its task to the run queue once, under any mix of expiries, cancels and reschedules from any threads; no timer is taken out before it is due |
| `Waitq.DueLeave` | io/waitq.c:92-108 | with other threads acting between any two steps: a dispatch that ends has given every timer that was waiting and due at its clock reading to the run queue, unless a cancel or a reschedule took it out |
| `Waitq.SubmissionOrder` | io/waitq.c:92-108 | the timers that dispatches give to the run queue between two insertions stand in it in order of deadline and address |
| `WaitqRuns.UnderAskedDeadline` | io/waitq.c:150-172 | in every run a timer waits, or is with the dispatch, only under the deadline last asked for, and the dispatch takes it only when that has passed on its clock |
| `WaitqRuns.DueAsAsked` | io/waitq.c:92-108 | each expiry in the run queue was given there under the deadline last asked for, at a clock reading not before it |
| `WaitqRuns.CancelAnswers` | io/waitq.c:158-164 | a cancelled timer is not waiting any more; its wait is answered by the cancellation and not by an expiry, with the deadline at zero |
| `WaitqRuns.RescheduleHolds` | io/waitq.c:166-172 | a rescheduled timer is not waiting and not given to the run queue until it is added again |
| `WaitqHook.PrevOfRemoved` | src/rbt_iter.c:36-50 | the predecessor search on a removed node gives null exactly if the node kept neither a left child nor a parent |
| `WaitqHook.SmallTree` | io/waitq.c:138-141 | the root of a red-black tree is first only among at most two nodes |
| `WaitqHook.WsetRemove` | io/waitq.c:130-148 | on the tree of pointers: exactly the timer goes, and the hook runs if and only if it was the first and the root; it follows a change of the earliest timer if and only if that timer was the root; with three timers or more it never runs |
| `WaitqHook.HookMissed` | io/waitq.c:138-141 | with deadlines 1, 2 and 3, removing 1 changes the earliest deadline to 2 and the hook does not run |
| `Asock.PendingAfter` | io/asock_posix.c:32-61 | a step adds a pending operation only by starting it and removes one only by calling it back |
| `Asock.WaitKept` | io/asock_posix.c:176-253 | without a new socket while operations are pending: wait_ops is non-zero iff a wait, or its wait_end, is outstanding, and there is only one |
| `Asock.TaskKept` | io/asock_posix.c:32-61 | the dispatch task is on its way iff the dispatch queue is not empty, and only once |
| `Asock.CloseKept` | io/asock_posix.c:288-297 | of a closed socket the descriptor is closed, or exactly one party is going to close it |
| `Asock.OneCallbackEach` | io/asock_posix.c:176-253 | in every run without a new socket while operations are pending: each started operation has been called back once or is pending in one place, the dispatch task is never queued twice, and closes balance opens |
| `Asock.EndedIsCalled` | io/asock_posix.c:176-253 | over every run: an operation with which wait_end has got through, or that is cancelled, or whose wait failed, is called back exactly once without waiting again |
| `Asock.WaitsOn` | io/asock_posix.c:176-253 | over every run: any other stays waiting and is not called back |
| `Asock.CalledUnlessWaiting` | io/asock_posix.c:32-61 | once everything under way is done, exactly the operations still waiting have not been called back |
| `Asock.MaskNotEmpty` | io/asock_posix.c:69-80 | the mask is non-zero if and only if an operation other than the cancellation is pending |
| `Asock.MaskFits` | io/asock_posix.c:69-173 | each event on which a pending operation is tried may be reported, but for writability where only accepting; readable and writable are asked for only if some operation needs them |
| `Asock.WokenForNothingIff` | io/asock_posix.c:98-173 | of the events that may be reported, exactly a hang-up alone for accepting and sending, or an error alone for receiving, lead to no try |
| `Asock.QueueRules` | io/asock_posix.c:176-253 | in every such run, each wait asked of the IO queue is for a non-empty set and is the only one outstanding: the rules under which IoqRuns.OneCallback holds |
| `Asock.ReopenRun` | io/asock_posix.c:255-261 | a run in which a receive is never called back and a descriptor never closed, because the socket was connected again after its close |
| `Asock.PromiseHolds` | io/asock_posix.c:255-261 | one callback for each operation and a close for each descriptor, in every run, if and only if no socket is opened again with operations pending |
| `AsockQueue.QueueKept` | io/ioq_linux.c:125-305 | every step of the queue keeps the socket's count of waits equal to the callbacks the queue owes or has begun, and its requested set equal to what the socket wants or empty |
| `AsockQueue.SockJoined` | io/asock_posix.c:176-253 | so does every step of the socket |
| `AsockQueue.NeverRefused` | io/asock_posix.c:176-253 | in every joint run, whenever the socket calls the queue, the rules of the queue allow the call: nothing outstanding for a wait, no wait being started for a rewait, no empty set |
| `AsockQueue.SocketServed` | io/asock_posix.c:176-253 | in every joint run of a socket and the queue: each operation is called back once or pending in one place; while some is pending exactly one callback is owed or begun, otherwise none; a descriptor at rest is registered with the kernel, for events on which the pending operations can be tried, and for readable and writable only if one of them needs it |
| `AsockQueue.EventIsServed` | io/ioq_linux.c:157-240 | in every joint run: an event for the socket has been handed back when dispatch_mods is over |
| `BintLimbs.NormalUnique` | src/bint.c:22-25 | a number has one normal chain |
| `BintLimbs.LongerIsLarger` | src/bint.c:198-207 | a normal chain with more chunks is the larger number |
| `Bint.Bint.TrimChunks` | src/bint.c:128-143 | a normal chain, a prefix of the old one, with the same value |
| `Bint.Bint.ExtendLength` | src/bint.c:145-162 | room for the bits with the same value, or nothing changed; one request for each missing chunk, and failure exactly if one is refused |
| `Bint.WordBits` | src/bint.c:164-174 | the number of significant bits of a word |
| `Bint.Bint.BitLength` | src/bint.c:696-726 | the number of significant bits of a normal chain; zero for a chain with a zero chunk on top |
| `Bint.CompareChunk` | src/bint.c:110-126 | the sign of the difference of two chunks |
| `Bint.Bint.MagCmp` | src/bint.c:180-208 | the sign of the difference for equal lengths, otherwise the longer chain wins |
| `Bint.CompareNormal` | src/bint.c:180-208 | for normal chains the comparison is that of the values |
| `Bint.AddResult` | src/bint.c:210-262 | the sum, short by exactly the dropped carry |
| `Bint.Bint.CarryThrough` | src/bint.c:242-258 | only the first component past the source is changed, whatever carry comes out of it |
| `Bint.Bint.MagAdd` | src/bint.c:210-262 | the exact sum less `Lost`, normal, also with itself as source; a failed allocation changes nothing; how many chunks it asks for, and that it fails exactly if one is refused |
| `Bint.LostCarryExample` | src/bint.c:251-254 | 2^160 - 1 plus one comes out as zero |
| `Bint.Bint.MagSub` | src/bint.c:267-313 | the exact difference, normal, whether the destination is the larger or the smaller operand |
| `Bint.Bint.DoSubtract` | src/bint.c:315-328 | the exact signed difference of magnitudes, normal, for all lengths; it asks for chunks only if the source is larger, and fails exactly if one is refused |
| `Bint.Bint.Add` | src/bint.c:502-509 | exact for opposite signs; for equal signs the sum less `Lost`; fails exactly if a chunk it needs is refused |
| `Bint.Bint.Sub` | src/bint.c:511-518 | exact for equal signs; for opposite signs the sum of magnitudes less `Lost`; fails exactly if a chunk it needs is refused |
| `BintShift.ShiftLeft` | src/bint.c:907-982 | multiplies by exactly 2^k for every length and k, and how long the chain then is; fails exactly if one of the missing chunks is refused |
| `BintShift.ShiftRight` | src/bint.c:984-1056 | divides by 2^k, rounding down, for every chain, and leaves it normal |
| `BintShift.LeftThenRight` | src/bint.c:907-1056 | left then right by k gives back the very same chain |
| `BintDigits.DigitPush` | src/bint.c:1058-1101 | base times the number plus the digit, exactly; a digit not below the base, or a failed allocation, changes nothing; for a digit below the base it fails exactly if a missing chunk is refused |
| `BintDigits.DigitPop` | src/bint.c:1103-1130 | returns the remainder and leaves the quotient |
| `BintDigits.PushThenPop` | src/bint.c:1058-1130 | pushing digits and popping as many gives them back in reverse and restores the chain |
| `BintDiv.Copy` | src/bint.c:409-435 | the same chain and sign, or nothing changed; fails exactly if a missing chunk is refused |
| `BintDiv.BitSet` | src/bint.c:728-753 | adds 2^pos if that bit was clear, and nothing otherwise; fails exactly if a missing chunk is refused |
| `BintDiv.DivStep` | src/bint.c:592-602 | one round keeps the division equation and the bound on the remainder, or, after a missed top bit, the opposite bound |
| `BintDiv.FirstCompare` | src/bint.c:574-595 | what the first comparison finds, given the chunk that shifting leaves on top |
| `BintDiv.DivideLoop` | src/bint.c:592-602 | dividend = quotient * divisor + remainder, with the remainder below the divisor if and only if the top bit was not missed; if it was, the quotient has all lower bits set |
| `BintDiv.RemainderFits` | src/bint.c:592-602 | the remainder is at most the divisor if and only if the top bit was not missed or the dividend is the divisor shifted to that bit |
| `BintDiv.OppositeSigns` | src/bint.c:604-617 | with opposite signs the result satisfies the division equation if and only if the remainder did not exceed the divisor and the quotient plus one lost no carry |
| `BintDiv.LostOne` | src/bint.c:604-617 | adding one to a quotient loses a carry, worth 2^160, if and only if 2^160 divides the quotient plus one |
| `BintDiv.ExactIff` | src/bint.c:557-635 | what the code computes is the quotient and remainder of the operands if and only if `Exact` holds of them |
| `BintDiv.TopBitMissedExample` | src/bint.c:574-595 | dividing 2^127 + 1 by one misses the top bit and gives 2^127 - 1, remainder 2 |
| `BintDiv.LostQuotientExample` | src/bint.c:604-617 | dividing 2^160 - 1 by minus one gives zero |
| `BintDiv.Div` | src/bint.c:557-635 | status 1 exactly for a zero divisor, -1 exactly if a request for memory was refused, and none is made for operands of up to 126 bits; with status 0, which quotient and remainder come out for all operands and signs, and that they are right if and only if the top bit was not missed (or the dividend is the divisor shifted) and, for opposite signs, 2^160 does not divide the quotient plus one |
| `BintDiv.DivideWrong` | src/bint.c:557-635 | on those operands and equal signs the division gives 2^127 - 1 and 2, which is wrong |
| `Primes.PrimeFrom` | src/hash.c:49-59 | there is no largest prime, so the search for one ends |
| `Primes.IsPrime` | src/hash.c:52-56 | trial division up to the square root decides primality |
| `Primes.TableSize` | src/hash.c:41-59 | the first prime from the least 32 * 2^k that is not below the hint, which is determined by the hint |
| `Hash.Table.MoveNode` | src/hash.c:69-81 | a node is linked in front of its new bucket, and both tables stay linked |
| `Hash.Rehashed` | src/hash.c:69-81 | putting all keys, bucket by bucket, in front of their new buckets files each key once and under its code |
| `Hash.Table.Rehash` | src/hash.c:61-91 | every node is relinked in place into the bucket of its code, in the order of the walk, and none is lost |
| `Hash.Table.CapacityHint` | src/hash.c:37-91 | the same contents, relinked into a table of prime size not below the hint, or nothing changed; one request if the size changes, and failure exactly if it is refused |
| `Hash.Table.Find` | src/hash.c:93-109 | the node of the key exactly if the key is in the map, following the pointers |
| `Hash.Walk` | src/hash.c:138-150 | the nodes of the chain other than that of the key are relinked in reverse in front of the new node, and no other pointer changes |
| `Hash.Table.Insert` | src/hash.c:111-159 | the map with the key set to the new node, less the keys linked behind that node if it was in the table already; the old node, if any, is returned; the result is right if and only if the node was not linked or was last in its bucket, as the table stands after making room; it grows only a full table, to the size for one more, and fails exactly if that is refused |
| `Hash.SafeIff` | src/hash.c:122-122 | clearing the pointer of the new node loses no key if and only if the node is not linked or is last in its bucket |
| `Hash.CountAfter` | src/hash.c:152-154 | the count is right after an insertion if and only if no key was lost |
| `Hash.InsertTwice` | src/hash.c:121-150 | two nodes in one bucket and the first inserted again: the second is not found any more, and the count is two |
| `Hash.Table.Remove` | src/hash.c:161-182 | the map without the key if the node is in the table, relinked past the node, through any shrinking; for a node that is not in it, the map stays; it shrinks a table that is less than a quarter full, to the size for what is left |

## Left out

- `bint_mul` and `bint_expt`: the chunk multiplication drops a carry and the product is not trimmed.
- `bint_compare`, `bint_set`, bitwise operations, string conversion: they would only add easy members.
- The 32-bit limits on bit counts, table sizes, timeouts and tick arithmetic: those counts are unbounded here.
- Arena: which free headers a link or unlink touches is over-approximated by the whole list; the free lists are sequences.
- `bint_div`: swapping the results into variables of the caller; the results are new objects here.
- IO queue: initialisation, destruction, which error a refused registration gives, and memory effects weaker than sequential consistency of the unlocked writes in `ioq_fd_wait`. It is modelled as a transition system on values, so update in place shows only as the steps.
- Thread pool: quit requests and joining.
- Timers: the waiting set is a sorted sequence rather than a tree of nodes with changing keys; the tree itself is proved in `Rbt` and `RbtIter`. The protocol between threads is a transition system on values.
- Sockets: addresses, buffers, error codes and results of the system calls. A wait that `wait_init` has overtaken still ends, with no operation to report; what else the overwritten `ioq_fd` does to the IO queue is not shown.
- Hash: the bucket array is a sequence; a node whose key is changed while it is in the table.
- `Asock.OneCallbackEach`: takes one `wait_end` for each `ioq_fd_wait`; `AsockQueue.SocketServed` proves it with the queue. There the way of the dispatch task through the run queue is still a step of the socket's own.
- Everything for Windows, files, DNS, mailboxes, and the small containers (lists, vectors, string buffers, slabs, circular buffers).
