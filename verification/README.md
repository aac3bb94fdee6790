# RockCoro, modelled in Dafny

RockCoro is a coroutine runtime: worker threads run coroutines from a lock-free job queue,
a timer thread wakes sleeping ones from hierarchical time wheels, and epoch-based reclamation
decides when queue nodes may be used again. This project models those parts and the
containers under them, and proves what they promise.

`dafny verify dfyconfig.toml` checks everything.

## What is where

**Lock-free queue and reclamation.** Step systems: one step per atomic load, store or CAS,
any number of threads, one maintainer, weak CASes that may fail at any time, sequentially
consistent memory. `Ebr` holds enter_epoch, exit_epoch and advance_epoch; `QueueMachine` runs
push_back and pop_front of the queue, with the node allocator and its caches, on top of it.
`QueueInvariant` states the invariant over a history recorded beside the machine,
`QueueProof` and `QueueMemoryProof` show step by step that it is kept, and `QueueSafety` draws
the conclusions about every reachable state. `QueueFlow` is the control flow of a thread and
`QueueCalls` follows whole calls: what each appends, removes and answers, and when the answer
can be that the queue is empty. `QueueProgress` says what a failed CAS means, `QueueAlone` how
soon a thread that runs alone is done, from any reachable state, and `QueueAnswers` what such a
call answers. `QueueReclaim` follows whole calls of exit_epoch and of the allocator, and
`EbrRounds` whole rounds of advance_epoch. `NodeCache` is one thread's cache as an object,
`RetireList` the ring buffer of retired nodes and the loop that releases its front.

**Red-black tree.** `RbTree` is the tree as the code has it: node objects with parent
pointers, one shared mutable sentinel, and every rotation, fix-up and transplant as pointer
writes. `RbShape` holds trees and contexts (a tree with one subtree singled out), `RbMemory`
what it means for memory to hold a tree and what pointer writes do to it, `RbFix` the cases of
the two fix-ups on trees, stated once for both directions, and `RbSearch` the order of keys.
Only the sentinel's parent may be anything; it stays black and its own child on both sides.

**Time wheels.** `TimerWheels` has the wheels and the timer manager as objects, with s slots
per wheel and n wheels, and `TimerList` the intrusive lists behind the slots and the pending
list; a ghost field of each node names the list it is in, so no node is ever in two.
`WheelModel` holds the functions the methods compute, `WheelProof` the firing time, `WheelBags`
conservation and order, and `TimerRun` whole runs in which calls of coroutine_sleep interleave
with the timer thread. `TimerCalls` computes the tick in which each sleeper wakes from the steps
of the run alone. The source uses 60 slots and 3 wheels. Its unit test
(tests/test_timewheel.cpp:69-71) expects an event to fire after exactly its delay. The code
does that if and only if the delay is below 60 ticks (`TimerRun.ExactlyOnTime`); a delay of 60
ticks from the start takes 120 (`TimerRun.SixtyTakesTwice`), and the closed form says how late
any other is.

**Scheduler.** `Scheduler` is a step system of workers, the timer thread and outside threads,
with one step per queue operation, semaphore operation, context switch or write to a
thread-local field; `SchedulerProof` proves ownership and token conservation, and
`SchedulerEffects` where each request takes its caller and in which order jobs and sleepers
come through.

**Containers.** `HeapOrder`, `MinHeap` and `ObjectPool` for the intrusive heap and its pool,
`ChunkedVector` for the chunked vector, `RetireList` for the growing ring buffer.
`Order` says what a comparer must be, `Basics` holds common types.

## Model

| member | source | states |
|---|---|---|
| Ebr.ActiveEpochsAboveGc | src/memory/epoch_based_reclamation.cpp:63-134 | in every reachable state, also mid-round, with late registrations and stale snapshots, an active thread's epoch is above gc_epoch_ and gc_epoch_ is below global_epoch_ |
| Ebr.EpochsNeverDecrease | src/memory/epoch_based_reclamation.cpp:114-134 | gc_epoch_ and global_epoch_ never decrease over a run |
| Ebr.DebugAssertsHold | src/memory/epoch_based_reclamation.cpp:68-89 | enter and exit are never called twice in a row, and min_epoch > 0 when gc_epoch_ is stored |
| Ebr.VisitKeepsInv | src/memory/epoch_based_reclamation.cpp:119-131 | a visit either moves an inactive status forward, which kills every older pending snapshot, or folds the status into the minimum |
| Ebr.NextKeepsInv | src/memory/epoch_based_reclamation.cpp:55-134 | every atomic step of any thread or the maintainer keeps the epoch invariant |
| Ebr.RunKeepsInv | src/memory/epoch_based_reclamation.cpp:55-134 | the epoch invariant holds in every state of every run |
| Ebr.MaintainerNeverStuck | src/memory/epoch_based_reclamation.cpp:114-134 | the maintainer's next step is always possible |
| EbrRounds.RoundResult | src/memory/epoch_based_reclamation.cpp:114-134 | a round that starts at global_epoch_ g ends with gc_epoch_ + 1 the least of g and the epochs of the registered statuses on which its CAS failed |
| EbrRounds.QuietRound | src/memory/epoch_based_reclamation.cpp:114-134 | a round during which no thread is active ends with gc_epoch_ just below the global_epoch_ at its start, so everything retired before it may go |
| EbrRounds.SeenWasLoaded | src/memory/epoch_based_reclamation.cpp:121-126 | what the CAS of a round compares with is what the maintainer loaded from the same slot in its step before |
| EbrRounds.RoundEnds | src/memory/epoch_based_reclamation.cpp:114-134 | a round takes at most five steps and two for each registered thread, whatever the threads do meanwhile |
| EbrRounds.StatusChanges | src/memory/epoch_based_reclamation.cpp:63-131 | a status word changes in three ways only: entering makes it active at the global_epoch_ loaded in this enter_epoch, exiting drops the active bit, and the maintainer moves an inactive one to the global_epoch_ loaded in this round |
| EbrRounds.LocalEpochsNeverDecrease | src/memory/epoch_based_reclamation.cpp:63-95 | no thread's epoch ever goes back over a run |
| QueueMemoryProof.ReleasedBeforeEntry | src/memory/epoch_based_reclamation.cpp:96-113 | the record an exiting thread may release names a node unlinked before any thread now inside an epoch entered it |
| QueueSafety.NextKeepsInv | src/memory/ts_linked_list.h:93-152 | every step of every push, pop, allocation, release or maintainer round keeps the queue invariant |
| QueueSafety.RunKeepsInv | src/memory/ts_linked_list.h:93-152 | the queue invariant holds in every state of every run |
| QueueSafety.NoUseAfterRelease | src/memory/ts_linked_list.h:97-151 | whatever a thread still holds as first, last or next is allocated and not released, so the released_ asserts hold |
| QueueSafety.AssertsHold | src/memory/ts_linked_list.h:112-145 | no node is linked behind itself, and retire is called inside an epoch only |
| QueueSafety.ThreadNeverStuck | src/memory/ts_linked_list.h:93-152 | a thread in the middle of a call can always make its next step |
| QueueSafety.ListIsUnique | src/memory/ts_linked_list.h:48-60 | memory determines the contents of the queue |
| QueueSafety.FifoOrder | src/memory/ts_linked_list.h:93-152 | the list from head_ holds a sequence exactly when the values removed so far followed by it are the values appended so far, in order |
| QueueSafety.TailNearEnd | src/memory/ts_linked_list.h:104-151 | tail_ points into the list from head_, to its last or second last node |
| QueueSafety.EmptyAnswerIsTrue | src/memory/ts_linked_list.h:102-108 | the read of next_ that decides on the empty answer happens in a state in which the queue is empty |
| QueueCalls.EmptyAnswerGoesBack | src/memory/ts_linked_list.h:93-126 | whenever a call of pop_front answers null, the queue was empty at a moment between that call and its answer |
| QueueCalls.CoveredPopsSucceed | src/memory/ts_linked_list.h:93-126 | when every pop is called after a push of its own has linked, no pop_front ever answers null, however the steps interleave |
| QueueFlow.StepLeads | src/memory/ts_linked_list.h:93-152 | where each step of a call leads, whatever memory holds |
| QueueCalls.CallsTakeEffectOnce | src/memory/ts_linked_list.h:93-152 | each push appends its argument once and each answer of a pop is a value its own head CAS removed once |
| QueueProgress.FailedPopWasOvertaken | src/memory/ts_linked_list.h:98-124 | when an attempt's head CAS fails, another pop has removed a value since this attempt loaded head_ |
| QueueProgress.FailedPushWasOvertaken | src/memory/ts_linked_list.h:136-150 | when an attempt's linking CAS fails and not spuriously, another push has appended a value since this attempt read next_ |
| QueueAlone.StepPays | src/memory/ts_linked_list.h:93-152 | every step of a thread that nobody disturbs brings it closer to its answer |
| QueueAlone.AloneEnds | src/memory/ts_linked_list.h:93-152 | from any reachable state, wherever the other threads have stopped, a thread that runs alone starts at most two attempts and takes at most 67 steps per record it has retired and 170 more |
| QueueAlone.CanFinishAlone | src/memory/ts_linked_list.h:93-152 | every run goes on to one in which thread t has finished its call and nobody else has moved |
| QueueAnswers.PopAlone | src/memory/ts_linked_list.h:93-126 | a pop that runs alone from call to answer takes out and returns the first value, and answers null exactly when the queue is empty |
| QueueAnswers.PushAlone | src/memory/ts_linked_list.h:127-152 | a push that runs alone from call to end puts its value behind the others and leaves tail_ at the last node |
| QueueSafety.NodesAreConserved | src/memory/ts_linked_list.cpp:32-69 | every allocated node is at exactly one place: chain, a push's hand, about to be retired, one retire list, one cache |
| QueueSafety.CachesAreLists | src/memory/ts_linked_list.cpp:85-101 | a thread's cache is the list from its head, count_ is its length, and it is below 128 outside allocator calls |
| QueueSafety.ReclaimIsComplete | src/memory/epoch_based_reclamation.cpp:99-102 | retire lists are sorted, so a front above the epoch read means that no record in the list is at or below it |
| QueueReclaim.ReclaimLeavesNone | src/memory/epoch_based_reclamation.cpp:96-102 | in every run, the step that leaves the loop leaves no record at or below the epoch read anywhere in the retire list |
| QueueReclaim.ReclaimTakesPrefix | src/memory/epoch_based_reclamation.cpp:96-102 | from the load of gc_epoch_ to the end of the loop, the records that go are exactly those at or below the epoch read, a front part of the list, and the rest stays as it was |
| QueueReclaim.BatchEmptiesHalf | src/memory/ts_linked_list.cpp:48-69 | batch_release starts at 128 cached nodes and is done when exactly 64 of them are deleted, whatever other threads do meanwhile |
| QueueReclaim.NodesAreReused | src/memory/ts_linked_list.h:130-133 | a push takes the node its thread released last, with its tag raised by one modulo 2^16, and a new node only when its cache is empty |
| NodeCache.NodeCache.Push | src/memory/ts_linked_list.cpp:85-90 | the node becomes the top of the stack |
| NodeCache.NodeCache.Pop | src/memory/ts_linked_list.cpp:92-100 | the top is taken, or nothing when the cache is empty |
| NodeCache.NodeCache.Get | src/memory/ts_linked_list.cpp:32-46 | the last node released, or a new one when there is none; it is marked unreleased and unlinked |
| NodeCache.NodeCache.Release | src/memory/ts_linked_list.cpp:48-57 | the cache stays below 128: reaching it deletes exactly the top 64, and nothing else is lost |
| NodeCache.NodeCache.BatchRelease | src/memory/ts_linked_list.cpp:59-69 | deletes the top 64 nodes, or all when there are fewer |
| RetireList.Deque.EnsureCapacity | src/basic_struct/deque.h:98-121 | growing doubles the capacity or takes what is needed, and unwraps a wrapped buffer without changing the sequence it holds |
| RetireList.Deque.PushBack | src/basic_struct/deque.h:36-42 | appends to the sequence, for any capacity and head |
| RetireList.Deque.Front | src/basic_struct/deque.h:60-64 | the first element of the sequence |
| RetireList.Deque.PopFront | src/basic_struct/deque.h:52-58 | drops the first element of the sequence |
| RetireList.LogicalPush | src/basic_struct/deque.h:36-42 | writing behind the last physical position appends, also when it wraps |
| RetireList.LogicalPop | src/basic_struct/deque.h:52-58 | moving the head, also past the end of the buffer, drops the first element |
| RetireList.Retire | src/memory/epoch_based_reclamation.cpp:104-113 | appending a record with the current epoch keeps the list sorted |
| RetireList.Reclaim | src/memory/epoch_based_reclamation.cpp:96-102 | looking only at the front releases exactly the records at or below the epoch read, in order, and keeps all others |
| RbTree.RBTree.constructor | src/basic_struct/red_black_tree.h:81-92 | an empty tree with a black sentinel that is its own child |
| RbTree.RBTree.LeftRotate | src/basic_struct/red_black_tree.h:102-121 | memory holds the same tree with the subtree rotated left; the sentinel is untouched |
| RbTree.RBTree.RightRotate | src/basic_struct/red_black_tree.h:123-142 | the mirror image |
| RbMemory.Rotate | src/basic_struct/red_black_tree.h:102-142 | the pointer writes of a rotation turn a memory that holds a tree into one that holds the rotated tree, with all parent links right |
| RbMemory.RotateKeys | src/basic_struct/red_black_tree.h:102-142 | rotations keep the keys in order and the set of nodes |
| RbTree.RBTree.Search | src/basic_struct/red_black_tree.h:338-361 | stops at an equivalent key or where one would hang, after at most 2*log2(n+1) steps |
| RbTree.RBTree.Find | src/basic_struct/red_black_tree.h:363-367 | finds a key exactly when an equivalent one is present |
| RbTree.RBTree.Insert | src/basic_struct/red_black_tree.h:146-177 | keeps all invariants, returns true and adds exactly when no equivalent key is present |
| RbTree.RBTree.InsertPointers | src/basic_struct/red_black_tree.h:162-174 | the new node hangs as a red leaf where the search fell off |
| RbTree.RBTree.FixInsert | src/basic_struct/red_black_tree.h:181-221 | from a tree with at most a red-red edge at z to a red-black tree with the same keys and nodes; the loop ends because z rises |
| RbFix.RecoloredOk | src/basic_struct/red_black_tree.h:187-191 | the red-uncle case moves the only possible violation two levels up |
| RbFix.InnerOk | src/basic_struct/red_black_tree.h:193-196 | the inner case becomes the outer one at the same depth |
| RbFix.OuterOk | src/basic_struct/red_black_tree.h:197-199 | the outer case ends with a black parent |
| RbFix.InsertDone | src/basic_struct/red_black_tree.h:220-221 | blackening the root completes the tree |
| RbTree.RBTree.Erase | src/basic_struct/red_black_tree.h:225-233 | keeps all invariants, returns true exactly when an equivalent key is present, and removes just that key |
| RbTree.RBTree.DeleteNode | src/basic_struct/red_black_tree.h:237-272 | takes exactly z and its key out and leaves a red-black tree |
| RbTree.RBTree.UnlinkTwo | src/basic_struct/red_black_tree.h:250-266 | with two children: y takes z's place, and the fix-up starts from the right node with the right parent, which may be the sentinel |
| RbTree.RBTree.Transplant | src/basic_struct/red_black_tree.h:400-410 | exactly the two writes of transplant, the parent of the sentinel included |
| RbMemory.SpliceOut | src/basic_struct/red_black_tree.h:242-247 | transplanting an only child takes its parent out of the tree in memory |
| RbMemory.TakePlace | src/basic_struct/red_black_tree.h:262-266 | once y carries z's right subtree, the last writes put it in z's place |
| RbFix.SuccessorOk | src/basic_struct/red_black_tree.h:249-269 | moving the successor leaves a red-black tree, or one black node too few exactly on the paths through x |
| RbFix.SuccessorTakesOut | src/basic_struct/red_black_tree.h:249-266 | moving the successor removes just z's node and key |
| RbTree.RBTree.FixDelete | src/basic_struct/red_black_tree.h:276-334 | from one black node too few on the paths through x to a red-black tree with the same keys and nodes; the loop ends by an explicit rank |
| RbFix.SiblingIsReal | src/basic_struct/red_black_tree.h:280-306 | the sibling w is never the sentinel, so no rotation pivots on it |
| RbFix.RedSiblingOk | src/basic_struct/red_black_tree.h:282-287 | the red-sibling case leads to a black sibling below a red parent |
| RbFix.BothBlackOk | src/basic_struct/red_black_tree.h:289-291 | the missing black node moves up one level |
| RbFix.NearRedOk | src/basic_struct/red_black_tree.h:293-298 | after the rotation at the sibling the far child is red |
| RbFix.FarRedOk | src/basic_struct/red_black_tree.h:299-303 | the last rotation completes the tree |
| RbFix.DeleteDone | src/basic_struct/red_black_tree.h:333-334 | blackening x completes the tree |
| RbTree.RBTree.LeftMost | src/basic_struct/red_black_tree.h:369-375 | the node without a left child at the end of the left spine, in fewer steps than the subtree is high |
| RbTree.RBTree.RightMost | src/basic_struct/red_black_tree.h:377-383 | the mirror image |
| RbTree.RBTree.Minimum | src/basic_struct/red_black_tree.h:385-390 | nothing exactly for the empty set, otherwise the member before all others |
| RbTree.RBTree.Maximum | src/basic_struct/red_black_tree.h:392-397 | nothing exactly for the empty set, otherwise the member after all others |
| RbSearch.NotFound | src/basic_struct/red_black_tree.h:344-361 | a search that falls off has ruled out every key |
| RbSearch.Added | src/basic_struct/red_black_tree.h:169-174 | a key put where its search fell off keeps the order and adds just that key |
| RbSearch.Dropped | src/basic_struct/red_black_tree.h:225-233 | dropping the key found keeps the order and removes exactly the equivalent keys |
| RbShape.HeightIsLogarithmic | src/basic_struct/red_black_tree.h:181-334 | a red-black tree with a black root and n keys has height at most 2*log2(n+1) |
| TimerList.LinkedList.PushBack | src/timer/timewheel.cpp:31-41 | appends a node that is in no list, whatever its stale next pointer says; every list of the timer stays well formed |
| TimerList.LinkedList.PopFront | src/timer/timewheel.cpp:19-30 | the first node leaves and is in no list then, or nothing when empty; every list of the timer stays well formed |
| TimerList.NodeInOneList | src/timer/timewheel.h:14-20 | a node is in at most one of all the lists, and at one position |
| TimerWheels.TimeWheel.AddEvent | src/timer/timewheel.cpp:43-51 | throws exactly for delays of a revolution and more, otherwise puts the event into its slot and changes no other wheel |
| TimerWheels.TimeWheel.HandAllDown | src/timer/timewheel.cpp:55-61 | the current slot empties into the wheel below, which never throws |
| TimerWheels.TimeWheel.HandOver | src/timer/timewheel.cpp:62-66 | the lowest wheel hands over the nodes of its current slot, in order, empties it, and leaves them in no list |
| TimerWheels.TimeWheel.Step | src/timer/timewheel.cpp:67-69 | the slot index moves on by one and starts again after the last |
| TimerWheels.TimeWheel.Tick | src/timer/timewheel.cpp:53-74 | all wheels change as Tick of WheelModel says, the lowest hands over exactly the nodes of its current slot, and nothing throws |
| TimerWheels.TimerManager.Init | src/timer/timewheel.cpp:80-93 | links the wheels, with intervals s^k |
| TimerWheels.TimerManager.AddEvent | src/timer/timewheel.cpp:135-139 | the node of a coroutine that is in no list joins the end of the pending list, and that list only, standing for this call with its delay; every list stays well formed and no wheel changes |
| TimerWheels.TimerManager.PopPending | src/timer/timewheel.cpp:166-172 | the first pending node leaves for no list at all, or nothing when none is pending; no wheel changes |
| TimerWheels.TimerManager.ChooseWheel | src/timer/timewheel.cpp:143-153 | the division loop computes Level, the least wheel on which the delay fits |
| TimerWheels.TimerManager.InternalAddEvent | src/timer/timewheel.cpp:141-157 | throws exactly for delays of s^n and more, otherwise the event enters the wheel Level chooses |
| TimerWheels.TimerManager.Round | src/timer/timewheel.cpp:109-116 | all pending events in order, then one tick |
| TimerRun.RoundIsARun | src/timer/timewheel.cpp:109-116 | what Round computes is a run of the steps of TimerRun |
| WheelModel.LoweredFits | src/timer/timewheel.cpp:57-60 | what a wheel hands down always fits on the wheel below |
| WheelModel.LevelIsLeast | src/timer/timewheel.cpp:146-152 | the wheel chosen is the first on which the delay fits |
| TimerRun.LevelRange | src/timer/timewheel.cpp:141-157 | it is wheel k with s^k <= d < s^(k+1), or the lowest, and none exactly when d >= s^n |
| WheelProof.FireDirect | src/timer/timewheel.cpp:43-51 | an event added after t ticks has the closed firing time S^k*(t/S^k+1) + S + ... + S^(k-1) + d, or t + d on the lowest wheel |
| WheelProof.FireLower | src/timer/timewheel.cpp:56-61 | handing an event down does not change when it fires |
| WheelProof.CascadeOnTime | src/timer/timewheel.cpp:53-61 | emptying a slot of an upper wheel keeps every event's firing time |
| WheelProof.TickOnTime | src/timer/timewheel.cpp:53-74 | a tick with all the ticks it causes above keeps the odometer and every event's firing time |
| WheelBags.TickHeld | src/timer/timewheel.cpp:53-74 | a tick loses and duplicates no event; the lowest wheel lets go of exactly its current slot |
| WheelBags.CascadeInOrder | src/timer/timewheel.cpp:53-61 | each lower slot receives its events behind those it has, in the order they had, and no other wheel changes |
| TimerRun.NextKeepsInv | src/timer/timewheel.cpp:104-172 | every call, takeover and tick keeps the timer invariant |
| TimerRun.RunKeepsInv | src/timer/timewheel.cpp:104-172 | the timer invariant holds in every state of every run |
| TimerRun.NeverThrows | src/timer/timewheel.cpp:141-157 | no pending event makes internal_add_event throw |
| TimerRun.Odometer | src/timer/timewheel.cpp:67-73 | after t ticks wheel k points at slot (t / s^k) mod s |
| TimerRun.FiresExactlyOnce | src/timer/timewheel.cpp:53-74 | a call taken over has fired exactly once if its tick has passed, not at all before, and always in exactly that tick |
| TimerCalls.RunMatches | src/timer/timewheel.cpp:104-139 | the delays recorded in a state are those of the calls made so far, the ticks are counted, and each takeover is dated by the ticks before it |
| TimerCalls.SleeperWakes | src/timer/timewheel.cpp:104-157 | the c-th call of a run, made with delay d and taken over after t ticks, has come out exactly once if its tick has passed and not at all before, and in exactly the tick computed from d and t |
| TimerCalls.NoneLeftBehind | src/timer/timewheel.cpp:109-116 | before each tick the timer thread has found the pending list empty, so every call made before that look has been taken over |
| TimerRun.Lateness | src/timer/timewheel.cpp:43-74 | never early; above the lowest wheel late by more than S + ... + S^(k-1) and by at most S^k more than that |
| TimerRun.SixtySlots | src/timer/timewheel.h:7-9 | the closed form and the bounds 60 and 3660 for 3 wheels of 60 slots |
| TimerRun.ExactlyOnTime | tests/test_timewheel.cpp:69-71 | an event fires after exactly its delay if and only if the delay is below one revolution of the lowest wheel |
| TimerRun.SixtyTakesTwice | tests/test_timewheel.cpp:69-71 | the smallest delay on which it does not: 60 ticks from the start take 120 |
| SchedulerProof.NextKeepsInv | src/scheduler/scheduler.cpp:11-117 | every step of every worker, the timer and outside threads keeps the scheduler invariant |
| SchedulerProof.RunKeepsInv | src/scheduler/scheduler.cpp:11-117 | the scheduler invariant holds in every state of every run |
| SchedulerProof.WorkKeepsPlaces | src/scheduler/scheduler.cpp:11-29 | each coroutine stays in exactly one place: queue, one worker's hands, timer's hands, pending list, wheels, destroyed |
| SchedulerProof.WorkKeepsTokens | src/scheduler/scheduler.cpp:65-78 | queue length stays semaphore value + pushes not posted + tokens owned, also across the yield that neither posts nor waits |
| SchedulerProof.PopFindsAJob | src/scheduler/scheduler.cpp:72-78 | job_pop never returns null |
| SchedulerProof.PopsAreCovered | src/scheduler/scheduler.cpp:65-78 | at every moment of every run the pops begun are at most the pushes done, which is what QueueCalls.CoveredPopsSucceed asks of the queue's callers |
| SchedulerProof.NoLostWakeup | src/scheduler/scheduler.cpp:65-78 | jobs in the queue with all workers blocked mean a push about to post |
| SchedulerProof.RunsOnOneWorker | src/scheduler/scheduler.cpp:96-110 | no two workers execute on, or hold, the same coroutine |
| SchedulerProof.PublishedIsOffStack | src/scheduler/tl_scheduler.cpp:23-46 | what others can see has its context saved, or never started, and no worker executes on it |
| SchedulerProof.SwitchesAreSound | src/scheduler/scheduler.cpp:90-110 | a switch goes to a context that is there and saves into the coroutine whose stack it leaves |
| SchedulerProof.DeletedOffStack | src/scheduler/tl_scheduler.cpp:31-37 | a coroutine is deleted once, from the event loop's stack, when nobody else has it |
| SchedulerProof.OnlyWaitingBlocks | src/scheduler/scheduler.cpp:11-29 | a worker can be stuck at the semaphore only |
| SchedulerEffects.RequestsAreServed | src/scheduler/scheduler.cpp:84-117 | by its next arrival at the loop's head a worker has, for a coroutine that yields, pushed it to the queue once and done nothing else; for one that sleeps, put it on the pending list once and nothing else; for one that returns, deleted it and nothing else |
| SchedulerEffects.WorkerComesRound | src/scheduler/scheduler.cpp:17-27 | wherever a worker stands, after 14 steps of its own it runs a coroutine |
| SchedulerEffects.JobsInOrder | src/scheduler/scheduler.cpp:65-78 | over every run, what was pushed to the queue is what was taken from it followed by what is in it, in order |
| SchedulerEffects.SleepersComeThrough | src/timer/timewheel.cpp:104-172 | sleepers go through the pending list in order, each into a wheel, and each that comes out is pushed to the queue; no stage loses or adds one |
| HeapOrder.UpRound | src/basic_struct/min_heap.h:88-97 | one swap upwards moves the only possible violation to the parent |
| HeapOrder.DownRound | src/basic_struct/min_heap.h:99-119 | one swap with the least child moves the only possible violation down and keeps the starting place repairable |
| HeapOrder.AfterChange | src/basic_struct/min_heap.h:52-62 | a heap with one key changed in any way is a heap but for that key |
| HeapOrder.RootIsLeast | src/basic_struct/min_heap.h:27-31 | no key is less than the root's |
| MinHeap.IntrusiveHeap.Push | src/basic_struct/min_heap.h:33-40 | keeps heap order and positions and adds the node |
| MinHeap.IntrusiveHeap.Top | src/basic_struct/min_heap.h:27-31 | a member no other is less than |
| MinHeap.IntrusiveHeap.PopLeast | src/basic_struct/min_heap.h:43-49 | takes a least member out and keeps the others |
| MinHeap.IntrusiveHeap.Update | src/basic_struct/min_heap.h:52-62 | from a heap but for x's key to a heap with the same members and right positions |
| MinHeap.IntrusiveHeap.RemoveAt | src/basic_struct/min_heap.h:121-138 | for any index: takes that node out, sets its index to -1, and restores heap order |
| MinHeap.IntrusiveHeap.SiftUp | src/basic_struct/min_heap.h:88-97 | from a heap but for one key being less than its parent to a heap |
| MinHeap.IntrusiveHeap.SiftDown | src/basic_struct/min_heap.h:99-119 | from a heap but for one key to one where that place can only be less than its parent, and to a heap if it was not less at the start |
| MinHeap.Drain | src/basic_struct/min_heap.h:43-49 | popping to the end yields all members, each once, in order |
| ObjectPool.Pool.constructor | src/basic_struct/object_pool.h:10-23 | as many whole blocks as the capacity needs, all slots free |
| ObjectPool.Pool.Acquire | src/basic_struct/object_pool.h:31-39 | never hands out a live slot, hands out the one freed last, and grows exactly when none is free |
| ObjectPool.Pool.Release | src/basic_struct/object_pool.h:40-43 | the slot becomes free again, once |
| ObjectPool.Pool.CapacityIsSlots | src/basic_struct/object_pool.h:45-49 | free and live slots, disjoint and without duplicates, together number capacity() |
| ObjectPool.PooledHeap.Emplace | src/basic_struct/min_heap.h:150-157 | the new node takes no live slot; the heap's members are the live slots |
| ObjectPool.PooledHeap.Pop | src/basic_struct/min_heap.h:159-162 | a least member leaves the heap and its slot becomes free |
| ChunkedVector.AllButLastFull | src/basic_struct/chunked_vector.h:21-27 | all blocks but the last are full and the last is not empty |
| ChunkedVector.ChunkedVector.At | src/basic_struct/chunked_vector.h:265-270 | element k of the flat sequence, for every block size |
| ChunkedVector.ChunkedVector.PushBack | src/basic_struct/chunked_vector.h:342-347 | appends to the flat sequence |
| ChunkedVector.ChunkedVector.PopBack | src/basic_struct/chunked_vector.h:363-374 | drops the last element, nothing from an empty vector |
| ChunkedVector.ChunkedVector.Resize | src/basic_struct/chunked_vector.h:387-449 | truncation or padding with the value, and the blocks stay exactly those needed |

## Left out

- Weak memory orders: all atomics are sequentially consistent; weak CASes may fail at any time.
- Shutdown: the destroy functions, static destructors and running_ going false are outside the steady-state protocol modelled here.
- The first calls of TSLinkedList::init racing with each other: the queue starts after its one call of init, as Scheduler::init makes it.
- Epoch wrap-around at 2^63 and the limit of 1024 threads: epochs are natural numbers and the number of threads is arbitrary.
- Addresses and tags: a tagged pointer is an address and a tag below 2^16; safety does not rest on the tag.
- Loads of the released_ flag take no step of their own: QueueSafety.NoUseAfterRelease shows they always read false.
- The queue, its threads and the scheduler are step systems over values rather than classes with methods, because what matters is how steps of different threads interleave; NodeCache and RetireList give the thread-local parts as objects.
- The retire lists of the step system are plain sequences; that the ring buffer behaves like one, growth included, is shown in RetireList.
- The queue as the scheduler uses it is atomic in Scheduler: each push or pop is one step. That a pop of many steps answers no more often with null is shown on both sides of that line, by SchedulerProof.PopsAreCovered for the callers and QueueCalls.CoveredPopsSucceed for the queue; the two machines are not put together into one.
- Context switches are single steps; the assembly, stack mapping and guard page are machine level.
- Fairness between threads, and a coroutine that never returns, sleeps or yields: what is stated of progress is that no thread is stuck, that calls, rounds and trips round the loop end within bounds in their own steps, and that a CAS fails only against another thread's success.
- The spin lock of the pending list: adding and taking over one event are single steps of TimerRun.
- Delays: natural numbers; a negative delay, which the source does not check, is not modelled.
- Integer widths: indices, counts, delays and intervals are unbounded; 60^3 and all heap and vector sizes in question fit the source's types.
- The base interval of 1 ms: TIMEWHEEL_INTERVAL_MS is 1, so one tick is one millisecond.
- RBTree.destroy and printTree: no property of the set.
- Copies of elements, constructors and destructors of T in the containers; reserve and shrink_to_fit; chunked vector iterators, at, front, back and clear: easy members.
- Array, Vector, LinkedList, Queue, logging, thread ids.
