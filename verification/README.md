# Verification of the CS4414 systems programs

This project models the concurrent and pointer-based programs of the repository and proves, for
all inputs and all interleavings, what they are for, or exactly when they fail to do it.

| area | modules |
|---|---|
| priority threads, Asmt_4/uthread.c | `PriorityRing` (sorted sequence and index), `UThreadRing` (the linked circle refines it) |
| mutex on top of them, Asmt_4/uthread.c | `PriorityLock` (sorted wait queue), `WaitQueue` (the linked records refine it), `SpinLock` (scheduler and mutex together) |
| dining philosophers | `Philosophers`, `Starvation`, `StrongFairness` |
| H2O rendezvous | `Water` |
| bounded buffer with semaphores | `BoundedBuffer` |
| file recovery, Asmt_6/recover.c | `BlockMap` (what a file contains), `Recovery` (the copying code), `Losses` (what it loses, and when), `InodeScan` (the search) |
| list and round-robin threads, Asmt_3 | `LinkedQueue`, `RoundRobin` |
| shared | `Sorting` (`qsort` as its callers may use it), `Tally` (sums over threads), `Basics` |

Run `dafny verify dfyconfig.toml` in this directory.

## How the programs are modelled

Pointer code is heap code: classes with the C fields, `modifies` clauses, the copy and relink loops
with invariants. A ghost sequence gives the abstract value, each method equates the new abstract
value with a function (or, for `qsort`, a relation) of the old one, and the theorems are about those
functions. `qsort` may return equal elements in any order (C11, section 7.22.5.2); its contract
promises an ordered permutation and nothing else.

The protocols are transition systems over any number of threads. One step is one statement, or one
region that holds a mutex and makes no blocking call. Each has a class whose methods execute the
threads' statements on the shared fields and are proved to take exactly a step of the transition
system. A signal wakes at least one parked thread, any one, and a parked thread may wake spuriously.

Calls that leave the behaviour the C standard defines are explicit outcomes, not preconditions:
`uthread_create` after an exit (the counter `live_uthreads` is never decremented, so the sort covers
slots that were never filled), `uthread_exit` before the first create (`head_thread` is NULL), and
the words `unwind_iblock` reads past its buffer, one for each call, which are parameters.

## Where code and documentation differ

The model follows the code.

- Asmt_5/philosophers/REPORT:16 says the program is starvation free. Under weakly fair scheduling
  (nobody stays able to move for long without moving) that holds if and only if there is one
  philosopher (`Starvation.StarvationFreeIff`). Under strongly fair scheduling (whoever is able to
  move again and again moves) it holds if and only if there are at most two
  (`StrongFairness.StronglyStarvationFreeIff`): with three, two can wake each other for ever.
- The mutex is meant to be acquired eventually. A caller can test it beforehand:
  `uthread_mutex_lock` can return if and only if nobody is queued or `locking_thread` is no worse
  than the caller (`SpinLock.LockCanReturnIff`); otherwise it never does, in any run. A state like
  that is five events from the start.
- A thread that locks the mutex it holds gets a second record and returns at once. After one unlock
  another thread may be entitled while it is inside its outer section: `SpinLock.TwoInside` is a run
  with two threads between lock and unlock, `PriorityLock.NestedUnlock` says when it happens; among
  threads of one priority the sort decides.
- Asmt_6/recover.h:53-54 says either owner id may match; the search needs both.
- Asmt_6/recover.h:84-87 says empty pointers are zero and an indirect block without pointers is
  reported. Zero counts as block 0, so the report is made only when all 256 words are block numbers
  and the word past the buffer happens to be zero; then the block's data is lost. Up to the first
  lost block the output is right (`Losses.AgreesBeforeLoss`); `Losses.CompletesIff` says when the
  program exits or falls short, and two images that contain the inode show it.
- Asmt_5/prodcon/prodcon_sem.cpp:159 allocates `bufferlen` characters; the head moves before it
  writes, so slot `bufferlen` is used. `BoundedBuffer.AccessInRange` says exactly when, and
  `BoundedBuffer.LastSlotReached` gives a run for every length.
- Asmt_3/list_t.h:29 asks for a sorted list; `list_insert_sorted` sorts any list. For more than two
  items it does not set the second item's `prev`, which `LinkedQueue.List.Retie` states and
  `LinkedQueue.StalePrevReached` shows.

## Model

| member | source | states |
|---|---|---|
| `Sorting.QsortBy` | Asmt_3/list_t.c:69 | the array becomes some permutation of itself, ordered by any consistent comparison |
| `Sorting.Qsort` | Asmt_4/uthread.c:198 | the same for a comparison of integer keys |
| `PriorityRing.YieldWithinClass` | Asmt_4/uthread.c:222-243 | the pointer comparisons of yield mean: the next of the same priority, or the head after the last of a class |
| `PriorityRing.YieldsClosedForm` | Asmt_4/uthread.c:222-243 | which thread runs after any number of yields from any state: the rest of the class, then the top class in rotation |
| `PriorityRing.RoundRobin` | Asmt_4/uthread.c:222-243 | from the top class of size k at index i, m yields lead to (i + m) mod k and never out of the class |
| `PriorityRing.EachOncePerRound` | Asmt_4/uthread.c:222-243 | within k consecutive yields each thread of the top class runs at exactly one moment, given explicitly |
| `PriorityRing.HeadReached` | Asmt_4/uthread.c:231-239 | the head runs again for the first time after exactly (end of class - index + 1) yields |
| `PriorityRing.ScheduledIff` | Asmt_4/uthread.c:222-243 | yields alone ever run a position if and only if it is later in the running class or in the top class, and within the stated delay |
| `PriorityRing.TopIsPrefix` | Asmt_4/uthread.c:200-210 | the threads with the head's priority are exactly an initial segment of the ring |
| `PriorityRing.ExitRunsYieldTarget` | Asmt_4/uthread.c:251-294 | exit hands over to the thread yield would choose, or to the head's successor when the head itself exits |
| `PriorityRing.TopPreservedIff` | Asmt_4/uthread.c:160-309 | a yield, exit or create leaves a top-class thread running unless it creates a thread strictly better than the head, and only then |
| `PriorityRing.CreateSwitchesNobody` | Asmt_4/uthread.c:160-220 | in every run the thread that ran before a create runs after it |
| `PriorityRing.TopClassPersists` | Asmt_4/uthread.c:160-309 | over a whole run, once in the top class always there while no create beats the head |
| `PriorityRing.Conservation` | Asmt_4/uthread.c:160-309 | over a whole run, ring plus exited threads equal initial plus created threads, and live_uthreads counts all ever made |
| `PriorityRing.CreatesPrecedeExits` | Asmt_4/uthread.c:182-198 | no run with defined behaviour creates a thread after one has exited |
| `PriorityRing.UnfilledIff` | Asmt_4/uthread.c:160-309 | over runs from the start, live_uthreads exceeds the ring, so that a create would sort unfilled slots, if and only if a thread has exited |
| `PriorityRing.YieldApproaches` | Asmt_4/uthread.c:222-243 | a yield brings every other thread of the top class exactly one position nearer |
| `PriorityRing.ExitApproaches` | Asmt_4/uthread.c:245-309 | so does an exit, although the class shrinks |
| `UThreadRing.Scheduler.constructor` | Asmt_4/uthread.c:95-158 | the calling thread alone in a closed circle, priority 9 |
| `UThreadRing.Scheduler.CircleInOrder` | Asmt_4/uthread.c:160-309 | in every valid state the circle runs from the head to the tail in order of `pri` and the tail leads back to the head |
| `UThreadRing.Scheduler.CopyRing` | Asmt_4/uthread.c:184-195 | the copy loop collects every thread once, from behind the running one round to it |
| `UThreadRing.Relink` | Asmt_4/uthread.c:203-210 | the retying loop closes the circle in array order |
| `UThreadRing.Scheduler.Create` | Asmt_4/uthread.c:160-220 | adds exactly the new thread, with the next id, to a sorted closed circle, for any legal qsort result; `current_thread` stays what it was; unfilled slots are sorted if and only if live_uthreads exceeds the ring |
| `UThreadRing.Scheduler.Yield` | Asmt_4/uthread.c:222-243 | changes only the running thread, as `PriorityRing.Yield` says |
| `UThreadRing.Scheduler.Exit` | Asmt_4/uthread.c:245-309 | exactly the running thread leaves the circle in all four branches; NULL is dereferenced if and only if nothing was created; the process ends if and only if it was the last thread |
| `UThreadRing.UnfilledSlotsReached` | Asmt_4/uthread.c:182-198 | a create, an exit and a create end with unfilled slots sorted |
| `UThreadRing.NullHeadReached` | Asmt_4/uthread.c:262-270 | an exit before any create dereferences NULL |
| `UThreadRing.SortedArrangement` | Asmt_4/uthread.c:198-210 | any ordered permutation of the old threads and the new one is a legal next ring |
| `PriorityLock.EnqueueValid` | Asmt_4/uthread.c:347-384 | inserting a record keeps the queue sorted and adds exactly that record, also for a thread that has one; with none before, each thread still has at most one |
| `PriorityLock.Handoff` | Asmt_4/uthread.c:406-445 | unlock removes exactly the first of the holder's records wherever it is, keeps the others in order, and entitles a thread of least `pri` among them |
| `PriorityLock.NestedUnlock` | Asmt_4/uthread.c:406-445 | a holder with two records that unlocks once keeps the lock if all others are worse and loses it if one is better |
| `PriorityLock.RecursionBreaksExclusion` | Asmt_4/uthread.c:335-452 | whenever a thread locks twice and one of the same or a better priority asks, the sort may put it first, and one unlock hands the lock over |
| `WaitQueue.Mutex.constructor` | Asmt_4/uthread.c:325-333 | an empty queue |
| `WaitQueue.Mutex.CopyQueue` | Asmt_4/uthread.c:363-370 | the copy loop collects the records in queue order |
| `WaitQueue.Retie` | Asmt_4/uthread.c:375-382 | the retying loop links the records in array order, ending in NULL |
| `WaitQueue.Mutex.Enqueue` | Asmt_4/uthread.c:340-390 | the masked part of lock refines `PriorityLock.Enqueue` on the linked records, for a caller with or without records, and length stays the queue's |
| `WaitQueue.Mutex.Unlink` | Asmt_4/uthread.c:414-441 | the search finds the holder's first record, never takes the not-found exit, and unlinks it |
| `WaitQueue.Mutex.Unlock` | Asmt_4/uthread.c:395-452 | refines `PriorityLock.Unlock`; the record that goes is the holder's first |
| `SpinLock.StepKeepsInv` | Asmt_4/uthread.c:335-452 | every lock, spin test, unlock, yield, exit and create keeps the records, the queue and the holder consistent, and never runs a thread worse than one that spins |
| `SpinLock.MutualExclusion` | Asmt_4/uthread.c:335-452 | in every reachable state at most one thread is between lock and unlock, it is locking_thread, and its record is in the queue |
| `SpinLock.OnlySpins` | Asmt_4/uthread.c:392 | while the top class but for the owner spins and the owner is not scheduled, nothing but the running thread changes |
| `SpinLock.OwnerScheduled` | Asmt_4/uthread.c:392 | a top-class owner, preempted holder or entitled waiter, gets the processor within one round of a class that otherwise spins |
| `SpinLock.TopThreadRuns` | Asmt_4/uthread.c:222-309 | in every run without creates, whatever the others do, a top-class thread runs after exactly as many switches as it is away round the class |
| `SpinLock.PriorityInversion` | Asmt_4/uthread.c:392 | while one thread better than the owner spins, no run ever schedules the owner or moves the lock, whatever the other threads do |
| `SpinLock.LockCanReturnIff` | Asmt_4/uthread.c:335-393 | a call of lock can return, in some run, if and only if nobody is queued or `locking_thread` is no worse than the caller |
| `SpinLock.WaiterCanHold` | Asmt_4/uthread.c:335-452 | with no spinner better than the owner, some run hands the lock on until a given waiter is in its critical section |
| `SpinLock.LockNeverReturns` | Asmt_4/uthread.c:335-393 | with a `locking_thread` strictly worse than the caller, the caller spins in every run, at every moment |
| `SpinLock.OwnerCanRun` | Asmt_4/uthread.c:222-393 | with no better thread spinning, some run schedules the owner |
| `SpinLock.OwnerCanRunIff` | Asmt_4/uthread.c:222-393 | the owner can still be scheduled, in some run, if and only if no better thread spins |
| `SpinLock.SpinLoopEndsIff` | Asmt_4/uthread.c:392 | where the top class but for the owner spins, the loop ends if and only if the owner has the head's priority |
| `SpinLock.InversionReachable` | Asmt_4/uthread.c:335-393 | a concrete run from the start into the state where it never ends |
| `SpinLock.TwoInside` | Asmt_4/uthread.c:335-452 | a run with a recursive lock to a state with two threads between lock and unlock |
| `Philosophers.Dining.constructor` | Asmt_5/philosophers/philosophers.c:200-215 | all chopsticks down; the right chopstick of each philosopher is the left one of the next, of the last that of the first, and from two philosophers on nobody's two are the same |
| `Philosophers.Dining.PickupRight` | Asmt_5/philosophers/philosophers.c:86-92 | raises exactly the right chopstick |
| `Philosophers.Dining.PutdownLeft` | Asmt_5/philosophers/philosophers.c:94-99 | lowers exactly the left chopstick |
| `Philosophers.Dining.Philosopher` | Asmt_5/philosophers/philosophers.c:121-160 | every statement on the arrays and locks is a step and keeps the invariant; whoever is at the meal eats alone with both chopsticks up |
| `Philosophers.ChopsticksByStatement` | Asmt_5/philosophers/philosophers.c:143-152 | in every state of the invariant: which of chopsticks p and p + 1, or 0 for the last, are up at each statement of p, two distinct ones at the meal |
| `Philosophers.StepKeepsInv` | Asmt_5/philosophers/philosophers.c:125-157 | lock owners, moods, chopsticks and "somebody is not stuck" survive every step, lost signals and spurious wake-ups included |
| `Philosophers.StepSomeoneFree` | Asmt_5/philosophers/philosophers.c:133-141 | never are all philosophers between a failed trylock and a wake-up |
| `Philosophers.ChopstickSafety` | Asmt_5/philosophers/philosophers.c:79-153 | in every reachable state at most one eats, at the meal both chopsticks are up, and with the lock free all are down |
| `Philosophers.AlwaysEnabled` | Asmt_5/philosophers/philosophers.c:125-157 | in every reachable state some philosopher can execute its next statement without a spurious wake-up |
| `Philosophers.SomebodyEats` | Asmt_5/philosophers/philosophers.c:125-157 | some philosopher starts a meal within any 18n + 1 consecutive steps of any run: no deadlock, no livelock |
| `Starvation.StarvationRun` | Asmt_5/philosophers/philosophers.c:133-141 | for every n >= 2 and any length, a run in which in the end one philosopher eats every 13 steps and all the others stay hungry, blocked in 11 of them |
| `Starvation.StarvationIsFair` | Asmt_5/philosophers/philosophers.c:133-141 | in that run nobody stays able to move for 19n steps without moving |
| `Starvation.StarvationFreeIff` | Asmt_5/philosophers/REPORT:16 | under weak fairness every philosopher eats within some bound if and only if there is one philosopher |
| `StrongFairness.EatsSoon` | Asmt_5/philosophers/philosophers.c:125-157 | of two philosophers under strong fairness each is at its meal within a bound from any state |
| `StrongFairness.AlternatingRun` | Asmt_5/philosophers/philosophers.c:125-157 | for every n >= 3 and any length, a run in which in the end two philosophers eat in turn and the others stay parked |
| `StrongFairness.AlternatingIsFair` | Asmt_5/philosophers/philosophers.c:125-157 | that run is strongly fair |
| `StrongFairness.StronglyStarvationFreeIff` | Asmt_5/philosophers/REPORT:16 | under strong fairness every philosopher eats within some bound if and only if there are at most two |
| `Water.Rendezvous.H` | Asmt_5/h2o/h2o_sem.cpp:33-57 | every statement of a hydrogen keeps the invariant and the safety bounds; each Water it prints is covered by a molecule under way |
| `Water.Rendezvous.O` | Asmt_5/h2o/h2o_sem.cpp:59-71 | the same for an oxygen |
| `Water.StepKeepsPosts` | Asmt_5/h2o/h2o_sem.cpp:46-66 | each semaphore equals its posts minus its completed waits, through every step |
| `Water.StepKeepsCensus` | Asmt_5/h2o/h2o_sem.cpp:41-44 | num_h splits the counted hydrogens evenly into firsts and seconds |
| `Water.NoOverproduction` | Asmt_5/h2o/h2o_sem.cpp:41-66 | at every moment molecules under way are bounded by oxygen posts and hydrogen pairs, and no atom gets ahead of its molecule |
| `Water.QuiescentCounts` | Asmt_5/h2o/h2o_sem.cpp:33-71 | where nothing is enabled, min(#O, #H / 2) oxygens and twice as many hydrogens have printed Water |
| `Water.EveryRunMakesAllTheWater` | Asmt_5/h2o/h2o_sem.cpp:33-71 | every run of n atoms has at most 6n steps and can only stop with all possible water made |
| `BoundedBuffer.Buffer.InsertItem` | Asmt_5/prodcon/prodcon_sem.cpp:50-56 | pushes the item on the stack of buffered items |
| `BoundedBuffer.Buffer.RemoveItem` | Asmt_5/prodcon/prodcon_sem.cpp:32-46 | pops and returns the latest item |
| `BoundedBuffer.Program.Produce` | Asmt_5/prodcon/prodcon_sem.cpp:74-93 | every statement of a producer is a step and keeps the invariant |
| `BoundedBuffer.Program.Consume` | Asmt_5/prodcon/prodcon_sem.cpp:98-117 | every statement of a consumer is a step and keeps the invariant |
| `BoundedBuffer.StepKeepsInv` | Asmt_5/prodcon/prodcon_sem.cpp:74-113 | tokens, head position and stack discipline survive every step |
| `BoundedBuffer.AccessInRange` | Asmt_5/prodcon/prodcon_sem.cpp:37-53 | every access is to slots 1 to bufferlen, and to the unallocated slot bufferlen exactly when it fills or empties the last place |
| `BoundedBuffer.BufferIsSafe` | Asmt_5/prodcon/prodcon_sem.cpp:74-113 | in every interleaving: tokens sum to bufferlen, removals are last-in first-out, inserted items equal removed items plus buffer contents |
| `BoundedBuffer.NeverStuck` | Asmt_5/prodcon/prodcon_sem.cpp:74-113 | with a producer, a consumer and a slot, some thread is always enabled |
| `BoundedBuffer.ItemMoves` | Asmt_5/prodcon/prodcon_sem.cpp:74-113 | in any run of n threads an item is inserted or removed within the next 2n + 1 steps |
| `BoundedBuffer.LastSlotReached` | Asmt_5/prodcon/prodcon_sem.cpp:159 | for every length there is a run of one producer and one consumer that touches the slot past the allocation |
| `BlockMap.BudgetedIsTruncation` | Asmt_6/recover.c:570-586 | copying pieces under a running budget is joining them all and truncating once |
| `BlockMap.WordIsItsBytes` | Asmt_6/recover.c:598-603 | a word is its four bytes, lowest first, in two's complement |
| `BlockMap.PointersAreLongest` | Asmt_6/recover.c:600-614 | the pointers of a block are its longest prefix of existing block numbers: the word behind them names no block unless all 256 do |
| `BlockMap.FileBlocksInOrder` | Asmt_6/recover.c:114-237 | the blocks of a file: twelve direct ones, the pointers of the three indirect blocks in order, then those of the double-indirect block |
| `BlockMap.ContentAt` | Asmt_6/recover.c:114-237 | byte i of the content is byte i mod 1024 of block i / 1024 of the file, at that place in the image |
| `BlockMap.FirstBytesOfBlock` | Asmt_6/recover.c:520-545 | the bytes copied from a block lie inside the image, from 1024 times its number on |
| `Recovery.Recoverer.CheckInode` | Asmt_6/recover.c:432-472 | returns 0 if and only if all twelve direct, all three indirect, the double- and the triple-indirect block number exist, and -1 otherwise |
| `Recovery.Recoverer.CopyDblock` | Asmt_6/recover.c:520-552 | appends the first min(bytes, 1024) bytes of the block and marks it 1; refuses a negative request with -2 |
| `Recovery.Recoverer.UnwindIblock` | Asmt_6/recover.c:595-615 | the first r words are existing block numbers and word r is none unless r is 256; reports none exactly when the block is full and the word past the buffer is zero; marks the block otherwise |
| `Recovery.Recoverer.CopyI1block` | Asmt_6/recover.c:554-593 | appends the first `bytes` bytes of the joined data blocks and returns how many; leaves 2 at the indirect block, 1 at its data blocks and the other marks alone; on -2 and -3 nothing changes |
| `Recovery.Recoverer.DirectStage` | Asmt_6/recover.c:116-142 | writes the truncated direct blocks; nothing for a negative size |
| `Recovery.Recoverer.CopyIndirects` | Asmt_6/recover.c:153-177 | writes the truncated contents of a list of indirect blocks under one budget |
| `Recovery.Recoverer.CopyStages` | Asmt_6/recover.c:114-237 | the three stages together write the joined contents truncated once and leave the marks of each stage reached; the fatal exit happens exactly when stated |
| `Recovery.Recoverer.RecoverFile` | Asmt_6/recover.c:97-237 | rejects exactly the bad inodes and otherwise writes `Recovered` and marks the blocks of `MarkedFile` |
| `Recovery.MarksAreVisits` | Asmt_6/recover.c:97-237 | a file's recovery marks exactly the data and indirect blocks it goes through |
| `Losses.RecoversContent` | Asmt_6/recover.c:114-237 | where nothing is lost, as with non-zero words past the buffers, the three stages write the content those blocks hold, for every image, inode and size; a size beyond them sends the program on to the triple stage |
| `Losses.NonZeroWordsLoseNothing` | Asmt_6/recover.c:600-612 | with non-zero words nothing is lost |
| `Losses.AgreesBeforeLoss` | Asmt_6/recover.c:114-237 | for every size and all such words, the output, also on exit, agrees with the content up to the first lost indirect block |
| `Losses.RecoversBeforeLoss` | Asmt_6/recover.c:114-237 | every file that ends before the first lost indirect block is recovered |
| `Losses.CompletesIff` | Asmt_6/recover.c:114-237 | for every size and all such words, when the program exits instead of completing, and when it completes with the right length |
| `Losses.RecoversIff` | Asmt_6/recover.c:600-612 | the byte-level remainder: behind the first lost block the output is the content if and only if the program completes and the later blocks that slide in hold the same bytes |
| `Losses.WholeFileIff` | Asmt_6/recover.c:600-612 | for a file that needs all its blocks, recovery gives its content if and only if nothing is lost |
| `Losses.ExitHappens` | Asmt_6/recover.c:190-200 | an image in which the search finds an inode of thirteen blocks on which the program exits |
| `Losses.SilentLossHappens` | Asmt_6/recover.c:600-612 | an image in which the search finds an inode on which it completes with the thirteenth block missing |
| `Losses.InodeEnds` | Asmt_6/recover.c:365 | the search resumes at the word behind the inode's last field |
| `InodeScan.FindInode` | Asmt_6/recover.c:415-430 | the first word equal to uid at or after the start that is followed by gid, or none; the word behind the image counts as following |
| `InodeScan.Scan` | Asmt_6/recover.c:86-89 | the search loop ends and reports the greedy sequence of matches: 23 words apart or more, and every match is at most 22 words behind a reported one |
| `InodeScan.ReportedIsSpaced` | Asmt_6/recover.c:365-366 | reports are matches, strictly increasing, at least 23 words apart |
| `InodeScan.EveryMatchIsCovered` | Asmt_6/recover.c:365-367 | every match is reported or lies in the 22 words after a reported one |
| `InodeScan.ScanIsExact` | Asmt_6/recover.c:86-367 | spacing and coverage hold of the reported sequence and of no other |
| `InodeScan.NeighbourIsReported` | Asmt_6/recover.c:86-367 | behind a reported inode the one that starts 25 words on is reported too, unless one of the two words before its uid matches |
| `InodeScan.TwoInodesReported` | Asmt_6/recover.c:86-367 | of two inodes back to back from word 0 both are reported, and nothing else |
| `LinkedQueue.List.InsertTail` | Asmt_3/list_t.c:30-54 | appends the item to the chain |
| `LinkedQueue.List.InsertSorted` | Asmt_3/list_t.c:56-93 | the chain becomes a permutation of the old items and the new one ordered by `compare`, for any consistent comparison and every length case; says which `prev` pointers are right |
| `LinkedQueue.List.Retie` | Asmt_3/list_t.c:72-92 | the retying code links the array's items forward; the second `prev` is left as it was for more than two items |
| `LinkedQueue.StalePrevReached` | Asmt_3/list_t.c:83-91 | sorting 1 into 2, 3 leaves the second item without a `prev` |
| `LinkedQueue.List.RemoveHead` | Asmt_3/list_t.c:95-109 | drops the first item; an empty list stays empty |
| `LinkedQueue.List.RotateOne` | Asmt_3/list_t.c:111-121 | moves the first item to the end |
| `RoundRobin.Scheduler.constructor` | Asmt_3/uthread.c:9-35 | thread 0 alone, running |
| `RoundRobin.Scheduler.Create` | Asmt_3/uthread.c:37-56 | appends one thread with the next id behind the old ones, which stay; the running thread stays |
| `RoundRobin.Scheduler.Yield` | Asmt_3/uthread.c:58-74 | rotates the queue; the head runs |
| `RoundRobin.Scheduler.Exit` | Asmt_3/uthread.c:76-96 | removes the head and runs the next; the process ends if and only if it was the last |
| `RoundRobin.ExactWaiting` | Asmt_3/uthread.c:37-96 | a thread at position p is at p - j after j yields and exits, however many creates are interleaved |
| `RoundRobin.NotSooner` | Asmt_3/uthread.c:37-96 | with fewer than p switches another thread runs |
| `RoundRobin.CreatedRuns` | Asmt_3/uthread.c:37-96 | a thread created while n are queued runs after exactly n yields and exits, whatever creates follow |
| `RoundRobin.NobodyLost` | Asmt_3/uthread.c:37-96 | over every run, the queue plus the exited threads are the initial plus the created ones, as multisets |
| `RoundRobin.FullRound` | Asmt_3/uthread.c:58-74 | as many yields as threads restore the queue |

## Left out

- `ucontext` switching, stacks, timers, signal set-up and allocation failure: a switch is a change of the running thread, and scheduler calls and signal-masked regions are single steps.
- `uthread_mutex_destroy` of Asmt_4/uthread.c: it only frees the queue.
- The triple-indirect stage of Asmt_6/recover.c: it unwinds the double-indirect block again instead of the current entry, so it does not compute the file's content.
- `guess_file_extension`, `print_inode`, file naming, `fork` and `mv`, `mmap`, and failures of `fwrite` in Asmt_6/recover.c: I/O and constant tables.
- Overflow of C integers: sizes, block offsets and priorities are mathematical integers.
- InodeScan.Scan: gives positions of matches; reading the inode's fields near the ends of the image is not modelled.
- SpinLock.StepKeepsInv: is about runs in which no thread locks what it holds; `PriorityLock.NestedUnlock` and `SpinLock.TwoInside` say what nesting does.
- WaitQueue.Mutex.Unlock: asks that the queue is not empty, because unlock is called by the thread that holds the lock.
- Printing under `stdout_lock` and the lengths of sleeps in the philosophers, and printing in the other protocols: they do not affect which step comes next.
- Asmt_5/prodcon/prodcon_cv.cpp: it waits without testing a condition, so the buffer invariant does not hold.
- Asmt_5/whales, Asmt_2/shell.c, the statistics programs, Asmt_0 and Asmt_1: unsynchronised counters, terminal plumbing, log parsing, and an earlier copy of the list.
