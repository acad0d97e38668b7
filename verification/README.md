# A verified model of the kernel's storage, trees, processes and memory

This project models eight parts of the kernel in Dafny and proves what each of them is for. Every part has a
specification on values (functions, invariants, theorems about every run) and, because the C code works by
updating objects in place, classes and methods that follow that code branch by branch and are proved against
the specification. Each region run under a lock, each single-block device write and each context switch is one
atomic step.

**Write-ahead log and block cache** (`src/fs/cache.c`). `WalSpec` describes commit and recovery as sequences of
single-block writes and proves that cutting them off anywhere leaves a disk from which recovery produces all of
the group or none of it; cutting recovery off and starting it again ends in the same place. `WalMachine` is the
whole protocol as a machine: threads in `begin_op`, `sync` and `end_op`, one committer writing block by block,
and crashes at any moment, also during recovery. `WalTheorems` proves for every run that recovery would yield
the initial disk overwritten by whole committed groups in order, that an operation is in exactly one group with
all its updates once its `end_op` has returned, that reservations bound the log, that `end_op` never
panics and `sync` only for an operation that has used up its budget, and that nobody is stranded on a log
semaphore; the last holds exactly when the log has room for one operation. `WalWakes` says who is woken by
whom. `BlockCache` is the cache itself, with its eviction, its log and its bitmap allocator; the write sequences
that its `commit` and `recover_from_log` issue are proved to be those of the machine. A block's content as
readers see it (cached copy, else disk) is the one abstraction that all cache operations are specified by.

**Red-black tree** (`src/common/rbtree.c`). `RbSpec` treats the algorithms on values: a tree with a hole, the
repair loops as functions that climb it, and proofs that they keep colours, black heights and the in-order
sequence. `RbMem`, `RbSteps` and `RbErase` connect trees with memory; `RbTree` has the pointer algorithms,
parent links and all, proved to end in memory that spells the specified tree. `RbOrder` has the search order
and the logarithmic bound. The parent/colour word is two fields, and the two mirrored halves of each loop are
one text over a side.

**Process life cycle** (`src/common/sem.c`, `src/kernel/sched.c`, `src/kernel/proc.c`). `KernelSpec` is one
machine of scheduler, semaphores and the process tree for any number of CPUs and processes, with `exit`, `wait`
and `_wait_sem` cut at every point where another CPU can come in between. Its invariant (`KernelInv`) is proved
to hold in every reachable state, and from it: scheduler and states agree, semaphores conserve units and serve
in order of arrival, no `ASSERT` fails, and the units of `childexit` are exactly the zombie children, also
while orphans and their units move to the root. `KernelKill` adds that a killed process never sleeps alertably
again, `KernelSleep` that everybody else sleeps until a unit is granted, `KernelQueue` who runs when. `Sem` and `Processes` have the same operations over records that are updated in place.

**mkfs** (`src/user/mkfs/main.c`). `MkfsSpec` defines the bytes of a file through inode table, direct blocks
and indirect block; `Mkfs` proves that `iappend` appends, to that file only, and stops exactly when file or
image are full.

**Page table** (`src/kernel/pt.c`). `PageSpec` gives the tree that the four levels spell and the translation it
defines, with the address split of VMSAv8-64 and the 4KB granule (section D5.2 of the Arm Architecture
Reference Manual, DDI 0487); `PageTables` has the walk and the recursive free over page frames.

**Pool allocator** (`src/kernel/mem.c`). `PoolSpec` has the size classes and the invariant, `PoolHistory` the
theorems about every history, `Pool` the operations over pools that are updated in place.

**Rings** (`src/common/list.c`) are `Rings`, at the level of their pointers, and `RunQueues` for run queues with
containers in them.

**Message queue** (`src/common/ipc.c`). `Ipc` has the calls as functions and the theorems about every run;
`MsgQueues` has them over a queue whose waiting receivers are a ring of nodes. There the walk that a send makes
follows the links it changes itself, and is given a number of turns, because it may not end.

Some properties one would like turn out to depend on a condition that the code does not check. Each is stated
exactly: `WalTheorems.StrandingNeedsSmallLog` (a log of fewer than ten blocks puts its first
caller to sleep for ever), `Bitmap.AllocSoundWhen` (allocating a bitmap block as data wipes bits),
`Mkfs.RootRounding` (the final rounding of the root directory covers an unallocated block when its size is
already a multiple of the block size), `Ipc.ReturnsWhen` (a send never returns when it meets a matching receiver
whose buffer is too small, as long as that receiver does not run), `IpcOrder.OrderWhen` (a request below -1 can
take the second of two messages of one type before the first), `Ipc.AsleepBeside` (a full queue puts a sender to sleep beside the receiver waiting
for its message) and `PoolHistory.LostWhen` (a request above half a page loses a page). A failing input goes with
each: a run for stranding, `Bitmap.BitmapBlockLost`, `Mkfs.ThirtyFiles`, `MsgQueues.SendThatStays`,
`IpcOrder.SecondFirst`, `Ipc.MissedRendezvous` and `PoolHistory.LastPageLost`.

`Blocks` holds bytes, little-endian integers and the log header's image.

## Model

| member | source | states |
|---|---|---|
| Blocks.FromToBytes | src/user/mkfs/main.c:63-79 | a value that fits n bytes survives its little-endian layout |
| Blocks.ToFromBytes | src/user/mkfs/main.c:63-79 | every byte string is the layout of the integer it reads as |
| Blocks.ByteIs | src/user/mkfs/main.c:63-79 | byte i of an integer is its i-th base-256 digit, the lowest first |
| Blocks.HeaderLayout | src/fs/defines.h:72-75 | the header block holds the number of logged blocks in its first eight bytes and then, slot by slot, their numbers |
| Blocks.DecodeEncodeHeader | src/fs/cache.c:36-44 | reading the header block back gives the header that was written |
| WalSpec.RecoveredAt | src/fs/cache.c:146-151 | recovery gives each live home block its slot's content and leaves every other home block alone |
| WalSpec.RecoveredIsClean | src/fs/cache.c:146-151 | recovery ends with an empty header on disk |
| WalSpec.CleanRecovery | src/fs/cache.c:146-151 | with an empty header, recovery changes no home block |
| WalSpec.RecoveryRestarts | src/fs/cache.c:133-151 | a recovery cut off after any number of writes can be run again and ends with the same home blocks |
| WalSpec.CommitDone | src/fs/cache.c:227-245 | an undisturbed commit leaves an empty header and exactly the logged blocks overwritten |
| WalSpec.CapacityIs | src/fs/cache.c:167 | the capacity is the largest that the header's slots and the log area behind the header block allow |
| WalSpec.CommitTrace | src/fs/cache.c:227-245 | each device write of a commit, by its place: slots, header, home blocks, emptied header |
| WalSpec.RecoverTrace | src/fs/cache.c:133-151 | each device write of a recovery, by its place: home blocks from their slots, emptied header |
| WalSpec.CommitIsAtomic | src/fs/cache.c:227-245 | after any number of a commit's writes, recovery yields the old home blocks (header not yet written) or all of the group (header written), nothing between |
| WalSpec.CommitKeepsView | src/fs/cache.c:227-245 | a commit changes no home block as readers see it |
| WalSpec.SlotsFilled | src/fs/cache.c:133-136 | installing reads from the slots what writing the log put there |
| LogSpec.SlotOf | src/fs/cache.c:206-211 | the slot searched for is the first live one with that number, or the number of live slots |
| WalCounters.AttemptKeeps | src/fs/cache.c:172-194 | one turn of begin_op, admitted or refused, keeps counters, reservations and sleep queues consistent |
| WalCounters.SyncPanicsWhen | src/fs/cache.c:197-223 | a running operation's sync panics if and only if its ten blocks are used up and the block is new or the log is full |
| WalCounters.SyncKeeps | src/fs/cache.c:197-223 | a sync that does not panic keeps the bookkeeping consistent, header numbers distinct included |
| WalCounters.EndKeeps | src/fs/cache.c:247-264 | end_op by a running operation never panics and keeps the bookkeeping consistent, whether it commits or waits |
| WalCounters.FinishKeeps | src/fs/cache.c:265-272 | the end of a commit wakes both queues and keeps the bookkeeping consistent |
| WalDisk.OverlayIsMemory | src/fs/cache.c:197-223 | absorbing repeated writes loses nothing: overwriting the disk with the logged blocks gives all updates of memory |
| WalDisk.AlwaysRecoverable | src/fs/cache.c:133-151 | in every phase, recovery would yield exactly the committed groups |
| WalDisk.CommitWriteKeeps | src/fs/cache.c:227-245 | each single device write of a commit keeps the disk invariant |
| WalDisk.BootWriteKeeps | src/fs/cache.c:133-151 | each single device write of recovery keeps the disk invariant |
| WalHistory.GroupCommitted | src/fs/cache.c:237-245 | at the commit point the open group, with all its operations and updates, becomes the last committed one |
| WalHistory.Forgotten | src/fs/cache.c:146-169 | a crash loses only updates that were never promised |
| WalTheorems.StepKeeps | src/fs/cache.c:146-273 | every step of the machine, a crash included, keeps the whole invariant |
| WalTheorems.CrashAtomicity | src/fs/cache.c:133-273 | for every run with crashes anywhere, also in recovery: recovery yields the initial disk overwritten by whole committed groups in order, and between commits the home blocks already are that |
| WalTheorems.OperationsAreAtomic | src/fs/cache.c:172-273 | an operation that returned from end_op is in a committed group; a group holds all its operations' updates in order or none, and no operation is in two |
| WalTheorems.ReservationHolds | src/fs/cache.c:167-223 | whenever the cache serves, the reservation is the sum of what running operations have left, used plus reserved fits the log, header numbers are distinct, and with nobody running or committing the header is empty and nothing is reserved |
| WalTheorems.SyncPanicsOnly | src/fs/cache.c:197-223 | in every run a running operation's sync panics if and only if its budget is used up and the block is new or the log is full |
| WalTheorems.EndNeverPanics | src/fs/cache.c:247-258 | committing excludes running operations, so end_op's PANIC is unreachable |
| WalTheorems.NotStranded | src/fs/cache.c:172-273 | with a log of at least ten blocks nobody sleeps on a log semaphore while nobody runs, commits or retries |
| WalTheorems.StrandingNeedsSmallLog | src/fs/cache.c:167-194 | a run that strands a thread exists if and only if the log holds fewer than ten blocks |
| WalWakes.BeginAdmits | src/fs/cache.c:172-194 | in every run a thread in begin_op gets in if and only if nobody commits and ten more blocks fit; otherwise it is asleep in front of the others |
| WalWakes.EndWakes | src/fs/cache.c:247-264 | in every run, end_op by one of several running operations leaves nobody asleep on log.sem and everyone who slept there retries; the last one commits |
| WalWakes.CommitWakes | src/fs/cache.c:265-272 | in every run, the end of a commit leaves nobody asleep: its group has returned, the others retry |
| WalWakes.NobodyLost | src/fs/cache.c:172-273 | in every run no step but a crash makes a thread disappear: it is in begin_op, running, asleep, committing, or has returned |
| LruSpec.Find | src/fs/cache.c:75-83 | the search stops at the first entry with that block number, or at the end |
| LruSpec.EvictionIsLru | src/fs/cache.c:95-108 | only entries with both flags clear are dropped, least recent first, the rest keep their order, and the loop stops as soon as the list is below the threshold or when none is left to drop |
| LruSpec.AcquireBound | src/fs/cache.c:71-122 | after a miss the list has at most twenty entries unless every older one is pinned or acquired; a hit changes no length |
| LruSpec.AcquireOrder | src/fs/cache.c:71-122 | a hit comes to the front and all others keep their order; on a miss the new entry is in front and the rest is the list less what eviction dropped |
| LruSpec.EvictKeepsContent | src/fs/cache.c:95-108 | dropping clean entries changes no block's visible content |
| LruSpec.AcquireIsTransparent | src/fs/cache.c:71-122 | acquire keeps one entry per number, puts the block in front with its visible content, and changes no other block's |
| CacheSpec.AcquireKeeps | src/fs/cache.c:71-122 | acquire keeps the cache sound, its view, and every entry in use |
| CacheSpec.ViewIsDisk | src/fs/cache.c:71-122 | a log block, or a block not pinned, reads as it is on disk |
| CacheSpec.HeaderWriteKeeps | src/fs/cache.c:41-44 | the header can be written behind the cache's back |
| CacheSpec.PutKeeps | src/fs/cache.c:31-34 | rewriting an entry, on disk too or pinned, changes the view at that block only |
| Bitmap.PutBitAt | src/fs/cache.c:293-295 | setting or clearing one bit of an integer changes no other bit |
| Bitmap.Mark | src/fs/cache.c:293-295 | setting or clearing bit bi of a block changes that bit only |
| Bitmap.FirstFree | src/fs/cache.c:290-303 | the number found is the lowest clear one |
| Bitmap.MarkTouchesOneBit | src/fs/cache.c:311-319 | exactly the bit of one block number changes, across all bitmap blocks |
| Bitmap.AllocBits | src/fs/cache.c:286-305 | allocation sets the bit found and no other, except that zeroing a bitmap block wipes the bits it holds |
| Bitmap.InUseAt | src/fs/cache.c:277-295 | the bit of block number n is bit n % 8 of byte n / 8, counted over all bitmap blocks |
| Bitmap.AllocatedIs | src/fs/cache.c:286-305 | block by block: the block found is zeroed, its bitmap block differs in its bit only, no other block changes |
| Bitmap.FreedIs | src/fs/cache.c:309-322 | block by block: the bitmap block differs in that bit only, no other block changes |
| Bitmap.AllocSoundWhen | src/fs/cache.c:286-305 | allocation leaves every used bit set if and only if the block found does not itself hold a used bit |
| Bitmap.BitmapBlockAgain | src/fs/cache.c:286-305 | a bitmap block found free in its own bitmap stays unmarked when allocated; the next allocation hands it out again, or an earlier block that was in use |
| Bitmap.BitmapBlockLost | src/fs/cache.c:286-305 | a disk on which the allocation after that hands out block 0, which was in use |
| Bitmap.NeverTwice | src/fs/cache.c:286-322 | one allocation or free keeps every live block marked, and allocation hands out a block that is not live |
| Bitmap.NeverTwiceInAnyHistory | src/fs/cache.c:286-322 | in any history no block is handed out twice without a free between |
| Logs.LogState.BeginTurn | src/fs/cache.c:174-193 | one turn of begin_op on the records is the machine's; it admits exactly when nobody commits and ten more blocks fit, and then counts and reserves them |
| Logs.LogState.EndTurn | src/fs/cache.c:247-264 | end_op up to commit or sleep on the records is the machine's; it panics exactly while somebody commits, commits exactly as the last, and otherwise leaves nobody asleep on log.sem, every waiter up |
| Logs.LogState.CommitOver | src/fs/cache.c:267-271 | the end of a commit on the records is the machine's; nobody is left asleep and every waiter of both semaphores is up |
| BlockCaches.Cache.Acquire | src/fs/cache.c:71-122 | the list becomes the specified one, the view is unchanged, the block returned is in front with its visible content, and blocks in use stay |
| BlockCaches.Cache.EvictLoop | src/fs/cache.c:95-108 | the loop performs the specified eviction and drops no block in use |
| BlockCaches.Cache.Release | src/fs/cache.c:125-131 | release clears one flag and changes neither content nor what is logged |
| BlockCaches.Cache.WriteLog | src/fs/cache.c:227-236 | issues exactly the log-body writes, with the contents that readers see, though acquiring may evict in between |
| BlockCaches.Cache.InstallTrans | src/fs/cache.c:133-144 | issues exactly the home-block writes, with the slots' contents, in both of its uses |
| BlockCaches.Cache.Commit | src/fs/cache.c:237-245 | issues exactly the machine's commit writes in order, empties the header and changes no home block's view |
| BlockCaches.Cache.Recover | src/fs/cache.c:146-151 | issues exactly the machine's recovery writes in order and leaves a cache that agrees with the disk |
| BlockCaches.Cache.Sync | src/fs/cache.c:197-223 | logs the block once, charges and pins it only when new, and panics exactly as specified |
| BlockCaches.Cache.Rewrite | src/fs/cache.c:197-223 | modifying a held block and syncing it panics exactly when the sync does, never with budget left; otherwise it changes the view there only and costs at most one block |
| BlockCaches.Cache.Bzero | src/fs/cache.c:280-285 | panics exactly when the sync does; otherwise the view changes to zeros at that block only |
| BlockCaches.Cache.Scan | src/fs/cache.c:292-301 | the byte-and-mask loop finds the first clear bit of a bitmap block, if any |
| BlockCaches.Cache.Alloc | src/fs/cache.c:286-305 | returns the lowest free number; its block reads as zeros, its bitmap block differs in its bit only, and no other block changes; panics exactly when all bits are set or one of the two syncs does, which budget for two blocks rules out |
| BlockCaches.Cache.Free | src/fs/cache.c:309-322 | panics exactly when the bit is clear or the sync does, else the bitmap block differs in that bit only and no other block changes |
| SemSpec.UndoGood | src/common/sem.c:80-84 | a sleeper nobody posted to withdraws: the ASSERT holds and exactly that sleeper leaves |
| SemSpec.PostGood | src/common/sem.c:91-101 | the ASSERT holds, somebody is woken exactly when somebody sleeps, it is the oldest, and the number of sleepers stays the shortfall |
| SemSpec.NothingLeft | src/common/sem.c:29-40 | get_all_sem leaves no unit and touches no sleeper |
| Semaphores.Semaphore.WaitEnter | src/common/sem.c:63-78 | takes a unit or joins the sleep list in front, not up |
| Semaphores.Semaphore.WaitLeave | src/common/sem.c:79-88 | granted exactly if up; otherwise withdraws from wherever in the list it stands |
| Semaphores.Semaphore.Post | src/common/sem.c:91-101 | wakes the oldest sleeper and marks it up, or adds a unit |
| Semaphores.Semaphore.Get | src/common/sem.c:13-22 | takes a unit if there is one, never sleeps |
| Semaphores.Semaphore.GetAll | src/common/sem.c:29-40 | takes all units and returns their number |
| Semaphores.Semaphore.PostAll | src/common/sem.c:42-51 | wakes exactly the current sleepers, oldest first, marks them up, returns their number and leaves no extra unit |
| RbSpec.RotateOrder | src/common/rbtree.c:34-39 | a rotation keeps the in-order sequence whatever the colours |
| RbSpec.InsertFixOrder | src/common/rbtree.c:40-109 | repairing an insertion keeps the in-order sequence |
| RbSpec.InsertFixRedBlack | src/common/rbtree.c:40-109 | a red node in a good tree's hole is repaired to a red-black tree |
| RbSpec.EraseFixOrder | src/common/rbtree.c:161-246 | repairing an erasure keeps the in-order sequence |
| RbSpec.EraseLocalRedBlack | src/common/rbtree.c:173-203 | one turn beside a black sibling restores the missing black node or passes the shortage up |
| RbSpec.EraseFixRedBlack | src/common/rbtree.c:161-246 | a hole one black node short is repaired to a red-black tree |
| RbSpec.EraseOrder | src/common/rbtree.c:110-160 | erasing takes exactly that node out of the in-order sequence |
| RbSpec.EraseRedBlack | src/common/rbtree.c:110-246 | erasing any node of a red-black tree leaves a red-black tree |
| RbSpec.ShortSibling | src/common/rbtree.c:164-172 | beside a short hole the sibling exists, and a red sibling has black children that exist: the pointers followed are never null |
| RbTrees.RbRoot.ChangeChild | src/common/rbtree.c:25-33 | the link above a node, root pointer included, is the only one changed |
| RbTrees.RbRoot.RotateSetParents | src/common/rbtree.c:34-39 | colour, parent and the link above pass to the new node |
| RbTrees.RbRoot.InsertCase1 | src/common/rbtree.c:53-60 | the recoloured memory spells the recoloured tree |
| RbTrees.RbRoot.InsertTurn | src/common/rbtree.c:61-78 | cases 2 and 3: the memory spells the rotated tree |
| RbTrees.RbRoot.InsertFix | src/common/rbtree.c:40-109 | the loop ends with memory that spells the specified repair |
| RbTrees.RbRoot.Insert | src/common/rbtree.c:247-270 | -1 and nothing changed exactly when an equal node is present; else a sorted red-black tree with exactly the new node added |
| RbTrees.RbRoot.EraseTurn | src/common/rbtree.c:187-203 | cases 3 and 4: the memory spells the specified turn |
| RbTrees.RbRoot.EraseCase1 | src/common/rbtree.c:166-172 | afterwards the sibling is the near nephew, black, one level down |
| RbTrees.RbRoot.EraseCase2 | src/common/rbtree.c:173-186 | recolours, and goes on upwards exactly when the parent was black |
| RbTrees.RbRoot.EraseFix | src/common/rbtree.c:161-246 | the loop ends with memory that spells the specified repair |
| RbTrees.RbRoot.EraseInner | src/common/rbtree.c:129-157 | the successor takes the node's place, near or deep, and the place to rebalance from is right |
| RbTrees.RbRoot.EraseNode | src/common/rbtree.c:110-160 | all three shapes: the memory spells the tree without the node, and the returned node is above the short hole or null if there is none |
| RbTrees.RbRoot.Erase | src/common/rbtree.c:271-276 | of any member of a red-black tree: a red-black tree remains whose in-order sequence is the old one minus exactly that node, still sorted by any order it was sorted by |
| RbTrees.RbRoot.Lookup | src/common/rbtree.c:277-288 | finds an equal node if and only if there is one, visiting at most 2 log2(n + 1) nodes |
| RbTrees.RbRoot.First | src/common/rbtree.c:289-297 | the first node of the in-order sequence, or null for an empty tree |
| RbOrder.InsertOrder | src/common/rbtree.c:247-270 | linking a node where its search ended, then repairing, keeps the tree sorted and red-black |
| RbOrder.MissedAll | src/common/rbtree.c:277-288 | a search that runs out of tree has told its node apart from every member |
| RbOrder.SizeBound | src/common/rbtree.c:277-288 | a tree of black height h has at least 2^h - 1 nodes |
| RbOrder.DepthBound | src/common/rbtree.c:277-288 | visits within the depth of a red-black tree are at most 2 log2(n + 1) |
| KernelInv.SchedKeeps | src/kernel/sched.c:170-190 | simple_sched keeps the agreement of states, run queue and CPUs |
| KernelInv.ActivateKeeps | src/kernel/sched.c:97-110 | activating or alerting any process keeps that agreement |
| KernelSteps.PostCellKeeps | src/common/sem.c:91-101 | a post wakes the sleeper that came first and keeps the semaphore's books |
| KernelSteps.UndoCellKeeps | src/common/sem.c:80-84 | a withdrawal keeps the order of the others and the books |
| KernelExit.OwnerSleeps | src/kernel/proc.c:110 | only a process itself ever sleeps on its childexit |
| KernelExit.PassTokens | src/kernel/proc.c:84-85 | moving a unit to the root keeps all accounts, units in flight included |
| KernelTree.OrphanFamily | src/kernel/proc.c:72-82 | handing all children to the root keeps tree and accounts |
| KernelTree.ReapFamily | src/kernel/proc.c:113-129 | reaping one zombie keeps tree and accounts |
| KernelTree.CreateFamily | src/kernel/proc.c:18-30 | a new process, under its creator or under the root, keeps tree and accounts |
| KernelTheorems.StepKeeps | src/kernel/proc.c:18-189 | every step of every CPU keeps the whole invariant and meets its ASSERTs |
| KernelTheorems.RunKeeps | src/kernel/proc.c:18-189 | the invariant holds in every reachable state, for any number of CPUs |
| KernelTheorems.NothingFails | src/kernel/sched.c:97-190 | no ASSERT or PANIC of scheduler, semaphores or wait is reached in any run |
| KernelTheorems.SchedulerAgreement | src/kernel/sched.c:97-190 | runnable if and only if queued, once; running if and only if current on a CPU, one only |
| KernelTheorems.SemaphoreBooks | src/common/sem.c:13-101 | sleepers are max(0, -val), initial units plus posts are grants plus max(val, 0), and nobody sleeps once up |
| KernelTheorems.PostIsFifo | src/common/sem.c:91-101 | a post wakes whoever has slept longest, and changes nothing for anybody else |
| KernelTheorems.ExactReaping | src/kernel/proc.c:63-131 | units on childexit plus the one taken are exactly the zombie children; a process about to reap has one |
| KernelTheorems.ReapingDuringExit | src/kernel/proc.c:72-91 | the same at every point inside exit, with what is in flight owed to the root |
| KernelTheorems.ReapedOnce | src/kernel/proc.c:112-130 | wait takes a zombie child out of the system, and no process is reaped twice |
| KernelTheorems.NoLostWakeup | src/kernel/proc.c:83-111 | whoever sleeps in wait without a unit has children, and while the process-list lock is free none of them is a zombie |
| KernelSleep.SleepsUntilWoken | src/common/sem.c:63-89 | in every reachable state whoever is on a sleep list, has been granted nothing and is not killed is asleep, and in wait where an alert reaches it |
| KernelSleep.NoSpuriousWakeup | src/common/sem.c:79-88 | in every run _wait_sem fails only for a process that has been killed |
| KernelSleep.FallsAsleep | src/common/sem.c:63-78 | in every reachable state a caller of _wait_sem gets a unit at once if there is one, else is on the sleep list and asleep as asked, but a killed one not alertably |
| KernelSleep.GetTakes | src/common/sem.c:13-40 | taking one unit or all changes nothing else, and taking all leaves none |
| KernelSleep.PostAllWakes | src/common/sem.c:42-51 | in every reachable state post_all_sem grants every sleeper its unit, leaves nobody asleep there and no unit over |
| KernelQueue.StepOnQueue | src/kernel/sched.c:97-190 | every step either lets the first of the queue run, whoever yields going to the end, or leaves queue and CPUs alone, or puts somebody in front |
| KernelQueue.ActivateFront | src/kernel/sched.c:97-110 | whoever is activated is first in the queue |
| KernelQueue.MovesUp | src/kernel/sched.c:112-190 | while nobody is put in front, a queued process moves up by one place with every switch |
| KernelQueue.GetsItsTurn | src/kernel/sched.c:112-190 | and from place i it has the CPU at switch i + 1 |
| KernelQueue.YieldsReach | src/kernel/sched.c:112-190 | when everybody yields in turn, place i of the queue has the CPU after i + 1 yields |
| KernelKill.KilledAreAwake | src/kernel/proc.c:45-61 | in every reachable state no killed process sleeps where an alert would reach it |
| KernelKill.KillsLast | src/kernel/proc.c:45-61 | a kill is never taken back: at any later time the process is still marked or has been reaped |
| KernelKill.KillReaches | src/kernel/proc.c:45-61 | killing a started child of the root makes an alertable sleeper runnable at once, leaves any other state alone, and however the run goes on the process is never again asleep alertably until it is reaped |
| Processes.ProcTable.ActivateProc | src/kernel/sched.c:97-110 | on the records: a process that may be woken is runnable and first in the queue, any other is left alone, and the result says which |
| Processes.ProcTable.UpdateThisState | src/kernel/sched.c:112-127 | on the records: the current process has the new state and, if it is to run again and not idle, is last in the queue; nothing else changes |
| RunQueues.FlatSum | src/kernel/sched.c:129-148 | the processes of a queue are met in its order |
| RunQueues.FlatOne | src/kernel/sched.c:129-148 | a process is met where it stands, the processes of a container where the container stands |
| RunQueues.PickInQueue | src/kernel/sched.c:129-148 | the recursive search finds the first process, however deep in containers, or none exactly when there is none |
| RunQueues.PickedIsHead | src/kernel/sched.c:150-162 | detaching what was picked leaves the other processes in order, so that nested queues act as one queue |
| Processes.ProcTable.PickNext | src/kernel/sched.c:150-162 | the first of the root queue leaves it, or the CPU's idle process is chosen exactly on panic or an empty queue |
| Processes.ProcTable.SimpleSched | src/kernel/sched.c:170-190 | both ASSERTs hold; a killed process that does not die or sleep deeply stays; otherwise the first of the line takes the CPU, a process that yields being last in it, and no other state changes |
| Processes.ProcTable.SetProcParent | src/kernel/proc.c:18-22 | the process becomes the parent's first child and nothing else changes |
| Processes.ProcTable.GiveAway | src/kernel/proc.c:72-82 | every child becomes the root's, in the order that detach and merge leave, and nothing else changes |
| Processes.ProcTable.FindZombie | src/kernel/proc.c:114-119 | the first child in list order that is a zombie, or none exactly when no child is |
| Processes.ProcTable.FindChild | src/kernel/proc.c:32-43 | the child with that pid unless it has not been started |
| Processes.ProcTable.Kill | src/kernel/proc.c:45-61 | marks a started child of the root, puts it first in the queue if it slept alertably, and returns 0; else returns -1 and changes nothing |
| MkfsSpec.WordPut | src/user/mkfs/main.c:71-79 | storing a 32-bit word changes that word only |
| MkfsSpec.SlotPut | src/user/mkfs/main.c:208-229 | rewriting one inode of a shared sector leaves the other seven |
| MkfsSpec.IPlace | src/user/mkfs/main.c:40 | distinct inodes have distinct places, all inside the inode area |
| MkfsSpec.OnDisk | src/user/mkfs/main.c:208-310 | where on disk each inode, its size, its block numbers and each byte of its file are |
| MkfsSpec.GrownOk | src/user/mkfs/main.c:270-310 | growing a file inside one block keeps the image well formed: blocks in range, referenced once, free sectors zero |
| MkfsSpec.GrownBytes | src/user/mkfs/main.c:270-310 | the grown file is its old bytes followed by the data, and every other file is unchanged |
| Mkfs.Turn | src/user/mkfs/main.c:281-307 | one turn through a direct or indirect block is such a growth |
| Mkfs.TurnCost | src/user/mkfs/main.c:281-307 | a turn takes as many fresh blocks as the sizes before and after ask for |
| Mkfs.RootRounding | src/user/mkfs/main.c:185-190 | the rounded size leaves the image well formed if and only if the old size was no multiple of the block size |
| Mkfs.Image.FixRootSize | src/user/mkfs/main.c:185-190 | the same on the image, and no other inode changes |
| Mkfs.RootDirectory | src/user/mkfs/main.c:134-190 | the root directory built entry by entry ends well formed if and only if the number of its entries is no multiple of 32 |
| Mkfs.ThirtyFiles | src/user/mkfs/main.c:147-190 | with thirty input files the finished image is not well formed |
| Mkfs.Image.RInode | src/user/mkfs/main.c:220-229 | the inode of that number |
| Mkfs.Image.WInode | src/user/mkfs/main.c:208-218 | exactly that inode of the table changes, and no data sector |
| Mkfs.Image.FindBlock | src/user/mkfs/main.c:282-299 | the block that a file position falls into, allocated if missing, through the indirect block where needed |
| Mkfs.Image.AppendTurn | src/user/mkfs/main.c:281-307 | some of the data is appended to the file's bytes, every other file unchanged, or the image is too full for all of it |
| Mkfs.Image.IAppend | src/user/mkfs/main.c:270-310 | succeeds if and only if file and image have room; then the file is its old bytes followed by the buffer, every other file is unchanged and the image well formed |
| Mkfs.Image.IAlloc | src/user/mkfs/main.c:242-252 | the next inode becomes an empty file of that type with one link, and no other changes |
| Mkfs.Image.BAlloc | src/user/mkfs/main.c:254-266 | the bitmap marks exactly the first `used` blocks, and no file changes |
| Mkfs.Image.constructor | src/user/mkfs/main.c:125-128 | a blank image is well formed and all its files are empty |
| PageSpec.EntryRoundTrip | src/kernel/pt.c:24-26 | a table entry is its frame number over the two low bits of a valid table, and leads back to its page |
| PageSpec.SplitIs | src/aarch64/mmu.h:67-70 | the four indices are bits 47-39, 38-30, 29-21 and 20-12 of the address, root first |
| PageSpec.SlotIsHardware | src/kernel/pt.c:15-28 | the slot of an address is the entry that a walk by those bits, entry by entry through memory, ends at |
| PageSpec.SplitPages | src/aarch64/mmu.h:67-70 | two addresses have the same four indices if and only if they are on the same 48-bit page |
| PageSpec.PagesDiffer | src/kernel/pt.c:6-29 | slots of two addresses are the same entry if and only if the addresses are on the same page |
| PageSpec.HangSpells | src/kernel/pt.c:18-25 | entering a fresh zeroed table gives tables that spell the larger tree |
| PageSpec.HangApart | src/kernel/pt.c:18-25 | no page then serves as two tables |
| PageSpec.HangTranslates | src/kernel/pt.c:18-25 | entering a fresh table changes no translation and moves no slot |
| PageSpec.StoreTranslates | src/kernel/pt.c:6-29 | the directory is a map: storing at the slot of an address changes the translation of its page to what was stored, and of no other page |
| PageTables.PgDir.GetPte | src/kernel/pt.c:6-29 | returns the entry that the translation hardware would use for the address, always with alloc; keeps every translation and slot, takes at most four pages and uses them as tables; without alloc only a missing root is made |
| PageTables.MakeTable | src/kernel/pt.c:18-26 | one missing level is made from one free page |
| PageTables.FreePt | src/kernel/pt.c:36-49 | every table page below is freed exactly once, and no other page is touched |
| PageTables.PgDir.FreePgdir | src/kernel/pt.c:51-56 | the same for a directory, empty or not, which is empty afterwards |
| PoolSpec.ClassFits | src/kernel/mem.c:29-33 | for every size accepted, the class is the smallest whose blocks hold it and its header |
| PoolSpec.LiveApart | src/kernel/mem.c:26-53 | live blocks with headers never overlap, each lies in one carved page, and none is on a free list |
| PoolSpec.CarvedBlocks | src/kernel/mem.c:40-42 | carving produces exactly the aligned blocks of the page |
| PoolSpec.TakeKeeps | src/kernel/mem.c:34-44 | handing out a free block keeps the allocator's invariant |
| PoolSpec.GiveKeeps | src/kernel/mem.c:50-53 | so does freeing one |
| PoolSpec.CarveKeeps | src/kernel/mem.c:35-44 | so does carving a page |
| Pool.Allocator.CarvePage | src/kernel/mem.c:37-43 | the loop pushes all blocks of the page but the first |
| PoolSpec.LeakLoses | src/kernel/mem.c:31-34 | the page taken first for a size above half a page and then overwritten is the one page that goes out of account |
| Pool.Allocator.TakeBlock | src/kernel/mem.c:34-44 | on the pools: the block is the head of the class's pool, or the first block of the first free page, whose others then fill the pool |
| PoolSpec.AllocIs | src/kernel/mem.c:26-48 | fails exactly for sizes out of range or when pool and pages are used up; else a block that was not live becomes live and is large enough; exactly the page taken first for a size above half a page is lost |
| Pool.Allocator.Alloc | src/kernel/mem.c:26-48 | the call on the pools is the specified allocation |
| Pool.Allocator.Free | src/kernel/mem.c:50-53 | the block goes back to the pool it came from, and nothing else changes |
| Pool.Allocator.KallocPage | src/kernel/mem.c:12-16 | the first free page, or none exactly when there is none |
| Pool.Allocator.KfreePage | src/kernel/mem.c:18-22 | a page that no pool was carved from is free again, and the allocator stays in order |
| PoolHistory.NeverOverlap | src/kernel/mem.c:12-53 | after any history of allocations, frees and pages taken and given back: live blocks with headers never overlap, each lies in one carved page that nobody holds, and none is on a free list |
| PoolHistory.PagesAccounted | src/kernel/mem.c:12-53 | after any history each page is in one place: free, carved, held by a caller, or lost |
| PoolHistory.LostWhen | src/kernel/mem.c:31-34 | no page is lost if and only if no request above half a page was made while a page was free |
| PoolHistory.LastPageLost | src/kernel/mem.c:31-39 | with one page free, a request above half a page fails and loses it |
| Rings.MergeList | src/common/list.c:8-32 | two disjoint rings become one, the second spliced in after node1; null arguments return the other |
| Rings.DetachFromList | src/common/list.c:34-44 | exactly that node leaves, the rest stay in order, and its predecessor (or null) is returned |
| Rings.InsertLast | src/common/list.c:8-32 | inserting at the list's prev makes the node the last of the ring |
| Rings.DetachFrom | src/common/list.c:34-44 | any node of a ring leaves it and becomes its own successor; a node that is alone stays alone and disturbs nothing |
| Rings.MoveChildren | src/kernel/proc.c:73-82 | detach and merge move exactly the children to the front of the root's ring, in the order the process model uses |
| Rings.Queue.Push | src/common/list.c:79-88 | the item is added at the end |
| Rings.Queue.Pop | src/common/list.c:89-101 | the first item leaves, the rest stay in order; panics exactly on an empty queue |
| Rings.Queue.Front | src/common/list.c:102-106 | the first item, or a panic exactly on an empty queue |
| Ipc.FirstMatchIs | src/common/ipc.c:131-149 | the receiver served is the first whose request matches |
| Ipc.FindIs | src/common/ipc.c:221-233 | a message is found if and only if one matches the request |
| Ipc.FindMatches | src/common/ipc.c:221-233 | the message found matches the original request, though a negative request is changed on the way |
| Ipc.FindChain | src/common/ipc.c:221-233 | which match is taken: the first; for a request below -1 the end of the chain of matches that the rising request comes to |
| Ipc.ChainOnce | src/common/ipc.c:221-233 | that chain is determined by queue and request |
| Ipc.LeavesBehind | src/common/ipc.c:221-233 | an earlier message of the very type taken is left behind if and only if the chain came past one |
| Ipc.SendIs | src/common/ipc.c:159-184 | what a send does: refuse or sleep while the queue is full, else queue at the end, or hand over to the first waiting receiver that matches |
| Ipc.RecvIs | src/common/ipc.c:215-259 | what a receive does: take the end of the chain and wake all senders, refuse if it is too large, or else wait last in line |
| Ipc.SendKeeps | src/common/ipc.c:159-184 | a send keeps the queue's invariant |
| Ipc.RecvKeeps | src/common/ipc.c:215-259 | so does a receive; what it takes was queued, matches and fits |
| Ipc.ReturnsWhen | src/common/ipc.c:131-184 | by the walk's turn count, a send never returns if and only if there is room and the first matching receiver's buffer is too small |
| Ipc.HangReachable | src/common/ipc.c:131-184 | some run leads to a send that never returns if and only if the queue can hold a message at all |
| Ipc.AsleepBeside | src/common/ipc.c:166-179 | a sender is put to sleep beside a receiver that waits for its message if and only if the queue is full |
| Ipc.MissedRendezvous | src/common/ipc.c:166-179 | for every capacity, a run that ends with a sender asleep beside the receiver waiting for its message |
| Ipc.ExactlyOnce | src/common/ipc.c:131-259 | over every run each message taken in is still queued or was given out exactly once, to a process that asked for it and had room; counter and limit hold; senders sleep only while the queue is full; nobody waits for a message that is there |
| IpcOrder.FirstInFirstOut | src/common/ipc.c:131-259 | over every run whose requests are -1 or more, the messages of each type are given out in the order in which they were taken in |
| IpcOrder.SecondFirst | src/common/ipc.c:221-233 | a run in which, of two messages of type 1, a request below -1 takes the second |
| IpcOrder.OrderWhen | src/common/ipc.c:221-233 | a request keeps that order in every run that makes only this request if and only if it is -1 or more |
| MsgQueues.MsgQueue.WalkTurn | src/common/ipc.c:131-149 | one turn of the walk along the receivers' links: past a receiver that does not match, out with the first that fits, or on to the detached node again |
| MsgQueues.MsgQueue.PipelineSend | src/common/ipc.c:131-149 | after any number of turns, for as long as a woken receiver's node stays as it is: the walk has not returned if and only if it needs more turns or the first match is too small; then the match has left the list and is woken at every further turn; otherwise it returns the first match, woken once and off the list, or nothing |
| MsgQueues.MsgQueue.MsgSnd | src/common/ipc.c:159-184 | on the queue object: has not returned exactly while the walk has not, and returns as the specified send does |
| MsgQueues.SendThatStays | src/common/ipc.c:131-184 | two calls after which no number of turns lets the send return |
| MsgQueues.MsgQueue.Wakeup | src/common/ipc.c:190-196 | all sleeping senders are woken in list order |
| MsgQueues.MsgQueue.FindMessage | src/common/ipc.c:221-233 | the loop that changes the request as it goes finds the first match, for a request below -1 the end of its chain, and none exactly when nothing matches |
| MsgQueues.MsgQueue.MsgRcv | src/common/ipc.c:215-259 | the call on the queue object is the specified receive; a receiver that waits is the last of the ring |

## Left out

- Sleep locks of blocks, and the claim that a held block is never evicted: a hit does not set `acquired` (src/fs/cache.c:85-94), so acquire is sequential and only what the flags decide is claimed.
- `cache_sync` without a context, which bypasses the log (src/fs/cache.c:224-225).
- A bound on the cache after commits: blocks are unpinned only in recovery (src/fs/cache.c:139-140).
- BlockCaches.Cache.Acquire: the header block is never acquired, because the code reads and writes it past the cache.
- BlockCaches.Cache.Alloc: asks that the log's blocks are marked as used, because the code would hand them out.
- WalTheorems.NotStranded: says that somebody can always move, not that every thread is eventually scheduled.
- Loops that block (`cache_begin_op`, `sys_msgsnd`) are modelled one turn at a time; the machines run the turns.
- Operations that a client starts are named apart; a thread that runs several operations is several names.
- The order of memory operations and the compare-and-swap loops of src/common/list.c:46-66: push and pop of free stacks are atomic.
- Rings.MergeList: rings are proved at pointer level here, and a message queue's receivers are one; the other lists of the machines and classes are sequences.
- RbTrees.RbRoot.Insert: a node is not inserted while it is in the tree, and `cmp` is a strict order on the nodes.
- Ghost arguments of the tree methods name the tree in memory; the link and colour fields hold what the combined word holds; its alignment bits are not modelled.
- Processes.ProcTable.PickNext: the record has the root queue only (src/kernel/container.c:27-34 leaves the others unlinked); the search through containers is RunQueues.PickInQueue.
- KernelTheorems.StepKeeps: a process runs kernel code uninterrupted between the points named in `Pc`; timer interrupts are the `Yield` steps.
- The pid shown to user code, exit codes, and the memory that `exit` and `wait` give back (src/kernel/proc.c:69-70, 123-126).
- Processes.ProcTable.Kill: finds children of the root only, as the code does.
- Mkfs.Image.IAlloc: asks for an inode number inside the inode area, which the code does not check.
- Directory entries, the super block and the command line of mkfs.
- PageTables.MakeTable: asks for a free page, because the code does not test `kalloc_page` for failure.
- PageTables.PgDir.GetPte: asks for four free pages, because the code does not test `kalloc_page` for failure.
- Page frames of user memory, attaching a directory to the hardware, and the static kernel table.
- Pool.Allocator.KfreePage: takes only pages that no pool was carved from, which is all the code ever gives back.
- The content of allocated blocks (`memset`) and the links inside free blocks.
- Ipc.ExactlyOnce: runs end where a send does not return (Ipc.ReturnsWhen), because the lock is then never released; messages are told apart by number.
- MsgQueues.MsgQueue.PipelineSend: the receiver that a walk stays on has been activated; once it runs, on another CPU, its node is no longer a node, and what the walk then does is not described.
- Message contents and their pages, queue identifiers and removal, and the kill of a blocked sender or receiver (src/common/ipc.c:94-122, 197-210, 268-299).
- The lowest type for a negative request: the code takes the end of a chain of matches instead (Ipc.FindChain, src/common/ipc.c:226-232).
- Drivers, boot, traps, printing and string functions.
