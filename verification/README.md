# BareOS, verified models

BareOS is a small C kernel. This project models the parts of it whose correctness is decided by linked
state, protocols and arithmetic, and proves properties of them for every input and every run.

| files | what they model |
|---|---|
| `Tasks`, `SchedulerModel`, `KernelMemory`, `Scheduler`, `SchedulerRuns`, `Semaphores`, `IdleTask` | the run queues, the sleep queue and the semaphores' waiter lists, all threaded through the same two link fields of a task |
| `Mutex` | the recursive mutex under every interleaving of its loads and stores |
| `DirTree`, `DirRename`, `DirPaths`, `RamFsModel`, `RamFsRuns`, `RamFsOpen`, `RamFsOutcomes`, `RamFs` | the RamFS directory tree in its node array |
| `PathNormalize`, `RelativePaths` | path normalization in a bounded buffer |
| `Numbers`, `Printf` | `vsnprintf`, `atoi`, `strtol` |
| `Checksum`, `Ipv4`, `Arp`, `Sockets` | the Internet checksum, IPv4 header building, checking and delivery, the ARP cache, UDP port binding |
| `WifiAssoc`, `WifiOutcomes`, `WifiRings` | the WiFi association machine and the DMA descriptor rings |
| `Sequences`, `Options` | shared definitions |

The shape is the same throughout. State that the C code updates in place is a class over arrays and link
fields, or over fields that hold sequences. Every method is proved against a function on values, and
the properties are lemmas about those functions and about runs of them. A kernel call is one atomic step on
one CPU, except in `Mutex`, where each load and store of an unlock is a step.

`dafny verify dfyconfig.toml` checks everything.

## Where the code does not do what one would expect

The lemma named first in each item says exactly when the expected property holds.

- A sleeper wakes at the tick it asked for unless the tick counter wraps on the way (`SchedulerRuns.DueWhenAsked`).
- Tasks that only yield make the scheduler alternate between two states, so at most three tasks ever run however many
  are ready (`SchedulerRuns.PeriodTwo`, `SchedulerRuns.QuietRun`). DESIGN.md promises deterministic latency for
  high-priority tasks.
- Waking a task that waits on a semaphore puts it on two lists (`IdleTask.WakeOnePlace`), and initialising a semaphore
  loses its waiters (`SchedulerModel.InitSound`).
- An idle task that sleeps or blocks is in two places at once if nothing is queued (`IdleTask.SleepOnePlace`,
  `IdleTask.WaitOnePlace`), and otherwise as soon as a yield finds nothing queued (`IdleTask.YieldOnePlace`). The
  scheduler's invariant therefore keeps the idle task off the lists.
- A semaphore wakes its waiters last in, first out (`Semaphores.SignalWakes`), so one that came early may wait for as
  long as others keep coming (`Semaphores.LastComesFirst`).
- Renaming a directory below itself strands its whole subtree (`RamFsRuns.RenameResolves`); the rest of the tree is
  unharmed (`RamFsRuns.RenameFrame`). It happens: `RamFs.StrandingHappens`.
- `ramfs_open` creates under the root whatever path was given, so a path that did not resolve leads to the new file only
  if it has one component (`RamFsOpen.OpenPlace`), and other paths are disturbed exactly when they start with a name that was created
  (`RamFsOpen.OpenDisturbs`). It happens: `RamFs.HidingHappens`.
- `ramfs_mkdir` makes one directory too many, inside the one asked for (`RamFsRuns.MkdirPlace`), and `ramfs_rename`
  refuses a destination that does not exist (`RamFsOutcomes.RenameIff`).
- `path_normalize` drops the rest of a path without an error when exactly one byte is left
  (`PathNormalize.AbsoluteOutcome`, `PathNormalize.SilentTruncation`).
- A relative path that climbs above the current directory ends too low unless it climbs all of it away
  (`RelativePaths.RelativePlace`), and its result is seldom in normal form (`RelativePaths.RelativeNormal`).
- `atoi` undoes `%d` except for the smallest int; `strtol` undoes `%x` only below 2^31 (`Printf.PrintThenRead`).
- An ARP entry last learned in the last 300 ticks of a sweep period never expires, any other goes with the next sweep
  (`Arp.Lifetime`), and an answer that was replaced can return (`Arp.StaleReturns`; it happens: `Arp.StaleAnswer`).
  HARDWARE.md gives a 5-minute timeout.
- A bind to port 0 does not test the port it picks (`Sockets.BindDistinct`, `Sockets.EphemeralCollision`).
- HARDWARE.md gives each WiFi state three retries. SCANNING and AUTHENTICATING share three, and every split of them
  occurs (`WifiAssoc.RetriesShared`, `WifiAssoc.RetriesReached`). Eight missed deadlines is the exact bound
  (`WifiAssoc.EightDeadlines`, `WifiAssoc.EightIsReached`). HARDWARE.md's UP and ASSOCIATED are one value in the code.
- A WiFi deadline passes when asked unless the tick counter wraps on the way; if it wraps to zero it never passes
  (`WifiAssoc.DeadlineWhenAsked`), and a scan whose deadline does so never ends (`WifiOutcomes.AssociatesIff`).
- A one-word change of an IPv4 header is caught except for an exchange of 0x0000 and 0xFFFF (`Ipv4.DamageDetected`).

## Model

| member | source | states |
|---|---|---|
| Tasks.Level | kernel/scheduler/scheduler.c:17-19 | a task's run queue is its priority, or 31 for any priority above 31 |
| Tasks.FrontWired | kernel/scheduler/scheduler.c:20-26 | storing a task before a list head gives a doubly linked list of the task and the rest, and touches no other task |
| Tasks.CutWired | kernel/scheduler/scheduler.c:32-40 | joining the neighbours of any element leaves a doubly linked list of the others in order |
| SchedulerModel.Top | kernel/scheduler/scheduler.c:43-52 | the level picked is non-empty and every higher one is empty |
| SchedulerModel.Rest | kernel/scheduler/scheduler.c:82-93 | a tick leaves asleep exactly the sleepers that are not due, without duplicates |
| SchedulerModel.ReleaseLevelled | kernel/scheduler/scheduler.c:82-93 | after a tick a task is queued if and only if it was queued or is a due sleeper, each at its own level and once |
| SchedulerModel.DispatchSound | kernel/scheduler/scheduler.c:98-118 | schedule runs the picked or idle task, leaves it on no list, and keeps the outgoing task placed exactly when it was still running |
| SchedulerModel.ParkAsleep | kernel/scheduler/scheduler.c:54-63 | the running task put to sleep is on the sleep queue and on no other list, and nothing else moves |
| SchedulerModel.ParkWaiting | kernel/sync/sync.c:80-82 | the running task put on a waiter list is on that list alone, and nothing else moves |
| SchedulerModel.WakeSound | kernel/scheduler/scheduler.c:68-77 | waking loses no task, and keeps every task in one place if and only if the task was not waiting on a semaphore |
| SchedulerModel.SignalSound | kernel/sync/sync.c:87-99 | signalling keeps all lists disjoint, loses no task, and takes the first waiter, if any, from its list into its run queue |
| SchedulerModel.SleepSound | kernel/scheduler/scheduler.c:54-66 | sleeping keeps the list invariant, which bars the idle task from every list, and loses no task, if and only if the caller is not the idle task; an idle task that sleeps goes on running, on the sleep queue, if and only if nothing is queued |
| SchedulerModel.WaitSound | kernel/sync/sync.c:67-85 | waiting keeps the list invariant, which bars the idle task from every list, and loses no task, if and only if the caller need not block or is not the idle task |
| SchedulerModel.YieldSound | kernel/scheduler/scheduler.c:98-122 | yielding keeps all lists disjoint; only the idle task can be new among the placed |
| SchedulerModel.InitSound | kernel/sync/sync.c:62-65 | initialising a semaphore keeps the lists sound, and moves no task if and only if none waits on it |
| SchedulerModel.TickSound | kernel/scheduler/scheduler.c:79-96 | a tick keeps all lists disjoint and the set of placed tasks |
| SchedulerModel.StepSound | kernel/scheduler/scheduler.c:17-122 | every kernel call keeps no task in two places or twice in one, and exactly an entered task, or the idle task, is new |
| IdleTask.SleepOnePlace | kernel/scheduler/scheduler.c:54-66 | after task_sleep every task is in at most one place if and only if it was not the idle task that called it with nothing queued |
| IdleTask.WaitOnePlace | kernel/sync/sync.c:67-85 | after semaphore_wait every task is in at most one place if and only if it did not block the idle task with nothing queued |
| IdleTask.WakeOnePlace | kernel/scheduler/scheduler.c:68-77 | after task_wake every task is in at most one place if and only if the task was not waiting on a semaphore |
| IdleTask.YieldOnePlace | kernel/scheduler/scheduler.c:98-122 | a yield keeps every task in at most one place if and only if something is queued or the idle task is on no list |
| SchedulerRuns.RunConserves | kernel/scheduler/scheduler.c:17-122 | the same over every run of calls: nothing is lost, duplicated or invented |
| SchedulerRuns.StaysAsleep | kernel/scheduler/scheduler.c:54-96 | through any run without its own wake-up a sleeper stays asleep at every tick that does not reach its wake time |
| SchedulerRuns.SleepsUntilDue | kernel/scheduler/scheduler.c:54-96 | after task_sleep a task sleeps through every earlier tick of any run, and the first tick that reaches its wake time queues it |
| SchedulerRuns.DueWhenAsked | kernel/scheduler/scheduler.c:58-85 | that tick is the max(1, n)-th if and only if the counter does not wrap before it, or wraps with the very next tick |
| SchedulerRuns.PushPop | kernel/scheduler/scheduler.c:17-52 | putting the picked task back undoes the pick |
| SchedulerRuns.PeriodTwo | kernel/scheduler/scheduler.c:98-118 | three schedules equal one: from the first switch on the whole state alternates between two values |
| SchedulerRuns.OnlyLoserOutranks | kernel/scheduler/scheduler.c:98-118 | after a switch the only queued task that can outrank the running one is the one just switched out |
| SchedulerRuns.QuietRun | kernel/scheduler/scheduler.c:79-122 | in every run of yields and ticks that end no sleep, the state depends only on the parity of the yields, so at most three tasks run |
| SchedulerRuns.WakeMoves | kernel/scheduler/scheduler.c:68-77 | task_wake moves a sleeper, and no other task, from the sleep queue to the front of its run queue; a waiter is queued and still waits; any other task stays where it is |
| SchedulerRuns.ReleaseOrder | kernel/scheduler/scheduler.c:82-93 | sleepers released by one tick come before all others of their level, in the order they went to sleep |
| SchedulerRuns.ForemostRuns | kernel/scheduler/scheduler.c:43-122 | yield, sleep and a blocking wait hand the CPU to the first task of the highest non-empty run queue, or to the idle task if all are empty, and put the caller first on the list it asked for; no other call changes who runs |
| Semaphores.SignalWakes | kernel/sync/sync.c:87-99 | with waiters, semaphore_signal moves the one that came last, and no other task, to the front of its run queue and keeps the count; without, it raises the count by one and moves no task |
| Semaphores.WaitBlocks | kernel/sync/sync.c:67-85 | semaphore_wait takes one from a positive count and moves no task, or else blocks the caller in front of the other waiters and keeps the count |
| Semaphores.StepBalance | kernel/sync/sync.c:62-99 | no call but a signal or a wait on the semaphore changes its count less its waiters, and no call reorders waiters |
| Semaphores.RunBalance | kernel/sync/sync.c:67-99 | in every run the count less the waiters is what it was plus the signals less the waits, and nobody waits while the count is positive |
| Semaphores.InitialisedBalance | kernel/sync/sync.c:62-99 | from semaphore_init with a value that is not negative, in every run that balance decides both the count and how many tasks wait; a negative value breaks this before the first call |
| Semaphores.LastComesFirst | kernel/sync/sync.c:80-93 | last in, first out: in every run a blocked task stays blocked while more tasks wait than came before it |
| KernelMemory.EnqueueWired | kernel/scheduler/scheduler.c:17-27 | the stores of task_enqueue lay out the run queue with the task in front and leave every other list laid out |
| KernelMemory.DequeueWired | kernel/scheduler/scheduler.c:29-41 | the stores of task_dequeue lay out the run queue without the task and leave every other list laid out |
| KernelMemory.HeadLeaves | kernel/scheduler/scheduler.c:43-52 | dequeuing the head of the highest non-empty level lays out the popped queues and clears its links |
| KernelMemory.SleepWiredAfter | kernel/scheduler/scheduler.c:58-63 | the stores of task_sleep lay out the sleep queue with the task in front |
| KernelMemory.UnsleptWired | kernel/scheduler/scheduler.c:86-89 | taking a sleeper out of the middle of the sleep queue lays out the queue without it |
| KernelMemory.WaitWiredAfter | kernel/sync/sync.c:80-82 | the stores of semaphore_wait lay out the waiter list with the task in front |
| KernelMemory.UnwaitWired | kernel/sync/sync.c:91-93 | advancing the waiter pointer lays out the list without its first task |
| KernelMemory.SwitchWired | kernel/scheduler/scheduler.c:109-115 | marking the next task running and requeueing the previous one lays out the new queues |
| KernelMemory.ScheduleFit | kernel/scheduler/scheduler.c:98-118 | schedule turns memory that lays out a state into memory that lays out the dispatched state |
| KernelMemory.SchedulePointers | kernel/scheduler/scheduler.c:98-118 | every pointer schedule follows is null or a known task |
| KernelMemory.EnterFit | kernel/scheduler/scheduler.c:17-27 | enqueuing a task that is nowhere restores the whole memory invariant |
| KernelMemory.SleepReady | kernel/scheduler/scheduler.c:54-65 | after the stores of task_sleep memory is ready for schedule |
| KernelMemory.WaitReady | kernel/sync/sync.c:80-84 | after the stores of semaphore_wait memory is ready for schedule |
| KernelMemory.StateNamesPlace | kernel/scheduler/scheduler.c:17-118 | a task's state names the one place it is in, in both directions for each state |
| Scheduler.Kernel.constructor | kernel/scheduler/scheduler.c:10-15 | empty queues lay out the empty scheduler |
| Scheduler.Kernel.TaskEnqueue | kernel/scheduler/scheduler.c:17-27 | the exact memory after the call |
| Scheduler.Kernel.TaskDequeue | kernel/scheduler/scheduler.c:29-41 | the exact memory after the call |
| Scheduler.Kernel.PickNext | kernel/scheduler/scheduler.c:43-52 | returns the head of the highest non-empty queue, or null, and takes it out |
| Scheduler.Kernel.SwitchTo | kernel/scheduler/scheduler.c:109-115 | the exact memory after the stores of a switch |
| Scheduler.Kernel.Schedule | kernel/scheduler/scheduler.c:98-118 | link fields follow the dispatch of the list state |
| Scheduler.Kernel.TaskYield | kernel/scheduler/scheduler.c:120-122 | link fields follow the yield of the list state |
| Scheduler.Kernel.TaskSleep | kernel/scheduler/scheduler.c:54-66 | link fields follow the sleep of the list state |
| Scheduler.Kernel.TaskWake | kernel/scheduler/scheduler.c:68-77 | link fields follow the wake of the list state: a sleeper moves to its run queue, a released waiter is queued, anything else stays; a task still on a waiter list is enqueued there and then, and no sound list state is left |
| Scheduler.Kernel.SchedulerTick | kernel/scheduler/scheduler.c:79-93 | one pass over the sleep queue, with tasks leaving it on the way, moves exactly the due sleepers, in order |
| Scheduler.Kernel.SemaphoreInit | kernel/sync/sync.c:62-65 | the count and no waiters; the link fields still lay out the lists if and only if nobody was waiting |
| Scheduler.Kernel.SemaphoreWait | kernel/sync/sync.c:67-85 | takes a count or blocks the caller on the waiter list and dispatches |
| Scheduler.Kernel.SemaphoreSignal | kernel/sync/sync.c:87-99 | the link fields follow the specified signal, and the first waiter, if any, is in its run queue |
| Scheduler.Kernel.Execute | kernel/scheduler/scheduler.c:17-122 | any enabled kernel call does to the link fields what its step does to the lists |
| Scheduler.Kernel.Play | kernel/scheduler/scheduler.c:17-122 | the same for every run of calls: all lists stay laid out in the shared link fields |
| Mutex.StepByHolder | kernel/sync/sync.c:28-60 | a move of the holder keeps it the holder or frees the mutex with nothing outstanding |
| Mutex.StepByOther | kernel/sync/sync.c:28-60 | no move of another task changes a held mutex |
| Mutex.StepWhenFree | kernel/sync/sync.c:41-50 | on a free mutex a lock attempt makes the task its holder with one lock, and any other move leaves it free |
| Mutex.StepInv | kernel/sync/sync.c:28-60 | every load and store of every task keeps the invariant |
| Mutex.MutualExclusion | kernel/sync/sync.c:28-60 | in every interleaving at most one task holds the mutex, its count is its locks minus its unlocks, and the mutex is free only when nobody has a lock outstanding |
| Mutex.FreshInv | kernel/sync/sync.c:22-26 | an initialised mutex satisfies the invariant |
| Mutex.UnlockIsItsMoves | kernel/sync/sync.c:53-60 | an uninterrupted unlock is its individual moves in sequence |
| Mutex.AttemptOutcome | kernel/sync/sync.c:28-51 | in every state of every interleaving an attempt fails, changing nothing, if and only if the mutex is locked and the task is not its owner; otherwise the task has one lock more and owns the mutex |
| Mutex.UnlockOutcome | kernel/sync/sync.c:53-60 | an uninterrupted unlock by the holder gives back one lock and frees the mutex with the last; by any other task it changes nothing |
| Mutex.LocksAndUnlocks | kernel/sync/sync.c:22-60 | from a free mutex, n locks and n unlocks by a task leave it free, for every n, and any task that then tries obtains it |
| Mutex.RecursiveMutex.constructor | kernel/sync/sync.c:22-26 | free, without owner, count zero |
| Mutex.RecursiveMutex.TryLock | kernel/sync/sync.c:28-51 | one masked attempt: it fails, changing nothing, if and only if the mutex is locked and the task is not its owner; otherwise the task owns it, once or once more |
| Mutex.RecursiveMutex.Unlock | kernel/sync/sync.c:53-60 | the fields after an uninterrupted unlock, unchanged for a task that is not the owner |
| DirTree.OneParent | fs/ramfs/ramfs.c:57-62 | a node in a child list has that list's node as its parent pointer, so no node is in two lists |
| DirTree.UnlinkedForest | fs/ramfs/ramfs.c:49-53 | joining a node's neighbours lays out its parent's list without it and every other list as before |
| DirTree.FreedForest | fs/ramfs/ramfs.c:44-55 | freeing a node leaves all other lists laid out; its children become detached |
| DirTree.UnlinkedTop | fs/ramfs/ramfs.c:437-443 | unlinking a node whose former parent was just freed disturbs no list |
| DirTree.AttachedForest | fs/ramfs/ramfs.c:446-450 | putting a detached node first under a parent lays out the longer list and every other list as before |
| DirTree.AllocatedForest | fs/ramfs/ramfs.c:36-42 | a zeroed fresh node is a node without children outside every list |
| DirTree.RootOnTop | fs/ramfs/ramfs.c:471-476 | the root is in no list and under no other node |
| DirTree.FreedRooted | fs/ramfs/ramfs.c:44-55 | freeing keeps the tree under the root: linked lists, parents, no cycles |
| DirTree.CreatedRooted | fs/ramfs/ramfs.c:280-290 | creating keeps the tree under the root |
| DirRename.VacatedRooted | fs/ramfs/ramfs.c:427-435 | freeing what stands at the destination keeps the tree and removes only that node from every list |
| DirRename.DetachedRooted | fs/ramfs/ramfs.c:427-443 | with the replaced and the moved node taken out, every list is the old one without those two, even when the replaced node was the moved node's parent |
| DirRename.AttachedRooted | fs/ramfs/ramfs.c:445-450 | moving a node below one that is not under it keeps a tree |
| DirRename.StrandedRooted | fs/ramfs/ramfs.c:423-450 | moving a node below its own descendant leaves exactly the rest as a tree |
| DirRename.UnderDetached | fs/ramfs/ramfs.c:427-443 | taking the two nodes out does not change which nodes are under the moved one |
| DirRename.RenamedRooted | fs/ramfs/ramfs.c:380-453 | ramfs_rename keeps the tree invariant wherever the destination is |
| DirPaths.Find | fs/ramfs/ramfs.c:57-62 | the child found is in the list and has the name |
| DirPaths.VisitsAbove | fs/ramfs/ramfs.c:64-93 | a path that resolves comes only through ancestors of its end |
| DirPaths.WalkSame | fs/ramfs/ramfs.c:57-93 | if two trees answer lookups alike except into a set of nodes, every path that keeps out of the set resolves alike |
| DirPaths.RemovedResolves | fs/ramfs/ramfs.c:44-55 | after freeing a node every path that did not come through it resolves as before |
| DirPaths.RemovedGone | fs/ramfs/ramfs.c:44-55 | after freeing a node no path leads to it |
| DirPaths.RenamedFrame | fs/ramfs/ramfs.c:427-450 | after a rename that keeps the moved node in the tree, every path that came through neither the moved nor the replaced node resolves as before |
| DirPaths.StrandedFrame | fs/ramfs/ramfs.c:423-450 | after a rename below the moved node itself, every path that did not come through that node resolves as before |
| DirPaths.RenamedResolves | fs/ramfs/ramfs.c:427-450 | the destination followed by any q resolves to what the source followed by q resolved to |
| DirPaths.MovesApart | fs/ramfs/ramfs.c:423-450 | a destination that is not under the moved node keeps that node in the tree |
| DirPaths.RenamedFound | fs/ramfs/ramfs.c:423-450 | the destination leads to the moved node if and only if its directory was not under that node |
| DirPaths.CreatedResolves | fs/ramfs/ramfs.c:115-124 | a new first child hides what its name led to and disturbs no other path |
| RamFsModel.Make | fs/ramfs/ramfs.c:36-42 | allocation and entry keep the file system sound and use one slot |
| RamFsModel.MakePath | fs/ramfs/ramfs.c:269-294 | the loop of ramfs_mkdir keeps the file system sound, also when slots run out half-way |
| RamFsModel.Mkdir | fs/ramfs/ramfs.c:260-310 | ramfs_mkdir keeps the file system sound |
| RamFsModel.Open | fs/ramfs/ramfs.c:95-135 | ramfs_open keeps the file system sound and forgets no node |
| RamFsModel.Free | fs/ramfs/ramfs.c:44-55 | freeing a linked node keeps the file system sound |
| RamFsModel.WalkDown | fs/ramfs/ramfs.c:64-93 | a path with components ends at a child, with the last component as its name, of where the path without it ends |
| RamFsModel.Rmdir | fs/ramfs/ramfs.c:312-343 | ramfs_rmdir keeps the file system sound, also on the root |
| RamFsModel.Unlink | fs/ramfs/ramfs.c:345-378 | ramfs_unlink keeps the file system sound, also when it orphans children of a regular file |
| RamFsModel.Move | fs/ramfs/ramfs.c:427-450 | the stores of ramfs_rename keep the file system sound |
| RamFsModel.MovableSource | fs/ramfs/ramfs.c:415-435 | the tests of ramfs_rename establish what its stores need: in particular the node replaced is not the node moved |
| RamFsModel.Rename | fs/ramfs/ramfs.c:380-453 | ramfs_rename keeps the file system sound |
| RamFsRuns.ClimbBack | fs/ramfs/ramfs.c:57-93 | parent pointers undo resolution: as many steps up as the path has components lead back |
| RamFsRuns.FreeResolves | fs/ramfs/ramfs.c:44-62 | after removal other paths resolve as before and none leads to the node |
| RamFsRuns.RmdirResolves | fs/ramfs/ramfs.c:312-343 | a successful ramfs_rmdir removed the empty directory the path led to; no path leads to it, and paths that did not come through it resolve as before |
| RamFsRuns.UnlinkResolves | fs/ramfs/ramfs.c:345-378 | a successful ramfs_unlink removed the file, no directory, the path led to; no path leads to it, and paths that did not come through it resolve as before |
| RamFsRuns.RenameResolves | fs/ramfs/ramfs.c:380-453 | after a successful ramfs_rename whose destination directory was not under the moved node, newpath/q leads where oldpath/q led, for every q; and newpath leads to the moved node if and only if that condition holds |
| RamFsRuns.RenameFrame | fs/ramfs/ramfs.c:380-453 | after any successful ramfs_rename every path that came through neither the moved nor the replaced node resolves as before |
| RamFsRuns.StaysResolves | fs/ramfs/ramfs.c:421 | the early return is right: the destination already leads to the node |
| RamFsRuns.MakePathKeeps | fs/ramfs/ramfs.c:269-294 | making missing directories disturbs no path that resolved |
| RamFsRuns.MakePathLeads | fs/ramfs/ramfs.c:269-294 | after the loop of ramfs_mkdir the path leads to the node it stands at |
| RamFsRuns.MkdirPlace | fs/ramfs/ramfs.c:260-310 | after a successful ramfs_mkdir the path leads to a directory, and path/last, which led nowhere before, to an extra new empty one; one directory was made for each component that did not resolve, and that one; whatever resolved still does |
| RamFsOpen.OpenMade | fs/ramfs/ramfs.c:114-128 | once ramfs_open has created, what it returns is a child of the root |
| RamFsOpen.OpenPlace | fs/ramfs/ramfs.c:95-135 | a path that ramfs_open opened leads to what it returned if and only if it resolved before or has at most one component |
| RamFsOpen.OpenExisting | fs/ramfs/ramfs.c:95-135 | a path that resolves is opened unchanged; without the create flag ramfs_open is resolution |
| RamFsOpen.ResolvingIs | fs/ramfs/ramfs.c:102-114 | the components counted as resolving are the longest prefix that resolves |
| RamFsOpen.OpenMakes | fs/ramfs/ramfs.c:114-128 | ramfs_open makes exactly the components after that prefix, as far as there are free nodes, each as a file in the root |
| RamFsOpen.OpenDisturbs | fs/ramfs/ramfs.c:95-135 | a path that resolved resolves as before after ramfs_open if and only if its first component is not among those made |
| RamFsOutcomes.UnlinkIff | fs/ramfs/ramfs.c:345-378 | ramfs_unlink succeeds if and only if the path has components, has no trailing slash and leads to a file, which is what it removes; refused, it changes nothing |
| RamFsOutcomes.RmdirIff | fs/ramfs/ramfs.c:312-343 | ramfs_rmdir succeeds if and only if the path leads to a directory and no longer path leads anywhere; refused, it changes nothing |
| RamFsOutcomes.RenameIff | fs/ramfs/ramfs.c:380-453 | ramfs_rename succeeds if and only if both paths lead somewhere, the source has components and no trailing slash, and either both lead to one node or the destination is not right inside the source and is a file or has nothing below it; refused, it changes nothing |
| RamFsOutcomes.MkdirIff | fs/ramfs/ramfs.c:260-310 | ramfs_mkdir succeeds if and only if the path leads to a directory or nowhere, path/last leads nowhere and there are nodes for all it makes; even refused, it disturbs no path that led somewhere |
| RamFsOutcomes.OpenIff | fs/ramfs/ramfs.c:95-135 | ramfs_open succeeds if and only if the path leads somewhere, or it may create and there is a node for each component from the first that leads nowhere |
| RamFsOutcomes.UnlinkUndoesOpen | fs/ramfs/ramfs.c:95-378 | a file created in the root can be unlinked, and then every path leads where it led before |
| RamFsOutcomes.AfterMkdir | fs/ramfs/ramfs.c:260-378 | after ramfs_mkdir of a path, ramfs_unlink and ramfs_rmdir of it are refused and change nothing; ramfs_rmdir of the directory inside succeeds and, if the path led somewhere before, restores every path |
| RamFsRuns.Run | fs/ramfs/ramfs.c:95-453 | every run of open, mkdir, rmdir, unlink and rename, successful or not, keeps the nodes under the root a tree |
| RamFs.Clip | fs/ramfs/ramfs.c:76-78 | a name is cut to its first 255 bytes |
| RamFs.Mounted | fs/ramfs/ramfs.c:471-485 | the mounted file system is sound |
| RamFs.EveryRun | fs/ramfs/ramfs.c:95-485 | after every run from the mounted state each node a path leads to has a well-formed child list and its parent pointers lead back to the root |
| RamFs.StrandingHappens | fs/ramfs/ramfs.c:260-453 | from the mounted state, mkdir bin/x and renaming bin to bin/x/x succeeds with the destination under the moved node |
| RamFs.HidingHappens | fs/ramfs/ramfs.c:95-135 | from the mounted state, creating x and then bin/x makes the path x lead to another file |
| RamFs.FileSystem.constructor | fs/ramfs/ramfs.c:471-485 | the array holds the root and /bin |
| RamFs.FileSystem.JoinNeighbours | fs/ramfs/ramfs.c:49-53 | the exact array after the stores |
| RamFs.FileSystem.FreeNode | fs/ramfs/ramfs.c:44-55 | the exact array after the call, pointers in range |
| RamFs.FileSystem.AddFirst | fs/ramfs/ramfs.c:445-450 | the exact array after the stores |
| RamFs.FileSystem.FindChild | fs/ramfs/ramfs.c:57-62 | the sibling walk terminates with the first child of that name, or NULL |
| RamFs.FileSystem.Create | fs/ramfs/ramfs.c:281-289 | a new first child, or NULL and no change when all 64 nodes are used |
| RamFs.FileSystem.Locate | fs/ramfs/ramfs.c:353-377 | the node of a path with components and no trailing slash, or NULL |
| RamFs.FileSystem.ResolveParent | fs/ramfs/ramfs.c:64-93 | the directory and last name of a path that resolves, NULL otherwise |
| RamFs.FileSystem.Rmdir | fs/ramfs/ramfs.c:312-343 | array, lists and result are those of the specified call |
| RamFs.FileSystem.Unlink | fs/ramfs/ramfs.c:345-378 | array, lists and result are those of the specified call |
| RamFs.FileSystem.Relink | fs/ramfs/ramfs.c:427-450 | array and lists after the stores of ramfs_rename |
| RamFs.FileSystem.Rename | fs/ramfs/ramfs.c:380-453 | array, lists and result are those of the specified call |
| RamFs.FileSystem.Mkdir | fs/ramfs/ramfs.c:260-310 | array, lists and result are those of the specified call |
| RamFs.FileSystem.Open | fs/ramfs/ramfs.c:95-135 | array, lists and result are those of the specified call |
| PathNormalize.OutputClean | fs/vfs/vfs.c:13-65 | every successful output for an absolute path, cut short or not, is in normal form: no empty, dot or dot-dot component |
| PathNormalize.Idempotent | fs/vfs/vfs.c:13-65 | normalizing the output for an absolute path again gives it back, for every buffer size and also when it was cut short |
| PathNormalize.Compositional | fs/vfs/vfs.c:13-65 | for a path that fits, normalizing a prefix first makes no difference to the result |
| PathNormalize.DotsMean | fs/vfs/vfs.c:38-56 | what a path means: x/.. and . go nowhere, above the root is the root, a name goes one down |
| PathNormalize.LoopEvaluates | fs/vfs/vfs.c:30-58 | the in-place loop is a stack machine on the components it reads, on top of any earlier output, which each climb above it cuts; with the exact error and stopping conditions |
| PathNormalize.AbsoluteOutcome | fs/vfs/vfs.c:13-65 | every outcome for absolute paths: an error if the components read cost n or more, else what they mean; right if and only if those already mean the whole path; always right when the cost, popped components included, is at most n - 2 |
| PathNormalize.SilentTruncation | fs/vfs/vfs.c:30-63 | a family of two-component paths whose second component is dropped without an error |
| RelativePaths.RelativeOutcome | fs/vfs/vfs.c:20-63 | every outcome for relative paths from any current directory: the exact error condition, and otherwise the components read on top of what the climbs left of the directory |
| RelativePaths.CutDirectory | fs/vfs/vfs.c:43-50 | the directory's text after u climbs: each removes one slash and what follows it, down to the last leading slash |
| RelativePaths.DirectoryKept | fs/vfs/vfs.c:302-311 | a change of directory, along any path and cut short or not, leaves text that starts with a slash and has no dot or dot-dot component |
| RelativePaths.EveryDirectory | fs/vfs/vfs.c:300-318 | the same for every sequence of changes of directory from the root |
| RelativePaths.RelativePlace | fs/vfs/vfs.c:13-65 | from every directory a chdir can leave, what was read of a relative path leads to the right place if and only if nothing climbs above the directory or the climbs use all of it up, counted in slashes; a path that fits is read to its end |
| RelativePaths.RelativeNormal | fs/vfs/vfs.c:13-65 | from every such directory, exactly when the result is the normal form of what was read |
| RelativePaths.AgainIsNormal | fs/vfs/vfs.c:302-311 | whatever the path, normalizing the output once more gives its normal form |
| PathNormalize.SkipSlashes | fs/vfs/vfs.c:31 | stops at the next character that is no slash, with the same components ahead |
| PathNormalize.NameEnd | fs/vfs/vfs.c:34-36 | the end of the component |
| PathNormalize.DropLast | fs/vfs/vfs.c:44-47 | the backward scan leaves the output up to its last slash |
| PathNormalize.Append | fs/vfs/vfs.c:53-55 | copies in place and leaves the rest of the buffer |
| PathNormalize.TakeComponent | fs/vfs/vfs.c:38-56 | one component does to buffer, position and remaining room what the specification says |
| PathNormalize.TakeComponents | fs/vfs/vfs.c:30-58 | the whole loop, inside the first n bytes |
| PathNormalize.StoreDirectory | fs/vfs/vfs.c:20-28 | a relative path starts from the current directory and a slash, or fails |
| PathNormalize.Terminate | fs/vfs/vfs.c:60-63 | an empty output becomes the root, and a terminator follows |
| PathNormalize.Store | fs/vfs/vfs.c:13-65 | returns success and a terminated result exactly as specified, and writes past out_size if and only if that is 1 |
| Numbers.DigitsValue | libc/stdio/stdio.c:155-162 | the digits printed stand for the number, in base 10 and 16 |
| Numbers.AccumulateValue | libc/stdlib/stdlib.c:64-73 | the 32-bit loop computes the number wrapped once at the end and reads every digit |
| Numbers.AtoiUndoesDecimal | libc/stdlib/stdlib.c:27-37 | atoi undoes the decimal rendering if and only if the number is not the smallest int |
| Numbers.StrtolUndoesHex | libc/stdlib/stdlib.c:52-76 | strtol in base 16 reads the whole hexadecimal rendering and undoes it if and only if it is below 2^31 |
| Numbers.AtoiReads | libc/stdlib/stdlib.c:27-37 | after any blanks and at most one sign atoi reads all decimal digits, whatever follows, as the number wrapped to 32 bits |
| Numbers.StrtolReads | libc/stdlib/stdlib.c:52-76 | likewise strtol, in the base given, or for base 0 in base 16 after 0x or 0X, 8 after a leading 0, and 10 otherwise; it ends after the last digit |
| Numbers.DigitsShaped | libc/stdio/stdio.c:155-162 | digits are printed in lower case and without leading zeros |
| Numbers.SkipBlanks | libc/stdlib/stdlib.c:29 | skips spaces and tabs |
| Numbers.ReadInt | libc/stdlib/stdlib.c:27-37 | the loop of atoi returns the specified value |
| Numbers.ReadBase | libc/stdlib/stdlib.c:58-63 | base 0 is 16 after 0x, 8 after 0, else 10 |
| Numbers.ReadDigits | libc/stdlib/stdlib.c:64-73 | the digit loop returns the specified value and end position |
| Numbers.ReadLong | libc/stdlib/stdlib.c:52-76 | strtol returns the specified value and end position |
| Printf.SignedShort | libc/stdio/stdio.c:152-155 | ten characters hold any int, so the digit buffer is never overrun |
| Printf.HexShort | libc/stdio/stdio.c:160-162 | eight characters hold any unsigned |
| Printf.FillDecimal | libc/stdio/stdio.c:152-155 | fills the digit buffer with the reversed digits, the smallest int included |
| Printf.FillHex | libc/stdio/stdio.c:159-162 | fills the digit buffer with the reversed hexadecimal digits |
| Printf.PutString | libc/stdio/stdio.c:149 | appends as much of a string as fits |
| Printf.PutDigits | libc/stdio/stdio.c:157 | appends as much of the reversed buffer as fits |
| Printf.PutDecimal | libc/stdio/stdio.c:150-157 | appends as much of the decimal rendering as fits |
| Printf.PutArg | libc/stdio/stdio.c:146-165 | appends as much of the argument's rendering as fits, by conversion |
| Printf.PutNext | libc/stdio/stdio.c:144-174 | one turn of the loop appends the next item of the format |
| Printf.Vsnprintf | libc/stdio/stdio.c:138-178 | stores exactly the first min(size - 1, length) characters of the full rendering and a terminator, touches nothing else, and returns that length; arguments are needed only as far as there is room |
| Printf.PrintThenRead | libc/stdio/stdio.c:150-163 | reading back what %d and %x print gives the number if and only if it is not the smallest int, respectively below 2^31 |
| Printf.FullJoin | libc/stdio/stdio.c:143-175 | formats one after the other print one after the other |
| Printf.PlainText | libc/stdio/stdio.c:169-171 | text without % prints as it is |
| Printf.Conversions | libc/stdio/stdio.c:146-168 | %s prints the string, or (null), %c the character, %d, %i and %x digits that stand for the number, and % before any other character that character |
| Checksum.Fold | kernel/net/net.c:179 | the folded sum has 16 bits and is zero only for zero |
| Checksum.FoldClosed | kernel/net/net.c:179 | the fold is 0 for 0 and otherwise the residue modulo 65535 in 1..65535 |
| Checksum.TwoRounds | kernel/net/net.c:179 | two rounds fold any 32-bit sum |
| Checksum.FoldSwaps | kernel/net/net.c:172-181 | folding byte-swapped words is byte-swapping the fold, for even and odd lengths (section 2(B) of RFC 1071) |
| Checksum.SumFits | kernel/net/net.c:173-178 | up to 131072 bytes the 32-bit sum does not overflow |
| Checksum.Checksum16 | kernel/net/net.c:172-181 | the loop returns the complement of the fold of the wrapped sum, and of the true sum up to 131072 bytes |
| Checksum.EndAroundCarry | kernel/net/net.c:179 | the carry loop computes the fold |
| Checksum.SameStoredBytes | kernel/net/net.c:172-181 | the two bytes stored are those of the network-order definition in section 1 of RFC 1071 |
| Ipv4.OutputAccepted | kernel/net/net.c:239-256 | every header ipv4_output writes sums to 0xFFFF and passes every test of ipv4_input |
| Ipv4.HeaderFields | kernel/net/net.c:246-255 | the header with its checksum field zero carries every field where section 3.1 of RFC 791 puts it |
| Ipv4.FieldsDetermine | kernel/net/net.c:246-255 | those fields determine every byte but the checksum |
| Ipv4.OutputDelivered | kernel/net/net.c:217-256 | what ipv4_output writes, ipv4_input on any interface hands to the handler of its protocol, if it has one and the packet was sent to that interface or to everyone, and drops otherwise |
| Ipv4.AcceptsIff | kernel/net/net.c:188-215 | exactly the IPv4 packets with a header of at least twenty bytes, no longer than received, and with words that add up to all ones (section 1 of RFC 1071) pass, unless the checksum field itself is all ones |
| Ipv4.DamageDetected | kernel/net/net.c:210-215 | changing one word after the first keeps the checksum test passing if and only if it exchanges 0x0000 and 0xFFFF outside the checksum field |
| Ipv4.WriteHeader | kernel/net/net.c:245-256 | the twenty bytes carry length, identification, "do not fragment", time to live, protocol and both addresses in network order, pass the tests of ipv4_input, and no other byte changes |
| Ipv4.StoreFixed | kernel/net/net.c:246-253 | the first twelve bytes |
| Ipv4.StoreAddress | kernel/net/net.c:254-255 | an address in network order |
| Ipv4.CheckHeader | kernel/net/net.c:187-215 | accepts exactly the packets that pass the field tests and the checksum test, and changes only the checksum field |
| Ipv4.Input | kernel/net/net.c:187-236 | ipv4_input gives the packet to the specified handler, with the data after the header, and changes only the checksum field |
| Ipv4.PacketDecides | kernel/net/net.c:194-212 | when the header length is within the packet, acceptance depends on the bytes of the packet alone |
| Arp.Slot | kernel/net/net.c:341-342 | the slot written is the first that is free or holds the address |
| Arp.LearnIsUpdate | kernel/net/net.c:340-364 | learning is a map update of exactly one key, or nothing when every slot holds another address |
| Arp.StepInv | kernel/net/net.c:160-170 | every event keeps the ageing invariant |
| Arp.RunInv | kernel/net/net.c:160-170 | every run keeps the ageing invariant |
| Arp.NoEarlyDrop | kernel/net/net.c:160-170 | in every run an entry that disappears was last learned more than 300 ticks before |
| Arp.Lifetime | kernel/net/net.c:160-170 | over every run that does not learn it again an entry is there until the next sweep after it was last learned, and beyond it, for ever, if and only if that was in the last 300 ticks of a period |
| Arp.LearnDuplicates | kernel/net/net.c:340-350 | learning makes a second slot for an address if and only if a free slot precedes its first |
| Arp.SweepForgets | kernel/net/net.c:160-170 | without duplicates a sweep forgets exactly the addresses whose entry has expired |
| Arp.HoleBeforeImmortal | kernel/net/net.c:160-170 | a run that leaves a free slot before an entry learned at tick 800 of a period |
| Arp.AfterSweep | kernel/net/net.c:160-364 | what the next sweep leaves of an answer just learned: itself if learned late in the period, otherwise the first lasting entry behind it |
| Arp.StaleIff | kernel/net/net.c:160-364 | for every table, a replaced answer comes back at the next sweep if and only if the new one was learned in the first 700 ticks and the first entry for the address behind its slot that outlives the sweep holds another answer |
| Arp.StaleReturns | kernel/net/net.c:160-364 | the same in every reachable state, in terms of when the answers were learned |
| Arp.StaleAnswer | kernel/net/net.c:160-364 | a run in which it happens, first over a free slot and then again over a slot of the address itself |
| Arp.ArpCache.constructor | kernel/net/net.c:82-84 | an empty table |
| Arp.ArpCache.LearnSender | kernel/net/net.c:340-350 | the table after learning a sender, unchanged for address 0 |
| Arp.ArpCache.Resolve | kernel/net/net.c:355-364 | the first match, or none |
| Arp.ArpCache.NetTick | kernel/net/net.c:160-170 | counts to 1000, then sweeps and starts over |
| Sockets.StepInv | kernel/net/net.c:439-568 | every call keeps sockets distinct, ports in range and one reference each |
| Sockets.BindDistinct | kernel/net/net.c:466-489 | a bind keeps all bound pairs distinct if and only if it names a port or the counter's port is free |
| Sockets.BindOutcome | kernel/net/net.c:466-489 | a bind to a named port succeeds if and only if no other socket is bound to the pair, and then a lookup of the pair finds the socket; refused, it changes nothing |
| Sockets.BindElsewhere | kernel/net/net.c:466-489 | no other pair finds the socket any more, and those that did not find it find what they found |
| Sockets.CounterCycles | kernel/net/net.c:479-482 | over every run the counter goes through the ports 1024 to 65535 in turn |
| Sockets.NamedPortsDistinct | kernel/net/net.c:439-568 | in every run whose binds name a port no two bound sockets share an address and port |
| Sockets.EphemeralRange | kernel/net/net.c:479-482 | in every run a bind to port 0 succeeds, and these ports are handed out in turn from 1024 to 65535 and around |
| Sockets.EphemeralCollision | kernel/net/net.c:479-482 | a run in which two sockets end up bound to the same pair |
| Sockets.FindSound | kernel/net/net.c:570-577 | a lookup finds a socket bound to the pair whenever there is one, and only then |
| Sockets.FindOrderFree | kernel/net/net.c:570-577 | with distinct pairs the answer does not depend on list order |
| Sockets.CreateOutcome | kernel/net/net.c:439-464 | a new socket is listed and changes no lookup |
| Sockets.CloseOutcome | kernel/net/net.c:541-577 | a closed socket is found by no lookup, and lookups that did not find it find what they found |
| Sockets.SocketTable.constructor | kernel/net/net.c:12-13 | no sockets, ephemeral ports from 1024 |
| Sockets.SocketTable.BindTo | kernel/net/net.c:466-489 | state and result of the specified bind |
| Sockets.SocketTable.Close | kernel/net/net.c:541-568 | the list without the socket |
| Sockets.SocketTable.FindUdp | kernel/net/net.c:570-577 | the first match, or none |
| WifiAssoc.DeadlineWhenAsked | drivers/wifi/wifi.c:179-185 | a deadline passes when asked and no sooner if and only if the tick counter does not wrap on the way; it never passes if and only if the counter wraps to zero there; otherwise it has passed at once |
| WifiAssoc.StepPatience | drivers/wifi/wifi.c:171-352 | every event keeps the retry bound and pays for an expired deadline out of the measure |
| WifiAssoc.PatienceRunsOut | drivers/wifi/wifi.c:171-352 | over every run of one attempt, expirations are bounded by the drop of the measure |
| WifiAssoc.EightDeadlines | drivers/wifi/wifi.c:288-352 | from a successful wifi_assoc, in any interleaving, at most eight deadlines expire and retries never exceed three |
| WifiAssoc.EightIsReached | drivers/wifi/wifi.c:288-352 | a run with exactly eight after a successful wifi_assoc |
| WifiAssoc.RetriesShared | drivers/wifi/wifi.c:288-352 | over every run of one attempt the retries in SCANNING and in AUTHENTICATING sum to at most three |
| WifiAssoc.RetriesReached | drivers/wifi/wifi.c:288-352 | every split of three or fewer between the two does occur after a successful wifi_assoc |
| WifiAssoc.IntoAssociating | drivers/wifi/wifi.c:477-498 | ASSOCIATING is entered only by a good authentication response in AUTHENTICATING |
| WifiAssoc.IntoAssociated | drivers/wifi/wifi.c:500-514 | ASSOCIATED is entered, other than by wifi_init, only by a good association response in ASSOCIATING |
| WifiAssoc.FailedIsFinal | drivers/wifi/wifi.c:171-177 | FAILED is left only by wifi_stop |
| WifiAssoc.AssociatedMeansHandshake | drivers/wifi/wifi.c:210-251 | in every run from a successful wifi_assoc without wifi_stop, ASSOCIATED means an authentication response (algorithm 0, sequence 2, status 0; section 12.3.3.2 of IEEE Std 802.11-2016) and then an association response with status 0 were accepted |
| WifiOutcomes.FromScanning | drivers/wifi/wifi.c:288-352 | SCANNING is left for AUTHENTICATING exactly when the deadline passes with the network heard, for FAILED exactly when it passes unheard with no retry left, for DOWN by wifi_stop |
| WifiOutcomes.FromAuthenticating | drivers/wifi/wifi.c:477-498 | AUTHENTICATING is left for ASSOCIATING exactly by a good response, for FAILED exactly by any other response or the last missed deadline, for DOWN by wifi_stop |
| WifiOutcomes.FromAssociating | drivers/wifi/wifi.c:500-514 | ASSOCIATING is left for ASSOCIATED exactly by a good response, for FAILED exactly by any other response or the last missed deadline, for DOWN by wifi_stop |
| WifiOutcomes.FromAssociated | drivers/wifi/wifi.c:242-247 | ASSOCIATED is left for FAILED exactly by a deauthentication or disassociation from bssid, for SCANNING exactly by wifi_assoc on an open network, for DOWN by wifi_stop |
| WifiOutcomes.FromRest | drivers/wifi/wifi.c:540-591 | DOWN is left only by wifi_init, for ASSOCIATED or FAILED as it succeeds or fails, and FAILED only by wifi_stop |
| WifiOutcomes.MissedOnce | drivers/wifi/wifi.c:288-352 | a missed deadline that is not the last uses up one retry and starts the time of the phase over |
| WifiOutcomes.FailureClears | drivers/wifi/wifi.c:171-177 | a failed attempt leaves no deadline and no retries behind |
| WifiOutcomes.AssocCode | drivers/wifi/wifi.c:593-611 | wifi_assoc returns 0 exactly when it starts an attempt, -1 exactly when the driver is not up, -2 exactly when the network is not open |
| WifiOutcomes.HeardIff | drivers/wifi/wifi.c:452-475 | a probe response with any elements is taken for the network exactly when one carries its name; an empty name is overlooked in the last |
| WifiOutcomes.AssociatesIff | drivers/wifi/wifi.c:210-611 | a successful wifi_assoc can lead to ASSOCIATED if and only if its deadline does not fall on the wrap of the tick counter; if it does, no run leaves SCANNING without wifi_stop |
| WifiAssoc.Driver.constructor | drivers/wifi/wifi.c:10-18 | the driver starts DOWN |
| WifiAssoc.Driver.MgmtPass | drivers/wifi/wifi.c:288-352 | one pass of the management task is one step of the machine |
| WifiAssoc.Driver.Heard | drivers/wifi/wifi.c:452-475 | the element walk terminates and finds the network's name if and only if an element carries it |
| WifiAssoc.Driver.Receive | drivers/wifi/wifi.c:210-251 | a received management frame is one step of the machine |
| WifiAssoc.Driver.Associate | drivers/wifi/wifi.c:593-611 | state and return code of wifi_assoc |
| WifiRings.FullIff | drivers/wifi/wifi.c:622-627 | the slot after the window is marked if and only if the window is the whole ring |
| WifiRings.SendAppends | drivers/wifi/wifi.c:613-636 | a frame is accepted if and only if the link is up, it fits and fewer than eight are pending; it is appended, and no descriptor the engine owns is written |
| WifiRings.CompleteBeheads | drivers/wifi/wifi.c:149-154 | a completion in ring order is that of the oldest pending frame |
| WifiRings.TxIsFifo | drivers/wifi/wifi.c:613-636 | in every run the transmit ring is a FIFO of capacity eight |
| WifiRings.TxInitEmpty | drivers/wifi/wifi.c:149-154 | after initialisation the queue is empty |
| WifiRings.ArriveSignalled | drivers/wifi/wifi.c:516-526 | a completed frame is appended with one signal, or dropped when all eight descriptors are full |
| WifiRings.TakeSignalled | drivers/wifi/wifi.c:253-286 | a receive pass finds a completed descriptor and takes the oldest frame |
| WifiRings.RxStepSignalled | drivers/wifi/wifi.c:253-286 | every step keeps as many completed descriptors as signals plus the token held; the task waits only while there is no frame, and the next to arrive lets it go on |
| WifiRings.RxInOrder | drivers/wifi/wifi.c:253-286 | in every run each completed frame is taken exactly once and in order |
| WifiRings.RxInitEmpty | drivers/wifi/wifi.c:141-147 | after initialisation nothing is completed and nothing signalled |
| WifiRings.TxRing.constructor | drivers/wifi/wifi.c:149-154 | all descriptors belong to the CPU |
| WifiRings.TxRing.Transmit | drivers/wifi/wifi.c:613-636 | ring and result of the specified send |
| WifiRings.RxRing.constructor | drivers/wifi/wifi.c:141-147 | all descriptors belong to the engine |
| WifiRings.RxRing.TakeFrame | drivers/wifi/wifi.c:257-284 | ring and frame of the specified receive pass |

## Left out

- Scheduler.Kernel.TaskSleep: link fields are not followed when the idle task calls it; IdleTask.SleepOnePlace says what then breaks. The idle task is a parameter, since no file assigns it, and is not null.
- Scheduler.Kernel.SemaphoreWait: link fields are not followed when the idle task blocks; IdleTask.WaitOnePlace says what then breaks.
- Scheduler.Kernel.SemaphoreInit: semaphores are addresses in a map, and their counts do not overflow.
- SchedulerRuns.RunConserves: runs exclude waking a waiter, initialising a semaphore under its waiters and parking the idle task, whose effects InitSound and the lemmas of IdleTask state; STOPPED tasks are not entered.
- Scheduler.Kernel.SchedulerTick: the call of net_tick is modelled in Arp, on its own.
- Scheduler.Kernel.Schedule: the context switch itself, interrupt masking, a second CPU, and an interrupt between the last store of semaphore_wait and its call of schedule.
- Mutex.RecursiveMutex.TryLock: the retry loop of mutex_lock is repeated attempts in the interleaving model; fairness and the calls made without a current task are not modelled.
- RamFs.FileSystem.Rename: the name buffers hold whole names; a component of exactly 255 bytes leaves the C buffer unterminated, and a destination or directory without components uses whatever the buffer held, which is a parameter.
- RamFs.FileSystem.Open: file data, times, modes beyond directory or regular, and the open-file record.
- PathNormalize.Store: null arguments.
- Printf.Vsnprintf: size 0 and, while there is room, a format ending in a lone percent sign or arguments that do not match their conversions are undefined in the C code; int negation and accumulation wrap in 32 bits.
- Arp.ArpCache.LearnSender: addresses are numbers, and only the learning part of arp_input is modelled, not its reply.
- Ipv4.CheckHeader: the code does not compare the header length with the packet's; when it is longer, the bytes summed are those that follow in memory, which the buffer is taken to hold.
- Ipv4.Input: buffers and headroom; the handlers themselves, and the length they are given.
- Sockets.SocketTable.Close: receive queues, locks, memory and descriptors of sockets; every socket has one reference.
- WifiAssoc.Driver.Heard: an element that runs past the end of the frame does not match; the channel element is ignored.
- WifiRings.RxInOrder: one signal per completed frame, as the hardware is described; frame contents beyond their bytes, and the management ring.
- The memory allocator, pipes, file descriptors and mount matching.
- RamFS file data and directory listing.
- The UDP checksum, ICMP, ARP replies and packet buffers.
- Management frame contents, flash, PSRAM and the other drivers, devfs, flashfs, signals, traps, user programs.
- syscall_sleep, which never links its task, and task exit.
