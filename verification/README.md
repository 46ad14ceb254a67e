# Garret-OS: a verified model of the kernel's state machines

Garret-OS is a small RISC-V kernel. This project models, in Dafny, the parts of it in
which many operations must keep one invariant together, and proves those invariants over
every run: the stride scheduler on its in-place skew heap, the delta-encoded timer list,
fork/wait/exit/kill and the process tree, pid allocation, semaphores with their wait
queues, the Hoare monitor and the dining philosophers on top of both, the best-fit page
allocator, Sv39 page tables with reference counts and the range walks over them, FIFO
swapping, the list of memory areas, and ELF segment loading.

`dafny verify dfyconfig.toml` checks the whole project.

## How it is built

Code that changes things in place is modelled by classes and methods with loops, each
proved against a specification function on values; the theorems are then proved about
those functions, about step systems built from them, or are the methods' own contracts.
Kernel code is not preempted (`kernel/trap/trap.c:175-180` reschedules only on the way
back to user mode), so the step systems are cut at `schedule()`. An `ASSERT` whose
failure the model rules out appears as an `assert`; one that can fail is an outcome of
the method.

| file | models |
|---|---|
| `Prelude.dfy`, `Words.dfy`, `Sets.dfy` | shared definitions; 32- and 64-bit arithmetic, rounding; counting sets |
| `SkewTree.dfy`, `SkewHeap.dfy` | the skew heap as a value, and with its parent and child pointers; the run queue |
| `Scheduling.dfy` | process states, run queue and strides over whole runs |
| `SchedEffects.dfy` | what each step of the scheduler does to whom |
| `Agreement.dfy` | run-queue agreement over every run, whatever the strides |
| `StaleStrides.dfy` | wakeups outside the stride window |
| `Starvation.dfy` | passes of zero |
| `Timers.dfy` | the timer list |
| `Ring.dfy`, `Semaphore.dfy` | list rings and wait queues, and semaphores on them |
| `Monitor.dfy` | the monitor for any number of processes and conditions |
| `Table.dfy`, `PhilSem.dfy`, `PhilMonitor.dfy` | N dining philosophers, with semaphores and with the monitor |
| `Pids.dfy`, `TreeLinks.dfy`, `ProcTree.dfy`, `Life.dfy` | pids, the sibling-linked process tree, the process life cycle |
| `LifeEffects.dfy` | what each step of the life cycle does to whom |
| `FreeRuns.dfy`, `BestFit.dfy` | the free list as a value, and with page descriptors |
| `PageTable.dfy`, `Paging.dfy`, `RangeWalk.dfy`, `CopyWalk.dfy` | the three-level walk, mapping operations, `del_range`, `copy_range` |
| `Swap.dfy` | swapping for one address space |
| `Vma.dfy` | memory areas |
| `Segment.dfy` | loading one PT_LOAD segment |

## What the code does that its documentation does not say

- `add_wait_queue` passes `add_list` its first two arguments in swapped order. A third
  waiter on one semaphore makes the middle one drop out of the queue, for good
  (`Ring.JoinKeepsAll`, `Semaphore.NeverLostIffAtMostTwo`, `Semaphore.ThirdWaiterLost`).
- Strides are compared by signed difference, which orders two strides correctly exactly
  when they differ by less than 2^31 (one way also at 2^31). A process that wakes with
  an old stride, or at the stride 0 of a new process, can be outside that window, and
  then the scheduler passes over the true minimum: six steps from boot lead there
  (`StaleStrides.StaleStrideMisleads`). `StaleStrides.WakePickExact` says for every
  wakeup exactly when the next pick is minimal. The theorems about strides over whole
  runs assume at each wakeup that the stride fits the window; run-queue agreement
  (`Agreement.AlwaysAgrees`) does not.
- A priority above 2^30 gives a pass of 0 (`Scheduling.PassBound`). In a fixed company of
  two or more contenders, waiting is bounded if and only if nobody has such a priority
  (`Starvation.WaitingBoundedIff`): with one, some contender is sooner or later picked
  at every `schedule`. Seven steps from boot lead to such a state, at a tie of strides
  (`Starvation.RaisedStarves`).
- `vm_map` answers a request that overlaps an area with -E_INVAL only when the request's
  first byte is in an area; otherwise the assertion in `add_vma` fails
  (`Vma.ClashMeansStart`, `Vma.OverlapTwoWays`). A length whose end wraps around passes
  its bounds check when the address is not page-aligned (`Vma.MapCovers`,
  `Vma.WrappedLengthAccepted`).
- The re-parenting loop of `do_exit` ends if and only if it is not init that exits, or
  init has no child (`TreeLinks.ExitEndsIff`). Nothing keeps a child from killing init
  while init waits for it, and then the kernel hangs there (`Life.InitExitReached`).
- The walks step 512 bytes, not 512 pages, where a table is missing. They still visit
  every page and stop at the end (`RangeWalk.DelRange`, `CopyWalk.CopyRange`).
- A page fault gives PTE_R and PTE_W together, for VMA_WRITE only. In an area without
  that flag no access to a page ever succeeds, not even a load, and a fault on a page
  that is resident there can fail the assertion of `swap_in`
  (`Swap.Space.HandlePageFault`, `Swap.Space.Read`).

## Model

| member | source | states |
|---|---|---|
| SkewTree.CompExact | kernel/proc/stride_scheduler.c:8-14 | for true strides less than 2^32 apart, the wrapped 32-bit comparison has the sign of the true difference exactly when the difference lies in the signed 32-bit range |
| SkewTree.MergeItems | lib/skew_heap.h:18-46 | merging keeps exactly the items of both heaps, with multiplicity |
| SkewTree.RemoveItems | lib/skew_heap.h:53-67 | deleting any item of the heap removes exactly one occurrence of it |
| SkewTree.MergeOrdered | lib/skew_heap.h:18-46 | merging two heaps ordered by true stride within a window below 2^31 gives a heap ordered by true stride, although only wrapped strides are compared |
| SkewTree.RemoveOrdered | lib/skew_heap.h:53-67 | deleting any item keeps heap order by true stride |
| SkewTree.RootMinimal | lib/skew_heap.h:18-67 | the root has the least true stride of all items |
| SkewHeap.MergeInPlace | lib/skew_heap.h:18-46 | the pointer merge builds exactly the value-level merge: acyclic, each node once, children's parent pointers right, the result's own parent pointer untouched, and no other node's fields changed |
| SkewHeap.AddInPlace | lib/skew_heap.h:48-51 | the heap gains exactly the new node; its root's parent is null |
| SkewHeap.DeleteInPlace | lib/skew_heap.h:53-67 | deleting any node, root or inner, leaves a well-linked heap with null root parent equal to the value-level removal |
| SkewHeap.RemoveNodesExact | lib/skew_heap.h:53-67 | in a well-linked heap removal takes out exactly the node asked for |
| SkewHeap.RunQueue.Enqueue | kernel/proc/stride_scheduler.c:31-37 | the process joins the heap, the count stays the number of nodes, and its time slice is reset exactly when 0 or above the maximum |
| SkewHeap.RunQueue.Dequeue | kernel/proc/stride_scheduler.c:41-45 | exactly that process leaves the heap, and the count follows |
| SkewHeap.RunQueue.PickNext | kernel/proc/stride_scheduler.c:53-59 | the root is returned and its stride grows by its pass modulo 2^32 while it is still in the heap; links unchanged |
| SkewHeap.RunQueue.Schedule | kernel/proc/schedule.c:65-82 | requeue, pick and dequeue together leave a well-linked heap equal to the specification of one scheduling step; need_resched of the current process is cleared, its used-up time slice is filled again when it is requeued, every slice in the queue and of the process picked is between 1 and the maximum, and no other slice or priority changes |
| SkewHeap.RunQueue.ProcTick | kernel/proc/stride_scheduler.c:64-69 | a tick takes one from a slice that is not used up, and asks for a reschedule exactly when none is left; idle always gives way |
| Scheduling.BootInv | kernel/proc/schedule.c:35-46 | the invariant holds at boot |
| Scheduling.PickIsMinimal | kernel/proc/schedule.c:65-82 | schedule runs idle exactly when nobody contends, otherwise a contender whose true stride is minimal, even after the stored strides overflowed |
| Scheduling.PickThenDequeue | kernel/proc/stride_scheduler.c:41-59 | raising the root's key while it is in the heap is harmless: dequeuing it leaves the merge of its subtrees |
| Scheduling.ScheduleKeeps | kernel/proc/schedule.c:65-82 | a scheduling step keeps the invariant, and the picked stride becomes the new base of the window |
| Scheduling.StepKeeps | kernel/proc/schedule.c:13-82 | create, wake, schedule, block, tick, priority change and reap each keep the invariant |
| Scheduling.RunKeepsInvariant | kernel/proc/schedule.c:13-82 | over every run: the heap holds, once each, the processes that are RUNNABLE, not current and not idle; num_proc is their number; queued time slices are between 1 and the maximum; keys are true strides modulo 2^32, in heap order, within BIG_STRIDE of each other |
| Scheduling.WindowSpread | kernel/proc/stride_scheduler.c:5-14 | in every such state any two of the queued processes and the current one are at most BIG_STRIDE apart |
| Scheduling.RunStride | kernel/proc/stride_scheduler.c:53-59 | over a run, a process's true stride grows by its pass for each time it was picked |
| Scheduling.ProportionalShare | kernel/proc/stride_scheduler.c:53-59 | for two processes with equal starting strides and fixed priorities, picks times pass differ by at most BIG_STRIDE at the end of every run |
| Scheduling.BoundedBypass | kernel/proc/stride_scheduler.c:53-59 | while a process stays queued, another with non-zero pass is picked at most BIG_STRIDE / pass + 1 times |
| Scheduling.EventuallyPicked | kernel/proc/schedule.c:65-82 | with nobody new arriving, a queued process is passed over at most as many times as the total slack of the others |
| Scheduling.SlackBound | kernel/proc/stride_scheduler.c:53-59 | each other process's slack is at most BIG_STRIDE / pass + 1 |
| Scheduling.WaitsAtMostSum | kernel/proc/stride_scheduler.c:53-59 | while a process waits in a fixed company, schedule is called at most the sum over the company of BIG_STRIDE / pass + 1 times |
| Scheduling.PassBound | kernel/proc/stride_scheduler.c:57 | a pass is between 0 and BIG_STRIDE, and 0 exactly for priorities above BIG_STRIDE |
| SchedEffects.TickEffect | kernel/proc/stride_scheduler.c:64-69 | a tick takes one from the current slice, if idle does not run and one is left, and changes nothing else |
| SchedEffects.CreateEffect | kernel/proc/proc.c:117-141 | a new process has priority 1, stride 0 and no slice, and does not compete yet |
| SchedEffects.BlockEffect | kernel/proc/proc.c:377-401 | a process that blocks no longer competes, and all others do as before |
| SchedEffects.BlockedThenWoken | kernel/proc/schedule.c:49-63 | a process that blocked can be woken if and only if it sleeps |
| SchedEffects.BlockedThenReaped | kernel/proc/proc.c:412-427 | after the next schedule it is not current, and can be reaped if and only if it exited |
| SchedEffects.WakeEffect | kernel/proc/schedule.c:49-63 | the woken process, and no other, joins those that compete, with its stride and priority |
| SchedEffects.PriorityEffect | kernel/proc/proc.c:752-755 | a priority is set as asked, 0 as 1, and nothing else changes |
| SchedEffects.ReapEffect | kernel/proc/proc.c:412-427 | the zombie is gone and the others compete as before |
| SchedEffects.RescheduleKeeps | kernel/proc/schedule.c:65-82 | schedule changes no state or priority, and no slice but the requeued one's, which is full again if it was used up |
| SchedEffects.RescheduleStrides | kernel/proc/schedule.c:65-82 | schedule changes no stride but that of the process it picks |
| SchedEffects.PickedPass | kernel/proc/stride_scheduler.c:53-59 | that stride grows by q with q * priority <= BIG_STRIDE < (q + 1) * priority |
| Agreement.NextAgrees | kernel/proc/schedule.c:13-82 | every step keeps run-queue agreement, a wakeup with any stride included |
| Agreement.RunAgrees | kernel/proc/schedule.c:13-82 | so does every run |
| Agreement.AlwaysAgrees | kernel/proc/schedule.c:13-82 | in every state reachable from boot, without any assumption on strides: the heap holds, at most once, exactly the processes that are RUNNABLE, not current and not idle; num_proc is their number; queued time slices are between 1 and the maximum |
| StaleStrides.WakePickExact | kernel/proc/schedule.c:49-82 | in every state that meets the invariant, after waking a process whose stride is anywhere, the next pick is minimal if and only if the wrapped comparisons of the root with it, and of the winner with a requeued current process, come out as WakesWell says |
| StaleStrides.WakesWellRange | kernel/proc/stride_scheduler.c:8-14 | for strides less than 2^32 apart that condition is: root minus woken in the i32 range, and current minus woken at most 2^31 |
| StaleStrides.FittingWakesWell | kernel/proc/schedule.c:49-63 | the window assumption made for whole runs implies it |
| StaleStrides.StaleStrideMisleads | kernel/proc/schedule.c:49-82 | a legal run from boot after which waking a new process makes schedule pick one at 3 * 2^30 instead of the new one at 0 |
| Starvation.TieWins | lib/skew_heap.h:25-45 | a current process whose stride is no higher than any queued one is picked again |
| Starvation.ZeroPassStarves | kernel/proc/stride_scheduler.c:53-59 | a process with priority above 2^30 that is below all other contenders, or current and no higher, is picked at each of any number of calls of schedule, and everyone else waits |
| Starvation.ReachesMonopoly | kernel/proc/stride_scheduler.c:53-59 | from every state with a contender of pass 0, wherever its stride is, finitely many calls of schedule lead to a state of that kind |
| Starvation.BoundHolds | kernel/proc/stride_scheduler.c:53-59 | without a pass of 0, the sum of BIG_STRIDE / pass + 1 over the contenders bounds every wait in every run in which the same processes compete |
| Starvation.WaitingBoundedIff | kernel/proc/stride_scheduler.c:53-59 | in a fixed company of two or more, waiting is bounded if and only if no contender has a priority above 2^30 |
| Starvation.RaisedStarves | kernel/proc/stride_scheduler.c:53-59 | a legal run from boot to a state in which one process is picked at every later schedule while another waits at the same stride |
| Timers.AddRefines | kernel/proc/schedule.c:85-103 | inserting into the delta list is setting that timer's ticks left in a plain map |
| Timers.DelRefines | kernel/proc/schedule.c:106-122 | deleting from the delta list removes that timer from the map, present or not |
| Timers.TickRefines | kernel/proc/schedule.c:125-153 | a tick lowers every entry of the map by one and fires exactly those at 1 |
| Timers.RunRefines | kernel/proc/schedule.c:85-153 | under every interleaving of the three, the prefix sums of the delta list equal the map |
| Timers.FiresOnTime | kernel/proc/schedule.c:85-153 | a timer that is not deleted fires on exactly the t-th following tick |
| Timers.TimerList.AddTimer | kernel/proc/schedule.c:85-103 | the loop computes the insertion; the head delta stays non-zero and no u32 subtraction wraps |
| Timers.TimerList.DelTimer | kernel/proc/schedule.c:106-122 | the stores compute the deletion; the u32 addition does not wrap |
| Timers.TimerList.RunTimers | kernel/proc/schedule.c:125-153 | the assertion on the head holds, and the loop fires exactly the timers due, in the order of the list |
| Ring.ListEmpty | kernel/lib/list.h:17-19 | true exactly for a ring of one |
| Ring.InsertBetween | kernel/lib/list.h:22-27 | between consecutive entries of a ring, the result is the ring with the entry there |
| Ring.Unlink | kernel/lib/list.h:30-33 | taking an entry out leaves the ring of the others |
| Ring.AddWaitQueue | kernel/sync/wait.c:16-20 | with prev and next swapped, the ring reached from the head is the new waiter followed by the last old one only |
| Ring.JoinKeepsAll | kernel/sync/wait.c:16-20 | no waiter is dropped if and only if at most one was queued |
| Ring.WaitQueueFirst | kernel/sync/wait.c:44-49 | the first waiter, or null for an empty queue |
| Ring.DelFirst | kernel/sync/wait.c:22-26 | the queue without its first waiter |
| Semaphore.Semaphore.constructor | kernel/sync/sem.c:8-11 | an empty ring and nobody asleep |
| Semaphore.Semaphore.DoDown | kernel/sync/sem.c:27-40 | on the pointer ring: one step of the semaphore's step system; it blocks exactly at value 0, and then the ring is the newcomer and the last waiter |
| Semaphore.Semaphore.DoUp | kernel/sync/sem.c:13-25 | on the pointer ring: one step of the step system; the wait structure taken out is the first, its process was put to sleep here (the assertion holds), its link is reset and its wakeup_state is WAIT_SEM |
| Semaphore.Semaphore.ResumeDown | kernel/sync/sem.c:42-48 | a process that up has woken has nothing to take out of the queue, and the assertion on wakeup_state holds |
| Semaphore.Semaphore.TryDown | kernel/sync/sem.c:51-62 | is down exactly if that would not block, and otherwise changes nothing |
| Semaphore.Semaphore.Perform | kernel/sync/sem.c:13-49 | any legal run of down and up on the ring ends in the state the step system computes, so what is proved of its runs holds of the pointers |
| Semaphore.TokensConserved | kernel/sync/sem.c:13-49 | over every run, value plus passages equals the initial sum plus the number of ups |
| Semaphore.LostForever | kernel/sync/wait.c:16-20 | a blocked process that is out of the queue stays blocked whatever follows |
| Semaphore.NeverLostIffAtMostTwo | kernel/sync/wait.c:16-20 | over a run no waiter is ever lost if and only if at most two are blocked at any time |
| Semaphore.ThirdWaiterLost | kernel/sync/wait.c:16-20 | a concrete run in which the third waiter makes another be lost |
| Monitor.FreshInv | kernel/sync/monitor.c:7-20 | an initialised monitor satisfies the invariant |
| Monitor.EnterKeeps | kernel/sync/test_phi.c:188 | entering through the mutex keeps the invariant |
| Monitor.LeaveKeeps | kernel/sync/test_phi.c:195-198 | leaving through next or mutex keeps the invariant |
| Monitor.WaitKeeps | kernel/sync/monitor.c:35-44 | wait_cond keeps the invariant, and the caller blocks on its condition |
| Monitor.SignalKeeps | kernel/sync/monitor.c:23-31 | signal_cond keeps the invariant; it does nothing if and only if the count is 0, otherwise the signaller waits on next |
| Monitor.ResumeKeeps | kernel/sync/monitor.c:23-44 | a woken process that runs again becomes the active one |
| Monitor.RunKeepsInvariant | kernel/sync/monitor.c:23-44 | over every run, for any processes and conditions: mutex, next and condition tokens plus woken and active processes are 1; a token in next or in a condition has someone pending for it; count and next_count are the numbers of pending waiters and signallers |
| Monitor.MutualExclusion | kernel/sync/monitor.c:23-44 | in every reachable state, an active process is the only one holding the token |
| Table.Neighbours | kernel/sync/test_phi.c:16-22 | left and right are inverse, and differ from the seat itself with two or more seats |
| PhilSem.GrantKeeps | kernel/sync/test_phi.c:90-97 | turning a philosopher EATING keeps the invariant and wakes him if he sleeps |
| PhilSem.StepKeeps | kernel/sync/test_phi.c:90-113 | each step of take_forks and put_forks keeps the invariant |
| PhilSem.RunKeepsInvariant | kernel/sync/test_phi.c:90-113 | every interleaving keeps it |
| PhilSem.HungryJustified | kernel/sync/test_phi.c:90-113 | when the mutex is free, a hungry philosopher has an eating neighbour |
| PhilSem.Safety | kernel/sync/test_phi.c:90-113 | for N seats in every reachable state: neighbours do not both eat; from the return of take_forks to put_forks a philosopher is EATING; at a free mutex each hungry one has an eating neighbour; who sleeps for forks is hungry and can be woken |
| PhilSem.OthersStep | kernel/sync/test_phi.c:90-113 | what others do never changes a philosopher but by waking him or letting him eat |
| PhilSem.StepsPerMeal | kernel/sync/test_phi.c:90-113 | over every interleaving, a philosopher who has taken n steps of his own has ended at least (n - 9) / 13 and at most (n + 3) / 10 meals |
| PhilSem.MealAlone | kernel/sync/test_phi.c:99-113 | with nobody else about, ten steps take a philosopher through one meal and leave everything as it was, so the bound of 10 is met |
| PhilMonitor.CountIs | kernel/sync/test_phi.c:187-199 | a seat's condition count is 1 exactly while its philosopher waits on it, else 0 |
| PhilMonitor.NextCountBound | kernel/sync/test_phi.c:178-212 | next_count is at most 1 |
| PhilMonitor.GrantFinds | kernel/sync/test_phi.c:178-185 | a neighbour turned EATING has condition count exactly 1 and is first in its queue, so the signal is not lost |
| PhilMonitor.StepKeeps | kernel/sync/test_phi.c:178-212 | each step keeps the invariant of the philosophers and of the monitor |
| PhilMonitor.RunKeepsInvariant | kernel/sync/test_phi.c:178-212 | every interleaving keeps it |
| PhilMonitor.HungryJustified | kernel/sync/test_phi.c:178-212 | when the monitor is free, a hungry philosopher has an eating neighbour |
| PhilMonitor.Safety | kernel/sync/test_phi.c:178-212 | the same safety as with semaphores, and next_count at most 1 |
| PhilMonitor.OthersStep | kernel/sync/test_phi.c:178-212 | what others do never changes a philosopher but by waking him or letting him eat |
| PhilMonitor.StepsPerMeal | kernel/sync/test_phi.c:178-212 | over every interleaving, a philosopher who has taken n steps of his own has ended at least (n - 9) / 15 and at most (n + 3) / 10 meals |
| Pids.FirstFreeUnique | kernel/proc/proc.c:244-268 | the first free pid in cyclic order is unique, so the specification of the scan determines its result |
| Pids.PidTable.Scan | kernel/proc/proc.c:251-265 | the restarting scan terminates, by cyclic distance to a free pid then the rest of the list, at the first free pid, with no live pid strictly between prev_pid and next_pid |
| Pids.PidTable.AllocPid | kernel/proc/proc.c:244-268 | the pid returned is in [1, MAX_PID), held by nobody and the first free one after the previous, on the scan-free path too |
| Pids.PidTable.Fork | kernel/proc/proc.c:272-305 | -E_NO_FREE_PROC exactly above the process limit, -E_NO_MEM exactly when memory then fails, both without touching list or window; otherwise lists a new pid different from all others |
| Pids.PidTable.Reap | kernel/proc/proc.c:422-427 | taking a process out of the list keeps the window sound |
| TreeLinks.DescendsFromRoot | kernel/proc/proc.c:83-104 | in a well-formed tree, parent pointers lead from every process to idle |
| TreeLinks.OnlyInParentsChain | kernel/proc/proc.c:83-104 | each process is in one place of one sibling chain only |
| TreeLinks.LinkedTree | kernel/proc/proc.c:83-90 | linking a new process puts it first in its parent's chain and keeps a tree |
| TreeLinks.UnlinkedTree | kernel/proc/proc.c:93-104 | unlinking a childless process takes exactly it out of its parent's chain and keeps a tree |
| TreeLinks.MovedTree | kernel/proc/proc.c:467-476 | one round of the re-parenting loop moves the first child to the front of init's chain, with the rest still linked |
| TreeLinks.ExitEndsIff | kernel/proc/proc.c:467-481 | the loop of do_exit ends after some number of turns if and only if the exiting process is not init or init has no child |
| TreeLinks.InitExitNeverEnds | kernel/proc/proc.c:467-481 | for init itself a round changes nothing, so the loop does not end |
| ProcTree.ProcTable.SetInit | kernel/proc/proc.c:715-720 | the first process created is a child of idle and older than all others to come |
| ProcTree.ProcTable.SetLinks | kernel/proc/proc.c:83-90 | set_links of a child of any living process keeps the tree, the list, g_num_proc = list length + 1, init as the eldest and zombies childless |
| ProcTree.ProcTable.RemoveLinks | kernel/proc/proc.c:93-104 | remove_links of any zombie keeps them too and takes exactly it out of its parent's chain |
| ProcTree.ProcTable.GiveChildrenToInit | kernel/proc/proc.c:458-481 | do_exit of any process but idle and init keeps them too: the loop ends with a childless zombie and its children, reversed, ahead of init's previous ones |
| Life.BootInv | kernel/proc/proc.c:698-725 | idle and init alone satisfy the invariant |
| Life.ExitKeeps | kernel/proc/proc.c:458-484 | exit with re-parenting of zombies and the wakeups of parent and init keeps the invariant, for init too; with a child left, init's exit hangs the kernel, which takes no further step |
| Life.StepKeeps | kernel/proc/proc.c:377-488 | fork, wait, reap, exit, kill, sleep, timers, semaphores and scheduling each keep it |
| Life.RunKeepsInvariant | kernel/proc/proc.c:377-488 | every run keeps it |
| Life.NoLostChildWakeup | kernel/proc/proc.c:377-433 | in every reachable state wait_state is set exactly for sleepers, and a process asleep in do_wait has a child its request is about and none of those is a zombie |
| Life.NeverWakesZombie | kernel/proc/schedule.c:49-50 | no step hands wakeup_proc a zombie; everyone in a semaphore's queue is in WAIT_SEM, so the assertion of up holds; a timer finds its process in an interruptible wait |
| Life.InitExitReached | kernel/proc/proc.c:404-410 | a legal run from boot to init in do_wait, killed, with a living child, whose next step, do_exit, hangs the kernel |
| LifeEffects.ForkEffect | kernel/proc/proc.c:272-305 | the child, and nobody else, becomes a child with that pid of the process that forks, is runnable, and all other processes and what they can wait for stay |
| LifeEffects.ReapEffect | kernel/proc/proc.c:377-433 | the zombie, a child of the caller, is gone; every other process and every other match of a wait stays |
| LifeEffects.KillEffect | kernel/proc/proc.c:684-696 | the process is marked, and runs again exactly if it sleeps in do_wait or do_sleep; nobody else changes |
| LifeEffects.ExitEffect | kernel/proc/proc.c:458-484 | a process other than init is a zombie without children, init has its children, and the parent or init runs again if it waited for a child and has got a zombie; nobody else's state, parent or pid changes |
| LifeEffects.InitExitEffect | kernel/proc/proc.c:458-484 | init is a zombie that keeps its children, and the kernel hangs if and only if there is one |
| LifeEffects.SleepEffect | kernel/proc/proc.c:377-401 | do_wait, do_sleep and down put the caller, and nobody else, to sleep, with the wait state, timer or queue entry of that call |
| LifeEffects.WakeEffect | kernel/proc/schedule.c:49-63 | up and a timer make their process, and nobody else, runnable, and take it out of the queue or its timer off |
| LifeEffects.TurnEffect | kernel/proc/schedule.c:65-82 | schedule changes only who is current; the return from a call only ends it, with its timer taken off |
| LifeEffects.ChildStays | kernel/proc/proc.c:377-484 | over every run in which the parent does not exit and the child is not reaped, the child remains one its parent can wait for |
| LifeEffects.ForkedChildStays | kernel/proc/proc.c:272-305 | so what a process forks it can wait for, by 0 and by pid |
| FreeRuns.CanonicalUnique | kernel/mm/best_fit_pmm.c:32-100 | the set of free pages determines the free list |
| FreeRuns.CarveFree | kernel/mm/best_fit_pmm.c:47-58 | allocation takes exactly the pages handed out from the free set |
| FreeRuns.ReleaseFree | kernel/mm/best_fit_pmm.c:61-100 | freeing adds exactly the block's pages to the free set |
| FreeRuns.ReleaseAbove | kernel/mm/best_fit_pmm.c:61-100 | freeing a block in use gives again the ascending list of maximal runs |
| FreeRuns.AllocThenFree | kernel/mm/best_fit_pmm.c:32-100 | allocating and freeing a block restores the list exactly |
| FreeRuns.FreeOrderIrrelevant | kernel/mm/best_fit_pmm.c:61-100 | freeing two blocks in either order gives the same list |
| FreeRuns.TotalCounts | kernel/mm/best_fit_pmm.c:28-29 | the total of the run lengths is the number of free pages |
| BestFit.Allocator.constructor | kernel/mm/best_fit_pmm.c:20-29 | init_memmap makes one run with its head marked; exactly the pages outside it are reserved |
| BestFit.Allocator.FindBest | kernel/mm/best_fit_pmm.c:36-46 | the scan finds the lowest-addressed of the smallest runs that suffice, or none exists |
| BestFit.Allocator.AllocPages | kernel/mm/best_fit_pmm.c:32-59 | NULL if and only if no run suffices; otherwise the first pages of the best run; the list stays the ascending maximal runs, num_free its size, and PAGE_PROPERTY and property mark exactly run heads |
| BestFit.Allocator.FreePages | kernel/mm/best_fit_pmm.c:61-100 | for a block in use the assertions hold, and the list, marks and num_free become those of the larger free set |
| PageTable.SplitThenJoin | kernel/mm/page.h:47-66 | joining the parts of an address gives its lowest 39 bits back |
| PageTable.JoinThenSplit | kernel/mm/page.h:47-66 | splitting a joined address gives its parts back |
| PageTable.EntryParts | kernel/mm/pmm.h:103-110 | an entry's frame and flags are those it was made from; PTE_V is its lowest bit |
| PageTable.EntryUnique | kernel/mm/pmm.c:248 | valid, of this frame and with these bits besides PTE_V: only one entry word is |
| PageTable.TranslateIsFlat | kernel/mm/pmm.c:404-526 | the reference walk translates each user address as the flat map says, or to 0 |
| PageTable.LeafStore | kernel/mm/pmm.c:236-264 | a store into a leaf table changes the flat map at exactly one page of one address space |
| PageTable.NewMid | kernel/mm/pmm.c:142-151 | a new zeroed middle table changes no entry of any space |
| PageTable.NewLeaf | kernel/mm/pmm.c:153-162 | a new zeroed leaf table changes no entry of any space |
| Paging.Mmu.GetPte | kernel/mm/pmm.c:142-163 | returns the slot that holds the flat map's word; NULL when creating only if memory is exhausted; the flat map, frames in use and their contents unchanged |
| Paging.Mmu.AddPage | kernel/mm/pmm.c:236-251 | the flat map is updated at that one key, by a valid entry of the frame with every other bit as asked, or on -E_NO_MEM not at all; no free frame is lost; every ref equals the number of valid entries; a replaced frame is freed exactly when that was its last entry |
| Paging.Mmu.DelPage | kernel/mm/pmm.c:254-264 | the key is cleared if it was valid, nothing else changes, and the frame is freed exactly when this was its last entry |
| Paging.Mmu.AllocPageGpte | kernel/mm/pmm.c:267-281 | on success a frame that was free, with this one entry, which is valid and has every other bit as asked, and ref 1; on failure the map is as before; no other free frame is lost |
| Paging.Mmu.AllocGpt | kernel/proc/proc.c:161-171 | a new address space without user pages whose root table is a copy of the boot table, others unaffected; on failure nothing changes |
| RangeWalk.Passed | kernel/mm/pmm.c:169-178 | a step of 512 bytes or of a page passes no page but the one it starts at |
| RangeWalk.DelRange | kernel/mm/pmm.c:165-179 | exactly the valid entries of the range are cleared, all other words of all spaces stay, the walk ends exactly at the end, and frames are freed exactly when their last entry goes |
| CopyWalk.CopyPage | kernel/mm/pmm.c:212-229 | one page: add_page cannot fail here, the copy is a frame nothing else maps, with the same contents and the user flags |
| CopyWalk.CopyRange | kernel/mm/pmm.c:198-233 | on success each valid source page of the range, and nothing else, is mapped in the target to its own frame, distinct from the source's, with equal contents and user flags; the source keeps its entries and contents, and both spaces all their tables; on failure, which happens only with no frame left, the same up to the address reached |
| Swap.EncodeTells | kernel/mm/swap.h:39-47 | swap entries, valid entries and 0 are told apart, a valid entry gives its frame and flags back and a swap entry its page's slot, within bounds |
| Swap.SlotWritten | kernel/mm/swap.h:49-55 | writing a page's slot changes that page on disk and no other page's |
| Swap.Space.SwapOut | kernel/mm/swap.c:38-58 | the victim is a resident page that no resident page was loaded before; what the user sees does not change |
| Swap.Space.AllocPage | kernel/mm/pmm.c:51-69 | with at least one frame the loop ends with a frame, the assertion of fifo_swap_out_page holds, and no page becomes resident |
| Swap.Space.HandlePageFault | kernel/mm/vmm.c:174-213 | outside the areas -E_INVAL and nothing changes; otherwise the page becomes resident and newest in load order, with PTE_V set, and PTE_R and PTE_W if and only if its area is writable, and what the user sees changes only by a page first touched; the assertion of swap_in fails only on a page that was resident |
| Swap.Space.Read | kernel/mm/vmm.c:174-213 | a load succeeds if and only if the page's area is writable, after one fault exactly when the page was not resident, and returns the byte the user should see |
| Swap.Space.Write | kernel/mm/vmm.c:174-213 | a store succeeds if and only if the page's area is writable, after one fault exactly when the page was not resident, and changes one byte of what the user sees |
| Swap.Run | kernel/mm/swap.c:38-75 | for any number of slots and at least one frame, over any sequence of accesses to writable areas, each load returns the value last stored at its byte |
| Swap.OldestLast | kernel/mm/fifo_swap.c:21-30 | the last element of the list, which holds each resident page once in load order, is the longest resident |
| Vma.FindUnique | kernel/mm/vmm.c:116-137 | an area of the list that holds an address is the one the search finds, so the cache agrees |
| Vma.NeighboursSuffice | kernel/mm/vmm.c:139-161 | the two neighbour checks pass if and only if the new area overlaps no area of the list |
| Vma.InsertedSorted | kernel/mm/vmm.c:146-161 | the list stays sorted and disjoint |
| Vma.Vmm.FindVma | kernel/mm/vmm.c:116-137 | with its cache, finds exactly what an uncached search finds, and remembers it |
| Vma.Vmm.AddVma | kernel/mm/vmm.c:146-161 | the assertions hold if and only if the area is non-empty and overlaps none, and then it is inserted in order |
| Vma.Vmm.VmMap | kernel/mm/vmm.c:52-73 | -E_INVAL exactly for ranges out of bounds or with an area at their first byte; a failed assertion exactly for other overlaps; otherwise the rounded range is inserted |
| Vma.CheckVmm | kernel/mm/vmm.c:328-348 | true if and only if the range is non-empty, within bounds without wrap-around, and each byte lies in an area of the list whose write flag is set, and not in the first page of a stack, or for reading in one whose read flag is set; for a null vmm, in kernel bounds |
| Vma.ByteOkMeans | kernel/mm/vmm.c:336-341 | the test on the area found for a byte comes out true exactly if the list has an area with that byte and permission |
| Vma.ClashMeansStart | kernel/mm/vmm.c:60-67 | among ranges whose first byte is free, the assertion fails exactly where an area starts inside |
| Vma.OverlapTwoWays | kernel/mm/vmm.c:60-67 | an area and two overlapping requests, one answered -E_INVAL and one by a failed assertion |
| Vma.MapCovers | kernel/mm/vmm.c:52-57 | an accepted range covers the bytes asked for if and only if their end does not wrap, and then it is the least range of whole pages that does |
| Vma.WrappedLengthAccepted | kernel/mm/vmm.c:52-57 | a wrapping length that is accepted |
| Segment.Loader.FillPage | kernel/proc/proc.c:561-575 | one iteration never copies past its page and leaves all pages so far right |
| Segment.Loader.ClearTail | kernel/proc/proc.c:578-591 | the rest of the last file page is cleared, and the assertion at line 590 holds |
| Segment.Loader.LoadSegment | kernel/proc/proc.c:554-606 | succeeds exactly when there are frames for the pages it touches and for the page tables missing on the way; maps each page the segment touches once, in order, and changes no other; all its bytes are right |
| Segment.SharedTables | kernel/mm/page.h:47-66 | two pages share a middle table, as counted here, exactly if their root indices agree, and a leaf table exactly if their middle indices agree too |
| Segment.ByteLoaded | kernel/proc/proc.c:554-606 | after that, each address of the segment holds the file's byte, or 0 beyond the file size |
| Segment.LogAt | kernel/proc/proc.c:561-605 | the log of mappings has page k at position k, so no page is mapped twice |

## Left out

- Trap entry, context switch, CSRs, SBI calls, TLB flushes, timer hardware, console output and panic text are not modelled.
- free_range, del_vmas, del_vmm, free_gpt and kernel malloc/free accounting: tables are not reclaimed, so there is no conservation law to state.
- The pid hash lists, wakeup_queue and wakeup_first, syscall dispatch, do_execve, trapframes, string and number formatting.
- Shifts and masks of addresses and entries are written as division, remainder and multiplication by powers of two.
- `add_list` on the timer list, the free list, the process list and the replacement list is modelled by sequences; the rings are in Ring and Semaphore.
- The `struct run_queue*` in a process, which stride_dequeue asserts, is not a field of the model; membership in the heap stands for it.
- Semaphore.Semaphore.DoUp: the i32 value does not overflow in the model, because the model's value is unbounded; putting the woken process on the run queue is in Scheduling and Life.
- Scheduling.StepKeeps: assumes at each wakeup that the woken process's stride fits the window, because the code does not ensure it (StaleStrides.StaleStrideMisleads); the run-queue part is in Agreement without it, and what one wakeup outside the window does is in StaleStrides.
- Scheduling.RunKeepsInvariant: assumes the same at each wakeup of the run.
- Monitor results are safety only: with three or more waiters on one semaphore the kernel can lose one, so no liveness is claimed.
- Pids.PidTable.Fork: whether the memory allocations in do_fork succeed is a parameter.
- Life.StepKeeps: which zombie do_wait(0) takes first and which waiters a semaphore queue loses are left open; that the exit of init with a child does not end is a flag of the state here and is proved in TreeLinks.ExitEndsIff.
- ProcTree.ProcTable.SetLinks: processes are named by addresses in a map of link fields rather than by object references; do_exit's wakeups and the exit of init are in Life.
- Paging.Mmu.AddPage: ref is unbounded, because the entries of all address spaces are fewer than 2^32 for fewer than 2^13 spaces; which free frame alloc_page takes is left open (BestFit says which).
- Paging.Mmu.GetPte: user addresses only, since the root entries above are gigapage leaves of the boot table; allocation does not swap here.
- Paging.Mmu.AllocPageGpte: the branch that registers the page for swapping is in Swap, not here.
- CopyWalk.CopyRange: source and target are different address spaces, as in dup_vmm; the source entry is read once per page.
- Swap.Space.HandlePageFault: the page tables themselves are in place, and which pages lie in an area, and whether it is writable, is a fixed map; allocation does not fail for want of a page to evict.
- Swap.Run: pages with a number below the number of slots and not 0, the ones `swap_offset` accepts; the number of slots is a constant without a value; accesses are the kernel's own, since no fault sets PTE_U.
- Vma.Vmm.VmMap: whether malloc finds memory for the area is a parameter.
- Segment.Loader.LoadSegment: the file is taken to hold the segment's bytes, which load_bin does not check, and addresses do not wrap; permissions are not modelled, since vm_flags accumulates over segments.
