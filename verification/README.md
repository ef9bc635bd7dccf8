# Verification of the SKI kernel

A Dafny model of a small real-time kernel: its task table and scheduler, priority promotion, the invocation of the base
task, the lock word of its mutexes, its heap of markers, and the memory map its generator scripts compute. The main results
hold for all inputs, all reachable states or all runs; beside them, examples show that what goes wrong is reached.

## How it is laid out

- **Task table.** `Slots` is one slot with all its per-task variables, `JumpList` the circular list of relative jumps,
  `LevelStash` the sorted array of listed levels with its binary search. A stash has one entry more than the array: the byte
  of memory behind it, which the code reads and writes when the array is full. `Services` gives each kernel service as a
  function from kernel value to kernel value, `Scheduler` the wake-up sweep and the selection loop.
- **Runs.** `Invariant` says what holds between services, `Transitions` that each service keeps it, `Runs` that all runs do,
  `Boot` that the system starts in it. `Order`, `Promotion`, `Held`, `BaseInvocation`, `Brackets`, `Counters` and
  `DeadLevels` draw the consequences: when scheduling ends, priority order, round robin, identity of tasks, the stack of
  promotions, who is held and woken, the round trip of a promotion and of an invocation, exact counters and timer, exactly
  the live levels listed. `Fields` gives every field of every slot after any step, `Wakeups` how long a hibernation lasts,
  `Permissions` who has which permission, `Answers` when a service refuses. One step of a run is a service followed through
  all rewritings of its code, then the scheduler, then the switch.
- **The code itself.** `KernelVars` is the class of the kernel's variables; its methods are the services and the scheduler
  with their loops, each proved equal to its function. `Svc` is the loop that dispatches a service again under the code it
  left behind, for every code. `TaskApi` is the library in front: starting and killing a task by its object. `SpinLock` is
  the guard under which a waiting task asks for a promotion.
- **Mutex.** `Mutex` interleaves the instructions of lock and unlock with exceptions that clear the exclusive monitor
  (section A3.4 of the ARMv7-M Architecture Reference Manual).
- **Heap.** `Blocks` is the heap as a tiling, `Markers` the chain of marker words and the surgery on it, `Heap` one
  allocation and one release, `HeapRuns` whole runs, `HeapFindings` what goes wrong and when, and `MarkerHeap` the class
  with the loops. `Heap.Valid` is one acyclic chain of `count` markers from the top word to the last one, with no other word
  in use.
- **Memory map.** `MemoryMap` has the generator's arithmetic, the MPU table (section B3.5 of the same manual) and the
  preparation of a stack.
- **Findings.** `Findings`, `HeapFindings` and several lemmas elsewhere show where the code departs from what it is evidently
  meant to do, and exactly when; `Reached`, `ReachedLocks`, `Permissions` and `HeapFindings` have runs that get there. The
  model follows the code in all of these.

## Where code and intent part

| what the code does | when it does what is meant | member |
|---|---|---|
| Creation inserts a level at the last index probed, which may be one below its place: [0,5] with 3 becomes [3,0,5] (src/service/svr_task.c:124-128) | iff the level is listed or `LevelStash.Misplaced` is false | `LevelStash.AddKeepsSorted` |
| A kill compares with the priorities of idle slots, so a dead level can stay listed (src/service/svr_task.c:205-215) | iff no idle slot carries that level | `DeadLevels.RunExact`, `Reached.DeadLevelReached` |
| A kill of the last task of a level on a full stash moves the byte behind the array into it (src/service/svr_task.c:219-228) | iff that byte is 0 | `Findings.KillKeepsExactly`, `Reached.FullKillReached` |
| Creation on a full stash reads or writes the byte behind the array (src/service/svr_task.c:108-129) | iff the level is listed; never in runs without dead levels | `LevelStash.StaysInside`, `DeadLevels.RunHasRoom`, `Reached.TrespassReached` |
| The hibernate mask 0x80 is in no state code (src/include/defines.h:9-12) | never | `Slots.HibernateBitNeverSet` |
| The level is lowered only on meeting the current task, and can run below the stash (src/kernel.c:343-346) | iff `Scheduler.Selectable` | `Scheduler.SelectionEnds` |
| During promotion the drop skips the highest user level (src/kernel.c:343-346) | iff the promoted top is runnable and not current, or nothing runnable is skipped | `Order.PromotedOrder`, `Reached.SkippedLevelReached` |
| 127 stands for "no promotion" but is a legal priority (src/service/svr_task.c:45, 353) | iff the top level is not 127 | `Findings.SentinelWorks`, `ReachedLocks.SentinelReached` |
| The lock test sees one byte of the id (src/arch/arm-m3m4/mutex.S:24) | iff no id has a zero low byte | `Mutex.ExclusiveExactly` |
| A lock attempt also fails on a free lock, and the caller then promotes the slot that the word names, although nobody holds the lock (src/arch/arm-m3m4/mutex.S:38-45, src/share.c:35-67) | the slot is that of the holder iff the low byte of the word is not 0 | `Mutex.WordNamesHolder`, `ReachedLocks.FreshLockPromotes` |
| The slot is promoted without a look at its state (src/share.c:61-67) | iff the slot is live | `SpinLock.AsksAllowed`, `Findings.PromoteKeepsExactly`, `ReachedLocks.StaleHolderReached` |
| A waiting task that is promoted itself spins without counting or handing over (src/share.c:63-65) | iff the holder is not promoted below it | `SpinLock.AgainExactly`, `SpinLock.HolderNeverRuns`, `ReachedLocks.SpinReached` |
| An invocation of a promoted base task loses its priority (src/service/svr_permissions.c:30-34) | iff the base task is not promoted | `Findings.InvokeKeepsExactly`, `ReachedLocks.SecondInvocationReached` |
| A release without an invocation matches an idle slot and demotes (src/service/svr_permissions.c:57-73) | iff it is refused or the base task is promoted | `Findings.ReleaseKeepsExactly`, `ReachedLocks.StrayReleaseReached` |
| Neither a kill nor a creation takes a permission back, although tasks are meant to have none by default (src/kernel.c:173-176, src/service/svr_permissions.c:98) | iff no grant found the slot before, or the last one granted none | `Permissions.NewTaskInherits`, `Permissions.InheritedReached` |
| A grant to the id 0 finds a free slot (src/service/svr_permissions.c:96-105) | iff every slot is taken | `Permissions.GrantsToNobody` |
| The creation numbered 65536 sets the lowest bit of the slot in its id (src/service/svr_task.c:92-94) | iff the slot is odd | `Answers.IdNamesSlot` |
| A task that kills itself directly is put to sleep off the ring (src/kernel.c:277-280) | never | `Findings.DirectSelfKill` |
| The recount of a kill takes in idle slots at priority 0, so the base task alone is interrupted (src/service/svr_task.c:282-294) | iff no other slot carries priority 0 | `Findings.LastEndTimer`, `Findings.TickAlone` |
| The service table has a row for code 0 without a service, although that code is meant to end the loop (src/svctable.c:65, src/arch/ossim/svc_handler.c:125-129) | iff the code is not 0 | `Svc.ZeroIsInTable` |
| Other tasks may run between the scan of a start or kill and its service (src/task.c:45-57, 86-102) | iff the slot found still holds the object, or still none does | `TaskApi.KillLater`, `TaskApi.StartLater` |
| Killing an unknown object reads behind the table (src/task.c:94) | iff the word there differs from the object | `TaskApi.RefusesExactly` |
| Splitting or absorbing the last marker adds its offset 0 like a link (src/heap.c:176-190, 335-347) | iff the marker is not the last | `Heap.SplitKeeps`, `Heap.ReleaseExact` |
| The merge into the previous block has no size check, and adds a next size that was refused (src/heap.c:330-334, 374-391) | iff `Heap.Releasable` | `Heap.ReleaseExact`, `HeapFindings.OverflowReached` |
| Without a spare word a whole block is handed out, and only the request is accounted (src/heap.c:168, src/service/svr_heap.c:78) | iff every needed split finds a spare word | `HeapRuns.AccountConstant`, `HeapFindings.ExcessReached` |
| The account does not see fragmentation, so a new block may lie past the memory (src/heap.c:97-99) | iff at every append free blocks and request are within the account | `HeapRuns.InsideExactly` |
| A request for no bytes, or one that wraps to none, writes an empty word into the chain (src/heap.c:88-91) | iff it is given a whole free block | `HeapFindings.ZeroRequest` |
| The search for a new marker sees a quarter of the region (src/heap.c:239) | never | `MarkerHeap.MarkerHeap.FindFresh` |
| Clearing the marker region is off by one word (src/heap.c:58-72) | harmless for the chain | `MarkerHeap.MarkerHeap.constructor` |
| The start of the heap is moved up by its remainder (src/heap.c:49-51) | iff the address is even | `HeapFindings.StartAligned` |
| A quarter of a new stack is cleared (src/service/svr_task.c:75) | never | `MemoryMap.PrepareStack` |

## Model

| member | source | states |
|---|---|---|
| `Slots.HibernateBitNeverSet` | src/include/defines.h:9-12 | The mask 0x80 is in none of the state codes (the hibernate codes are decimal 80 and 81), so no test against it ever sees a hibernating task |
| `JumpList.JumpFits` | src/kvar.c:31 | Every relative jump fits its signed byte for up to 127 slots |
| `JumpList.LinkKeepsRing` | src/service/svr_task.c:79-90 | Linking the first idle slot keeps one cycle through exactly the live slots in increasing order, idle slots at 0 |
| `JumpList.PredExists` | src/service/svr_task.c:250-257 | A slot below the killed one jumps to it, so the search for the predecessor ends |
| `JumpList.UnlinkKeepsRing` | src/service/svr_task.c:250-267 | Unlinking a killed slot keeps the single cycle through exactly the live slots |
| `JumpList.StrideCases` | src/service/svr_task.c:250-265 | A slot that some slot below jumps to keeps its jump while it is unlinked, and only a slot without a predecessor has it doubled; on the ring no live slot but the first is one |
| `JumpList.JumpsReach` | src/kernel.c:293-333 | From any live slot the jumps come to every live slot, and back, within one lap: it is one cycle |
| `LevelStash.SearchEnds` | src/service/svr_task.c:104-122 | For every sorted stretch and every missing level, where the unbounded-looking search ends: the place of the level, or exactly one below it if the probe before is a leaf of the midpoint tree |
| `LevelStash.SearchResult` | src/service/svr_task.c:104-122 | The search finds a listed level, and otherwise ends at the place of the level or one below; in a full array, for a level above all, it may take the byte behind the array for the level |
| `LevelStash.StaysInside` | src/service/svr_task.c:104-129 | Creation leaves the byte behind the array alone if and only if the array is not full or the level is listed |
| `LevelStash.AddLists` | src/service/svr_task.c:104-129 | With room in the array creation lists exactly one more level |
| `LevelStash.AddKeepsSorted` | src/service/svr_task.c:104-129 | Creation lists the level in a strictly increasing stash if and only if it was listed, or the array is not full and the level is not misplaced |
| `LevelStash.MisplacedExample` | src/service/svr_task.c:124-128 | The stash [0,5] with 3 added becomes [3,0,5] |
| `LevelStash.RemoveKeepsSorted` | src/service/svr_task.c:217-232 | Taking a level off takes off that level only; the order and the zeros behind stay if and only if the array was not full or the byte behind it is 0 |
| `Scheduler.PickIsUnique` | src/kernel.c:335-354 | At most one task and level fulfil the description of the selected task: first runnable after the current one at the top level, otherwise first runnable in a full lap at the highest considered level that has one |
| `Scheduler.AdvanceRound` | src/kernel.c:343-346 | Coming round to the current task drops one listed level; with no level left, nothing can be selected |
| `Scheduler.SelectionEnds` | src/kernel.c:335-352 | The unbounded selection loop ends, without leaving the stash, if and only if some task can be selected, and then on exactly that task |
| `Scheduler.BaseSuffices` | src/kernel.c:335-352 | Two listed levels and a runnable base task, or a runnable other task at the top level, are enough for it to end |
| `Scheduler.BaseAloneFails` | src/kernel.c:343-346 | With the base task alone the level pointer runs below the stash at the first iteration |
| `Scheduler.NoInversion` | src/kernel.c:335-352 | The selected task outranks every other runnable one, if and only if another task is runnable at the top level or none lies in the gap the loop skips |
| `Invariant.TimerOffMeansAlone` | src/kernel.c:363-372 | With the timer off the running task is the only live task at the top level |
| `Invariant.SumKept` | src/kernel.c:297-329 | A wake-up moves one task between two 8-bit counters without changing their sum modulo 256 |
| `Invariant.ScheduleKeeps` | src/kernel.c:268-378 | Wake-up sweep, selection and switch lead from any settled service state to a state with the whole invariant |
| `Transitions.HandOverKeeps` | src/kernel.c:144-162 | A hand-over keeps ring, stash, stack, counters and names |
| `Transitions.HibernateKeeps` | src/service/svr_task.c:304-344 | Hibernating keeps ring, stash, stack, counters and names |
| `Transitions.DepthBound` | src/service/svr_task.c:365-376 | The stack of promotions never outgrows the slots, so the level stays below 256 |
| `Transitions.PromoteKeeps` | src/service/svr_task.c:346-386 | A promotion pushes its owner one level above everything else and keeps the rest of the invariant |
| `Transitions.DemoteKeeps` | src/service/svr_task.c:388-427 | A demotion pops the running task, gives back its priority and, when it is the last, the saved level and counters |
| `Transitions.CreateKeeps` | src/service/svr_task.c:19-183 | A properly placed creation keeps the whole invariant: ring, sorted stash with every live level, counters, ids |
| `Transitions.KillKeeps` | src/service/svr_task.c:185-301 | Killing another task keeps the whole invariant, although stale priorities may leave dead levels listed and idle slots counted |
| `Transitions.RecountEnough` | src/service/svr_task.c:282-294 | The recount takes in idle slots with a stale priority, so it may be too high but never too low |
| `Transitions.EndBetween` | src/service/svr_task.c:241-265 | A task that ends leaves the next-task pointer on a live slot |
| `Transitions.EndKeeps` | src/service/svr_task.c:185-301 | The end of the current task keeps the invariant up to the scheduling that follows |
| `Runs.InvokeKeeps` | src/service/svr_permissions.c:17-40 | Invoking the base task is a promotion of slot 0 and keeps the invariant |
| `Runs.ReleaseKeeps` | src/service/svr_permissions.c:42-79 | Releasing is a demotion of the base task and keeps the invariant |
| `Runs.DisturbKeeps` | src/service/svr_task.c:219-228 | The invariant does not depend on the byte behind the stash, which may change at any time |
| `Runs.StepKeeps` | src/kernel.c:268-378 | Every service followed by its scheduling keeps the invariant, the promotion stack moving as the service says |
| `Runs.RunKeeps` | src/arch/ossim/os_timer.c:123-128 | The invariant holds in every state of every run of services and ticks |
| `Runs.RunIsSafe` | src/kernel.c:277-286 | In every state of every run a slot is ACTIVE if and only if it is the current task, the timer is off only for a sole task at the top level, and a promoted current task is the top one |
| `Runs.LastInFirstOut` | src/service/svr_task.c:346-427 | Demotions come in reverse order of promotions: a demotion that returns to the depth before a promotion is made by the task that promotion raised, and the stack is the same as before |
| `Fields.ScheduledStates` | src/kernel.c:268-378 | Sweep, selection and switch change states only, and none to or from IDLE |
| `Fields.StepFields` | src/service/svr_task.c:19-427 | Every step, whatever the event, for every slot: the value that operands, hibernation value, stashed and current priority, mutex, id, object and permission have afterwards; a field that the event does not name keeps its value through service and scheduling, and a slot becomes or stops being IDLE exactly by a kill, an end or a creation |
| `Promotion.DemoteRemembers` | src/service/svr_task.c:388-427 | A demotion keeps the remembered unpromoted values or, as the last one, gives them back |
| `Promotion.BracketRestores` | src/service/svr_task.c:346-427 | Over every run, the demotion that empties the stack restores the top level, both counters and every priority exactly |
| `BaseInvocation.BasePicked` | src/service/svr_permissions.c:17-40 | After an invocation the scheduler selects the base task |
| `BaseInvocation.BaseRoundTrip` | src/service/svr_permissions.c:17-79 | Invoke, grant and release with no tick in between: levels, both counters, priorities, ring and stash are exactly as before, the invoker goes from HOLD to SLEEP with the error in its own value, and nobody else is woken |
| `Brackets.StackDecides` | src/service/svr_task.c:365-376 | User levels and the stack of promotions determine every priority, the top level and the sentinel |
| `Brackets.MatchedBracket` | src/service/svr_task.c:346-427 | Over every run between a promotion and the demotion that matches it, at any depth: stack, priorities, links, listed levels, top level and the sum of the counters at the user top are as before |
| `Brackets.FreeByBalance` | src/service/svr_permissions.c:17-40 | Nobody is held on the base task's mutex when the base task is not promoted |
| `Brackets.ServesThroughout` | src/service/svr_permissions.c:17-79 | Over every run from an invocation to its release the invoker is the only task held on the base task's mutex, and its id the one kept |
| `Brackets.BaseNotPopped` | src/service/svr_permissions.c:42-79 | Before the matching release no other demotion is one of the base task |
| `Brackets.InvocationBracket` | src/service/svr_permissions.c:17-79 | Over every run between an invocation and its release: the release gives the error to the invoker, wakes it and nobody else, and puts stack, priorities, links, listed levels and top level back |
| `Held.WakesExactlyOne` | src/service/svr_task.c:410-421 | Every demotion finds a task held on its mutex, and wakes one such task and nobody else |
| `Held.NobodyHeld` | src/service/svr_task.c:377-378 | With nothing promoted nobody is held |
| `Held.StepBalanced` | src/service/svr_task.c:346-427 | Every step keeps, for every mutex, as many tasks held on it as promoted for it |
| `Held.RunBalanced` | src/service/svr_task.c:346-427 | So does every run |
| `Held.SystemBalanced` | src/service/svr_task.c:346-427 | It holds in every state of every run of the system |
| `Held.HeldUntilPop` | src/service/svr_task.c:377-421 | Over every run a held task stays held until a task promoted for its mutex is demoted |
| `Boot.BaseWaits` | src/kernel.c:76-108 | After reset and the creation of the base task the state meets the invariant, waiting for the start |
| `Boot.CreateWaits` | src/service/svr_task.c:19-183 | So do creations before the start |
| `Boot.StartKeeps` | src/kernel.c:164-191 | Starting the scheduler ends in a state with the whole invariant |
| `Boot.SystemRunsAreSafe` | src/kernel.c:164-191 | From reset through any creations, the start and any run of events, every state is safe |
| `Order.ScheduleEnds` | src/kernel.c:335-352 | Between a service and its scheduling, there is a next state if and only if some task can be selected |
| `Order.YieldEndsSoon` | src/kernel.c:335-352 | With a runnable base task and a second listed level every tick and hand-over has a next state |
| `Order.StartEnds` | src/kernel.c:164-191 | With a runnable base task and a second listed level the first scheduling has a result, with the whole invariant |
| `Order.TwoTasksStart` | src/kernel.c:95-117 | A base task and one task at any user level start, and their first state meets the whole invariant |
| `Order.UnpromotedInOrder` | src/kernel.c:335-352 | Without promotion no other runnable task ranks above the selected one |
| `Order.PromotedOrder` | src/kernel.c:335-352 | During promotion that holds if and only if the top of the stack is runnable and not current, or nothing runnable lies in the skipped gap |
| `Order.RunsWithinLap` | src/kernel.c:335-354 | Round robin: over every run of ticks and hand-overs a task runnable at the top level runs after at most as many of them as it lies ahead of the current task |
| `Order.NeverReissued` | src/service/svr_task.c:92-94 | Over every run an id that is given out differs from every id live now or earlier |
| `Order.KillFindsItsTask` | src/service/svr_task.c:197-198 | The upper half of a live id is its slot, no two live tasks share an id or an object |
| `Answers.AdmitsExactly` | src/service/svr_task.c:34-58 | Creation is refused for want of a slot exactly if every slot is taken, and for its priority exactly if a slot is free and the priority is above 127, or 0 once the scheduler runs |
| `Answers.IdNamesSlot` | src/service/svr_task.c:92-94 | The id has the number of the creation below the slot; at the creation whose number no longer fits 16 bits it names another slot exactly if the slot is even |
| `Answers.InvokeAnswers` | src/service/svr_permissions.c:17-40 | An invocation is refused exactly to the base task; otherwise it notes the id of the caller and nothing else |
| `Answers.ReleaseAnswers` | src/service/svr_permissions.c:42-79 | A release is refused exactly if the caller is not the base task or no slot has the id noted; otherwise the task that has it is given the error, and no other |
| `Counters.SweepLeavesNoneDue` | src/kernel.c:292-333 | After the sweep the difference of the operands, counted upwards from the second in 32 bits, is below the value of every task that still hibernates forwards and above that of every one that hibernates in reverse; nothing but a waking changed |
| `Wakeups.SweepWakesExactly` | src/kernel.c:297-329 | A hibernating task sleeps on exactly if that difference has not reached its value, or in reverse is still beyond it, and is made runnable otherwise; every other slot is as before |
| `Wakeups.HibernatesUnlessMet` | src/service/svr_task.c:304-344 | After a hibernation and its scheduling the caller waits in the direction, with the operands and for the value it gave, if and only if its condition does not hold already; otherwise it is runnable or runs |
| `Wakeups.WaitsUnlessRoused` | src/kernel.c:292-333 | One step of anybody else leaves a hibernating task waiting as it was if and only if it neither kills it nor schedules with its condition met; a release that answers its id puts the error in place of its value |
| `Wakeups.WaitsUntilRoused` | src/kernel.c:292-333 | Over every run a hibernation lasts exactly until the first event that kills the task or whose scheduling finds the condition met |
| `Counters.StepTallied` | src/kernel.c:292-333 | An event that neither kills nor promotes nor demotes keeps the two counters exactly the awake and the hibernating tasks at the top level |
| `Counters.RunTallied` | src/kernel.c:292-333 | So they are exact in every state of every such run that starts with exact counters |
| `Counters.BaseTallied` | src/kernel.c:101-104 | They are exact after the creation of the base task |
| `Counters.SystemTallied` | src/kernel.c:164-191 | Over every run of the system without kills, promotions and demotions they are exact in every state |
| `Counters.AloneCounted` | src/kernel.c:363-366 | With exact counters the running task is the only live one at the top level exactly if they say so |
| `Counters.StepTimer` | src/kernel.c:363-372 | The same events keep the timer off exactly while the running task is alone at the top level |
| `Counters.SystemTimer` | src/kernel.c:363-372 | Over every run of the system without kills, promotions and demotions the timer is off exactly in the states in which the running task is the only live one at the top level |
| `DeadLevels.CreateKeepsExact` | src/service/svr_task.c:104-129 | Creation keeps a stash that lists exactly the live levels exact |
| `DeadLevels.KillKeepsExact` | src/service/svr_task.c:204-232 | A kill, of another task or of itself, keeps it exact if and only if no idle slot carries the stale priority of a level that dies |
| `DeadLevels.EffectLevels` | src/service/svr_task.c:346-427 | Every other event keeps every task at its user level, promotions included |
| `DeadLevels.RunExact` | src/service/svr_task.c:204-232 | Over every run from an exact stash, the stash is exact in every state if and only if no kill leaves a dead level |
| `DeadLevels.SystemExact` | src/service/svr_task.c:204-232 | The same for every run of the system, whose stash is exact at the start |
| `DeadLevels.ExactFits` | src/service/svr_task.c:104-129 | An exact stash is not full while a slot is free |
| `DeadLevels.RunHasRoom` | src/service/svr_task.c:104-129 | Over every run in which no kill leaves a dead level, an admitted creation never touches the byte behind the stash |
| `Findings.KillKeepsExactly` | src/service/svr_task.c:217-232 | With nothing promoted a kill keeps the invariant if and only if the level is shared, the stash is not full, or the byte behind it is 0 |
| `Findings.CreateKeepsExactly` | src/service/svr_task.c:34-183 | With nothing promoted an admitted creation keeps the invariant if and only if the priority is at most 126, the hibernate bit clear, the object not null and in no slot, the id not wrapped, and the level listed, or with room and in the right place |
| `Findings.SentinelWorks` | src/service/svr_task.c:353-362 | A first promotion is recognised by the next one if and only if the top level was not 127 |
| `Findings.SentinelCollides` | src/service/svr_task.c:353-376 | From a top level of 127 two promotions put both owners at 128 |
| `Findings.PromoteKeepsExactly` | src/service/svr_task.c:370-378 | Promoting another unpromoted slot keeps the invariant if and only if the slot is live |
| `Findings.InvokeKeepsExactly` | src/service/svr_permissions.c:17-40 | An invocation keeps the invariant if and only if the base task is not promoted already |
| `Findings.InvokedTwice` | src/service/svr_permissions.c:17-40 | A second invocation stashes the promoted level, and no stack of promotions fits any more |
| `Findings.ReleaseKeepsExactly` | src/service/svr_permissions.c:42-79 | A release keeps the invariant if and only if the caller is not the base task, the base task is promoted, or no slot carries the id of the invoker |
| `Findings.DemotedUnpromoted` | src/service/svr_task.c:388-427 | A demotion of a base task that is not promoted always breaks the invariant |
| `Findings.DirectSelfKill` | src/kernel.c:277-286 | A task that kills itself by the direct kill is put to sleep in a slot off the ring: the ring is broken |
| `Findings.LastKillCounts` | src/service/svr_task.c:282-294 | A kill that leaves the base task alone ends with one task counted if and only if no slot but the first carries priority 0 |
| `Findings.LastEndTimer` | src/kernel.c:363-372 | After the end of the last user task the timer is on if and only if some slot but the first carries priority 0 |
| `Findings.TickAlone` | src/kernel.c:335-352 | A tick of the base task alone has a next state if and only if a dead level is listed |
| `Permissions.GrantsExactly` | src/service/svr_permissions.c:81-111 | A grant is refused exactly if the caller is not the base task or no slot has the id; otherwise the live task with the id has the lower 16 bits of the permission, and every other slot and variable is as before |
| `Permissions.GrantsToNobody` | src/service/svr_permissions.c:81-111 | A grant to the id 0 is not refused while a slot is free, and gives the permission to the first free slot |
| `Permissions.StartGrants` | src/kernel.c:164-191 | The start gives slot 0 every permission and the others none, and changes nothing else of the slots |
| `Permissions.StepPermissions` | src/service/svr_permissions.c:96-101 | Only a grant that finds the slot changes its permission: no kill and no creation does |
| `Permissions.PermissionStays` | src/service/svr_permissions.c:96-101 | Over every run a slot keeps its permission until a grant finds it, whoever lives in it |
| `Permissions.PermissionIsLastGrant` | src/service/svr_permissions.c:96-101 | Over every run a slot has the permission last granted to it, cut to 16 bits |
| `Permissions.SystemPermissions` | src/kernel.c:164-191 | In every run of the system every permission is with the base task and none with any other slot until a grant |
| `Permissions.NewTaskInherits` | src/kernel.c:173-176 | In every run of the system a new task has no permission if and only if no grant has found its slot before, or the last one granted none |
| `Permissions.InheritedReached` | src/service/svr_permissions.c:96-101 | A task is created, granted a permission and killed, and the next task in its slot has the permission |
| `KernelVars.KernelVars.constructor` | src/kvar.c:11-47 | The variables start as declared |
| `KernelVars.KernelVars.FindIdle` | src/service/svr_task.c:36-42 | The scan finds the first idle slot |
| `KernelVars.KernelVars.SearchStash` | src/service/svr_task.c:104-122 | The search loop ends with the result of the recursive search and never indexes below 0, or past the byte behind the array |
| `KernelVars.KernelVars.InsertLevel` | src/service/svr_task.c:124-129 | The shift loop inserts the level at the index of the search |
| `KernelVars.KernelVars.RaiseTop` | src/service/svr_task.c:140-155 | The loop raises the top level over all live slots and clears the counters exactly on a raise |
| `KernelVars.KernelVars.TallyTask` | src/service/svr_task.c:140-171 | Top level, 8-bit counters and timer after a creation |
| `KernelVars.KernelVars.TaskCreate` | src/service/svr_task.c:19-183 | The whole service, in place, gives exactly the specified state and error, and changes nothing when it refuses |
| `KernelVars.KernelVars.LevelShared` | src/service/svr_task.c:204-215 | Does any other slot, live or idle, carry the priority |
| `KernelVars.KernelVars.UnlistLevel` | src/service/svr_task.c:217-232 | The shift loop takes the level off |
| `KernelVars.KernelVars.UnlinkSlot` | src/service/svr_task.c:250-267 | The predecessor found by the loop takes over the jump |
| `KernelVars.KernelVars.FindTop` | src/service/svr_task.c:269-280 | The loop finds the highest live priority |
| `KernelVars.KernelVars.CountTop` | src/service/svr_task.c:282-294 | The loop counts every slot at the top level, idle ones included, modulo 256 |
| `KernelVars.KernelVars.TaskKill` | src/service/svr_task.c:185-301 | The whole service, in place, gives exactly the specified state; the code is rewritten exactly for a task that ends itself |
| `KernelVars.KernelVars.BuryAndUnlink` | src/service/svr_task.c:236-267 | Slot emptied, ring bridged, next-task pointer moved on for a task that ends |
| `KernelVars.KernelVars.HandOver` | src/kernel.c:144-162 | The service in place |
| `KernelVars.KernelVars.Hibernate` | src/service/svr_task.c:304-344 | The service in place, counters modulo 256 |
| `KernelVars.KernelVars.AddLevel` | src/service/svr_task.c:353-370 | One level more, the unpromoted numbers kept on the first one |
| `KernelVars.KernelVars.PriorityPromote` | src/service/svr_task.c:346-386 | The service in place; the owner is the upper half of the lock word |
| `KernelVars.KernelVars.WakeHolder` | src/service/svr_task.c:410-421 | The loop wakes the first task held on the mutex, and only that one |
| `KernelVars.KernelVars.PriorityDemote` | src/service/svr_task.c:388-427 | The service in place |
| `KernelVars.KernelVars.FindId` | src/service/svr_permissions.c:57-62 | The scan finds the first slot with the id |
| `KernelVars.KernelVars.InvokeBase` | src/service/svr_permissions.c:17-40 | The service in place with its error and the rewritten code |
| `KernelVars.KernelVars.ReleaseBase` | src/service/svr_permissions.c:42-79 | The service in place with its errors and the rewritten code |
| `KernelVars.KernelVars.GrantPermission` | src/service/svr_permissions.c:81-111 | The service in place with its errors |
| `KernelVars.KernelVars.StartScheduler` | src/kernel.c:164-191 | The service in place |
| `KernelVars.KernelVars.Sweep` | src/kernel.c:292-333 | The do-while loop ends after visiting every live slot once and gives the slot-by-slot sweep |
| `KernelVars.KernelVars.Select` | src/kernel.c:335-352 | The unbounded loop ends on the described task whenever one can be selected |
| `KernelVars.KernelVars.Schedule` | src/kernel.c:268-378 | The whole scheduler in place |
| `KernelVars.KernelVars.Reschedule` | src/arch/ossim/os_timer.c:123-128 | Scheduler and switch lead to a state with the whole invariant |
| `Svc.CallDescends` | src/arch/ossim/svc_handler.c:114-133 | From every state in which its service can be called and comes back, every code is left as it is or rewritten to one of lower rank, for which the same holds |
| `Svc.LookUp` | src/arch/ossim/svc_handler.c:118-123 | The scan finds the row of a code if there is one |
| `Svc.ZeroIsInTable` | src/svctable.c:41-66 | Code 0, meant to end the loop, has a row without a service; every other code without a row leaves the kernel as it is |
| `Svc.Serve` | src/arch/ossim/svc_handler.c:131 | The service of a code in place, with the code and the arguments it leaves |
| `Svc.SvcHandler` | src/arch/ossim/svc_handler.c:103-137 | The re-dispatch loop ends for every code but 0 and that of a device reset, in the table or not, after at most three calls, with every rewriting followed through |
| `Svc.HandledIsEffect` | src/arch/ossim/svc_handler.c:114-133 | For an event of a run that is the event's effect |
| `Svc.HandledStart` | src/kernel.c:164-191 | Starting the scheduler is handled as a start and a hand-over |
| `Reached.ReachableInv` | src/arch/ossim/os_timer.c:123-128 | Every state that some run of a system reaches satisfies the invariant |
| `Reached.FullKillReached` | src/service/svr_task.c:219-228 | With two slots a state is reached in which the end of the only user task reads the byte behind the stash, and breaks the invariant unless it is 0 |
| `Reached.DeadLevelReached` | src/service/svr_task.c:204-232 | Two tasks created at one level and killed again leave the level listed with nobody at it |
| `Reached.TrespassReached` | src/service/svr_task.c:124-129 | One more creation, and the kernel admits a task whose creation touches the byte behind the stash |
| `Reached.SkippedLevelReached` | src/kernel.c:343-346 | A tick during a promotion gives the processor to the base task although a task at the highest user level is runnable |
| `ReachedLocks.FreshLockPromotes` | src/share.c:35-67 | On a fresh lock that is refused because of an exception the word 0 names the base task, which is promoted, and the caller is held on a mutex nobody holds |
| `ReachedLocks.StaleHolderReached` | src/share.c:35-67 | A task runs, takes and gives back a lock and ends; a task that is then refused the free lock asks to promote the idle slot, and no stack fits any more |
| `ReachedLocks.SpinReached` | src/share.c:63-65 | Tasks that have run and could take their locks come, by two nested promotions, to a caller that repeats its attempt for ever without counting it |
| `ReachedLocks.SentinelReached` | src/service/svr_task.c:45-51 | A task at level 127 is admitted, and a promotion is then not recognised by the next |
| `ReachedLocks.SecondInvocationReached` | src/service/svr_permissions.c:17-40 | A tick interrupts the serving base task, and another task invokes it |
| `ReachedLocks.StrayReleaseReached` | src/service/svr_permissions.c:57-73 | With a free slot a base task that was not invoked runs, and its release is not refused |
| `TaskApi.TaskStart` | src/task.c:43-60 | With nothing between scan and service: refuses an object that some slot holds, and otherwise makes the creation; nothing else changes |
| `TaskApi.StartLater` | src/task.c:43-60 | If other tasks run between scan and service, the start keeps the invariant if and only if the object is still in no slot when the service runs |
| `TaskApi.TaskKill` | src/task.c:81-104 | With nothing between scan and service: kills by the id in the slot of the object; with no such slot it compares the word behind the table of objects, and refuses or kills by the id behind the table of ids |
| `TaskApi.KillLater` | src/task.c:81-104 | If other tasks run between scan and service, the kill ends the task that is in the slot when the service runs: the one asked for if and only if the slot still holds its object |
| `TaskApi.RefusesExactly` | src/task.c:94-98 | An object that no task has is refused if and only if the word behind the table differs from it; otherwise the word behind the ids is killed |
| `TaskApi.StartsOnce` | src/task.c:43-60 | After a start the object is in exactly one slot |
| `TaskApi.KillsTheOne` | src/task.c:81-104 | With nothing in between the id killed is that of the slot with the object, whatever lies behind the tables: afterwards no slot holds the object, and every other slot keeps its own |
| `SpinLock.AsksAllowed` | src/share.c:61-69 | A waiting task has the slot that the word names promoted whatever is in it; the promotion keeps the invariant, and is one the runs allow, if and only if the slot is live |
| `SpinLock.AsksInverted` | src/share.c:61-69 | Without promotion it is asked for exactly if the priority in that slot is lower than that of a caller at the top level; the slot is then above every other |
| `SpinLock.AsksPromoted` | src/share.c:61-69 | During promotion it is asked for exactly if the caller is the last one promoted and the slot named is not promoted, and for that slot |
| `SpinLock.HolderNamed` | src/share.c:35 | The slot read from the id of a live holder is that of the holder |
| `SpinLock.AskedIsRaised` | src/service/svr_task.c:365-376 | After the promotion asked for and its scheduling that slot is at 128 plus the depth of the stack, the top level, and every other priority is as before and below |
| `SpinLock.AgainExactly` | src/share.c:63-65 | The attempt is repeated uncounted exactly if the caller is the top of the stack and the holder is promoted below it |
| `SpinLock.HolderNeverRuns` | src/share.c:63-65 | From there, over every run in which the caller's promotion is not given back, the holder never runs: a deadlock |
| `SpinLock.OwnerRunsNext` | src/service/svr_task.c:365-386 | If the owner is runnable the scheduling after a promotion has a result, and in every result the owner runs and holds the mutex, so its demotion is allowed |
| `SpinLock.OwnerUndisturbed` | src/service/svr_task.c:353-362 | A first promotion switches the timer off while its owner runs |
| `Mutex.StepKeeps` | src/arch/arm-m3m4/mutex.S:21-58 | Every instruction and every exception keeps: at most one holder, the word is its id, the low byte is zero when nobody holds |
| `Mutex.RunKeeps` | src/arch/arm-m3m4/mutex.S:21-58 | The same over every interleaving |
| `Mutex.ExclusiveExactly` | src/arch/arm-m3m4/mutex.S:21-58 | With two or more tasks the lock excludes in every interleaving if and only if no id has a zero low byte |
| `Mutex.BothHold` | src/arch/arm-m3m4/mutex.S:23-28 | With such an id a second task gets the lock while the first holds it |
| `Mutex.TakesFree` | src/arch/arm-m3m4/mutex.S:21-48 | Uninterrupted, the attempt succeeds exactly if the low byte is zero |
| `Mutex.WordNamesSlot` | src/share.c:35-61 | The slot a waiting task reads from the word always exists, though the byte store leaves it there after the unlock |
| `Mutex.WordNamesHolder` | src/arch/arm-m3m4/mutex.S:23-58 | The word is the id of a task that holds the lock if and only if its low byte is not 0; with a zero low byte nobody holds it |
| `Mutex.RunNamesHolder` | src/arch/arm-m3m4/mutex.S:23-58 | The same in every interleaving from a fresh lock |
| `Mutex.FailsOnFree` | src/arch/arm-m3m4/mutex.S:38-45 | An exception between the load and the store makes an attempt on a free lock fail, and leaves the lock as it was |
| `Mutex.FreshRefused` | src/arch/arm-m3m4/mutex.S:38-45 | A fresh lock can be refused with nobody holding it and the word 0 |
| `Mutex.StaleRefused` | src/arch/arm-m3m4/mutex.S:38-58 | A lock that was given back can be refused with nobody holding it and a word that names the slot of the former holder |
| `Mutex.VisibleIds` | src/service/svr_task.c:92-94 | The ids with a zero low byte are those of every 256th creation and those past 16 bits; the first 255 creations are safe |
| `Mutex.LiveIdVisible` | src/service/svr_task.c:92-94 | With at most 255 creations the load sees the id of every live task |
| `Mutex.RunIdsVisible` | src/arch/arm-m3m4/mutex.S:21-58 | Over every run with at most 255 creations, a lock used by its tasks excludes in every interleaving |
| `Blocks.LiveDisjoint` | src/heap.c:137-222 | Blocks of a tiling never overlap |
| `Blocks.TakeAddsOne` | src/heap.c:159-212 | Taking a free block, split or whole, adds one live block and moves no other |
| `Blocks.MergeKeepsLive` | src/heap.c:347-351 | Merging two free blocks changes no live block |
| `Blocks.DropKeepsLive` | src/heap.c:319-323 | Dropping a free last block changes no live block |
| `Markers.Dangling` | src/heap.c:176-190 | A path of markers whose last offset is not 0 is no chain of its length |
| `Markers.OffsetsFit` | src/heap.c:181-204 | The offsets of a chain, and those that a split, an append and an absorption compute, fit 16 bits in a region of fewer than 32768 words, so the range checks never fail |
| `Markers.SplitLinks` | src/heap.c:163-210 | Splitting a marker that is not the last keeps one acyclic chain with the new marker behind it |
| `Markers.SplitLastBreaks` | src/heap.c:176-190 | Splitting the last marker leaves no chain at all |
| `Markers.AppendLinks` | src/heap.c:241-254 | A new marker behind the last keeps the chain |
| `Markers.AbsorbLinks` | src/heap.c:335-351 | Absorbing a marker that is not the last keeps the chain, without that marker |
| `Markers.AbsorbLastBreaks` | src/heap.c:335-351 | Absorbing the last marker leaves no chain at all |
| `Markers.DropLinks` | src/heap.c:319-323 | Deleting the last marker keeps the chain |
| `Heap.SplitKeeps` | src/heap.c:163-210 | A split keeps a valid heap if and only if the block is not the last one |
| `Heap.GivenKeeps` | src/service/svr_heap.c:60-73 | The service's choice of path is first fit, and the end of the tiling only if nothing fits; which address comes back, and null exactly when nothing is handed out |
| `Heap.AllocationAddsOne` | src/service/svr_heap.c:52-83 | An allocation that does not split the last block keeps a valid heap and adds exactly one live block, at the address returned |
| `Heap.ReleaseCoalesces` | src/heap.c:310-396 | A release within the condition merges the block with exactly its free neighbours |
| `Heap.AbsorbsLastBreaks` | src/heap.c:335-351 | A release that absorbs the last marker leaves no valid heap |
| `Heap.OverflowBreaks` | src/heap.c:374-391 | A merge into the previous block whose sum overflows the header, or adds a block that was not absorbed, leaves a wrong tiling |
| `Heap.ReleaseExact` | src/heap.c:310-396 | A release gives the coalesced tiling in a valid heap if and only if the condition holds |
| `HeapRuns.CoalescedRemovesOne` | src/heap.c:310-396 | Coalescing takes exactly the released block from the live ones and keeps the total size unless the tail is dropped |
| `HeapRuns.CoalescedLength` | src/heap.c:310-396 | The chain loses one marker per merge, or the deleted last one |
| `HeapRuns.BlockAtFinds` | src/heap.c:297-309 | The address search finds exactly the block whose prefix sum is the address |
| `HeapRuns.ReleaseRemovesOne` | src/service/svr_heap.c:25-50 | Releasing a live address removes exactly that block and gives back its size |
| `HeapRuns.ReleaseAnswers` | src/service/svr_heap.c:25-50 | The answer is that the heap is empty, the address wrong or the release done exactly if there is no block, none that starts at the address, or one; but for the last, nothing changes |
| `HeapRuns.RequestAnswers` | src/heap.c:83-115 | A request is refused exactly if it comes to more than 32767 bytes, exceeds the account, or finds neither a free block large enough nor an empty word in the top quarter of the region; then nothing changes |
| `HeapRuns.HandsOutExactly` | src/heap.c:163-210 | The first free block that fits is cut to the request if and only if it is that size or a word below the top one is empty; otherwise all of it is handed out |
| `HeapRuns.StepKeeps` | src/service/svr_heap.c:25-83 | One call keeps a valid heap and every live block not released |
| `HeapRuns.RunKeeps` | src/service/svr_heap.c:25-83 | The heap is valid in every state of every run within the conditions |
| `HeapRuns.RunDisjoint` | src/heap.c:137-404 | In every state of such a run live blocks are disjoint and inside the tiling |
| `HeapRuns.LiveStays` | src/heap.c:137-404 | A live block keeps its address and size until it is released, whatever happens around it |
| `HeapRuns.StepAccount` | src/service/svr_heap.c:77-79 | Available plus live bytes move by exactly the bytes handed out beyond the request |
| `HeapRuns.AccountConstant` | src/service/svr_heap.c:77-79 | They are constant over a run if and only if every split that was needed found a spare word |
| `HeapFindings.RoundedIsLeast` | src/heap.c:88-91 | Rounding gives the least multiple of 4 from the request on, and 0 exactly for the three largest requests |
| `HeapFindings.StartAligned` | src/heap.c:47-51 | The start address comes out word aligned exactly for even addresses |
| `HeapFindings.ZeroRequest` | src/heap.c:83-115 | A request for no bytes that gets an address keeps a valid heap if and only if it is given a whole free block |
| `HeapFindings.SplitLastReached` | src/heap.c:176-190 | Two allocations and two releases lead to a state where the next allocation breaks the chain |
| `HeapFindings.AbsorbLastReached` | src/heap.c:335-351 | Three allocations and two releases lead to a state where the next release breaks the chain |
| `HeapRuns.InsideExactly` | src/heap.c:97-99 | Over every run of an empty heap in which needed splits found a spare word, all live blocks end at or before the end of the memory if and only if at every append the request and all free blocks together are within the account |
| `HeapFindings.PastTheEnd` | src/heap.c:97-99 | In 40 bytes of memory a request that the account admits is placed at offset 36 with 24 bytes |
| `HeapFindings.OverflowReached` | src/heap.c:374-391 | Three allocations and one release lead to a state where the next release overflows the header |
| `HeapFindings.ExcessReached` | src/heap.c:165-168 | From every empty heap some run hands out bytes that nobody accounts for |
| `HeapFindings.ReleasedTwice` | src/heap.c:310-313 | Releasing a free block counts its bytes again |
| `MarkerHeap.MarkerHeap.constructor` | src/heap.c:43-81 | Initialisation gives a valid empty heap whatever the memory held; it leaves the first word of the region as it was and clears the word behind the region |
| `MarkerHeap.MarkerHeap.FindFit` | src/heap.c:146-162 | The walk finds the first fit and its address |
| `MarkerHeap.MarkerHeap.FindSpare` | src/heap.c:165-175 | The scan finds the first empty word from the one below the region upwards |
| `MarkerHeap.MarkerHeap.SearchFree` | src/heap.c:137-222 | The routine in place, the handing out of a whole block for want of a spare word included |
| `MarkerHeap.MarkerHeap.FindFresh` | src/heap.c:232-240 | The scan sees only the top quarter of the region |
| `MarkerHeap.MarkerHeap.AddUp` | src/heap.c:255-267 | The walk over the rewritten chain adds up to the address behind the last block |
| `MarkerHeap.MarkerHeap.Extend` | src/heap.c:224-282 | The routine in place |
| `MarkerHeap.MarkerHeap.Allocate` | src/service/svr_heap.c:52-83 | The service in place |
| `MarkerHeap.MarkerHeap.HeapAllocate` | src/heap.c:83-115 | The library call with rounding and both refusals |
| `MarkerHeap.MarkerHeap.FindBlock` | src/heap.c:297-309 | The walk finds the block at the address or runs out of markers |
| `MarkerHeap.MarkerHeap.FindPrevious` | src/heap.c:354-363 | The walk ends at the marker before the released one, although words behind it have been rewritten |
| `MarkerHeap.MarkerHeap.FreeMarker` | src/heap.c:310-351 | The released marker and a free next one, with the value left in the size register |
| `MarkerHeap.MarkerHeap.JoinPrevious` | src/heap.c:352-392 | The free previous marker takes the released one over, with no check of the sum |
| `MarkerHeap.MarkerHeap.DropLast` | src/heap.c:318-369 | The last marker is deleted and the one before becomes the last |
| `MarkerHeap.MarkerHeap.ReleaseMarker` | src/heap.c:285-404 | The routine in place with its return value |
| `MarkerHeap.MarkerHeap.Release` | src/service/svr_heap.c:25-50 | The service in place with its errors |
| `MemoryMap.NextPowerOf2` | src/arch/arm-m3m4/script/devattrb.py:90-103 | The result is the least power of two from n on |
| `MemoryMap.SubregionMask` | src/arch/arm-m3m4/script/devattrb.py:61-68 | The mask leaves on exactly the lowest floor(8n/N) subregions |
| `MemoryMap.Coverage` | src/arch/arm-m3m4/script/devattrb.py:61-68 | They cover at most the section, fall short by less than a subregion, and cover it exactly if and only if N divides 8n |
| `MemoryMap.WindowTable` | src/arch/arm-m3m4/script/devattrb.py:110-142 | Each entry reads back as the stack that creation computes for the slot, with the valid bit and region 7, and has the attributes for its size |
| `MemoryMap.AttributesFit` | src/arch/arm-m3m4/script/devattrb.py:182-192 | Attributes are written exactly for stacks of 512 and 1024 bytes, and have the size field of the stack, the access bits and the enable bit |
| `MemoryMap.WindowsTile` | objgen/objgen.py:158-199 | The windows are aligned, disjoint, behind the upper region and before the heap markers, and fill the space between exactly |
| `MemoryMap.FrameInside` | src/arch/arm-m3m4/os_util.c:145-157 | The initial frame lies inside its stack exactly from 76 bytes on, one word below the end |
| `MemoryMap.PrepareStack` | src/service/svr_task.c:73-77 | The exception return finds the entry point as program counter, the end resolver as link register, the argument as first register and the thumb bit as status, and the switch the return code and the mode; only a quarter of the stack is cleared, so the other words keep their old contents |

## Side conditions of runs

`Runs.Allowed` holds what the run theorems ask of the caller, each checkable before the call: created tasks have a user
priority of at most 126, a clear hibernate bit and an object in no slot, and their level is listed, or there is room in the
stash and `LevelStash.Misplaced` does not name it; at most 65534 creations; no creation or kill while a promotion is in force;
a kill that takes a level off a full stash finds a 0 behind it; a promoted owner is another live task that is not promoted
already; a demotion, or a release that is not refused, comes from a task that was promoted; an invocation finds the base task
unpromoted. `Findings` shows that nothing less will do for a promotion of another unpromoted slot, an invocation and a release,
and, with nothing promoted, for a creation and a kill. Creations and kills during a promotion are left out altogether; some of
them would do no harm. Runs do not tie promotions to locks: `Promote` may name any live unpromoted slot.
`HeapRuns.Admitted` is its counterpart for the heap.

These conditions can be met: `Order.TwoTasksStart` gives a first state with the invariant, `Order.YieldEndsSoon` and
`SpinLock.OwnerRunsNext` steps from there on, and the constructor of `MarkerHeap` a valid heap.

The table has 2 to 127 slots: jumps are signed bytes. The marker region has a multiple of 4 words, as the generator makes it a
multiple of 256, and fewer than 32768.

## Left out

- The source keeps one global array per task variable; the class keeps one array of slot records and the level stash, so a write to one variable is a write of one record field. What lies behind an array is not one of the others here, but a byte of its own that may change at any time.
- KernelVars.KernelVars.TaskCreate: the error for a missing stack address (src/service/svr_task.c:64-70) is not modelled, because a stack address is never 0; the stack itself is prepared in `MemoryMap`.
- KernelVars.KernelVars.TaskKill: asks for a live slot; the source writes through the null object of an idle one.
- KernelVars.KernelVars.UnlinkSlot: sums of jumps are not cut to 8 bits; on the ring they fit (`JumpList.JumpFits`), for a kill of a slot off the ring they may not.
- TaskApi.TaskStart: scan and service are one step; `TaskApi.StartLater` says what comes of tasks that run in between.
- TaskApi.TaskKill: scan and service are one step; `TaskApi.KillLater` says what comes of tasks that run in between.
- Brackets.InvocationBracket: no promotion in the run uses the address of the base task's own mutex, which no lock has.
- KernelVars.KernelVars.Select: asks for a selectable task, which `Scheduler.SelectionEnds` shows to be exactly when the loop ends.
- Counters.RunTallied: exact counters only for runs without kill, promotion and demotion; with them the counters are bounded from below by the invariant (`Transitions.RecountEnough`).
- Runs.StepKeeps: a creation that the kernel admits on a full stash with an unlisted level is outside the runs, because it overwrites memory that is not the stash; `KernelVars.TaskCreate` has its effect on the stash and the byte behind it.
- Mutex.StepKeeps: a byte-wide exclusive load is taken to arm the monitor for the word-wide exclusive store, as the code relies on; one core; unlock only by the holder; the set of ids is fixed in advance, one for each task that ever uses the lock.
- Svc.SvcHandler: leaves out code 0, whose call goes through a null pointer, and the device reset, whose service does not come back (src/kernel.c:250-266); the services for devices and interrupts in the table touch none of the variables and are left as they are.
- The runs of the kernel leave out promotions of idle slots, which `SpinLock.AsksAllowed` shows to break the invariant; an ordinary unlock followed by the end of the task is enough to get there.
- The retry loop of `spin_lock` is one attempt at a time, a function of the kernel's state: between two attempts any other task may run.
- MarkerHeap.MarkerHeap.Extend: asks for nothing about 32-bit addresses; sums of block sizes stay below 2^32 for fewer than 32768 markers.
- MarkerHeap.MarkerHeap.SearchFree: the branches for offsets beyond 16 bits are not taken, by `Markers.OffsetsFit`, and are not modelled.
- MemoryMap.WindowsTile: stack sizes 128, 256, 512 and 1024; the script has a name for the last two only.
- MemoryMap.PrepareStack: stacks of at least 32 words; below 19 words the frame would lie in front of the stack.
- The permission that initialisation gives slot 0 before the start (src/kernel.c:107) is not modelled; the start gives it again.
- The heap services are commented out in the service table (src/svctable.c:47-48), so the heap is a component of its own and not part of the runs of the kernel.
- `hibernate` in src/task.c waits actively when the caller is alone; only the service behind it is modelled. The variable that lets the scheduler lower its level is constant and true.
- Bodies of the tasks, memory cells that hibernating tasks compare (a parameter of each step), timers other than one on/off switch, interrupts, device registers, context switch code beyond the change of the current task, the simulator's threads.
- The `ENABLE_SAFE_LOCK` branch of `spin_lock`, which is disabled; semaphores; the lock of the other processor family, whose reservations the sources do not settle; register access services.
- Reading the configuration, printing headers and building in the generator, and its check of the kernel's own stack.
