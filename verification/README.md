# Verification of the kernel behind the periodic weakly-hard scheduler

This project models a FreeRTOS V10.4.6 kernel whose `tasks.c` has been changed into a periodic, deadline-driven scheduler
for tasks with weakly-hard constraints, in three variants (EDF, RTO and BWP), and proves properties of it. `dafny verify
dfyconfig.toml` checks the whole project.

Code that changes state in place is a class whose methods are proved to compute a function of the old state; what the
code promises is proved about those functions, over all runs and all interleavings. Histories (finished jobs, bytes sent,
callbacks, results of calls) are kept beside the state so that these promises can be stated.

## The parts

- **Periodic scheduler** (`Periodic*`, `TaskInvariants`, `SkipPattern`, `Demand`, `Schedulability`, `Exactness`,
  `ServiceAccount`, `DemandTest`, `Utilisation`, `Generator`, `WeaklyHard`, `ReportMonitor`, `Hyperperiod`). A tick charges
  the running job, moves it to the wait list if it is finished, kills the jobs that can no longer finish in time, releases
  the jobs whose period begins, and switches context. A task with constraint w may miss one deadline after w - 1 met ones; w = 0 means never. A *red* job must be
  done, a *blue* one may be missed.
- **Lists** (`KernelList`, `PointerList`): the circular doubly linked list, once with pointers and once as a sequence with
  a walking index, which is what the periodic scheduler's wait list is. Lists whose walking index nobody uses are plain
  sequences: delayed tasks take the insertion position from `KernelList`, while timers, queues, mutexes and event groups
  insert by their own keys (expiry, priority, none).
- **Tick wrap** (`DelayedTasks`, `TimeOuts`, `Timers`, `TimerConservation`, `TimerProgress`, `TimerCommands`,
  `TimerControl`): wrapped tick counts against an unbounded clock.
- **Queues** (`QueueLock`, `QueueWakeUp`, `QueueConservation`, `QueueControl`, `QueueRing`, `QueueLaws`): blocking and
  postponed wake-ups as interleaved critical sections; the byte storage as a double-ended queue, and what its results say.
- **Stream and message buffers** (`MessageLength`, `StreamBuffer*`, `StreamOrder`, `MessageBuffer`, `StreamCallers`): one
  writer and one reader whose single-byte steps interleave.
- **Mutexes** (`Mutex*`): priority inheritance. `MutexInheritance` and `MutexSafety` have the steps and what they keep when
  the processor is always with a most urgent task; `MutexSchedule` has the running task and the switches that the source
  requests, and says when that is so.
- **Event groups** (`Event*`): waiting for flag bits, and the rendezvous.

## Assumptions

- Periodic scheduler: `vTaskSwitchContext` runs once after each tick and once before the first one; the scheduler is not
  suspended across a tick of a periodic task; all periodic tasks have priority 1, which is the list that `killTasks` walks;
  1 <= duration <= period; `start_time` is 0 at creation (`xTaskCreatePeriodic` does not set it); all tasks are created at
  tick 0; the tick count does not wrap; constraints fit their byte; time slicing is off. Results about BWP hold while
  deadlines stay below 2^30, so that the marker bits of its keys are free.
- Delayed tasks, time-outs and timers: readings of the clock that one decision compares are less than one turn of the
  counter apart, unless a row says otherwise. The counters of overflows do not wrap.
- Queues: queue sets are off; overwriting is used on queues of length 1 with items of at least one byte in `QueueLock`
  (`QueueRing` covers the other case); at most 127 interrupt operations fall on one locked stretch, as `configASSERT`
  demands.
- Buffers: one writer and one reader; twice the length of a buffer fits the size type; the length type is written least
  significant byte first.
- Mutexes: no task waits for a mutex while it holds one. Results outside `MutexSchedule` are about runs in which a task acts
  only while no ready task has a higher priority; `MutexSchedule.HighestRunsExactly` says which runs these are.
- Ticks are natural numbers, so the width of the tick type does not appear. The Posix port's tick type is `unsigned long`
  with `portMAX_DELAY` its maximum; the list class takes the maximum as a parameter. Where that type has 64 bits,
  `1 << 31` in the BWP keys sets all bits from 31 up; every key of the variant carries them, so their order is as modelled.

## What the proofs found

- The constraint counter is a byte. After 256 met deadlines it starts again at 0 and a permitted miss can be flagged as a
  break (`WeaklyHard.FlaggedThoughWindowHolds` gives the exact condition).
- `check_sufficient_condition` returns 1 on both of its ways out (`Generator.CheckSufficientCondition`). The sum it computes
  rounds a difference down once where the skip pattern rounds two quotients, so even comparing that sum would admit task
  sets that RTO breaks (`Generator.GeneratorAdmitsBrokenSet`). How much is missing at each length is known exactly
  (`Generator.ShareExactly`, `Generator.SumAgainstDemand`); with the shortfall added, the loop bound MAX_L is high enough for
  an exact test (`Generator.TestBelowMaxL`).
- `startTaskSetGenerator` (`taskSetGenerator.c`, lines 262-272) draws the constraints once more and computes the durations
  only after both conditions have been checked, so they are checked on other values than the simulation uses.
- The comment on `vListInsertEnd` says that the item will be the last to be returned by a walk. That holds if and only if
  the walking index is on the end marker (`KernelList.InsertEndInNextRound`).
- Overwriting a full queue of zero-sized items, such as a binary semaphore, counts beyond the length
  (`QueueRing.BoundedExactly`).
- A message longer than the range of the configured length type is accepted, and then cut short on the way out
  (`MessageBuffer.CountIsWholeMessage`).
- A give that brings its task down to its base priority asks for no switch when the waiter it wakes is no more urgent than
  that, even if a third ready task is (`MutexYield.MissedYield`). It is the only step after which a less urgent task can go
  on running (`MutexSchedule.HighestRunsExactly`); that task can then take a mutex over a more urgent waiter
  (`MutexScenarios.MissedYieldInvertsPriorities`).
- A task that has held two mutexes at once keeps what it inherited through one until it has given back the other too
  (`MutexScenarios.InheritanceOutlastsItsCause`; exactly when, `MutexClaims.RaisedOnNobodysAccountExactly`); for a task that
  holds one at a time nothing is left once its cause is gone (`MutexAccount.InheritanceIsAccountedFor`).
- The assertion in `xQueueSemaphoreTake` that no inheritance is pending when no time is left can fail
  (`MutexScenarios.AssertionCanFail`; exactly when, `MutexAssertion.AssertionFailsExactly`).

## Model

| member | source | states |
|---|---|---|
| Schedulability.DemandFitsNeverBroken | FreeRTOSv202112.00/FreeRTOS/Source/tasks.c:3254-3320 | If the red jobs of the skip pattern never ask for more ticks than an interval has, no run of any length sets `uxWeaklyHardBroken`; EDF and RTO kill no job at all, and BWP kills no red job |
| Exactness.NeverKillsIffDemandFits | FreeRTOSv202112.00/FreeRTOS/Source/tasks.c:3254-3320 | EDF and RTO never kill a job in any run if and only if that demand condition holds |
| Exactness.RtoNeverBrokenIffDemandFits | FreeRTOSv202112.00/FreeRTOS/Source/tasks.c:3235-3283 | RTO keeps every weakly-hard constraint for ever if and only if the demand condition holds |
| Exactness.UnbrokenBwpMeetsDemand | FreeRTOSv202112.00/FreeRTOS/Source/tasks.c:3235-3283 | A BWP run that has broken nothing in its first len ticks has met the demand of that interval |
| Exactness.BwpBreaksWhenDemandDoesNotFit | FreeRTOSv202112.00/FreeRTOS/Source/tasks.c:3235-3283 | A BWP run has broken a constraint by the end of any interval whose demand does not fit, so the condition is exact for BWP too while deadlines stay below 2^30 |
| Exactness.ReportsThePattern | FreeRTOSv202112.00/FreeRTOS/Source/tasks.c:3496-3500 | When the demand fits, a job whose period is over is reported as finished in time if and only if it is a red job of the pattern: every job under EDF, all but every w-th under RTO |
| ServiceAccount.ServiceDecidesReport | FreeRTOSv202112.00/FreeRTOS/Source/tasks.c:3484-3509 | In every history, schedulable or not, a ready job lacks its duration less the ticks its task has been running since its release, and a job is reported as finished in time exactly if the ticks of its period in which its task was running reach the duration |
| ServiceAccount.FateOfJobs | FreeRTOSv202112.00/FreeRTOS/Source/tasks.c:3254-3320 | What the next tick makes of a job, by those ticks alone: reported if they reach the duration, killed and counted once if what is lacking no longer fits the period, otherwise it goes on; a new job is released with every period, except that RTO skips one that the report lets it miss |
| ServiceAccount.FirstJobs | FreeRTOSv202112.00/FreeRTOS/Source/tasks.c:905-1003 | At instant 0 every task has its first job, with all its duration to go, except that RTO skips those that may be missed |
| ServiceAccount.EveryJobIsDecidedOnce | FreeRTOSv202112.00/FreeRTOS/Source/tasks.c:3264-3316 | The jobs a task has done with are those reported, those killed and those skipped, each counted once; only RTO skips any |
| Utilisation.FullUtilisationFits | FreeRTOSv202112.00/FreeRTOS/Source/tasks.c:3254-3320 | Total duration/period at most 1 makes the demand fit, under every variant, so the first row applies |
| Utilisation.EdfNeverKillsIffUtilisationAtMostOne | FreeRTOSv202112.00/FreeRTOS/Source/tasks.c:3254-3320 | EDF never kills a job if and only if total utilisation is at most 1 |
| DemandTest.FiniteTest | FreeRTOSv202112.00/FreeRTOS/Source/tasks.c:3254-3320 | The demand condition holds for all lengths if and only if it holds up to a length after which every skip pattern starts again |
| DemandTest.LeastRepeat | period_and_wh_generator.c:41-50 | The patterns start again after just the multiples of the least common multiple of period times constraint, so that is the least such test |
| Generator.TestBelowMaxL | FreeRTOSv202112.00/FreeRTOS/Demo/Posix_GCC/taskSetGenerator.h:7-14 | For every set in the generator's ranges the lengths below MAX_L decide the demand condition, under every variant |
| Generator.ShareExactly | FreeRTOSv202112.00/FreeRTOS/Demo/Posix_GCC/taskSetGenerator.c:224-230 | The share of a task in the sum of check_sufficient_condition counts its red jobs, or one less, and one less exactly if the ticks of the job in progress, times the constraint, are fewer than those into the pattern |
| Generator.SumAgainstDemand | FreeRTOSv202112.00/FreeRTOS/Demo/Posix_GCC/taskSetGenerator.c:219-236 | RTO breaks no constraint in any run if and only if the sum leaves room for its own shortfall at every length; so passing the sum is necessary |
| Generator.SumDecidesWithoutSkips | FreeRTOSv202112.00/FreeRTOS/Demo/Posix_GCC/taskSetGenerator.c:219-236 | With constraints of at most 1, a set passes the sum at every length if and only if RTO never breaks it |
| Generator.GeneratorAdmitsBrokenSet | FreeRTOSv202112.00/FreeRTOS/Demo/Posix_GCC/taskSetGenerator.c:206-243 | Two tasks of period 20, duration 13 and constraint 2, within the generator's ranges, meet the necessary condition and pass the sum at every length, and yet RTO breaks their constraint |
| Generator.CheckSufficientCondition | FreeRTOSv202112.00/FreeRTOS/Demo/Posix_GCC/taskSetGenerator.c:219-236 | The nested loops end at the first length below MAX_L that the sum exceeds, or at MAX_L, and return 1 in both cases; so a set that RTO breaks is admitted exactly if its demand does not fit |
| Generator.NecessaryConditionIsNecessary | FreeRTOSv202112.00/FreeRTOS/Demo/Posix_GCC/taskSetGenerator.c:206-217 | A set whose constraints RTO never breaks meets check_nessery_condition |
| Generator.CheckNecessaryCondition | FreeRTOSv202112.00/FreeRTOS/Demo/Posix_GCC/taskSetGenerator.c:206-217 | The loop returns 1 exactly if the sum is at most 1, and always for a set that RTO never breaks |
| Schedulability.HistoryKeepsInv | FreeRTOSv202112.00/FreeRTOS/Source/tasks.c:3487-3523 | In every state of every run each task satisfies `TaskInv`: a ready job was released at the start of the period in progress, has at least one tick left, can still finish in time and carries the key of its deadline |
| Schedulability.HistoryKeepsWork | FreeRTOSv202112.00/FreeRTOS/Source/tasks.c:3487-3523 | In every state of a run whose demand fits, the remaining red work with deadline up to d, present and future, is at most d minus now, for every d |
| Schedulability.TickKeepsWork | FreeRTOSv202112.00/FreeRTOS/Source/tasks.c:3487-3523 | The step of that induction: one tick of charge, kill, release and switch keeps the bound for a horizon d |
| Schedulability.KeyOrder | FreeRTOSv202112.00/FreeRTOS/Source/tasks.c:240-268 | One key is at most another if and only if its job has the earlier deadline or the same, except that under BWP a red job always comes before a blue one |
| TaskInvariants.TickKeepsTaskInv | FreeRTOSv202112.00/FreeRTOS/Source/tasks.c:3487-3509 | One tick keeps `TaskInv`; the current job is never found finished after its period, so the branch that says so is dead, and no job is ready when the next one of its task is released |
| TaskInvariants.FutureWorkBound | FreeRTOSv202112.00/FreeRTOS/Source/tasks.c:3297-3311 | A task whose present job is not due by d can ask for no more work by then than the pattern asks for in the time that is left |
| SkipPattern.TickKeepsPattern | FreeRTOSv202112.00/FreeRTOS/Source/tasks.c:3306-3311 | While only jobs that must be done run, the counter and the report of a task follow the fixed pattern of w-1 done and one skipped, and each tick is credited to the running job |
| SkipPattern.MustIsRedJob | FreeRTOSv202112.00/FreeRTOS/Source/tasks.c:274-291 | On the pattern the jobs that must be done are exactly those whose number is not w-1 modulo w |
| Demand.WorstRedsIsPattern | FreeRTOSv202112.00/FreeRTOS/Source/tasks.c:3306-3311 | The worst number of red jobs among the next m, from a fresh counter, is the number that the skip pattern has |
| PeriodicTasks.TickIsTaskwise | FreeRTOSv202112.00/FreeRTOS/Source/tasks.c:3487-3523 | A tick does to each task what its own state says, whatever the lists look like; every task stays on exactly one of the two lists; the switch picks a least key; the broken flag rises exactly if a red job is killed |
| PeriodicTasks.SwitchPicksLeastKey | FreeRTOSv202112.00/FreeRTOS/Source/tasks.c:137-151 | The context switch picks a ready periodic task whose key no other ready task undercuts, and idle only if none is ready |
| PeriodicTasks.KillTasksLocal | FreeRTOSv202112.00/FreeRTOS/Source/tasks.c:3254-3283 | killTasks judges every task that was ready at entry exactly once and changes no other: those with too little time go to the wait list with their counter cleared, the others stay ready, and the flag rises exactly if one of those killed was red |
| PeriodicTasks.WakeTasksLocal | FreeRTOSv202112.00/FreeRTOS/Source/tasks.c:3285-3320 | wakeTasks releases every waiting task whose period begins, once, and no other, and no task falls off the lists; how long the job then runs is the subject of ServiceDecidesReport |
| PeriodicTasks.CreateOne | FreeRTOSv202112.00/FreeRTOS/Source/tasks.c:905-1003 | Creating a periodic task puts it on the ready list, or under RTO, if it may skip its first job, on the wait list, with its first deadline as key |
| PeriodicTasks.RunHasHistory | FreeRTOSv202112.00/FreeRTOS/Source/tasks.c:3326-3523 | Every run of n ticks is a history of task-wise ticks from a synchronous release |
| Periodic.MakeReadyKeepsLists | FreeRTOSv202112.00/FreeRTOS/Source/tasks.c:238-293 | prvAddTaskToReadyList keeps the ready list in key order and loses no task, under each variant; under RTO its guards are the complement of the skip guard in wakeTasks |
| Periodic.BehindEqualKeys | FreeRTOSv202112.00/FreeRTOS/Source/tasks.c:238-293 | A task that becomes ready goes behind every ready task whose key is not larger, so equal deadlines are served in order of arrival |
| Periodic.MoveToWaitKeepsLists | FreeRTOSv202112.00/FreeRTOS/Source/tasks.c:3197-3213 | Moving a task to the wait list keeps both lists consistent and changes no other task |
| PeriodicKernel.Kernel.constructor | FreeRTOSv202112.00/FreeRTOS/Source/tasks.c:4302-4312 | A new kernel has the idle task alone on the lowest list and no periodic task |
| PeriodicKernel.Kernel.CreatePeriodic | FreeRTOSv202112.00/FreeRTOS/Source/tasks.c:905-1003 | The kernel's fields after xTaskCreatePeriodic are those of the specification |
| PeriodicKernel.Kernel.AddTaskToReadyList | FreeRTOSv202112.00/FreeRTOS/Source/tasks.c:238-293 | addTaskToReadyList with the macro computes `MakeReady`, and the recorded top priority stays an upper bound |
| PeriodicKernel.Kernel.AddTaskToWaitList | FreeRTOSv202112.00/FreeRTOS/Source/tasks.c:3197-3213 | addTaskToWaitList computes `MoveToWait`, also for the walking index |
| PeriodicKernel.Kernel.CheckWeaklyHard | FreeRTOSv202112.00/FreeRTOS/Source/tasks.c:3235-3252 | check_weakly_hard sets the flag exactly if a miss now breaks the constraint |
| PeriodicKernel.Kernel.JudgeReady | FreeRTOSv202112.00/FreeRTOS/Source/tasks.c:3266-3277 | The body of the kill loop computes `KillOne`; what it kills, and that it counts it once, is the subject of FateOfJobs |
| PeriodicKernel.Kernel.KillNext | FreeRTOSv202112.00/FreeRTOS/Source/tasks.c:3264-3281 | One turn of the kill loop, with the list changing under the walking index, handles the next task of those ready at entry |
| PeriodicKernel.Kernel.KillTasks | FreeRTOSv202112.00/FreeRTOS/Source/tasks.c:3254-3283 | The loop computes `KillTasks` over all tasks ready at entry |
| PeriodicKernel.Kernel.WakeOneTask | FreeRTOSv202112.00/FreeRTOS/Source/tasks.c:3297-3313 | The body of the wake loop computes `WakeOne`: a job whose period begins has its whole duration to go and starts now, and no other block changes its job |
| PeriodicKernel.Kernel.WakeNext | FreeRTOSv202112.00/FreeRTOS/Source/tasks.c:3296-3318 | One turn of the wake loop handles the next task of those waiting at entry |
| PeriodicKernel.Kernel.WakeTasks | FreeRTOSv202112.00/FreeRTOS/Source/tasks.c:3285-3320 | The loop computes `WakeTasks` over all tasks waiting at entry |
| PeriodicKernel.Kernel.ChargeCurrent | FreeRTOSv202112.00/FreeRTOS/Source/tasks.c:3487-3509 | The charge of the running job, with the report, computes `Charge` |
| PeriodicKernel.Kernel.IncrementTick | FreeRTOSv202112.00/FreeRTOS/Source/tasks.c:3484-3523 | The periodic part of xTaskIncrementTick computes charge, kill and release in this order |
| PeriodicKernel.Kernel.SwitchContext | FreeRTOSv202112.00/FreeRTOS/Source/tasks.c:137-151 | The search ends at the highest non-empty list, whose head becomes current, and records its priority |
| PeriodicKernel.Kernel.TickInterrupt | FreeRTOSv202112.00/FreeRTOS/Source/portable/ThirdParty/GCC/Posix/port.c:388-395 | One tick interrupt, increment and switch, is one `Tick` of the specification |
| PeriodicKernel.Simulate | FreeRTOSv202112.00/FreeRTOS/Source/portable/ThirdParty/GCC/Posix/port.c:388-395 | The fields after creation, one switch and n tick interrupts are `Run` of the specification, so every result about runs is about these fields |
| ReportMonitor.BrokenIffReportFlagged | FreeRTOSv202112.00/FreeRTOS/Source/tasks.c:3235-3277 | In every run, schedulable or not, the flag is set exactly if some task's report holds a miss that the byte counter finds too early; no broken window goes unnoticed |
| WeaklyHard.CounterDecidesWindow | FreeRTOSv202112.00/FreeRTOS/Source/tasks.c:3235-3252 | While no run of met deadlines reaches 256, the one-counter monitor flags exactly the reports in which two misses, counting a virtual one at the start, are less than w jobs apart |
| WeaklyHard.FlaggedThoughWindowHolds | FreeRTOSv202112.00/FreeRTOS/Source/tasks.c:3498 | Exactly when the monitor is wrong: a miss after at least 256 met deadlines whose number modulo 256 is below w-1 |
| WeaklyHard.BrokenWindowIsFlagged | FreeRTOSv202112.00/FreeRTOS/Source/tasks.c:3235-3252 | A broken window is always flagged, however long the runs |
| WeaklyHard.ByteCounterFalseAlarm | FreeRTOSv202112.00/FreeRTOS/Source/tasks.c:3498 | The false alarm exists: 256 met deadlines and one miss |
| WeaklyHard.CounterIsRun | FreeRTOSv202112.00/FreeRTOS/Source/tasks.c:3268-3273 | The counter is the length of the last run of met deadlines, modulo 256 |
| Hyperperiod.GcdDivides | period_and_wh_generator.c:20-25 | Euclid's recursion gives a common divisor |
| Hyperperiod.LcmIsLeast | period_and_wh_generator.c:27-30 | LCM divides every common multiple |
| Hyperperiod.HyperperiodIsLeast | period_and_wh_generator.c:41-50 | The fold over the periods is their least common multiple |
| Hyperperiod.CalculateHiperperiod | period_and_wh_generator.c:41-50 | The loop computes the least common multiple, and no value on the way exceeds it |
| KernelList.InsertKeepsSortedAndStable | FreeRTOSv202112.00/FreeRTOS/Source/list.c:117-185 | Ordered insertion keeps the order and puts the item behind all equal keys, the maximum included |
| KernelList.InsertPositionUnique | FreeRTOSv202112.00/FreeRTOS/Source/list.c:132-165 | Where the search loop stops is determined by what it has passed |
| KernelList.InsertThenRemove | FreeRTOSv202112.00/FreeRTOS/Source/list.c:87-214 | Removing an item just inserted restores the items and the walking index, for both insertions |
| KernelList.WalkVisits | FreeRTOSv202112.00/FreeRTOS/Source/include/list.h:281-292 | A round of listGET_OWNER_OF_NEXT_ENTRY visits the items in ring order from the index on |
| KernelList.InsertEndInNextRound | FreeRTOSv202112.00/FreeRTOS/Source/include/list.h:350-373 | An item inserted at the end comes last in the next round if and only if the index is on the end marker; otherwise one item comes after it |
| PointerList.List.constructor | FreeRTOSv202112.00/FreeRTOS/Source/list.c:50-72 | A new list is the empty sequence with the index on the marker |
| PointerList.List.InsertEnd | FreeRTOSv202112.00/FreeRTOS/Source/list.c:87-114 | Links, count, containers and index after vListInsertEnd represent `InsertEnd` of the old sequence |
| PointerList.List.Insert | FreeRTOSv202112.00/FreeRTOS/Source/list.c:117-185 | vListInsert, whose search ends at the sentinel, represents insertion at the stop position; a sorted list stays sorted |
| PointerList.List.Remove | FreeRTOSv202112.00/FreeRTOS/Source/list.c:188-214 | uxListRemove represents `RemoveAt` with the index moved back, frees the item and returns the count |
| PointerList.List.NextEntry | FreeRTOSv202112.00/FreeRTOS/Source/include/list.h:281-292 | The macro moves the index to the next item, skipping the marker, and returns it |
| PointerList.List.HeadEntry | FreeRTOSv202112.00/FreeRTOS/Source/include/list.h:391 | The head entry is the first item of the sequence |
| DelayedTasks.Delays.AddCurrentTaskToDelayedList | FreeRTOSv202112.00/FreeRTOS/Source/tasks.c:5948-6058 | A task delayed d ticks is listed to wake at the unbounded instant now + d, or for ever if it asks for the maximum and may |
| DelayedTasks.Delays.AddUntil | FreeRTOSv202112.00/FreeRTOS/Source/tasks.c:5985-6018 | The choice of list by the wrapped wake time puts it in the right turn of the counter |
| DelayedTasks.Delays.RemoveSleeper | FreeRTOSv202112.00/FreeRTOS/Source/tasks.c:3836-3846 | A task woken early leaves its list; the cached time may be left as it is |
| DelayedTasks.Delays.ResetNextTaskUnblockTime | FreeRTOSv202112.00/FreeRTOS/Source/tasks.c:4644-4662 | The cached time is the head's wake time, never above any listed one |
| DelayedTasks.Delays.SwitchDelayedLists | FreeRTOSv202112.00/FreeRTOS/Source/tasks.c:201-213 | The current list is empty at every wrap, and the two lists change places |
| DelayedTasks.Delays.UnblockDueTasks | FreeRTOSv202112.00/FreeRTOS/Source/tasks.c:3359-3436 | The loop behind the cached guard readies exactly the tasks whose wrapped wake time is the present tick |
| DelayedTasks.Delays.IncrementTick | FreeRTOSv202112.00/FreeRTOS/Source/tasks.c:3336-3436 | Exactly the tasks wake whose unbounded instant is the new clock, whatever the cache held |
| DelayedTasks.Delays.Elapse | FreeRTOSv202112.00/FreeRTOS/Source/tasks.c:3336-3436 | Over n ticks a sleeper is readied by the tick that reaches its instant, by that one only, across any number of wraps |
| DelayedTasks.Delays.TickInterrupt | FreeRTOSv202112.00/FreeRTOS/Source/tasks.c:3326-3436 | While the scheduler is suspended a tick is only counted |
| DelayedTasks.Delays.ResumeAll | FreeRTOSv202112.00/FreeRTOS/Source/tasks.c:2679-2775 | When the last suspension ends the clock has caught up and exactly the tasks whose instant has passed have been readied |
| TimeOuts.ShouldDelayExact | FreeRTOSv202112.00/FreeRTOS/Source/tasks.c:1491-1530 | From the wrapped counter xTaskDelayUntil blocks exactly if less than the increment has passed, modulo the range: the whole family of wrong decisions of a call more than a turn late is named |
| TimeOuts.DifferenceOfReadings | FreeRTOSv202112.00/FreeRTOS/Source/tasks.c:3968-3995 | What two readings of the counter say about the time between them |
| TimeOuts.PeriodicTask.DelayUntil | FreeRTOSv202112.00/FreeRTOS/Source/tasks.c:1479-1560 | The wake time moves by one increment, and the call blocks for exactly the time that is left |
| TimeOuts.PeriodicTask.DelayRepeatedly | FreeRTOSv202112.00/FreeRTOS/Source/tasks.c:1479-1560 | The n-th call aims at start + n increments and blocks until then if that is still to come |
| TimeOuts.TimeOut.SetTimeOutState | FreeRTOSv202112.00/FreeRTOS/Source/tasks.c:3948-3953 | Starting a wait records the instant |
| TimeOuts.TimeOut.CheckForTimeOut | FreeRTOSv202112.00/FreeRTOS/Source/tasks.c:3956-4018 | For checks less than a turn apart entry + remaining stays constant and the time-out comes exactly when it is reached; and the exact outcome for checks any time apart |
| TimeOuts.TimeOut.CheckRepeatedly | FreeRTOSv202112.00/FreeRTOS/Source/tasks.c:3956-4018 | The retry loop stops at the first check at or after the instant at which the original budget is spent |
| Timers.PlaceExact | FreeRTOSv202112.00/FreeRTOS/Source/timers.c:711-752 | From wrapped tick counts prvInsertTimerInActiveList processes at once exactly the timers that are due, and lists the others in the lap of their expiry, for commands less than a lap old |
| Timers.PlaceAnyAge | FreeRTOSv202112.00/FreeRTOS/Source/timers.c:711-752 | For commands of any age it processes at once exactly if the age modulo the range reaches the period, so it misplaces an old command exactly if that remainder is smaller |
| TimerConservation.CallbacksAreConserved | FreeRTOSv202112.00/FreeRTOS/Source/timers.c:517-925 | After any run no timer has called back early, and when the daemon finds nothing to do every auto-reload timer started at C with period p has called back once for each C + kp that has passed; a one-shot timer not at all before its time |
| TimerProgress.DaemonCatchesUp | FreeRTOSv202112.00/FreeRTOS/Source/timers.c:566-685 | After any run, turns of the daemon at one instant, at most one more than there are entries in its lists, bring it to where it has nothing to do there; then every callback that has fallen due has been made |
| TimerCommands.CommandsDecideCallbacks | FreeRTOSv202112.00/FreeRTOS/Source/timers.c:755-899 | After any run, where the daemon finds nothing to do at instant now, a timer whose last command started it or changed its period at C has called back floor((now - C) / period) times if it reloads, and otherwise once if a period has passed and not before; one stopped last, or never started, is inactive |
| TimerCommands.InactiveStaysQuiet | FreeRTOSv202112.00/FreeRTOS/Source/timers.c:755-899 | A timer that has been stopped, or has expired once, makes no callback until it is started or given a new period |
| TimerConservation.ActionKeepsInv | FreeRTOSv202112.00/FreeRTOS/Source/timers.c:599-899 | Every turn and command keeps the lists in order, each active timer in the list of its expiry's lap, listed at start + (callbacks + 1) periods |
| TimerConservation.ReloadKeeps | FreeRTOSv202112.00/FreeRTOS/Source/timers.c:517-532 | The reload loop ends with the timer listed at the first instant of its series after now, one callback for each passed |
| TimerConservation.ExpiredKeeps | FreeRTOSv202112.00/FreeRTOS/Source/timers.c:536-560 | An expired timer gets a callback for this expiry and each later one that has passed; a one-shot timer gets its only one and becomes inactive |
| TimerConservation.DrainKeeps | FreeRTOSv202112.00/FreeRTOS/Source/timers.c:903-925 | The list-switch loop ends with an empty current list and keeps the invariant |
| TimerConservation.StartKeeps | FreeRTOSv202112.00/FreeRTOS/Source/timers.c:816-845 | A start command that is carried out late is made up for: all callbacks due, or the place in the list |
| TimerControl.Daemon.InsertTimerInActiveList | FreeRTOSv202112.00/FreeRTOS/Source/timers.c:711-752 | With wrapped values in two lists, the timer is reported due or listed as the unbounded model says |
| TimerControl.Daemon.ReloadTimer | FreeRTOSv202112.00/FreeRTOS/Source/timers.c:517-532 | The loop computes `Reload` and terminates |
| TimerControl.Daemon.ProcessExpiredTimer | FreeRTOSv202112.00/FreeRTOS/Source/timers.c:536-560 | Computes `ProcessExpired` for the head of the current list |
| TimerControl.Daemon.SwitchTimerLists | FreeRTOSv202112.00/FreeRTOS/Source/timers.c:903-925 | Computes `Drain` at the end of the lap and swaps the lists; the loop terminates |
| TimerControl.Daemon.SampleTimeNow | FreeRTOSv202112.00/FreeRTOS/Source/timers.c:688-708 | A smaller count than the last is seen as a wrap, exactly when there was one; computes `Sample` |
| TimerControl.Daemon.ProcessTimerOrBlock | FreeRTOSv202112.00/FreeRTOS/Source/timers.c:599-685 | One turn of the daemon computes `Turn`, and it blocks exactly if no timer of the lap is due |
| TimerControl.Daemon.StartTimer | FreeRTOSv202112.00/FreeRTOS/Source/timers.c:816-845 | Start and reset compute `Start` |
| TimerControl.Daemon.StopTimer | FreeRTOSv202112.00/FreeRTOS/Source/timers.c:847-851 | Stop takes the timer out of its list and leaves it inactive, otherwise as it was |
| TimerControl.Daemon.ChangeTimerPeriod | FreeRTOSv202112.00/FreeRTOS/Source/timers.c:853-866 | A change of period computes `ChangePeriod`, counting from now |
| QueueWakeUp.NoLostWakeUp | FreeRTOSv202112.00/FreeRTOS/Source/queue.c:805-1014 | For every interleaving of send, receive, peek, overwrite, time-outs, interrupts and lock/unlock: while a task is listed to receive, every message is covered by a woken receiver that has not retried or a postponed wake-up; likewise free slots for senders |
| QueueWakeUp.QuietQueueBlocksRightly | FreeRTOSv202112.00/FreeRTOS/Source/queue.c:805-1014 | With nobody woken or inside a call, tasks wait to receive only at an empty queue and to send only at a full one, never both |
| QueueWakeUp.ActionKeepsInv | FreeRTOSv202112.00/FreeRTOS/Source/queue.c:2264-2381 | Every critical section and suspended step keeps the invariant behind the two rows above |
| QueueConservation.MessagesAreConserved | FreeRTOSv202112.00/FreeRTOS/Source/queue.c:805-1014 | For every interleaving from a new queue, the count of messages is the sends that found room (an overwriting one only on an empty queue), by tasks and interrupts, less the receives that found a message; nothing else counts, and it stays within the length |
| QueueConservation.StepConserves | FreeRTOSv202112.00/FreeRTOS/Source/queue.c:1375-1395 | The same for each of the fourteen actions |
| QueueConservation.CallEndsExactly | FreeRTOSv202112.00/FreeRTOS/Source/queue.c:1352-1492 | A call ends exactly when it does its operation, when it may not wait and cannot do it, when it sends and its time had run out as it looked, or when it receives, its time had run out and the queue is still empty |
| QueueConservation.WaitsExactly | FreeRTOSv202112.00/FreeRTOS/Source/queue.c:961-1013 | With the scheduler suspended, a call gives up exactly if its time has run out, and goes to wait exactly if it cannot do its operation |
| QueueConservation.FirstReceiversAreWoken | FreeRTOSv202112.00/FreeRTOS/Source/queue.c:2264-2381 | Postponed wake-ups go to the first of the waiting list, one each, in its order |
| QueueConservation.FirstSendersAreWoken | FreeRTOSv202112.00/FreeRTOS/Source/queue.c:2264-2381 | And so for tasks that wait to send |
| QueueControl.Queue.constructor | FreeRTOSv202112.00/FreeRTOS/Source/queue.c:266-320 | A new queue is in the start state |
| QueueControl.Queue.LockQueue | FreeRTOSv202112.00/FreeRTOS/Source/queue.c:251-263 | prvLockQueue computes `Lock` |
| QueueControl.Queue.UnlockTxHalf | FreeRTOSv202112.00/FreeRTOS/Source/queue.c:2272-2350 | The loop wakes one receiver for each postponed wake-up while any wait, then unlocks |
| QueueControl.Queue.UnlockRxHalf | FreeRTOSv202112.00/FreeRTOS/Source/queue.c:2353-2380 | The same for senders |
| QueueControl.Queue.SendFromISR | FreeRTOSv202112.00/FreeRTOS/Source/queue.c:1017-1181 | Computes `IsrSend`: a wake-up now, or one more postponed |
| QueueControl.Queue.ReceiveFromISR | FreeRTOSv202112.00/FreeRTOS/Source/queue.c:1865-1957 | Computes `IsrReceive` |
| QueueControl.Queue.TryOperation | FreeRTOSv202112.00/FreeRTOS/Source/queue.c:1366-1430 | The first critical section computes `Attempt`; in numbers, a receive leaves one message less, a send one more, an overwrite one more on an empty queue only, a peek or an attempt in vain as many; the first task on the other side's list leaves it |
| QueueRing.Queue.constructor | FreeRTOSv202112.00/FreeRTOS/Source/queue.c:281-284 | A new queue is the empty deque, with the read offset at the last slot |
| QueueRing.Queue.CopyDataToQueue | FreeRTOSv202112.00/FreeRTOS/Source/queue.c:2160-2241 | After a copy to the back the contents of the byte ring are the old ones followed by the item, after one to the front the item followed by the old ones, and after an overwrite the item alone |
| QueueRing.Queue.CopyDataFromQueue | FreeRTOSv202112.00/FreeRTOS/Source/queue.c:2243-2261 | The slot after the read offset is handed out and the offset moves on, around the end |
| QueueRing.Queue.Perform | FreeRTOSv202112.00/FreeRTOS/Source/queue.c:1375-1395 | Send, receive and peek (which puts the offset back) give the result and the contents of the deque |
| QueueRing.Queue.PerformAll | FreeRTOSv202112.00/FreeRTOS/Source/queue.c:2160-2261 | For every sequence of operations, any item size and length, results and contents are those of a bounded double-ended queue |
| QueueRing.BoundedExactly | FreeRTOSv202112.00/FreeRTOS/Source/queue.c:2171-2237 | Over any sequence of operations the count of messages passes the length in one way only, overwriting a full queue of zero-sized items; with items of at least one byte it never does |
| QueueRing.ReceiveAll | FreeRTOSv202112.00/FreeRTOS/Source/queue.c:2243-2261 | Receives hand out the items from the front in order |
| QueueLaws.FirstInFirstOut | FreeRTOSv202112.00/FreeRTOS/Source/queue.c:2160-2261 | Of the results alone: in any sequence of sends to the back, receives and peeks on a new queue, what is received is the beginning of what was sent, the next receive gives the first item outstanding, and a send fails exactly if as many are outstanding as the queue is long |
| QueueLaws.SentToFront | FreeRTOSv202112.00/FreeRTOS/Source/queue.c:2200-2237 | After any operations, an item sent to the front is the next to be received or peeked at, and receiving it changes no later result |
| QueueLaws.SentToBack | FreeRTOSv202112.00/FreeRTOS/Source/queue.c:2188-2199 | After any operations, receives give what they would have given without a send to the back, and then its item |
| QueueLaws.Peeked | FreeRTOSv202112.00/FreeRTOS/Source/queue.c:1714-1862 | A peek gives what the next receive would, and changes no later result |
| QueueLaws.FailedChangesNothing | FreeRTOSv202112.00/FreeRTOS/Source/queue.c:908-930 | A send that finds the queue full, or a receive that finds it empty, changes no later result |
| QueueLaws.Overwritten | FreeRTOSv202112.00/FreeRTOS/Source/queue.c:2211-2230 | After an overwrite the next receive gives the new item, and then the queue is empty |
| StreamOrder.ReceivedIsPrefixOfSent | FreeRTOSv202112.00/FreeRTOS/Source/stream_buffer.c:1141-1228 | For every interleaving of one writer and one reader the bytes taken out are the first of the bytes put in, in order, and no unread byte is overwritten |
| StreamOrder.SamplesAreSafe | FreeRTOSv202112.00/FreeRTOS/Source/stream_buffer.c:497-527 | A space or count sampled earlier is never more than the true one; bytes + spaces = length - 1 |
| StreamOrder.StepKeepsInv | FreeRTOSv202112.00/FreeRTOS/Source/stream_buffer.c:1141-1228 | Every byte copied and every index moved keeps the invariant behind these |
| StreamBuffer.DistancesExact | FreeRTOSv202112.00/FreeRTOS/Source/stream_buffer.c:497-527 | The two distance computations in a size type are right exactly while their intermediate value fits it |
| StreamBuffer.BytesAndSpaces | FreeRTOSv202112.00/FreeRTOS/Source/stream_buffer.c:1231-1249 | Reported bytes and spaces add up to length - 1 if twice the length fits the size range |
| MessageLength.DecodeEncode | FreeRTOSv202112.00/FreeRTOS/Source/stream_buffer.c:738-741 | A length prefix gives back a length exactly if it is below the range of the length type |
| MessageBuffer.MessagesArriveInOrder | FreeRTOSv202112.00/FreeRTOS/Source/stream_buffer.c:724-764 | For every interleaving the messages received are the first of those sent, whole and in order, if every published length fits its prefix |
| MessageBuffer.SmallBuffersDeliverEverything | FreeRTOSv202112.00/FreeRTOS/Source/stream_buffer.c:724-764 | A buffer no longer than the range of its length type needs no such condition |
| MessageBuffer.CountIsWholeMessage | FreeRTOSv202112.00/FreeRTOS/Source/stream_buffer.c:977-1007 | With room enough the receiver takes the whole oldest message exactly if its length fits the prefix; a longer one is always cut short |
| StreamCallers.StreamDeliversAccepted | FreeRTOSv202112.00/FreeRTOS/Source/stream_buffer.c:724-764 | For every interleaving on a new stream buffer the bytes received are the beginning of what the callers handed in and had accepted, which of each call is the beginning of its data, as much as fitted |
| StreamCallers.MessagesDeliverAccepted | FreeRTOSv202112.00/FreeRTOS/Source/stream_buffer.c:724-764 | For a message buffer the messages received are the first of those handed in that fitted, under the same condition on lengths |
| StreamBufferControl.ReceiveTakesOldest | FreeRTOSv202112.00/FreeRTOS/Source/stream_buffer.c:968-1017 | A receive hands over exactly the oldest message, or, with too little room, changes nothing |
| StreamBufferCopies.SendIsRun | FreeRTOSv202112.00/FreeRTOS/Source/stream_buffer.c:724-764 | An uninterrupted send is the run of its byte-wise steps |
| StreamBufferCopies.ReceiveIsRun | FreeRTOSv202112.00/FreeRTOS/Source/stream_buffer.c:968-1017 | An uninterrupted receive is the run of its byte-wise steps |
| StreamBufferControl.StreamBufferObject.constructor | FreeRTOSv202112.00/FreeRTOS/Source/stream_buffer.c:235-305 | A new buffer has one byte more than asked for and is empty |
| StreamBufferControl.StreamBufferObject.PutBytes | FreeRTOSv202112.00/FreeRTOS/Source/stream_buffer.c:1141-1184 | Two block copies split at the end of the storage equal byte-wise writing around it |
| StreamBufferControl.StreamBufferObject.GetBytes | FreeRTOSv202112.00/FreeRTOS/Source/stream_buffer.c:1187-1228 | Two block copies equal byte-wise reading around the end |
| StreamBufferControl.StreamBufferObject.WriteMessage | FreeRTOSv202112.00/FreeRTOS/Source/stream_buffer.c:724-764 | Of a stream the first bytes of the data are appended, as many as there are spaces; of a message all, with its prefix, if both fit, and otherwise nothing changes |
| StreamBufferControl.StreamBufferObject.Send | FreeRTOSv202112.00/FreeRTOS/Source/stream_buffer.c:542-670 | A send without waiting accepts and appends just that, returns its length, and is a run of the interleaving model |
| StreamBufferControl.StreamBufferObject.ReadMessage | FreeRTOSv202112.00/FreeRTOS/Source/stream_buffer.c:968-1017 | Takes prefix and body, or for want of room nothing |
| StreamBufferControl.StreamBufferObject.Receive | FreeRTOSv202112.00/FreeRTOS/Source/stream_buffer.c:767-868 | A receive without waiting is a run of the interleaving model; from a stream it gives the oldest bytes, as many as there are and the caller has room for |
| MutexSafety.HoldersAreUrgent | FreeRTOSv202112.00/FreeRTOS/Source/tasks.c:4712-4981 | In every run each holder's priority is at least that of every task it keeps waiting, `uxMutexesHeld` is the number of mutexes held, and a task that holds none is at its base priority |
| MutexSafety.ActionKeepsInv | FreeRTOSv202112.00/FreeRTOS/Source/queue.c:1495-1710 | Every take, block, time-out, disinheriting and give keeps the invariant, including that a free mutex with waiters has an urgent task about to try |
| MutexSafety.TakerIsUrgent | FreeRTOSv202112.00/FreeRTOS/Source/queue.c:1525-1554 | Whoever takes a free mutex is at least as urgent as all its waiters |
| MutexSafety.LowerKeeps | FreeRTOSv202112.00/FreeRTOS/Source/tasks.c:4882-4978 | Coming down after a time-out to the highest remaining waiter is safe for a task that holds one mutex |
| MutexSafety.GiveKeeps | FreeRTOSv202112.00/FreeRTOS/Source/tasks.c:4802-4872 | Disinheriting and waking the first waiter keeps the invariant |
| MutexAccount.InheritanceIsAccountedFor | FreeRTOSv202112.00/FreeRTOS/Source/tasks.c:4712-4981 | In every run a holder that has not held two mutexes at once is above its base priority only if some task of exactly that priority is still in a call for that mutex that has caused the inheritance; so when no such call is left nothing is left of the inheritance |
| MutexAccount.StepAccount | FreeRTOSv202112.00/FreeRTOS/Source/queue.c:1495-1710 | Every action keeps this account, which rests on the call's own memory of whether it caused an inheritance |
| MutexAccount.LoweredIsAccounted | FreeRTOSv202112.00/FreeRTOS/Source/queue.c:1679-1698 | After a time-out the holder is exactly as high as its base or as a task that still waits and has caused inheritance |
| MutexClaims.RaisedOnNobodysAccountExactly | FreeRTOSv202112.00/FreeRTOS/Source/tasks.c:4712-4981 | In every run, and for holders of any number of mutexes: a task is above its base priority with no task of just that priority blocked on, or in an inheriting call for, a mutex it holds, exactly if some step took its last such reason without lowering it and no step since has lowered it or given it a new one |
| MutexClaims.AccountStepExactly | FreeRTOSv202112.00/FreeRTOS/Source/tasks.c:4712-4981 | The same for one step, in both directions, by conditions on the state before the step |
| MutexScenarios.InheritanceOutlastsItsCause | FreeRTOSv202112.00/FreeRTOS/Source/tasks.c:4815-4857 | A run from sleeping tasks that carries out every requested switch and leaves a task raised on nobody's account, since it comes down only with its last mutex |
| MutexYield.MissedYield | FreeRTOSv202112.00/FreeRTOS/Source/queue.c:898-931 | Exactly when a give leaves a less urgent task running without asking for a switch |
| MutexSchedule.ScheduleStep | FreeRTOSv202112.00/FreeRTOS/Source/tasks.c:3657-3740 | With the switches that the source requests, and no others, each step keeps a most urgent task running exactly if it is not a give that misses its switch |
| MutexSchedule.HighestRunsExactly | FreeRTOSv202112.00/FreeRTOS/Source/queue.c:898-931 | In every run from sleeping tasks that carries out every requested switch, a most urgent task runs in every state exactly if no give meets the condition under which it misses its switch |
| MutexSchedule.ScheduledHoldersAreUrgent | FreeRTOSv202112.00/FreeRTOS/Source/queue.c:898-931 | In every such run without a missed switch each holder is at least as urgent as every task it keeps waiting; the scheduler's choice is derived here, not assumed |
| MutexScenarios.MissedYieldInvertsPriorities | FreeRTOSv202112.00/FreeRTOS/Source/queue.c:898-931 | A run from sleeping tasks that carries out every requested switch: after a give that misses its switch the giver takes a mutex over a more urgent waiter without coming up to it |
| MutexAssertion.AssertionFailsExactly | FreeRTOSv202112.00/FreeRTOS/Source/queue.c:1578-1594 | In every run a call that tries without time left, after a wait that caused an inheritance, came there by giving up and finding the mutex free; the assertion then fails exactly if another task has taken the mutex since and still holds it |
| MutexAssertion.NeverFailsWithoutRivals | FreeRTOSv202112.00/FreeRTOS/Source/queue.c:1578-1594 | The assertion never fails for a task if all others that call for the mutex have lower base priorities and call for it while they hold nothing |
| MutexScenarios.AssertionCanFail | FreeRTOSv202112.00/FreeRTOS/Source/queue.c:1578-1594 | A run from sleeping tasks, with every requested switch carried out, at whose end the assertion fails |
| MutexControl.Kernel.constructor | FreeRTOSv202112.00/FreeRTOS/Source/queue.c:512-530 | Mutexes start free, tasks at their base priority |
| MutexControl.Kernel.PriorityInherit | FreeRTOSv202112.00/FreeRTOS/Source/tasks.c:4712-4795 | Raises the holder to the caller, and reports whether it is above its base on the caller's account |
| MutexControl.Kernel.PriorityDisinherit | FreeRTOSv202112.00/FreeRTOS/Source/tasks.c:4802-4872 | One mutex less, and the base priority with the last; asks for a switch exactly if the task came down |
| MutexControl.Kernel.GetDisinheritPriorityAfterTimeout | FreeRTOSv202112.00/FreeRTOS/Source/queue.c:2135-2155 | The priority of the first waiter, or the idle priority; under the invariant no waiter is above it |
| MutexControl.Kernel.PriorityDisinheritAfterTimeout | FreeRTOSv202112.00/FreeRTOS/Source/tasks.c:4882-4978 | A holder of one mutex comes to the higher of its base and that priority; any other stays |
| MutexControl.Kernel.TryToTake | FreeRTOSv202112.00/FreeRTOS/Source/queue.c:1525-1610 | A free mutex has the task as its holder and the task one mutex more; from a held one it goes on to wait, or returns if it has no time; no other task changes |
| MutexControl.Kernel.PlaceOnEventList | FreeRTOSv202112.00/FreeRTOS/Source/tasks.c:3732-3754 | The task goes behind all waiters of at least its priority and before the first of lower priority |
| MutexControl.Kernel.WaitUnlessFree | FreeRTOSv202112.00/FreeRTOS/Source/queue.c:1615-1664 | The task is blocked and listed and the holder at least as high as it, or the mutex is free and it tries again |
| MutexControl.Kernel.GiveUpUnlessFree | FreeRTOSv202112.00/FreeRTOS/Source/queue.c:1666-1703 | After its time has run out a call tries again if the mutex is free |
| MutexControl.Kernel.DisinheritTimedOut | FreeRTOSv202112.00/FreeRTOS/Source/queue.c:1679-1698 | The task is out of its call, and a holder of one mutex as high as its base or the most urgent waiter, whichever is higher; any other holder is as before |
| MutexControl.Kernel.GiveMutex | FreeRTOSv202112.00/FreeRTOS/Source/queue.c:828-934 | The mutex is free, the giver holds one less and is back at its base with the last, the first waiter is ready and off the list; a switch is asked for exactly as `YieldRequested` says |
| EventBits.NoSatisfiedTaskWaits | FreeRTOSv202112.00/FreeRTOS/Source/event_groups.c:194-625 | Whatever calls have been made, no task waits for what the bits already give it, and every call that returned without a time-out returned bits that fulfil its condition |
| EventBits.SetFreesExactly | FreeRTOSv202112.00/FreeRTOS/Source/event_groups.c:533-625 | Setting bits frees the waiters whose condition the new bits meet, and those only, each with those bits in hand |
| EventBits.SetIgnoresOrder | FreeRTOSv202112.00/FreeRTOS/Source/event_groups.c:533-625 | Resulting bits, freed and remaining tasks do not depend on the order of the list |
| EventBits.ToClearBit | FreeRTOSv202112.00/FreeRTOS/Source/event_groups.c:594-602 | A bit is cleared exactly if a freed waiter asked for it |
| EventBits.ApplyKeepsInv | FreeRTOSv202112.00/FreeRTOS/Source/event_groups.c:194-625 | Every call, time-out and return keeps the invariant |
| EventBits.UnpackPack | FreeRTOSv202112.00/FreeRTOS/Source/event_groups.c:52-61 | The request packed into an item is recovered, control bits apart |
| EventLaws.BitAfter | FreeRTOSv202112.00/FreeRTOS/Source/event_groups.c:194-625 | For every call and bit: the bit is set afterwards exactly if it was, or has just been set, and is not cleared on request, by a met wait with clear-on-exit for it, by a freed waiter that asked for it, by a completed rendezvous, or by the late check of a wait that timed out; an unmet wait changes no bit |
| EventLaws.ReturnsExactly | FreeRTOSv202112.00/FreeRTOS/Source/event_groups.c:317-467 | Which calls return at once, with which bits, and whether as a time-out; the others block exactly if they may and are not met |
| EventLaws.TakenOnce | FreeRTOSv202112.00/FreeRTOS/Source/event_groups.c:533-625 | In every run, a bit that a step has handed to a task with clear-on-exit must be set again before a later step hands it on |
| EventLaws.BitIsUsedOnce | FreeRTOSv202112.00/FreeRTOS/Source/event_groups.c:194-625 | In every run, two calls that both asked for a bit to be cleared both return with it, without a time-out, only if two tasks were freed by the same set or the bit was set again in between |
| EventRendezvous.NobodyPassesEarly | FreeRTOSv202112.00/FreeRTOS/Source/event_groups.c:194-314 | In any number of xEventGroupSync rounds, with time-outs, an arrival lets a task pass without a time-out exactly if all have arrived since the mask was last clear; then all waiters are freed with the full mask and it is clear again |
| EventRendezvous.LastArrival | FreeRTOSv202112.00/FreeRTOS/Source/event_groups.c:212-254 | The last arrival frees everyone who still waits and clears the mask |
| EventRendezvous.EarlierArrival | FreeRTOSv202112.00/FreeRTOS/Source/event_groups.c:212-254 | An earlier arrival frees nobody |
| EventRendezvous.LeavingKeepsMeeting | FreeRTOSv202112.00/FreeRTOS/Source/event_groups.c:257-302 | A task that runs out of time leaves its bit and clears nothing |
| EventGroupControl.EventGroup.constructor | FreeRTOSv202112.00/FreeRTOS/Source/event_groups.c:148-190 | A new group has no bits and no waiters |
| EventGroupControl.EventGroup.TestWaitCondition | FreeRTOSv202112.00/FreeRTOS/Source/event_groups.c:692-726 | All of the mask, or any of it |
| EventGroupControl.EventGroup.RemoveFromUnorderedEventList | FreeRTOSv202112.00/FreeRTOS/Source/tasks.c:3887-3902 | The item leaves the list with its new value |
| EventGroupControl.EventGroup.Examine | FreeRTOSv202112.00/FreeRTOS/Source/event_groups.c:560-615 | One turn of the loop removes the item exactly if it matches and collects what it wants cleared |
| EventGroupControl.EventGroup.SetBits | FreeRTOSv202112.00/FreeRTOS/Source/event_groups.c:533-625 | The loop over a list that it changes computes `AfterSet` |
| EventGroupControl.EventGroup.ClearBits | FreeRTOSv202112.00/FreeRTOS/Source/event_groups.c:473-497 | Clears exactly the given bits and returns the bits before |
| EventGroupControl.EventGroup.WaitBits | FreeRTOSv202112.00/FreeRTOS/Source/event_groups.c:317-406 | Up to where the task blocks: it blocks exactly if it may and the bits do not fulfil its condition; a met wait with clear-on-exit takes its mask away and any other leaves all bits; the bits returned are those before |
| EventGroupControl.EventGroup.Sync | FreeRTOSv202112.00/FreeRTOS/Source/event_groups.c:212-254 | Up to where the task blocks, computes `Sync` |
| EventGroupControl.EventGroup.FinishWait | FreeRTOSv202112.00/FreeRTOS/Source/event_groups.c:407-467 | Once the task runs again: a freed task returns the bits it was freed with, which fulfil its condition; one that timed out returns the present bits, and takes its mask away if they fulfil it after all and it asked for that |

## Left out

- PeriodicKernel.Kernel.IncrementTick: leaves out the exit at the hyperperiod, which ends the program rather than the run.
- PeriodicKernel.Kernel.CreatePeriodic: leaves out creation while the scheduler runs and the choice of the current task at
  creation, which the first context switch overrides.
- Hyperperiod.CalculateHiperperiod: uses unbounded integers; an `int` is enough exactly if it holds the result.
- DelayedTasks.Delays.RemoveSleeper: covers the removal from the delayed lists only, not the event lists of the cause.
- QueueRing.Queue.Perform: leaves out blocking and wake-ups, which `QueueLock` has without the bytes.
- StreamBufferControl.StreamBufferObject.Send: leaves out waiting for space, the trigger level and the notifications.
- StreamBufferControl.StreamBufferObject.Receive: leaves out waiting for data.
- MutexControl.Kernel.PriorityInherit: keeps no ready lists; where a task stands in them follows from its priority.
- Generator.CheckSufficientCondition: computes with exact quotients and durations of at least one tick, where the source has
  doubles and, before `calculateTaskDuration`, durations of zero.
- TimerControl.Daemon.ProcessTimerOrBlock: leaves out the wait itself; a callback is a count, and what it does is not
  modelled.
- EventBits.NoSatisfiedTaskWaits: covers calls by tasks; setting bits from an interrupt is a task-level call of the timer
  daemon in the source.
- When EDF, overloaded, breaks a constraint: EDF ignores constraints, so the flag then depends on which jobs of the
  overload are killed; when it kills at all is exact (`Exactness.NeverKillsIffDemandFits`).
- Recursive mutexes, `vTaskPrioritySet`, and waiting for a mutex while holding one.
- `xQueueGenericReset` on a queue in use, queue sets, the queue registry, and deleting tasks, queues or event groups.
- The pending ready list, abort of delays, suspended tasks, notifications, tickless idle, and co-routines.
- Floating point in the generators, their random choices and their files; the exact quotients are used instead.
- Task listing, names, run-time statistics, stack checks, memory protection and the port layer below the tick handler.
