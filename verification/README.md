# A verified model of the cse522s systems-course repository

The project models the six algorithmic files of the repository in Dafny and proves what they are
for. Its modules follow the parts of the programs named below, and a large program such as
`lab2/E2E.c` is spread over several; `dafny verify dfyconfig.toml` checks everything.

## What is modelled

**The jump-ahead generator and its XOR table** (`studio15/random_access.c`; `words.dfy`,
`generator.dfy`, `machine_words.dfy`, `period.dfy`, `random_access.dfy`). `Step` is one turn of the
shift register and `Steps` is that turn repeated. A word is a polynomial over two elements, reduced
by x^64 + x^2 + x + 1, and a step multiplies by x. `HpccStarts` computes the same word by
square-and-multiply over a table of squared basis elements; the proof that one pass over the table
doubles the exponent is the cancellation of cross terms in a square. `period.dfy` shows that the
generator returns after PERIOD steps, by squaring 64-bit machine words along the binary digits of
PERIOD; so reducing the index loses nothing, and the jump is exact for every index. The table half
shows that each pass of updates undoes itself, so passes cancel in pairs, and that a long run may be
cut into chunks which jump to their own start and run in any order. A word is a sequence of 64 bits,
least significant first, so that bit positions can be quantified over; shifts and masks of counters
are shifts and masks of natural numbers.

**Run mode of the end-to-end scheduler** (`lab2/E2E.c`; `release_protocol.dfy`, `timely_runs.dfy`,
`missed_deadlines.dfy`, `module_runs.dfy`). One task is a chain of subtask threads, each asleep,
woken or running, with its last release time and an optional timer expiry. The events are: the start
timer, a woken thread being dispatched, a job completing (which checks its successor's release guard
and either wakes it or arms its timer, in one step), a timer firing, and a clock tick. Release and
completion times are kept as histories and lost wakes are counted; no step reads either. The class
`Task` holds the threads as an array that the events update in place. Each method is proved to take
exactly the step of the transition system, and the class carries the run it has gone through, so
that every theorem about runs holds of its threads at any time. `timely_runs.dfy` is about the runs
in which woken threads are dispatched at once and jobs end within a period: nothing is lost,
releases are periodic, time can always go on and the releases come. `missed_deadlines.dfy` says when
the message about a missed deadline is right, with relative deadlines in ticks. `module_runs.dfy`
puts many tasks under one clock and one start timer. Each of them goes through a run of its own
chain, so that what holds of every chain holds in the whole module, and all of them together can
stay timely until any later time.

**Calibration mode of the scheduler** (`lab2/E2E.c`; `task_set.dfy`, `deadlines.dfy`,
`kernel_sort.dfy`, `permutations.dfy`, `placement.dfy`, `priorities.dfy`, `prioritising.dfy`,
`hyper_period.dfy`, `calibration.dfy`, `initialisation.dfy`). Prefix sums of execution times,
first-fit-decreasing placement on any number of cores, deadline ordered priorities, start addresses
with a sentinel, the per-core walk and the loop-count search, composed in `InitCalibrate`. The
struct tables are arrays of values, and a pointer into the subtask table is a position in it; the
sentinel is the last slot. The clock that times a probe is an arbitrary function of subtask, probe
number and loop count.

**The shared-memory handshake** (`studio5/leader.c`, `studio5/follewer.c`; `handshake.dfy`). Both
programs are cut at every access to the region, and a run is any sequence of turns. The guards are
checked and reset in the order in which C evaluates them. The array length is arbitrary. The class
`Exchange` performs the accesses in place and carries the interleaving it has gone through.

**Demand paging** (`lab-1/mod/paging.c`; `paging.dfy`). Areas share reference-counted records whose
page lists grow at the front. The kernel's frame allocator is the set of frames handed out; giving
back a frame that is not held is a precondition violation, so a double release cannot be expressed.
The class `PagingModule` performs the operations in place and carries the run it has gone through.

**Page orders and the fill/verify thread** (`studio4/kernel_memory.c`, `lab-1/mod/paging.c`;
`page_order.dfy`, `kernel_memory.dfy`).

`sequences.dfy` and `wrappers.dfy` hold what several modules share.

## Where the code promises less than its documentation

- The scheduler's report says every task is released periodically. In every run, a job of the first
  subtask is followed by another release, made or promised, if and only if it ends before its period
  is over (`ReleasedAgain`). The decision is final: at the end of a job some continuation releases
  the first subtask again exactly when the period is not over (`OverrunIsFinal`), and after an
  overrun none does (`NothingAfterOverrun`). `OverrunHappens` shows for every period that a first
  job that takes as long ends the task. Elsewhere wakes can be lost as well: `Precedence` and
  `HeadWakesCounted` account for every one of them.
- The report speaks of a hyper period; the code takes the largest period. `LargestPeriodSuffices`
  shows that an unflagged placement keeps every core within its capacity for all tables over some
  periods if and only if each of these periods divides the largest. Whenever one does not,
  `OverloadedUnflagged` gives a table of two subtasks that overloads a core and is not flagged; for
  the periods 3 and 7 it has execution times 1 and 5, which makes 22/21 of core 0. `OverloadedFits`
  shows that overflow is not the reason.
- The report says that a subtask that misses its relative deadline is reported. The message measures
  from the last release of the first subtask, which may already start a later instance:
  `ReportedExactly` says for every run when that is right. In a timely run the message sees the
  response time modulo the period (`MissedModuloPeriod`, `ReportIsRight`), so that the last subtask
  of a task is never reported at all (`LastSubtaskNeverReported`); `UnreportedMiss` is such a run in
  which it ends a tick too late.
- The report calls a rejection an unschedulable case. Every load list that cannot be packed is
  rejected (`UnpackableIsRejected`), but not only those: `RejectedThoughPackable` rejects the loads
  4, 3, 3, 2, 2, 2 on two cores of 8, which pack as 4+2+2 and 3+3+2. `FirstFitDecreasing` says which
  totals are never rejected, and `ThresholdIsExact` that no larger bound on the total would do.
- Priorities are meant to follow relative deadlines, but they count down in 32 bits. They follow the
  deadlines on a core if and only if the core has at most 51 subtasks, or all its floored deadlines
  are equal (`OrderedExactly`). `PrioritiesStrict` gives the condition rank by rank,
  `CountdownWraps` the priorities of 52 subtasks on one core, and `LatestDeadlineComesFirst` a task
  of 52 subtasks whose latest deadline gets the highest priority.
- A page whose remapping returns -1, the only code that is taken for a failure (any other error is
  recorded as mapped), is neither counted nor given back. Once no area is left the module holds
  exactly the frames of the faults that could not map theirs, so nothing is held if and only if
  there was no such fault (`FramesStayBehind`). `OneFrameStays` is a run of three operations that
  ends with a frame held while the counters agree.
- `HandshakeFinishes` shows that a follower that announces itself before the leader has cleared the
  write guard blocks both sides for good, and that any later announcement lets them finish.
- With fewer than 128 structs the page count is zero and the thread divides by it
  (`NoPagesExactlyWhenSmall`).

## Model

| member | source | states |
|---|---|---|
| Generator.StepLinear | studio15/random_access.c:54 | the generator step distributes over XOR |
| Generator.CrossTermsCancel | studio15/random_access.c:107-111 | the polynomial product of the low bits of a word with themselves is the pass over the even powers: all cross terms cancel |
| Generator.SquareDoublesExponent | studio15/random_access.c:107-111 | the pass over the m2 table takes the word after m steps to the word after 2m steps |
| Generator.GeneratorRecurrence | studio15/random_access.c:54 | sixty-four steps from any word give the sum of two steps, one step and the word itself: x^64 + x^2 + x + 1 is zero |
| Period.PeriodReturns | studio15/random_access.c:90-91 | after PERIOD steps the generator is back at whatever word it started from |
| RandomAccess.DoubleAndAdd | studio15/random_access.c:106-115 | one turn of the main loop takes the exponent n >> (i+1) to n >> i |
| RandomAccess.ReducedIndexIsCongruent | studio15/random_access.c:90-91 | the normalised index is congruent modulo the period, lies in 0..PERIOD, and is n itself when n already does |
| RandomAccess.StartIsExact | studio15/random_access.c:90-91 | the word of the reduced index is, for every index that is not negative, the word after that many steps from 1, and for a negative one the word from which as many steps lead to 1 |
| RandomAccess.NormaliseIndex | studio15/random_access.c:90-91 | both normalising loops terminate without 64-bit overflow and leave the reduced index |
| RandomAccess.FillSquares | studio15/random_access.c:94-99 | entry k of the table is the word after 2k steps |
| RandomAccess.FindTopBit | studio15/random_access.c:101-103 | the scan stops at the highest set bit of the index |
| RandomAccess.SquareByTable | studio15/random_access.c:107-111 | the inner loop computes the squaring pass |
| RandomAccess.HpccStarts | studio15/random_access.c:83-118 | for every 64-bit n that is not negative the result is the word after n single steps from 1; for a negative n, -n steps lead from the result to 1 |
| RandomAccess.IndexIsLowBits | studio15/random_access.c:51-52 | for a power-of-two table the masked word is the word's value modulo the size |
| RandomAccess.IndexBits | studio15/random_access.c:51-52 | for a table of 2^k cells bit i of the index is bit i of the word for i below k, and zero above |
| RandomAccess.UpdatesFirst | studio15/random_access.c:50-55 | a run of updates adds the seed to the cell the seed selects and goes on from the next word |
| RandomAccess.CellAfterUpdates | studio15/random_access.c:50-55 | after n updates each cell is its old value XOR the generated words whose index it is |
| RandomAccess.UpdatesInvolution | studio15/random_access.c:50-55 | repeating a run of updates from the same seed restores the table |
| RandomAccess.Iteration | studio15/random_access.c:35-58 | the in-place pass performs the first 4 * size updates of the stream and returns the low byte of the next word |
| RandomAccess.RunKernelPasses | studio15/random_access.c:60-77 | an even number of passes restores any table, an odd number equals one pass |
| RandomAccess.StreamSplitting | studio15/random_access.c:50-118 | consecutive chunks of a run of any length, each started at its jump-ahead word, give the sequential table in whatever order they run |
| ReleaseProtocol.StepKeepsInv | lab2/E2E.c:96-154 | every event keeps the release spacing, the timer bounds and the accounting of each adjacent pair |
| ReleaseProtocol.ReleaseGuard | lab2/E2E.c:113-153 | in every run two consecutive releases of any subtask are at least one period apart |
| ReleaseProtocol.Precedence | lab2/E2E.c:130-153 | in every run releases, pending wakes, armed timers and lost wakes of a successor add up to its predecessor's completions, and the k-th release never precedes the k-th completion |
| ReleaseProtocol.NoReleaseDropped | lab2/E2E.c:113-153 | in every run, once a predecessor has completed a job since its successor's last release, the next release is woken or timed unless the successor's own job takes a period or more; and a successor asleep without a timer has been so only since its predecessor's last completion |
| ReleaseProtocol.CompletionReaches | lab2/E2E.c:144-152 | a completion wakes a sleeping successor whose period is over, times one that is within its period to the end of that period, and is lost only on one that is awake after it |
| ReleaseProtocol.FireReaches | lab2/E2E.c:113-117 | a timer that fires wakes its subtask if that sleeps and is lost otherwise |
| ReleaseProtocol.PrecedenceAlongChain | lab2/E2E.c:130-153 | release counts do not increase along the chain, and each link takes at least one tick |
| TimelyRuns.TimelyStepKeeps | lab2/E2E.c:127-154 | every timely event keeps the lossless accounting: nothing lost, one pending wake at most, each timer due within the predecessor's period |
| TimelyRuns.LosslessChain | lab2/E2E.c:127-154 | with immediate dispatch and jobs shorter than a period no wake is lost, completions and successor releases match one to one, and the k-th release follows the predecessor's k-th by less than a period |
| TimelyRuns.ReleaseLaw | lab2/E2E.c:144-152 | in such runs the k-th release of a successor happens exactly at the later of its predecessor's k-th completion and one period after its own previous release |
| TimelyRuns.PeriodicRelease | lab2/E2E.c:127-154 | in such runs the first subtask is released exactly every period, and subtask s between s and s * (period - 1) ticks later |
| TimelyRuns.TimelyNeverStuck | lab2/E2E.c:127-154 | with a period of at least two ticks, a timely state has an event that lowers the work due now, or no work is due and the clock may tick |
| TimelyRuns.TimelyGoesOn | lab2/E2E.c:127-154 | every timely run with a period of at least two ticks has a timely continuation that brings the clock to any later time |
| TimelyRuns.ReleasesCome | lab2/E2E.c:127-154 | in every timely run, once the clock is past the first release plus k periods plus s times (period - 1), subtask s has had its k-th release |
| ReleaseProtocol.ReleasedAgain | lab2/E2E.c:127-143 | in every run the k-th job of the first subtask is followed by another release, made or pending, if and only if it ended less than a period after its own release |
| ReleaseProtocol.OverrunIsFinal | lab2/E2E.c:127-143 | after a job of the first subtask in any run, some continuation releases it again if and only if the job ended before its period was over |
| ReleaseProtocol.NothingAfterOverrun | lab2/E2E.c:127-143 | a run in which the first subtask overruns never releases it again, whatever follows |
| ReleaseProtocol.OverrunHappens | lab2/E2E.c:127-143 | for every period, the run in which the first job takes some time ends with the first subtask asleep for good if and only if that time is at least the period |
| ReleaseProtocol.HeadWakesCounted | lab2/E2E.c:96-143 | in every run the releases and pending wakes of the first subtask and the one wake it can lose add up to the start and its completions, and that wake is lost exactly when the subtask is asleep for good |
| ReleaseProtocol.Task.constructor | lab2/E2E.c:227-234 | every thread starts asleep, unreleased, with no timer, and the run so far is empty |
| ReleaseProtocol.Task.StartTimer | lab2/E2E.c:96-107 | the start timer wakes the first subtask, if there is one, and changes nothing else; like each method below it adds its event to the run that has led to the present state |
| ReleaseProtocol.Task.Dispatched | lab2/E2E.c:129-130 | a dispatched thread records its release time |
| ReleaseProtocol.Task.JobDone | lab2/E2E.c:134-153 | a completed job re-arms a first subtask, wakes the successor or arms its timer by the release guard, and sleeps; the result says whether a missed deadline is reported |
| ReleaseProtocol.Task.TimerFired | lab2/E2E.c:113-117 | an expired timer wakes its own thread if that is asleep |
| MissedDeadlines.ReportedExactly | lab2/E2E.c:134-139 | in every run a reported job is late, and report and lateness agree if and only if the first subtask has not been released again, or the job is late even for the latest instance, or it ends exactly at a deadline of one period |
| MissedDeadlines.MissedModuloPeriod | lab2/E2E.c:134-139 | in a timely run a job is reported exactly when its response time modulo the period exceeds its deadline, apart from the tick at which the next release is due |
| MissedDeadlines.ReportIsRight | lab2/E2E.c:134-139 | in a timely run, at other ticks, report and lateness agree if and only if the response time is below the period or exceeds the deadline modulo the period |
| MissedDeadlines.LastSubtaskNeverReported | lab2/E2E.c:134-139 | with the deadlines of calibration mode no job of a task's last subtask is reported in a timely run, however late |
| MissedDeadlines.UnreportedMiss | lab2/E2E.c:134-139 | with any period of at least three ticks a task of two subtasks has a timely run in which a job ends a tick after its period, unreported |
| ModuleRuns.TaskRunsAlone | lab2/E2E.c:96-154 | in every run of all tasks together, each task goes through a feasible run of its own chain and ends in that run's state |
| ModuleRuns.ModuleReleaseGuard | lab2/E2E.c:113-153 | the release guard holds for every subtask of every task, whatever the other tasks do |
| ModuleRuns.ModulePrecedence | lab2/E2E.c:130-153 | precedence and the full account of wakes hold along every task, whatever the other tasks do |
| ModuleRuns.ModuleLossless | lab2/E2E.c:127-154 | a task that is timely loses no wake and matches completions with releases, however late the other tasks are |
| ModuleRuns.ModuleReleaseLaw | lab2/E2E.c:144-152 | the release law holds for every successor of a timely task, however late the other tasks are |
| ModuleRuns.ModulePeriodicRelease | lab2/E2E.c:127-154 | a timely task is released exactly every period and its subtasks follow within their bounds, however late the other tasks are |
| ModuleRuns.ModuleReleasedAgain | lab2/E2E.c:127-143 | the first subtask of any task comes again exactly after the jobs that ended within their period, whatever the other tasks do |
| ModuleRuns.ModuleGoesOn | lab2/E2E.c:96-154 | any number of tasks with periods of at least two ticks, timely so far under one clock, have a continuation to any later time in which all of them stay timely |
| TaskSet.UtilPreorder | lab2/E2E.c:46-52 | comp_util is antisymmetric and transitive, so it orders subtasks totally |
| TaskSet.RelDdlPreorder | lab2/E2E.c:54-62 | comp_rel_ddl is antisymmetric and transitive, so it orders subtasks totally |
| Deadlines.AccumulateTask | lab2/E2E.c:170-174 | the first subtask of the run gets its own execution time, every other its predecessor's cumulative time plus its own, the task gets the last one, and nothing else changes |
| Deadlines.Accumulate | lab2/E2E.c:168-175 | along every task the cumulative times add up the execution times and the last one is the total; the result is the largest period |
| Deadlines.RelativeDeadline | lab2/E2E.c:135 | the deadline times the total time is at most period times cumulative time, and one more would exceed it |
| Deadlines.DeadlinesAlongTask | lab2/E2E.c:135 | along a task the floored relative deadlines do not decrease and the last one is the period |
| KernelSort.Sort | lab2/E2E.c:182 | the sorted part is a permutation in which no later element compares before an earlier one |
| Placement.FindCore | lab2/E2E.c:186-192 | the search returns the lowest core with room, in 32-bit arithmetic |
| Placement.PlaceSubtask | lab2/E2E.c:184-197 | one turn of the placement loop performs one first-fit step on the core loads and writes the subtask's core |
| Placement.PlaceSubtasks | lab2/E2E.c:183-198 | the loop computes the first-fit outcome of the loads in pointer order, its flag, and writes every core |
| Placement.PlacementInBounds | lab2/E2E.c:183-198 | every item ends on a valid core and no core load exceeds the limit |
| Placement.PlacementIsFirstFit | lab2/E2E.c:186-197 | at the end a placed item still fits on no lower core, and a rejected item fits on none |
| Placement.UsedCoresExceedLimit | lab2/E2E.c:186-192 | two cores in use exceed the limit together |
| Placement.PlacementConserves | lab2/E2E.c:187-189 | without a rejection each core load is the sum of the loads placed there |
| Placement.RejectedOnCoreZero | lab2/E2E.c:193-197 | a rejected item is put on core 0, whose load is the limit from then on |
| Placement.OtherCoresConserve | lab2/E2E.c:184-197 | with or without rejections the load of every core but 0 is the sum of the loads placed there |
| Placement.FirstFitDecreasing | lab2/E2E.c:182-198 | decreasing loads, each within a core, whose sum is below cores * (limit/2 + 1) + (limit - limit/2) are never rejected |
| Placement.ThresholdIsExact | lab2/E2E.c:182-198 | for every number of cores and every positive limit some decreasing loads, each within a core, whose sum is that threshold are rejected |
| Placement.HalfCapacityIsBelow | lab2/E2E.c:182-198 | a total whose double is below (cores + 1) * (limit + 1) is below the threshold |
| Placement.UnpackableIsRejected | lab2/E2E.c:184-197 | loads that are not rejected can be packed, so loads that cannot be packed are rejected |
| Placement.RejectedThoughPackable | lab2/E2E.c:184-197 | the decreasing loads 4, 3, 3, 2, 2, 2 pack on two cores of 8 and are rejected |
| Placement.UtilOrderGivesDecreasingLoads | lab2/E2E.c:46-52 | the order of comp_util makes the floored scaled loads non-increasing |
| Placement.ExactUtilisation | lab2/E2E.c:187-188 | without a rejection the unrounded load of a core is below the limit plus its subtask count, and within the limit when the divisions are exact |
| HyperPeriod.LargestPeriodSuffices | lab2/E2E.c:169-198 | for given periods, no unflagged placement of any table over them exceeds the exact capacity of a core if and only if every period divides the largest |
| HyperPeriod.OverloadedUnflagged | lab2/E2E.c:187-188 | for every short period that does not divide the largest, and any number of cores, a table of two subtasks is placed on one core, is not flagged and exceeds its exact capacity |
| HyperPeriod.OverloadedFits | lab2/E2E.c:187-188 | that table is a proper one whose arithmetic stays within its widths, for periods below 2^16 and execution times up to 4294 |
| Priorities.AssignPriorities | lab2/E2E.c:200-209 | each subtask gets 50 less its rank on its core, and each core's start address is its first position or the sentinel |
| Priorities.WalksCoverOnce | lab2/E2E.c:65-92 | the walks of all cores together visit every position exactly once, on its own core |
| Priorities.PrioritiesStrict | lab2/E2E.c:202-205 | a priority is below all earlier ones of its core if and only if its rank is at most 50 |
| Priorities.CountdownWraps | lab2/E2E.c:202-205 | on a core of 52 subtasks the priorities run from 50 to 0 and end with 2^32 - 1 |
| Priorities.PrioritiesDistinct | lab2/E2E.c:202-205 | priorities on one core never repeat |
| Calibration.SearchLoopCount | lab2/E2E.c:78-88 | at most 27 probes; for any clock the count is one that some probe found enough, or the maximum, and some probe found one less not enough, or it is zero; for a monotone clock it is the least that reaches the target |
| Calibration.CalibrateCore | lab2/E2E.c:65-94 | the walk stays inside the array, ends at a core change or the sentinel, and calibrates exactly what it passes |
| Initialisation.SchedulableIsPlaced | lab2/E2E.c:182-198 | sorted by comp_util, a schedulable table is placed without a rejection |
| Initialisation.PlaceAll | lab2/E2E.c:182-198 | sort and placement give every subtask a core; no core is over the limit and no subtask fits on a lower core, except that a flagged case leaves core 0 out and has put there a subtask that fits on no other core; a schedulable table is not flagged |
| Prioritising.OrderedExactly | lab2/E2E.c:199-205 | on a core a higher priority never has a later floored deadline if and only if the core has at most 51 subtasks or all its floored deadlines are equal |
| Prioritising.ExactlyOrdered | lab2/E2E.c:54-62 | the same for the deadlines before rounding, as cross-multiplied products: a higher priority never has a later one if and only if the core has at most 51 subtasks or all of them are equal |
| Prioritising.LatestDeadlineComesFirst | lab2/E2E.c:199-205 | one task of 52 subtasks on one core, sorted and prioritised: the priorities do not follow the deadlines |
| Prioritising.PrioritiseAll | lab2/E2E.c:199-209 | after the second sort the pointers are ordered by core and then deadline, each priority is 50 less the rank on its core in 32 bits, priorities on a core are distinct, and they follow the deadlines exactly as OrderedExactly and ExactlyOrdered say |
| Initialisation.WalkLists | lab2/E2E.c:75-92 | the walk of a core passes a subtask if and only if the subtask is on that core |
| Initialisation.CalibrateAll | lab2/E2E.c:211-216 | the threads together calibrate every subtask once |
| Initialisation.InitCalibrate | lab2/E2E.c:158-220 | the whole of calibration mode: in the final tables the cumulative times add up, the placement promises hold, each priority is 50 less its rank in the final pointer order and follows the deadlines exactly as OrderedExactly and ExactlyOrdered say, every loop count is calibrated, and all other fields are unchanged |
| Handshake.HandshakeSafety | studio5/leader.c:30-68 | in every interleaving the follower reads only after the last write, its finished copy is the leader's array, and the region is destroyed only after that |
| Handshake.RefusesExactly | studio5/leader.c:30-37 | on a fresh region a turn makes the leader refuse if and only if it checks the write guard after the follower has announced itself |
| Handshake.UsedRegionIsRefused | studio5/leader.c:30-37 | on a region with a guard set the leader writes nothing and has refused after three of its turns, whatever the follower does |
| Handshake.TurnSpinsOrDecreases | studio5/leader.c:40-64 | after an announcement in time a turn either spins without effect or leaves one step fewer |
| Handshake.SomeoneMoves | studio5/leader.c:40-64 | while the exchange is unfinished some process has a step that is not a spin |
| Handshake.FairRunsFinish | studio5/leader.c:40-64 | any schedule with as many fair rounds as steps left finishes both sides |
| Handshake.AnnouncementInTime | studio5/follewer.c:27 | the announcement is live if and only if the leader has already cleared the write guard, and otherwise dead |
| Handshake.DeadStays | studio5/follewer.c:30 | after a dead announcement no interleaving finishes |
| Handshake.HandshakeFinishes | studio5/follewer.c:27-47 | an announcement in time finishes under fairness, and one too early never does |
| Handshake.Exchange.LeaderTurn | studio5/leader.c:30-68 | one access of the leader updates region and program point exactly as its step says |
| Handshake.Exchange.FollowerTurn | studio5/follewer.c:27-47 | one access of the follower updates region, copy and program point exactly as its step says |
| Paging.StepKeepsInv | lab-1/mod/paging.c:33-118 | every operation keeps reference counts, frame ownership and counters consistent |
| Paging.Conservation | lab-1/mod/paging.c:53-118 | in every run a record's count is the number of live areas sharing it, and the counters differ by the total length of the live lists |
| Paging.PagesDisjoint | lab-1/mod/paging.c:53-58 | no page is on two lists or twice on one |
| Paging.RecordLists | lab-1/mod/paging.c:53-58 | in every run the list of a live record is the frames of the mapped faults in its own areas, latest first |
| Paging.FaultedPageHeld | lab-1/mod/paging.c:53-104 | a page that a fault has mapped is on the list of its area's record and is not given back as long as that area is open, whatever follows |
| Paging.AreaKeepsRecord | lab-1/mod/paging.c:81-118 | an area keeps its record until it is closed |
| Paging.NewArea | lab-1/mod/paging.c:81-87 | a copied area has the record of the area it copies, and a mapped area one that no other area has |
| Paging.NothingLeft | lab-1/mod/paging.c:95-117 | when no area is left every recorded page has been freed as often as it was recorded, the counters agree, and only frames that could not be mapped remain held |
| Paging.FramesStayBehind | lab-1/mod/paging.c:41-61 | when no area is left the frames held are exactly those of the faults whose remapping failed, and none is held if and only if there was no such fault |
| Paging.OneFrameStays | lab-1/mod/paging.c:41-61 | mapping an area, a fault that cannot map its frame and closing the area leave that frame held with equal counters |
| Paging.PagingModule.PagingMmap | lab-1/mod/paging.c:172-198 | a new area gets a fresh record with one reference and an empty list |
| Paging.PagingModule.PagingVmaOpen | lab-1/mod/paging.c:81-87 | a copied area shares the record and raises its count |
| Paging.PagingModule.DoFault | lab-1/mod/paging.c:33-61 | the result code, the counter and the list head for each outcome of allocation and remapping, where only -1 counts as a failed remapping; like the other operations it adds its event to the run so far |
| Paging.PagingModule.FreePages | lab-1/mod/paging.c:98-104 | the list walk gives back each page once and counts it |
| Paging.PagingModule.PagingVmaClose | lab-1/mod/paging.c:89-118 | the last close frees the record's pages and the record; any other close only lowers the count |
| PageOrder.ShiftCountIsLeast | studio4/kernel_memory.c:47-53 | the shift count, after the decrement for powers of two, is the least order |
| PageOrder.MyGetOrder | studio4/kernel_memory.c:39-56 | the result is the least k with 2^k at least the page count, for every unsigned argument |
| PageOrder.AreaOrder | lab-1/mod/paging.c:133-140 | the doubling loop finds the least order for the page count of the area, within a positive int; the block covers the area if and only if it is shorter than 2^32 bytes, and then half of it does not |
| PageOrder.BlockCoversLength | lab-1/mod/paging.c:133-142 | a block of the least order covers the requested length and a block of half its size does not |
| PageOrder.OrdersAgree | lab-1/mod/paging.c:108-115 | any two least orders of one length are equal: allocation and release agree, and so do the two algorithms |
| KernelMemory.NoPagesExactlyWhenSmall | studio4/kernel_memory.c:74-83 | the divisor is zero if and only if there are fewer than 128 structs |
| KernelMemory.PagesCoverBytes | studio4/kernel_memory.c:74-82 | from 128 structs on, the pages hold more than the bytes of the structs, and one page less does not |
| KernelMemory.StructsFit | studio4/kernel_memory.c:81-83 | every page holds between 1 and 127 whole structs, no more are placed than asked for, and one more on each page would be too many |
| KernelMemory.WordAddress | studio4/kernel_memory.c:97-103 | an element is in its page at 32 bytes for each struct before its own and 4 for each element |
| KernelMemory.ValuesCountUp | studio4/kernel_memory.c:103 | in the order of the loops the values are 0, 1, 2 and so on |
| KernelMemory.ElementsDistinct | studio4/kernel_memory.c:95-112 | different elements have different words and different values |
| KernelMemory.ValuesFit | studio4/kernel_memory.c:103 | every value is exact in unsigned arithmetic |
| KernelMemory.Fill | studio4/kernel_memory.c:95-114 | after the loops every element holds its value, and nothing else has changed |
| KernelMemory.Verify | studio4/kernel_memory.c:122-135 | the count is the number of elements that do not hold their value |
| KernelMemory.ThreadFn | studio4/kernel_memory.c:58-139 | the thread fails only when the allocation does; otherwise the block is the least power of two of pages, every element holds its value and no mismatch is reported |

## Left out

- Waking the threads once at creation (`lab2/E2E.c` line 233): the model starts when every thread has gone to sleep for the first time.
- A task without subtasks: its start index belongs to another task, whose thread the start timer of `lab2/E2E.c` wakes instead; in the model the start timer leaves an empty chain alone.
- Module exit in `lab2/E2E.c`: stopping a thread wakes it for one more job, so release spacing is stated up to exit only.
- Preemption inside lines 134-153 of `lab2/E2E.c`: a completion measures its deadline, re-arms, checks, wakes and goes to sleep in one step.
- The texts of the messages. A relative deadline reaches run mode as a number of ticks; its milliseconds and the nanoseconds of the clock are not told apart.
- The heap sort behind the kernel's `sort`: an insertion sort stands in for it, and its callers use only the sorted permutation.
- The calibration threads run concurrently on different cores; CalibrateAll runs them one after another, which is the same because WalkLists shows that they touch different subtasks.
- Thread scheduling classes, binding and messages are not modelled; neither is the calibration of real time.
- Overflow is excluded by preconditions where C would wrap or be undefined: the products of the comparators and of the relative deadline, the scaled loads, the nanosecond target and the byte count of the structs. The counters of `paging.c` are unbounded.
- That PERIOD is the least period of the generator: it is shown to be one.
- Table sizes beyond 2^31 cells, for which the `int` offset of `iteration` would be truncated.
- The command line and the allocation of the table in `studio15/random_access.c`.
- Weak memory: the handshake's accesses take effect in one global order.
- Opening, mapping and unlinking the shared region, and the error exits of those calls.
- In `paging.c`, pre-paged areas apart from their orders: the address that is released, and what a failed mapping leaves behind. The list walk is modelled as reading each successor before its cell is released.
- Allocation failure of list cells and records, which `paging.c` does not check.
- What happens to the pages of `kernel_memory.c` between filling and verifying: nothing else writes to them in the model.
- Copies of modelled files (`lab2/backup.c`, `pi-backup/`), and the socket, kfifo, inotify, cgroup, VFS, timing and benchmark programs: they hold no algorithm, only calls into the kernel or the C library.
