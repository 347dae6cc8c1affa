# Coherent mining-project schedule synthesis, in Dafny

This project models the schedule-synthesis engine of `ImprovedMiningScheduler`
(`simul.py`). The engine takes a fixed catalog of 50 construction tasks of a
mining plant, in eight phases, and produces one coherent simulated schedule.
It does so in these steps:

1. It builds a precedence network. Each task gets a list of incoming edges
   `(predecessor id, FS|SS|FF|SF, lag)`: intra-phase links, inter-phase
   links, a special rule for "Entrega final", and a fan-in cap.
2. It runs a DFS cycle-removal pass over that network.
3. It computes each task's planned start and end from its predecessors' dates.
4. It marks tasks completed, then in progress, in rounds. A task is picked
   only when its predecessors allow it.
5. It derives each task's execution record (label, actual dates, cost,
   progress, delay cause), its delay in days and its suggested buffer.
6. It appends the rows to the scheduler's task table.

The model also covers the constructor with its choice of project start, and
the counting fold of the dependency report.

Randomness appears as explicit draw parameters. Each draw has a validity
predicate that states the range the source draws from, for example
`randint(0, 1)` becomes a lag in `[0, 1]`. A `random.sample` becomes a list
of distinct positions, and a `random.choice` becomes an index taken modulo
the number of candidates. Every property proved below therefore holds for
every outcome the random generator can produce. Dates are integer day
numbers. Python's `int()` on a float is `Trunc`, which truncates toward zero.

Modules, one per file:

| file | module | what it holds |
|---|---|---|
| `types.dfy` | `ScheduleTypes` | relation types, edges, phases, states, labels, profiles, network styles, buffer strategies, rows |
| `precedence.dfy` | `Precedence` | range and backward-edge predicates on networks, walks, acyclicity of backward networks |
| `catalog.dfy` | `TaskCatalog` | the 50-task catalog and the proof that it is well formed |
| `network.dfy` | `Network` | the predecessor builder and the fan-in cap |
| `cycles.dfy` | `Cycles` | the DFS cycle detector over arrays and the one-pass removal |
| `dates.dfy` | `Dates` | planned dates as a recursive specification, and the memoised imperative resolver |
| `states.dfy` | `States` | the two state-assignment rounds and their invariants |
| `status.dfy` | `StatusRules` | execution records, delay days, buffer days, project start date |
| `report.dfy` | `DependencyReport` | the counting fold of the dependency report |
| `scheduler.dfy` | `Scheduler` | the scheduler class, the generation pipeline and the whole-schedule lemmas |

The central result is `Scheduler.MiningScheduler.GenerateCoherentTasks`. It
appends exactly one row per catalog entry, keeps the old rows, and leaves the
appended rows a `CoherentSchedule`. That predicate means:

- every row's edges are those the builder chose;
- every edge points to an earlier task, so the network is acyclic and the
  cycle pass changes nothing;
- every planned start is the earliest date that meets all incoming edges
  and the project start;
- states never contradict their predecessors, and the completed and
  in-progress counts equal the truncated targets (capped by what is left);
- each row's record, delay and buffer are those the status rules give.

`ScheduleMeetsEdges`, `ScheduleRowFigures` and `ScheduleReport` spell out
what that predicate implies for one row and for the report.

## Model

| member | source | states |
|---|---|---|
| `ScheduleTypes.PhaseAt` | simul.py:41-50 | the phase at position k of the phase list has index k, so the builder walks the phases in list order |
| `ScheduleTypes.Trunc` | simul.py:415-416 | Python `int()` on a float: the result is the whole part, within 1 of the argument, on the side of zero |
| `Precedence.BackwardInRange` | simul.py:156-160 | a network whose edges all point to earlier ids (ids are positions + 1) only names existing tasks |
| `Precedence.BackwardIsAcyclic` | simul.py:289-319 | in such a network no walk of two or more steps returns to its start task |
| `TaskCatalog.CatalogWellFormed` | simul.py:440-506 | the catalog has 50 entries grouped by phase in phase-list order; entry 50 is "Entrega final" in "Puesta en Marcha" and entry 46 is the last of "Acabados y Pruebas"; every duration is at least 1 and every cost is non-negative |
| `Network.MembersUpTo` | simul.py:162-167 | the tasks of a phase, as grouped by the builder, are catalog positions of that phase in increasing order |
| `Network.MemberAt` | simul.py:162-176 | a task's index within its phase group picks the task itself out of that group |
| `Network.EarlierPhaseMembersBefore` | simul.py:162-170 | in a catalog grouped by phase, every task of an earlier phase has a smaller id |
| `Network.LastNIsSuffix` | simul.py:228-239 | `xs[-n:]` has min(n, len) elements and is the suffix of xs: xs is what precedes it followed by it |
| `Network.FilterMembers` | simul.py:274-275 | the FS filter keeps exactly the FS edges; the other filter keeps exactly the rest |
| `Network.CapFanInSpec` | simul.py:271-280 | the cap leaves min(len, max) edges, all taken from the list; when the FS edges fit, all of them survive, in order and first, followed by the first non-FS edges |
| `Network.CapSampled` | simul.py:279-280 | when the FS edges alone exceed the cap, the sampled list has exactly `max` edges, all taken from the original |
| `Network.CapTruncated` | simul.py:277-278 | when the FS edges fit, the capped list is the FS edges followed by the first `max - #FS` other edges |
| `Network.IntraEdgesShape` | simul.py:180-214 | a phase's first task gets no intra-phase edge; the others get at most two |
| `Network.InterEdgesShape` | simul.py:216-257 | a phase's first task gets at most two inter-phase links, all FS; any later task gets at most one cross edge, SS or FF |
| `Network.AssembledFsBound` | simul.py:177-269 | no task ever collects more than two FS edges before the cap |
| `Network.MaxPredecessorsAtLeastTwo` | simul.py:125-130 | every network style allows at least two predecessors, so the sampling branch of the cap can never run |
| `Network.TaskEdgesFanIn` | simul.py:271-280 | the final list never exceeds the style's `max_predecessors`; it keeps every FS edge the task collected, and when the list was capped those FS edges come first |
| `Network.FinalTaskEdges` | simul.py:259-269 | "Entrega final" depends exactly on the task before it (FS, lag 1) and on the last task of "Acabados y Pruebas" (FS, lag 0) |
| `Network.TaskEdgesUncapped` | simul.py:271-272 | a list of at most two edges passes the cap unchanged |
| `Network.IntraOpening` | simul.py:180-188 | the second and third tasks of a phase depend, FS with the drawn opening lag, on the task just before them in that phase, and on nothing else in the phase |
| `Network.SequentialOpening` | simul.py:180-188 | the final list of the second or third task of a phase starts with that FS edge, and anything after it is one SS or FF cross edge |
| `Network.PhaseOpeningLinks` | simul.py:222-246 | the first task of a later phase depends, only by FS edges, on at least one of the critical tasks of the phases it must follow |
| `Network.CriticalNonEmpty` | simul.py:225-239 | the critical set of a later phase's first task holds 1 to 3 tasks, at most 2 for the two special phases, and is the suffix of the previous phase's tasks, so the opening links target that phase's last tasks |
| `Network.BuildPredecessors` | simul.py:170-282 | walking the phases in order, and each phase's tasks in catalog order, leaves every task with exactly the edge list the builder's rules give it |
| `Network.BuildPhase` | simul.py:176-282 | one pass over a phase fills the edge lists of exactly that phase's tasks |
| `Network.IntraWellShaped` | simul.py:180-214 | intra-phase edges point to earlier tasks; their FS/SF lags are within [0, 3] and their same-phase SS/FF lags within [-2, 3] |
| `Network.InterWellShaped` | simul.py:216-257 | inter-phase edges point to earlier tasks; FS lags are within [0, 3] and cross-phase SS/FF lags within [1, 5] |
| `Network.OpeningWellShaped` | simul.py:222-246 | opening links point to tasks of earlier phases, with lags in [0, 3] |
| `Network.CrossWellShaped` | simul.py:248-257 | cross edges point to earlier tasks, and their SS/FF lags are within the cross-phase range [1, 5] or the same-phase range [-2, 3] that applies |
| `Network.FinalWellShaped` | simul.py:259-269 | the final task's two edges point to earlier tasks |
| `Network.TaskEdgesWellShaped` | simul.py:177-282 | every edge the builder emits points to a smaller id and carries a lag within the source's ranges |
| `Network.NetworkIsBackward` | simul.py:149-287 | the built network only has edges to earlier tasks |
| `Cycles.LassoHasCycle` | simul.py:293-306 | a walk that reaches a task already on it shows a cycle in the network |
| `Cycles.BackwardHasNoCycle` | simul.py:284-285 | a network with only backward edges has no cycle |
| `Cycles.HasCycleFrom` | simul.py:293-306 | the recursive DFS over `visited`/`rec_stack` arrays terminates; it marks the task visited and never clears a visited flag; a true answer means a cycle is reachable from the task the search started at; a false answer means no cycle is reachable from the task, the recursion stack is as it was, and every finished task still reaches no cycle |
| `Cycles.FinishUnreachable` | simul.py:298-306 | when every predecessor of the task on the stack is finished, and finished tasks reach no cycle, no cycle is reachable from that task either: the DFS's false answer is complete |
| `Cycles.RemoveCycles` | simul.py:309-319 | the result is the pass's step function applied to every task; task i loses its last edge if and only if it has one and a cycle is reachable from i in the network as the pass left it before task i; a changed task reached a cycle in the input; a network without cycles comes back unchanged |
| `Cycles.PassAt` | simul.py:312-319 | after the pass has reached step i, each handled task j has lost its last edge if and only if it had one and reached a cycle at step j, and has kept its other edges |
| `Cycles.PassSound` | simul.py:312-319 | a task the pass has changed reached a cycle in the input network |
| `Cycles.TwoTaskLoop` | simul.py:312-319 | a three-task network: tasks 1 and 2 depend on each other and both depend on task 3 |
| `Cycles.OnePassMayLeaveCycle` | simul.py:312-319 | on that network, the single pass leaves a cycle, whatever it pops |
| `Dates.ConstraintDateMeaning` | simul.py:344-357 | each relation type's constraint date is the earliest start that meets the edge: FS start after predecessor end + lag, SS start ≥ predecessor start + lag, FF end ≥ predecessor end + lag, SF end ≥ predecessor start + lag |
| `Dates.LatestIsMaximum` | simul.py:330-359 | the running maximum is at least the project start and every edge's constraint, and equals one of them |
| `Dates.NoEdgesStartAtProjectStart` | simul.py:325-328 | a task without predecessors starts on the project start and ends `duration - 1` days later |
| `Dates.PlannedStartIsEarliestFeasible` | simul.py:321-365 | the planned start meets every incoming edge and the project start, and no earlier start does |
| `Dates.CalculateTaskDates` | simul.py:321-365 | the memoised recursive computation returns the specified start and end and keeps the memo sound |
| `Dates.ResolveDates` | simul.py:512-516 | the driver loop yields every task's specified planned start and end |
| `Dates.ChainExample` | simul.py:345-347 | a 5-day task on days 0-4 followed FS+0 by a 3-day task: the second task runs on days 5-7 |
| `States.Count` | simul.py:612-654 | a state count is at most the number of tasks, and 0 exactly when no task is in that state |
| `States.CountTotal` | simul.py:519-522 | not started + in progress + completed = all tasks |
| `States.CountUpdate` | simul.py:627-654 | changing one task's state moves one unit between the two counts |
| `States.PermissionsMonotone` | simul.py:582-609 | advancing other tasks never takes away a task's permission to complete or start |
| `States.AdvanceKeepsConsistent` | simul.py:616-656 | completing a task `can_complete` allows, or starting one `can_start` allows, keeps every task's state consistent with its predecessors |
| `States.CanCompleteNow` | simul.py:582-592 | the loop answers `can_complete`: every FS/SF predecessor is completed and every SS/FF predecessor has started |
| `States.CanStartNow` | simul.py:594-609 | the loop answers `can_start`: every FS/SS/FF predecessor has started; SF imposes nothing |
| `States.Candidates` | simul.py:618-622 | the candidate list holds, in increasing order, exactly the not-started tasks the rule permits |
| `States.IndicesOf` | simul.py:631 | the in-progress index list holds exactly the in-progress tasks |
| `States.FirstNotStartedCanComplete` | simul.py:616-637 | in a backward network, with nothing in progress, the first not-started task can always complete |
| `States.FirstNotStartedCanStart` | simul.py:643-656 | in a backward network the first not-started task can always start |
| `States.CompleteRounds` | simul.py:612-637 | the completion rounds stop within 2n rounds, leave nothing in progress and every state consistent, and never pass the target; on a backward network they complete exactly min(target, n) tasks |
| `States.StartRounds` | simul.py:640-656 | the start rounds keep the completed set, keep the states consistent and never pass the target; on a backward network they start exactly min(target, tasks still not started) tasks |
| `States.AssignCoherentStates` | simul.py:571-658 | the result is consistent with every edge, its counts are within the targets, and on a backward network both counts equal their targets, capped by what is left |
| `StatusRules.StatusMatchesState` | simul.py:660-771 | the label names the assigned state; progress is 100 when completed, in [5, 95] in progress, 0 not started |
| `StatusRules.CompletedRecord` | simul.py:664-719 | a completed task started on its planned start; its actual end and duration shift by the recorded delay; early finishes are 1 to max(1, duration // 5) days; on-time finishes have no delay; late finishes have a non-negative delay, a non-negative overrun equal to actual cost minus base cost, and a delay cause |
| `StatusRules.LateDelay` | simul.py:688 | the delay of a late completion is non-negative and at most duration × delay factor × spread |
| `StatusRules.LateOverrun` | simul.py:691 | the cost overrun is non-negative, and zero when there is no delay |
| `StatusRules.TruncShift` | simul.py:699-701 | the truncated cost plus overrun is the cost plus the truncated overrun |
| `StatusRules.CompletedRecordSpan` | simul.py:668-719 | with a planned end `duration - 1` days after the start, a completed record ends `actualDuration - 1` days after it started |
| `StatusRules.InProgressRecord` | simul.py:721-757 | the "con retraso" label is given exactly when actual progress trails expected progress by more than 10 points, and only that label carries a delay cause; the cost to date is between 0 and the planned cost |
| `StatusRules.SpentCost` | simul.py:744 | the cost to date is between 0 and the planned cost |
| `StatusRules.DelayDaysBounds` | simul.py:367-396 | the delay in days is never negative; for a task in progress, not yet at its planned end and with some progress, it is less than the duration |
| `StatusRules.CompletedDelayIsLateness` | simul.py:390-394 | for a completed task, the delay in days is exactly how far the actual end lies past the planned end (0 if it ended early or on time) |
| `StatusRules.BufferBounds` | simul.py:398-434 | the buffer is at least the strategy's minimum and at most the base, risk and state parts plus 5; above the minimum it is exactly the parts + min(#preds, 3) + the jitter |
| `StatusRules.BufferExample` | simul.py:405-434 | a 10-day not-started "Preparación del Terreno" task with no predecessors gets a conservative buffer of 3 to 5 days |
| `StatusRules.ProjectStartInRange` | simul.py:82-98 | the project start lies between the two bounds (in either order), equals the only bound given, or lies 180 to 365 days before the wall clock |
| `StatusRules.ProjectStartCoversRange` | simul.py:84-89 | every day between the two bounds can be drawn as the project start |
| `DependencyReport.SummarizeDependencies` | simul.py:1082-1115 | the fold's totals equal the edge count, the largest fan-in, the number of multi-predecessor tasks, the per-type counts, the SS+FF count, the number of tasks with a buffer ≤ 2, and the complexity level of the largest fan-in |
| `DependencyReport.CountCritical` | simul.py:1098-1101 | the second loop counts exactly the tasks with a buffer of at most 2 days |
| `DependencyReport.TallyRelations` | simul.py:1092-1095 | the inner loop counts each relation type among one task's edges |
| `DependencyReport.OfTypeSum` | simul.py:1092-1093 | a task's four per-type counts add up to its number of edges |
| `DependencyReport.RelCountsSum` | simul.py:1082-1095 | the four per-type totals add up to the total number of dependencies |
| `DependencyReport.MaxFanInIsMaximum` | simul.py:1087 | the largest fan-in bounds every task's fan-in, is some task's fan-in, and is within any bound all tasks respect |
| `DependencyReport.CriticalCountBounds` | simul.py:1098-1101 | at most every task is critical, and none is when all buffers are at least a minimum of 3 |
| `Scheduler.Target` | simul.py:520-521 | the target count is the truncated share of the task count |
| `Scheduler.MiningScheduler.constructor` | simul.py:20-40 | the project start is the given one or the one `_determine_project_start_date` draws; the reference date is the given one or the wall clock; the task table starts empty |
| `Scheduler.MiningScheduler.GenerateCoherentTasks` | simul.py:436-569 | appends one row per catalog entry, keeps the earlier rows and every other field, and the appended rows form a coherent schedule |
| `Scheduler.Synthesize` | simul.py:508-569 | building the network, resolving dates, assigning states and deriving the rows yields a coherent schedule |
| `Scheduler.GenerateRealisticPredecessors` | simul.py:149-287 | the builder plus the cycle pass yield the builder's edge lists unchanged, all backward and in range |
| `Scheduler.BuildRows` | simul.py:528-569 | each row is the task's status, delay and buffer derived from its state and planned dates |
| `Scheduler.ScheduleMeetsEdges` | simul.py:321-365 | in a coherent schedule, every row starts on or after the project start, ends `duration - 1` days after it starts, and meets each incoming edge against its predecessor's planned dates; every predecessor is an earlier row |
| `Scheduler.ScheduleRowFigures` | simul.py:545-567 | every row's label agrees with its state, its delay is never negative, and its buffer is at least the strategy's minimum |
| `Scheduler.ScheduleReport` | simul.py:1082-1115 | the report of a coherent schedule never shows more dependencies per task than the style allows, and under the conservative strategy no task is critical |

## Left out

- `_generate_simulation_config` (simul.py:100-147) is not modelled as a
  step. The configuration (profile, the two shares, buffer strategy and
  network style) is a constructor parameter. The profile and style tables
  are kept as constants.
- The simulation id is left out. So are the phase, risk and delay-cause
  lists as data: they appear as datatypes and constants, and a delay cause
  is an index into the 8-entry list.
- The probabilities behind the network's branches are not modelled: the
  0.7 gate at simul.py:191, the relation-type cascade at 199-206, and the
  `parallel_factor` gate at 249. Each draw ranges over every outcome the
  source can produce, so the model covers all outcomes but says nothing
  about how often each occurs.
- `datetime.now()` is a `wallClock` parameter. Time of day is dropped and
  dates are whole days. `_determine_project_start_date` uses the wall clock,
  not the given current date, and the model does the same.
- Floating-point rounding is not modelled. Shares, factors and percentages
  are exact `real` values. `int()` truncates as in Python, so results can
  differ from IEEE doubles at exact truncation boundaries.
- `Network.BuildPredecessors`: the source mutates each task dictionary's
  predecessor list in place. The model builds a new sequence of lists.
  Aliasing between `enhanced_tasks` and the per-phase groups is not
  modelled.
- `Cycles.RemoveCycles` requires every edge to name an existing task. In
  the source a dangling id raises a `KeyError`. Python's recursion depth
  limit is not modelled.
- `Dates.CalculateTaskDates` requires a backward network. In the source a
  cyclic network would recurse until Python raises `RecursionError`, and an
  unknown id would raise
  `StopIteration`. The builder never produces either.
- `States.CompleteRounds` and `States.StartRounds` promise exact counts only
  on backward networks. On other networks the source's rounds can stop
  early, and the model then only bounds the counts. The branch that
  completes an in-progress task (simul.py:629-635) is modelled but can never
  run, because the completion rounds come first.
- The display fields of a row are left out: the "Predecesor" text, the
  detailed predecessor strings and the "Observaciones" text. The
  placeholder texts ("Pendiente", "En ejecución", "N/A") become `None`, and
  the in-progress "~N (estimado)" actual duration is `None`.
- Only the counting fold of `generate_dependency_report` is modelled, not
  its formatting (the style name and the parallel factor as a percentage).
  The DataFrame, the network diagram, the Gantt chart, the printed summary
  and the exports are outside the modelled engine.

## Where the documented behaviour and the code differ

The model follows the code in each case:

- **Cycle removal.** The docstring of `_remove_cycles` (simul.py:290-292)
  says it detects and removes the cycles of the network. The code makes a
  single pass and pops at most one edge per task (simul.py:312-319), so a
  cycle can survive: `Cycles.OnePassMayLeaveCycle` exhibits one. The built
  networks never have a cycle (`Cycles.BackwardHasNoCycle`), so the pass
  changes nothing on them.
- **Buffer range.** The buffer of a conservative, not-started, 10-day task
  without predecessors can never be 2 days, although 2 is the floor of the
  moderate strategy. The conservative floor `min_buffer = 3`
  (simul.py:405-407) is applied again by the final `max` (simul.py:434), so
  that buffer lies in [3, 5] (`StatusRules.BufferExample`).
- **Tasks without predecessors.** It is not true that only the first task
  of the project has no predecessor. A task at position 3 or later in its
  phase takes an intra-phase edge only with probability 0.7
  (simul.py:182, 189-191), and a cross edge only when both the parallel-factor
  draw and the count draw allow one (simul.py:248-251), so several tasks can
  have none.
- **Sequential tasks.** The "first two tasks of a phase" that chain
  sequentially are the tasks at positions 1 and 2 of the phase group. The
  task at position 0 gets only inter-phase links (simul.py:180-188).
