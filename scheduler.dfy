/** The scheduler object (`ImprovedMiningScheduler`): its project start and
    reference date, its simulation configuration, and the task table that
    `generate_coherent_tasks` appends to. One generation builds the
    precedence network, runs the cycle pass, resolves the planned dates,
    assigns coherent states and derives each row's status, delay and
    buffer. */
module Scheduler {
  import opened ScheduleTypes
  import opened Precedence
  import opened Network
  import opened Cycles
  import opened Dates
  import opened States
  import opened StatusRules
  import opened DependencyReport

  /** The draws one row consumes: the status draws and the buffer's
      `randint(-1, 2)`. */
  datatype RowDraws = RowDraws(status: StatusDraws, jitter: int)

  /** Everything one generation draws: per-task network draws, the
      `random.choice` indices of the two state rounds, and per-row draws. */
  datatype GenerationDraws = GenerationDraws(
    network: seq<TaskDraws>,
    completePicks: seq<nat>,
    startPicks: seq<nat>,
    rows: seq<RowDraws>)

  /** Row draws usable whatever state the row is given. */
  predicate ValidRowDraws(duration: int, d: RowDraws)
  {
    && ValidStatusDraws(Completed, duration, d.status)
    && ValidStatusDraws(InProgress, duration, d.status)
    && -1 <= d.jitter <= 2
  }

  predicate ValidGenerationDraws(cat: seq<CatalogEntry>, d: GenerationDraws)
  {
    && |d.network| == |cat|
    && (forall i :: 0 <= i < |cat| ==> ValidDraws(cat, i, d.network[i]))
    && |d.completePicks| >= 2 * |cat| && |d.startPicks| >= 2 * |cat|
    && |d.rows| == |cat|
    && (forall i :: 0 <= i < |cat| ==> ValidRowDraws(cat[i].duration, d.rows[i]))
  }

  function Durations(cat: seq<CatalogEntry>): (dur: seq<int>)
    ensures |dur| == |cat| && forall i :: 0 <= i < |cat| ==> dur[i] == cat[i].duration
  {
    seq(|cat|, i requires 0 <= i < |cat| => cat[i].duration)
  }

  function PredsOf(rows: seq<TaskRow>): (preds: seq<seq<Edge>>)
    ensures |preds| == |rows| && forall i :: 0 <= i < |rows| ==> preds[i] == rows[i].preds
  {
    seq(|rows|, i requires 0 <= i < |rows| => rows[i].preds)
  }

  function StatesOf(rows: seq<TaskRow>): (states: seq<State>)
    ensures |states| == |rows| && forall i :: 0 <= i < |rows| ==> states[i] == rows[i].state
  {
    seq(|rows|, i requires 0 <= i < |rows| => rows[i].state)
  }

  /** `int(total_tasks * percentage)`, never negative for a share that is
      not. */
  function Target(n: nat, share: real): (t: nat)
    requires share >= 0.0
    ensures t as real <= n as real * share < t as real + 1.0
  {
    Trunc(n as real * share)
  }

  /** The row of catalog entry `e` at position `i`, given its final edge
      list, planned dates and assigned state. */
  function MakeRow(e: CatalogEntry, i: nat, preds: seq<Edge>, start: int, end: int, state: State,
                   config: SimulationConfig, now: int, d: RowDraws): (r: TaskRow)
    requires e.duration >= 1 && ValidRowDraws(e.duration, d)
    ensures r.preds == preds && r.plannedStart == start && r.plannedEnd == end && r.state == state
    ensures r.duration == e.duration && r.phase == e.phase
  {
    var st := CoherentStatus(state, start, end, e.duration, e.cost, config.profile, now, d.status);
    TaskRow(Id(i), e.phase, e.name, e.duration, start, end, preds, e.cost, RiskPercent(e.phase), state, st,
            DelayDays(st.kind, start, end, e.duration, st.progress, st.recordedDelay, now),
            BufferDays(config.strategy, e.phase, st.kind, e.duration, |preds|, d.jitter))
  }

  /** The rows carry the planned dates of their own edge lists: an
      acyclic network whose edges point backwards, with durations `dur`
      and project start `ps`. */
  ghost predicate DatedRows(rows: seq<TaskRow>, dur: seq<int>, ps: int)
  {
    && |dur| == |rows|
    && Backward(PredsOf(rows))
    && forall i :: 0 <= i < |rows| ==>
         && rows[i].duration == dur[i]
         && rows[i].plannedStart == PlannedStart(PredsOf(rows), dur, ps, i)
         && rows[i].plannedEnd == PlannedEnd(PredsOf(rows), dur, ps, i)
  }

  /** The states respect the network and meet both targets as far as the
      task count allows. */
  ghost predicate StatesMeetTargets(rows: seq<TaskRow>, tc: nat, ti: nat)
  {
    var net := PredsOf(rows);
    var states := StatesOf(rows);
    && EdgesInRange(net)
    && Consistent(net, states)
    && Count(states, Completed) == Min(tc, |rows|)
    && Count(states, InProgress) == Min(ti, |rows| - Min(tc, |rows|))
  }

  /** Each row is catalog entry `i` with its status, delay and buffer
      derived from its own edges, dates and state. */
  ghost predicate RowsDerived(cat: seq<CatalogEntry>, config: SimulationConfig, now: int, d: seq<RowDraws>,
                              rows: seq<TaskRow>)
    requires |d| == |cat| && forall i :: 0 <= i < |cat| ==> cat[i].duration >= 1 && ValidRowDraws(cat[i].duration, d[i])
  {
    && |rows| == |cat|
    && forall i :: 0 <= i < |cat| ==>
         rows[i] == MakeRow(cat[i], i, rows[i].preds, rows[i].plannedStart, rows[i].plannedEnd, rows[i].state,
                            config, now, d[i])
  }

  /** What one generation produces from catalog `cat`: the built edge
      lists unchanged by the cycle pass, the planned dates of that
      network, states consistent with it that meet both targets, and each
      row's status, delay and buffer derived from them. */
  ghost predicate CoherentSchedule(cat: seq<CatalogEntry>, config: SimulationConfig, d: GenerationDraws,
                                   ps: int, now: int, rows: seq<TaskRow>)
    requires WellFormedCatalog(cat) && ValidGenerationDraws(cat, d)
    requires config.completedShare >= 0.0 && config.inProgressShare >= 0.0
  {
    && |rows| == |cat|
    && (forall i :: 0 <= i < |cat| ==> rows[i].preds == TaskEdges(cat, config.style, i, d.network[i]))
    && DatedRows(rows, Durations(cat), ps)
    && StatesMeetTargets(rows, Target(|cat|, config.completedShare), Target(|cat|, config.inProgressShare))
    && RowsDerived(cat, config, now, d.rows, rows)
  }

  class MiningScheduler {
    var projectStart: int
    var currentDate: int
    var config: SimulationConfig
    var tasks: seq<TaskRow>

    /** `__init__`: the given project start or one chosen by
        `_determine_project_start_date`, the given reference date or the
        wall clock, the configuration, and an empty task table. */
    constructor (start: Option<int>, minDate: Option<int>, maxDate: Option<int>, offset: int, back: int,
                 current: Option<int>, wallClock: int, config: SimulationConfig)
      requires start.None? ==> ValidStartDraws(minDate, maxDate, offset, back)
      ensures projectStart == if start.Some? then start.value else ProjectStartDate(minDate, maxDate, offset, back, wallClock)
      ensures currentDate == if current.Some? then current.value else wallClock
      ensures this.config == config && tasks == []
    {
      projectStart := if start.Some? then start.value else ProjectStartDate(minDate, maxDate, offset, back, wallClock);
      currentDate := if current.Some? then current.value else wallClock;
      this.config := config;
      tasks := [];
    }

    /** `generate_coherent_tasks` over catalog `cat`: appends one row per
        entry, together a coherent schedule, and changes nothing else. */
    method GenerateCoherentTasks(cat: seq<CatalogEntry>, d: GenerationDraws)
      requires WellFormedCatalog(cat) && ValidGenerationDraws(cat, d)
      requires config.completedShare >= 0.0 && config.inProgressShare >= 0.0
      modifies this
      ensures projectStart == old(projectStart) && currentDate == old(currentDate) && config == old(config)
      ensures |tasks| == |old(tasks)| + |cat| && tasks[..|old(tasks)|] == old(tasks)
      ensures CoherentSchedule(cat, config, d, projectStart, currentDate, tasks[|old(tasks)|..])
    {
      var rows := Synthesize(cat, config, d, projectStart, currentDate);
      tasks := tasks + rows;
      assert tasks[|tasks| - |rows|..] == rows;
    }
  }

  /** The stages of `generate_coherent_tasks` in order: build the network,
      run the cycle pass, resolve the dates, assign the states, then derive
      the rows. */
  method Synthesize(cat: seq<CatalogEntry>, config: SimulationConfig, d: GenerationDraws, ps: int, now: int)
    returns (rows: seq<TaskRow>)
    requires WellFormedCatalog(cat) && ValidGenerationDraws(cat, d)
    requires config.completedShare >= 0.0 && config.inProgressShare >= 0.0
    ensures CoherentSchedule(cat, config, d, ps, now, rows)
  {
    var n := |cat|;
    var preds := GenerateRealisticPredecessors(cat, config.style, d.network);
    var dur := Durations(cat);
    var starts, ends := ResolveDates(preds, dur, ps);
    var tc := Target(n, config.completedShare);
    var ti := Target(n, config.inProgressShare);
    var states := AssignCoherentStates(preds, tc, ti, d.completePicks, d.startPicks);
    rows := BuildRows(cat, config, now, d.rows, preds, starts, ends, states);
    AssembleRows(cat, config, now, d.rows, preds, starts, ends, states, rows);
    AssembleDates(rows, preds, dur, ps, starts, ends);
    AssembleStates(rows, preds, states, tc, ti);
    CoherentFromParts(cat, config, d, ps, now, rows);
  }

  /** `_generate_realistic_predecessors`: the builder followed by the
      cycle pass. On a well-formed catalog the built network points
      backwards, so the pass finds no cycle and keeps every edge. */
  method GenerateRealisticPredecessors(cat: seq<CatalogEntry>, style: NetworkStyle, draws: seq<TaskDraws>)
    returns (preds: seq<seq<Edge>>)
    requires WellFormedCatalog(cat)
    requires |draws| == |cat| && forall i :: 0 <= i < |cat| ==> ValidDraws(cat, i, draws[i])
    ensures |preds| == |cat|
    ensures forall i :: 0 <= i < |cat| ==> preds[i] == TaskEdges(cat, style, i, draws[i])
    ensures Backward(preds) && EdgesInRange(preds)
  {
    var built := BuildPredecessors(cat, style, draws);
    NetworkIsBackward(cat, style, draws, built);
    BackwardInRange(built);
    BackwardHasNoCycle(built);
    preds := RemoveCycles(built);
  }

  /** The loop of `generate_coherent_tasks` that turns each task into a
      row: its status from the assigned state, then its delay and buffer
      from that status. */
  method BuildRows(cat: seq<CatalogEntry>, config: SimulationConfig, now: int, d: seq<RowDraws>,
                   preds: seq<seq<Edge>>, starts: seq<int>, ends: seq<int>, states: seq<State>)
    returns (rows: seq<TaskRow>)
    requires |d| == |cat| && forall j :: 0 <= j < |cat| ==> cat[j].duration >= 1 && ValidRowDraws(cat[j].duration, d[j])
    requires |preds| == |cat| && |starts| == |cat| && |ends| == |cat| && |states| == |cat|
    ensures |rows| == |cat|
    ensures forall j :: 0 <= j < |cat| ==>
      rows[j] == MakeRow(cat[j], j, preds[j], starts[j], ends[j], states[j], config, now, d[j])
  {
    rows := [];
    for i := 0 to |cat|
      invariant |rows| == i
      invariant forall j :: 0 <= j < i ==>
        rows[j] == MakeRow(cat[j], j, preds[j], starts[j], ends[j], states[j], config, now, d[j])
    {
      var e := cat[i];
      var status := CoherentStatus(states[i], starts[i], ends[i], e.duration, e.cost, config.profile, now, d[i].status);
      var delay := DelayDays(status.kind, starts[i], ends[i], e.duration, status.progress, status.recordedDelay, now);
      var buffer := BufferDays(config.strategy, e.phase, status.kind, e.duration, |preds[i]|, d[i].jitter);
      rows := rows + [TaskRow(Id(i), e.phase, e.name, e.duration, starts[i], ends[i], preds[i], e.cost,
                              RiskPercent(e.phase), states[i], status, delay, buffer)];
    }
  }

  lemma CoherentFromParts(cat: seq<CatalogEntry>, config: SimulationConfig, d: GenerationDraws, ps: int, now: int,
                          rows: seq<TaskRow>)
    requires WellFormedCatalog(cat) && ValidGenerationDraws(cat, d)
    requires config.completedShare >= 0.0 && config.inProgressShare >= 0.0
    requires |rows| == |cat| && forall i :: 0 <= i < |cat| ==> rows[i].preds == TaskEdges(cat, config.style, i, d.network[i])
    requires DatedRows(rows, Durations(cat), ps)
    requires StatesMeetTargets(rows, Target(|cat|, config.completedShare), Target(|cat|, config.inProgressShare))
    requires RowsDerived(cat, config, now, d.rows, rows)
    ensures CoherentSchedule(cat, config, d, ps, now, rows)
  {
  }

  lemma AssembleDates(rows: seq<TaskRow>, preds: seq<seq<Edge>>, dur: seq<int>, ps: int, starts: seq<int>, ends: seq<int>)
    requires PredsOf(rows) == preds && DateInputs(preds, dur)
    requires |starts| == |rows| && |ends| == |rows|
    requires forall i :: 0 <= i < |rows| ==>
      starts[i] == PlannedStart(preds, dur, ps, i) && ends[i] == PlannedEnd(preds, dur, ps, i)
    requires forall i :: 0 <= i < |rows| ==>
      rows[i].plannedStart == starts[i] && rows[i].plannedEnd == ends[i] && rows[i].duration == dur[i]
    ensures DatedRows(rows, dur, ps)
  {
  }

  lemma AssembleRows(cat: seq<CatalogEntry>, config: SimulationConfig, now: int, d: seq<RowDraws>,
                     preds: seq<seq<Edge>>, starts: seq<int>, ends: seq<int>, states: seq<State>, rows: seq<TaskRow>)
    requires |d| == |cat| && forall j :: 0 <= j < |cat| ==> cat[j].duration >= 1 && ValidRowDraws(cat[j].duration, d[j])
    requires |preds| == |cat| && |starts| == |cat| && |ends| == |cat| && |states| == |cat| && |rows| == |cat|
    requires forall j :: 0 <= j < |cat| ==>
      rows[j] == MakeRow(cat[j], j, preds[j], starts[j], ends[j], states[j], config, now, d[j])
    ensures RowsDerived(cat, config, now, d, rows)
    ensures PredsOf(rows) == preds && StatesOf(rows) == states
    ensures forall i :: 0 <= i < |rows| ==>
      rows[i].plannedStart == starts[i] && rows[i].plannedEnd == ends[i] && rows[i].duration == cat[i].duration
  {
    assert PredsOf(rows) == preds;
    assert StatesOf(rows) == states;
  }

  lemma AssembleStates(rows: seq<TaskRow>, preds: seq<seq<Edge>>, states: seq<State>, tc: nat, ti: nat)
    requires PredsOf(rows) == preds && StatesOf(rows) == states
    requires EdgesInRange(preds) && Consistent(preds, states)
    requires Count(states, Completed) == Min(tc, |preds|)
    requires Count(states, InProgress) == Min(ti, |preds| - Min(tc, |preds|))
    ensures StatesMeetTargets(rows, tc, ti)
  {
  }

  // ---------------------------------------------------------------------
  // What a coherent schedule guarantees

  /** Every row starts on or after the project start, ends `duration - 1`
      days after it starts, and meets each of its edges against its
      predecessor's planned dates. */
  lemma ScheduleMeetsEdges(rows: seq<TaskRow>, dur: seq<int>, ps: int, i: nat)
    requires DatedRows(rows, dur, ps)
    requires i < |rows|
    ensures rows[i].plannedStart >= ps
    ensures rows[i].plannedEnd == rows[i].plannedStart + rows[i].duration - 1
    ensures forall k :: 0 <= k < |rows[i].preds| ==>
      var p := rows[i].preds[k].pred - 1;
      0 <= p < i && EdgeHolds(rows[i].preds[k].rel, rows[i].preds[k].lag, rows[p].plannedStart, rows[p].plannedEnd,
                              rows[i].plannedStart, rows[i].plannedEnd)
  {
    var net := PredsOf(rows);
    PlannedStartIsEarliestFeasible(net, dur, ps, i);
    forall k | 0 <= k < |rows[i].preds|
      ensures var p := rows[i].preds[k].pred - 1;
        0 <= p < i && EdgeHolds(rows[i].preds[k].rel, rows[i].preds[k].lag, rows[p].plannedStart, rows[p].plannedEnd,
                                rows[i].plannedStart, rows[i].plannedEnd)
    {
      var p := rows[i].preds[k].pred - 1;
      assert rows[p].plannedStart == PlannedStart(net, dur, ps, p);
    }
  }

  /** Every row's label agrees with its state, its delay is never
      negative, and its buffer is at least the strategy's minimum. */
  lemma ScheduleRowFigures(cat: seq<CatalogEntry>, config: SimulationConfig, now: int, d: seq<RowDraws>,
                           rows: seq<TaskRow>, i: nat)
    requires |d| == |cat| && forall j :: 0 <= j < |cat| ==> cat[j].duration >= 1 && ValidRowDraws(cat[j].duration, d[j])
    requires RowsDerived(cat, config, now, d, rows)
    requires i < |rows|
    ensures rows[i].status.kind.IsCompleted() <==> rows[i].state == Completed
    ensures rows[i].status.kind.IsInProgress() <==> rows[i].state == InProgress
    ensures rows[i].status.kind == NotYetStarted <==> rows[i].state == NotStarted
    ensures rows[i].delayDays >= 0
    ensures rows[i].bufferDays >= MinBuffer(config.strategy)
  {
    var r := rows[i];
    var e := cat[i];
    assert ValidStatusDraws(r.state, e.duration, d[i].status);
    StatusMatchesState(r.state, r.plannedStart, r.plannedEnd, e.duration, e.cost, config.profile, now, d[i].status);
    DelayDaysBounds(r.status.kind, r.plannedStart, r.plannedEnd, e.duration, r.status.progress, r.status.recordedDelay, now);
    BufferBounds(config.strategy, e.phase, r.status.kind, e.duration, |r.preds|, d[i].jitter);
  }

  /** The dependency report of a coherent schedule: no task has more
      predecessors than the network style allows, and under the
      conservative strategy no task counts as critical. */
  lemma ScheduleReport(cat: seq<CatalogEntry>, config: SimulationConfig, d: GenerationDraws,
                       ps: int, now: int, rows: seq<TaskRow>)
    requires WellFormedCatalog(cat) && ValidGenerationDraws(cat, d)
    requires config.completedShare >= 0.0 && config.inProgressShare >= 0.0
    requires CoherentSchedule(cat, config, d, ps, now, rows)
    ensures MaxFanIn(rows) <= MaxPredecessors(config.style)
    ensures config.strategy == Conservative ==> CriticalCount(rows) == 0
  {
    forall i | 0 <= i < |rows| ensures |rows[i].preds| <= MaxPredecessors(config.style) {
      TaskEdgesFanIn(cat, config.style, i, d.network[i]);
    }
    MaxFanInIsMaximum(rows, MaxPredecessors(config.style));
    forall i | 0 <= i < |rows| ensures rows[i].bufferDays >= MinBuffer(config.strategy) {
      ScheduleRowFigures(cat, config, now, d.rows, rows, i);
    }
    CriticalCountBounds(rows, MinBuffer(config.strategy));
  }
}
