/** Per-task derivations: the execution record of a task in a given state
    (`_create_coherent_status`), its accumulated delay
    (`calculate_delay_days`), its suggested buffer (`calculate_buffer_days`)
    and the choice of the project start date
    (`_determine_project_start_date`). Percentages and money are exact
    rationals, truncated where the source applies `int()`. */
module StatusRules {
  import opened ScheduleTypes

  function MinR(a: real, b: real): real { if a <= b then a else b }
  function MaxR(a: real, b: real): real { if a >= b then a else b }

  // ---------------------------------------------------------------------
  // The execution record

  /** The outcome drawn for a completed task. */
  datatype Variation = OnTime | Early | Delayed

  /** The draws of one status: the outcome, the days gained, the cost
      factor, the delay spread, the delay-cause index and the progress
      variation. */
  datatype StatusDraws = StatusDraws(
    variation: Variation,
    daysEarly: int,
    costFactor: real,
    delaySpread: real,
    cause: nat,
    progressVariation: real)

  /** `max(1, duration // 5)`: the most days a task can finish early. */
  function MaxDaysEarly(duration: int): int { Max(1, duration / 5) }

  predicate ValidStatusDraws(state: State, duration: int, d: StatusDraws)
  {
    match state
    case Completed =>
      (match d.variation
       case Early => 1 <= d.daysEarly <= MaxDaysEarly(duration) && 0.9 <= d.costFactor <= 1.0
       case Delayed => 0.5 <= d.delaySpread <= 1.5 && d.cause < DelayCauseCount
       case OnTime => 0.95 <= d.costFactor <= 1.05)
    case InProgress => -0.2 <= d.progressVariation <= 0.1 && d.cause < DelayCauseCount
    case NotStarted => true
  }

  /** The share of the planned duration elapsed after `days` days, in
      percent, capped at 100. */
  function ExpectedPercent(days: int, duration: int): real
    requires duration >= 1
  {
    MinR(100.0, days as real / duration as real * 100.0)
  }

  /** The reported progress: the expected progress moved by the drawn
      variation and clamped to [5, 95]. */
  function ActualPercent(expected: real, variation: real): real
  {
    MaxR(5.0, MinR(95.0, expected + expected * variation))
  }

  /** The record of a task in state `state`, planned to run from `start` to
      `plannedEnd`, seen on day `now`. */
  function CoherentStatus(state: State, start: int, plannedEnd: int, duration: int, cost: int,
                          profile: Profile, now: int, d: StatusDraws): Status
    requires duration >= 1
    requires ValidStatusDraws(state, duration, d)
  {
    match state
    case Completed =>
      (match d.variation
       case Early =>
         Status(CompletedEarly, Some(start), Some(plannedEnd - d.daysEarly), Some(duration - d.daysEarly), 100,
                Some(Trunc(cost as real * d.costFactor)), -d.daysEarly,
                Some(Trunc(cost as real * (d.costFactor - 1.0))), None)
       case Delayed =>
         var delay := LateDelay(duration, profile, d.delaySpread);
         var overrun := LateOverrun(delay, cost, duration);
         Status(CompletedLate, Some(start), Some(plannedEnd + delay), Some(duration + delay), 100,
                Some(Trunc(cost as real + overrun)), delay, Some(Trunc(overrun)), Some(d.cause))
       case OnTime =>
         Status(CompletedOnTime, Some(start), Some(plannedEnd), Some(duration), 100,
                Some(Trunc(cost as real * d.costFactor)), 0,
                Some(Trunc(cost as real * (d.costFactor - 1.0))), None))
    case InProgress =>
      var expected := ExpectedPercent(Max(0, now - start), duration);
      var actual := ActualPercent(expected, d.progressVariation);
      var kind :=
        if actual < expected - 10.0 then InProgressLate
        else if actual > expected + 5.0 then InProgressAhead
        else InProgressOnSchedule;
      Status(kind, Some(start), None, None, Trunc(actual), Some(SpentCost(cost, actual)), 0, Some(0),
             if kind == InProgressLate then Some(d.cause) else None)
    case NotStarted =>
      Status(NotYetStarted, None, None, None, 0, None, 0, None, None)
  }

  /** The label names the state it was made for, and the progress is 100
      for completed tasks, in [5, 95] for tasks in progress and 0 for tasks
      not started. */
  lemma StatusMatchesState(state: State, start: int, plannedEnd: int, duration: int, cost: int,
                           profile: Profile, now: int, d: StatusDraws)
    requires duration >= 1
    requires ValidStatusDraws(state, duration, d)
    ensures var r := CoherentStatus(state, start, plannedEnd, duration, cost, profile, now, d);
      && (r.kind.IsCompleted() <==> state == Completed)
      && (r.kind.IsInProgress() <==> state == InProgress)
      && (r.kind == NotYetStarted <==> state == NotStarted)
      && (state == Completed ==> r.progress == 100)
      && (state == InProgress ==> 5 <= r.progress <= 95)
      && (state == NotStarted ==> r.progress == 0)
  {
  }

  /** A completed record shifts the planned end and duration by the
      recorded delay: early completions by 1 to `max(1, duration // 5)`
      days, late ones by a non-negative number of days whose cost overrun
      is exactly the excess of the actual cost over the plan. */
  lemma CompletedRecord(start: int, plannedEnd: int, duration: int, cost: int, profile: Profile, now: int, d: StatusDraws)
    requires duration >= 1 && cost >= 0
    requires ValidStatusDraws(Completed, duration, d)
    ensures var r := CoherentStatus(Completed, start, plannedEnd, duration, cost, profile, now, d);
      && r.actualStart == Some(start)
      && r.actualEnd == Some(plannedEnd + r.recordedDelay)
      && r.actualDuration == Some(duration + r.recordedDelay)
      && (r.kind == CompletedEarly ==> 1 <= -r.recordedDelay <= MaxDaysEarly(duration) && r.cause == None)
      && (r.kind == CompletedOnTime ==> r.recordedDelay == 0 && r.cause == None)
      && (r.kind == CompletedLate ==>
            && r.recordedDelay >= 0
            && r.overrun.Some? && r.overrun.value >= 0
            && r.actualCost == Some(cost + r.overrun.value)
            && r.cause.Some? && r.cause.value < DelayCauseCount)
  {
    if d.variation == Delayed {
      var overrun := LateOverrun(LateDelay(duration, profile, d.delaySpread), cost, duration);
      TruncShift(cost, overrun);
    }
  }

  /** Days of delay of a late completion: the duration scaled by the
      profile's delay factor and the drawn spread, truncated. */
  function LateDelay(duration: int, profile: Profile, spread: real): (delay: int)
    requires duration >= 1 && spread >= 0.0
    ensures delay >= 0
    ensures delay as real <= duration as real * DelayFactor(profile) * spread
  {
    assert DelayFactor(profile) > 0.0;
    Trunc(duration as real * DelayFactor(profile) * spread)
  }

  /** Cost overrun of a late completion: 30% of the daily cost per day of
      delay. */
  function LateOverrun(delay: int, cost: int, duration: int): (overrun: real)
    requires duration >= 1
    ensures delay >= 0 && cost >= 0 ==> overrun >= 0.0
    ensures delay == 0 ==> overrun == 0.0
  {
    var rate := cost as real / duration as real;
    assert cost >= 0 ==> rate >= 0.0;
    delay as real * rate * 0.3
  }

  /** Scaling a non-negative amount by a fraction keeps it within [0, amount]. */
  lemma ScaleDown(a: real, f: real)
    requires a >= 0.0 && 0.0 <= f <= 1.0
    ensures 0.0 <= a * f <= a
  {
    assert a * f + a * (1.0 - f) == a;
    assert a * (1.0 - f) >= 0.0;
  }

  /** Truncating a whole amount plus a non-negative part keeps the whole. */
  lemma TruncShift(n: int, x: real)
    requires n >= 0 && x >= 0.0
    ensures Trunc(n as real + x) == n + Trunc(x)
  {
    var t := Trunc(x);
    var m := Trunc(n as real + x);
    assert n as real + t as real <= n as real + x < n as real + t as real + 1.0;
    assert m as real <= n as real + x < m as real + 1.0;
  }

  /** With a 1-day planned end (`plannedEnd = start + duration - 1`), a
      completed record also ends `actualDuration - 1` days after it starts. */
  lemma CompletedRecordSpan(start: int, duration: int, cost: int, profile: Profile, now: int, d: StatusDraws)
    requires duration >= 1 && cost >= 0
    requires ValidStatusDraws(Completed, duration, d)
    ensures var r := CoherentStatus(Completed, start, start + duration - 1, duration, cost, profile, now, d);
      r.actualStart.Some? && r.actualEnd.Some? && r.actualDuration.Some?
      && r.actualEnd.value == r.actualStart.value + r.actualDuration.value - 1
  {
    CompletedRecord(start, start + duration - 1, duration, cost, profile, now, d);
  }

  /** An in-progress record: the late label exactly when the progress fell
      more than 10 points behind, a delay cause exactly for that label, and
      a cost to date within the planned cost. */
  lemma InProgressRecord(start: int, plannedEnd: int, duration: int, cost: int, profile: Profile, now: int, d: StatusDraws)
    requires duration >= 1 && cost >= 0
    requires ValidStatusDraws(InProgress, duration, d)
    ensures var r := CoherentStatus(InProgress, start, plannedEnd, duration, cost, profile, now, d);
      var expected := ExpectedPercent(Max(0, now - start), duration);
      var actual := ActualPercent(expected, d.progressVariation);
      && (r.kind == InProgressLate <==> actual < expected - 10.0)
      && (r.cause.Some? <==> r.kind == InProgressLate)
      && r.actualCost.Some? && 0 <= r.actualCost.value <= cost
      && r.actualEnd == None && r.recordedDelay == 0
  {
  }

  /** Cost to date of a task in progress: the planned cost times the
      progress fraction, truncated; it never exceeds the planned cost. */
  function SpentCost(cost: int, actual: real): (c: int)
    ensures cost >= 0 && 0.0 <= actual <= 100.0 ==> 0 <= c <= cost
  {
    var share := actual / 100.0;
    var spent := cost as real * share;
    if cost >= 0 && 0.0 <= share <= 1.0 then
      ScaleDown(cost as real, share);
      Trunc(spent)
    else
      Trunc(spent)
  }

  // ---------------------------------------------------------------------
  // Delay

  /** `calculate_delay_days`: days past the planned start for a task not
      started; for a task in progress, days past the planned end or, before
      it, the planned duration's share of the progress gap; for a completed
      task, the recorded delay when positive. */
  function DelayDays(kind: Label, plannedStart: int, plannedEnd: int, duration: int, progress: int,
                     recordedDelay: int, now: int): int
    requires duration >= 1
  {
    if kind == NotYetStarted then
      if plannedStart < now then now - plannedStart else 0
    else if kind.IsInProgress() then
      if plannedEnd < now then now - plannedEnd
      else
        var expected := ExpectedPercent(now - plannedStart, duration);
        if expected > progress as real then
          Trunc((expected - progress as real) / 100.0 * duration as real)
        else 0
    else if recordedDelay > 0 then recordedDelay
    else 0
  }

  /** The delay is never negative; a task in progress with some progress
      is, before its planned end, less than its planned duration late. */
  lemma DelayDaysBounds(kind: Label, plannedStart: int, plannedEnd: int, duration: int, progress: int,
                        recordedDelay: int, now: int)
    requires duration >= 1
    ensures DelayDays(kind, plannedStart, plannedEnd, duration, progress, recordedDelay, now) >= 0
    ensures kind.IsInProgress() && now <= plannedEnd && progress > 0 ==>
      DelayDays(kind, plannedStart, plannedEnd, duration, progress, recordedDelay, now) < duration
  {
    if kind.IsInProgress() && plannedEnd >= now {
      var expected := ExpectedPercent(now - plannedStart, duration);
      if expected > progress as real {
        var gap := (expected - progress as real) / 100.0;
        assert DelayDays(kind, plannedStart, plannedEnd, duration, progress, recordedDelay, now) == Trunc(gap * duration as real);
        assert 0.0 < gap;
        if progress > 0 {
          assert gap < 1.0;
        }
        ShareOfDuration(gap, duration);
      }
    }
  }

  /** A positive share of a duration truncates to a non-negative day count,
      below the duration when the share is below one. */
  lemma ShareOfDuration(g: real, duration: int)
    requires 0.0 < g && duration >= 1
    ensures Trunc(g * duration as real) >= 0
    ensures g < 1.0 ==> Trunc(g * duration as real) < duration
  {
    var x := g * duration as real;
    assert x > 0.0;
    if g < 1.0 {
      assert x < duration as real;
    }
  }

  /** For a completed task the delay is the number of days its actual end
      lies past its planned end (0 when it finished on time or early). */
  lemma CompletedDelayIsLateness(start: int, plannedEnd: int, duration: int, cost: int, profile: Profile, now: int,
                                 d: StatusDraws)
    requires duration >= 1 && cost >= 0
    requires ValidStatusDraws(Completed, duration, d)
    ensures var r := CoherentStatus(Completed, start, plannedEnd, duration, cost, profile, now, d);
      r.actualEnd.Some? &&
      DelayDays(r.kind, start, plannedEnd, duration, r.progress, r.recordedDelay, now) == Max(0, r.actualEnd.value - plannedEnd)
  {
    CompletedRecord(start, plannedEnd, duration, cost, profile, now, d);
  }

  // ---------------------------------------------------------------------
  // Buffer

  /** `max(min_buffer, int(duration * multiplier))`. */
  function BaseBuffer(strategy: BufferStrategy, duration: int): int
  {
    Max(MinBuffer(strategy), Trunc(duration as real * BufferTenths(strategy) as real / 10.0))
  }

  /** `int(base_buffer * risk_factor)`. */
  function RiskAdjustment(phase: Phase, base: int): int
  {
    Trunc(base as real * RiskPercent(phase) as real / 100.0)
  }

  /** Half the base for a task in progress with delay, a fifth for other
      tasks in progress, nothing otherwise. */
  function StateAdjustment(kind: Label, base: int): int
  {
    if kind == NotYetStarted then 0
    else if kind == InProgressLate then Trunc(base as real * 0.5)
    else if kind.IsInProgress() then Trunc(base as real * 0.2)
    else 0
  }

  /** `calculate_buffer_days`; `jitter` is the `randint(-1, 2)` draw. */
  function BufferDays(strategy: BufferStrategy, phase: Phase, kind: Label, duration: int, predCount: nat, jitter: int): int
    requires -1 <= jitter <= 2
  {
    var base := BaseBuffer(strategy, duration);
    var total := base + RiskAdjustment(phase, base) + StateAdjustment(kind, base) + Min(predCount, 3);
    Max(MinBuffer(strategy), total + jitter)
  }

  /** The buffer never falls below the strategy's minimum nor exceeds the
      base, risk and state parts plus 3 days of complexity and 2 of jitter;
      above the minimum it is the sum of its parts. */
  lemma BufferBounds(strategy: BufferStrategy, phase: Phase, kind: Label, duration: int, predCount: nat, jitter: int)
    requires -1 <= jitter <= 2
    ensures var base := BaseBuffer(strategy, duration);
      var r := BufferDays(strategy, phase, kind, duration, predCount, jitter);
      var parts := base + RiskAdjustment(phase, base) + StateAdjustment(kind, base);
      && r >= MinBuffer(strategy)
      && r <= parts + 3 + 2
      && parts >= base >= MinBuffer(strategy)
      && (r > MinBuffer(strategy) ==> r == parts + Min(predCount, 3) + jitter)
  {
    var base := BaseBuffer(strategy, duration);
    assert base >= 1;
    assert base as real * RiskPercent(phase) as real / 100.0 >= 0.0;
    assert RiskAdjustment(phase, base) >= 0;
    assert StateAdjustment(kind, base) >= 0;
  }

  /** A conservative 10-day task of "Preparación del Terreno", not started
      and without predecessors, gets a buffer of 3 to 5 days, and both ends
      occur. */
  lemma BufferExample(jitter: int)
    requires -1 <= jitter <= 2
    ensures 3 <= BufferDays(Conservative, SitePreparation, NotYetStarted, 10, 0, jitter) <= 5
    ensures BufferDays(Conservative, SitePreparation, NotYetStarted, 10, 0, -1) == 3
    ensures BufferDays(Conservative, SitePreparation, NotYetStarted, 10, 0, 2) == 5
  {
    assert BaseBuffer(Conservative, 10) == 3;
    assert RiskAdjustment(SitePreparation, 3) == 0;
  }

  // ---------------------------------------------------------------------
  // Project start

  /** The draws of the start-date choice: the offset into the given range
      and the number of days before the wall clock. */
  predicate ValidStartDraws(minDate: Option<int>, maxDate: Option<int>, offset: int, back: int)
  {
    && (minDate.Some? && maxDate.Some? ==>
          var delta := Max(minDate.value, maxDate.value) - Min(minDate.value, maxDate.value);
          delta > 0 ==> 0 <= offset <= delta)
    && (minDate.None? && maxDate.None? ==> 180 <= back <= 365)
  }

  /** `_determine_project_start_date`: a day of the given range (bounds
      swapped when reversed), the single bound given, or 180 to 365 days
      before the wall clock. */
  function ProjectStartDate(minDate: Option<int>, maxDate: Option<int>, offset: int, back: int, wallClock: int): int
    requires ValidStartDraws(minDate, maxDate, offset, back)
  {
    if minDate.Some? && maxDate.Some? then
      var lo, hi := Min(minDate.value, maxDate.value), Max(minDate.value, maxDate.value);
      lo + (if hi - lo > 0 then offset else 0)
    else if minDate.Some? then minDate.value
    else if maxDate.Some? then maxDate.value
    else wallClock - back
  }

  /** The chosen day lies in the range, is the single bound, or falls 180 to
      365 days before the wall clock. */
  lemma ProjectStartInRange(minDate: Option<int>, maxDate: Option<int>, offset: int, back: int, wallClock: int)
    requires ValidStartDraws(minDate, maxDate, offset, back)
    ensures var r := ProjectStartDate(minDate, maxDate, offset, back, wallClock);
      && (minDate.Some? && maxDate.Some? ==>
            Min(minDate.value, maxDate.value) <= r <= Max(minDate.value, maxDate.value))
      && (minDate.Some? && maxDate.None? ==> r == minDate.value)
      && (minDate.None? && maxDate.Some? ==> r == maxDate.value)
      && (minDate.None? && maxDate.None? ==> wallClock - 365 <= r <= wallClock - 180)
  {
  }

  /** Every day of the range is chosen by some draw. */
  lemma ProjectStartCoversRange(a: int, b: int, x: int, back: int, wallClock: int)
    requires Min(a, b) <= x <= Max(a, b)
    ensures ValidStartDraws(Some(a), Some(b), x - Min(a, b), back)
    ensures ProjectStartDate(Some(a), Some(b), x - Min(a, b), back, wallClock) == x
  {
  }
}
