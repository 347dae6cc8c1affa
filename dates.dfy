/** Planned dates (`_calculate_task_dates` and its driver): a task starts on
    the latest of the project start and the dates its incoming edges impose,
    and ends `duration - 1` days after it starts. Predecessor dates are
    computed on demand and memoized. */
module Dates {
  import opened ScheduleTypes
  import opened Precedence

  /** The start date one edge imposes on a successor of duration `dur`. */
  function ConstraintDate(rel: RelType, lag: int, predStart: int, predEnd: int, dur: int): int
  {
    match rel
    case FS => predEnd + lag + 1
    case SS => predStart + lag
    case FF => predEnd + lag + 1 - dur
    case SF => predStart + lag + 1 - dur
  }

  /** What each relation type means for the two tasks' dates: FS, the
      successor starts after the predecessor ends plus the lag; SS, it
      starts no earlier than the predecessor's start plus the lag; FF, it
      ends no earlier than the predecessor's end plus the lag; SF, it ends
      no earlier than the predecessor's start plus the lag. */
  predicate EdgeHolds(rel: RelType, lag: int, predStart: int, predEnd: int, start: int, end: int)
  {
    match rel
    case FS => start > predEnd + lag
    case SS => start >= predStart + lag
    case FF => end >= predEnd + lag
    case SF => end >= predStart + lag
  }

  /** With `end = start + dur - 1`, a start satisfies an edge exactly when it
      is not before the date the edge imposes. */
  lemma ConstraintDateMeaning(rel: RelType, lag: int, predStart: int, predEnd: int, dur: int, start: int)
    ensures (EdgeHolds(rel, lag, predStart, predEnd, start, start + dur - 1)
             <==> start >= ConstraintDate(rel, lag, predStart, predEnd, dur))
  {
  }

  ghost predicate DateInputs(preds: seq<seq<Edge>>, dur: seq<int>)
  {
    Backward(preds) && |dur| == |preds|
  }

  /** The planned start of position `i`. */
  function PlannedStart(preds: seq<seq<Edge>>, dur: seq<int>, ps: int, i: nat): int
    requires DateInputs(preds, dur) && i < |preds|
    decreases i, 1, 0
  {
    LatestConstraint(preds, dur, ps, i, |preds[i]|)
  }

  /** The planned end: the start day counts as the first day of work. */
  function PlannedEnd(preds: seq<seq<Edge>>, dur: seq<int>, ps: int, i: nat): int
    requires DateInputs(preds, dur) && i < |preds|
    decreases i, 2, 0
  {
    PlannedStart(preds, dur, ps, i) + dur[i] - 1
  }

  /** `latest_constraint` after the first `k` edges of position `i`. */
  function LatestConstraint(preds: seq<seq<Edge>>, dur: seq<int>, ps: int, i: nat, k: nat): int
    requires DateInputs(preds, dur) && i < |preds| && k <= |preds[i]|
    decreases i, 0, k
  {
    if k == 0 then ps
    else
      var e := preds[i][k - 1];
      var p := e.pred - 1;
      Max(LatestConstraint(preds, dur, ps, i, k - 1),
          ConstraintDate(e.rel, e.lag, PlannedStart(preds, dur, ps, p), PlannedEnd(preds, dur, ps, p), dur[i]))
  }

  /** The date edge `k` of position `i` imposes. */
  function EdgeConstraint(preds: seq<seq<Edge>>, dur: seq<int>, ps: int, i: nat, k: nat): int
    requires DateInputs(preds, dur) && i < |preds| && k < |preds[i]|
  {
    var e := preds[i][k];
    var p := e.pred - 1;
    ConstraintDate(e.rel, e.lag, PlannedStart(preds, dur, ps, p), PlannedEnd(preds, dur, ps, p), dur[i])
  }

  /** After `k` edges the running maximum is the maximum of the project
      start and the first `k` imposed dates, and it is one of them. */
  lemma {:induction false} LatestIsMaximum(preds: seq<seq<Edge>>, dur: seq<int>, ps: int, i: nat, k: nat)
    requires DateInputs(preds, dur) && i < |preds| && k <= |preds[i]|
    ensures LatestConstraint(preds, dur, ps, i, k) >= ps
    ensures forall j :: 0 <= j < k ==> LatestConstraint(preds, dur, ps, i, k) >= EdgeConstraint(preds, dur, ps, i, j)
    ensures LatestConstraint(preds, dur, ps, i, k) == ps
            || exists j :: 0 <= j < k && LatestConstraint(preds, dur, ps, i, k) == EdgeConstraint(preds, dur, ps, i, j)
  {
    if k > 0 {
      LatestIsMaximum(preds, dur, ps, i, k - 1);
      var prev := LatestConstraint(preds, dur, ps, i, k - 1);
      var c := EdgeConstraint(preds, dur, ps, i, k - 1);
      assert LatestConstraint(preds, dur, ps, i, k) == Max(prev, c);
      if prev < c {
        assert LatestConstraint(preds, dur, ps, i, k) == EdgeConstraint(preds, dur, ps, i, k - 1);
      }
    }
  }

  /** A task without edges starts on the project start date. */
  lemma NoEdgesStartAtProjectStart(preds: seq<seq<Edge>>, dur: seq<int>, ps: int, i: nat)
    requires DateInputs(preds, dur) && i < |preds| && |preds[i]| == 0
    ensures PlannedStart(preds, dur, ps, i) == ps
    ensures PlannedEnd(preds, dur, ps, i) == ps + dur[i] - 1
  {
  }

  /** Day `x` is a possible start of position `i`: not before the project
      start, and with `dur[i]` days of work every edge holds against the
      predecessors' planned dates. */
  ghost predicate FeasibleStart(preds: seq<seq<Edge>>, dur: seq<int>, ps: int, i: nat, x: int)
    requires DateInputs(preds, dur) && i < |preds|
  {
    && x >= ps
    && forall k :: 0 <= k < |preds[i]| ==>
         var p := preds[i][k].pred - 1;
         EdgeHolds(preds[i][k].rel, preds[i][k].lag, PlannedStart(preds, dur, ps, p), PlannedEnd(preds, dur, ps, p),
                   x, x + dur[i] - 1)
  }

  /** The planned dates meet every edge and the project start, and the
      start is the earliest day that does: any day that meets them all is
      not before it. */
  lemma PlannedStartIsEarliestFeasible(preds: seq<seq<Edge>>, dur: seq<int>, ps: int, i: nat)
    requires DateInputs(preds, dur) && i < |preds|
    ensures FeasibleStart(preds, dur, ps, i, PlannedStart(preds, dur, ps, i))
    ensures forall x :: FeasibleStart(preds, dur, ps, i, x) ==> x >= PlannedStart(preds, dur, ps, i)
  {
    var s := PlannedStart(preds, dur, ps, i);
    LatestIsMaximum(preds, dur, ps, i, |preds[i]|);
    forall k | 0 <= k < |preds[i]|
      ensures var p := preds[i][k].pred - 1;
        EdgeHolds(preds[i][k].rel, preds[i][k].lag, PlannedStart(preds, dur, ps, p), PlannedEnd(preds, dur, ps, p),
                  s, s + dur[i] - 1)
    {
      var p := preds[i][k].pred - 1;
      assert s >= EdgeConstraint(preds, dur, ps, i, k);
      ConstraintDateMeaning(preds[i][k].rel, preds[i][k].lag, PlannedStart(preds, dur, ps, p), PlannedEnd(preds, dur, ps, p), dur[i], s);
    }
    forall x | FeasibleStart(preds, dur, ps, i, x) ensures x >= s {
      if s != ps {
        var k :| 0 <= k < |preds[i]| && s == EdgeConstraint(preds, dur, ps, i, k);
        var p := preds[i][k].pred - 1;
        ConstraintDateMeaning(preds[i][k].rel, preds[i][k].lag, PlannedStart(preds, dur, ps, p), PlannedEnd(preds, dur, ps, p), dur[i], x);
      }
    }
  }

  // ---------------------------------------------------------------------
  // The memoized computation

  /** Every memoized entry holds the planned dates of its task. */
  ghost predicate MemoSound(preds: seq<seq<Edge>>, dur: seq<int>, ps: int, known: seq<bool>, starts: seq<int>, ends: seq<int>)
    requires DateInputs(preds, dur)
  {
    && |known| == |preds| && |starts| == |preds| && |ends| == |preds|
    && forall j :: 0 <= j < |preds| && known[j] ==>
         starts[j] == PlannedStart(preds, dur, ps, j) && ends[j] == PlannedEnd(preds, dur, ps, j)
  }

  /** `_calculate_task_dates`: the dates of position `i`, computing and
      memoizing its predecessors' dates first where they are missing. */
  method CalculateTaskDates(preds: seq<seq<Edge>>, dur: seq<int>, ps: int, i: nat,
                            known: array<bool>, starts: array<int>, ends: array<int>)
    returns (start: int, end: int)
    requires DateInputs(preds, dur) && i < |preds|
    requires starts != ends
    requires MemoSound(preds, dur, ps, known[..], starts[..], ends[..])
    modifies known, starts, ends
    ensures start == PlannedStart(preds, dur, ps, i) && end == PlannedEnd(preds, dur, ps, i)
    ensures MemoSound(preds, dur, ps, known[..], starts[..], ends[..])
    ensures forall j :: 0 <= j < |preds| && old(known[j]) ==> known[j]
    decreases i
  {
    if |preds[i]| == 0 {
      return ps, ps + dur[i] - 1;
    }
    var latest := ps;
    for k := 0 to |preds[i]|
      invariant latest == LatestConstraint(preds, dur, ps, i, k)
      invariant MemoSound(preds, dur, ps, known[..], starts[..], ends[..])
      invariant forall j :: 0 <= j < |preds| && old(known[j]) ==> known[j]
    {
      var e := preds[i][k];
      var p := e.pred - 1;
      if !known[p] {
        var s, f := CalculateTaskDates(preds, dur, ps, p, known, starts, ends);
        starts[p] := s;
        ends[p] := f;
        known[p] := true;
      }
      latest := Max(latest, ConstraintDate(e.rel, e.lag, starts[p], ends[p], dur[i]));
    }
    start := latest;
    end := latest + dur[i] - 1;
  }

  /** The driver of `generate_coherent_tasks`: every task's planned dates,
      visiting the tasks in catalog order and skipping memoized ones. */
  method ResolveDates(preds: seq<seq<Edge>>, dur: seq<int>, ps: int) returns (starts: seq<int>, ends: seq<int>)
    requires DateInputs(preds, dur)
    ensures |starts| == |preds| && |ends| == |preds|
    ensures forall i :: 0 <= i < |preds| ==>
      starts[i] == PlannedStart(preds, dur, ps, i) && ends[i] == PlannedEnd(preds, dur, ps, i)
  {
    var known := new bool[|preds|](_ => false);
    var s := new int[|preds|](_ => 0);
    var f := new int[|preds|](_ => 0);
    for i := 0 to |preds|
      invariant MemoSound(preds, dur, ps, known[..], s[..], f[..])
      invariant forall j :: 0 <= j < i ==> known[j]
    {
      if !known[i] {
        var a, b := CalculateTaskDates(preds, dur, ps, i, known, s, f);
        s[i] := a;
        f[i] := b;
        known[i] := true;
      }
    }
    starts, ends := s[..], f[..];
  }

  /** A two-task chain: a 5-day task from day 0, then a 3-day task after
      it with an FS edge of lag 0. */
  lemma ChainExample()
    ensures var preds := [[], [Edge(1, FS, 0)]];
      var dur := [5, 3];
      && DateInputs(preds, dur)
      && PlannedStart(preds, dur, 0, 0) == 0 && PlannedEnd(preds, dur, 0, 0) == 4
      && PlannedStart(preds, dur, 0, 1) == 5 && PlannedEnd(preds, dur, 0, 1) == 7
  {
    var preds: seq<seq<Edge>> := [[], [Edge(1, FS, 0)]];
    var dur := [5, 3];
    assert DateInputs(preds, dur);
    assert LatestConstraint(preds, dur, 0, 1, 1) == Max(0, ConstraintDate(FS, 0, 0, 4, 3));
  }
}
