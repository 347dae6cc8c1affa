/** The counting fold of the dependency report
    (`generate_dependency_report`): edge totals per relation type, the
    largest fan-in, tasks with several predecessors, SS/FF edges, and the
    tasks whose suggested buffer is at most 2 days. */
module DependencyReport {
  import opened ScheduleTypes

  /** "Alta" above 3 predecessors, "Media" above 1, "Baja" otherwise. */
  datatype Complexity = High | Medium | Low

  datatype DependencyStats = DependencyStats(
    total: nat,
    maxDeps: nat,
    multi: nat,
    parallel: nat,
    fs: nat,
    ss: nat,
    ff: nat,
    sf: nat,
    critical: nat,
    complexity: Complexity)

  function ComplexityOf(maxDeps: nat): Complexity
  {
    if maxDeps > 3 then High else if maxDeps > 1 then Medium else Low
  }

  // ---------------------------------------------------------------------
  // What the fold computes, row by row

  function TotalEdges(rows: seq<TaskRow>): nat
  {
    if rows == [] then 0 else TotalEdges(rows[..|rows| - 1]) + |rows[|rows| - 1].preds|
  }

  function OfType(es: seq<Edge>, rel: RelType): nat
  {
    if es == [] then 0 else OfType(es[..|es| - 1], rel) + (if es[|es| - 1].rel == rel then 1 else 0)
  }

  function RelCount(rows: seq<TaskRow>, rel: RelType): nat
  {
    if rows == [] then 0 else RelCount(rows[..|rows| - 1], rel) + OfType(rows[|rows| - 1].preds, rel)
  }

  function MaxFanIn(rows: seq<TaskRow>): nat
  {
    if rows == [] then 0 else Max(MaxFanIn(rows[..|rows| - 1]), |rows[|rows| - 1].preds|)
  }

  function MultiCount(rows: seq<TaskRow>): nat
  {
    if rows == [] then 0 else MultiCount(rows[..|rows| - 1]) + (if |rows[|rows| - 1].preds| > 1 then 1 else 0)
  }

  function CriticalCount(rows: seq<TaskRow>): nat
  {
    if rows == [] then 0 else CriticalCount(rows[..|rows| - 1]) + (if rows[|rows| - 1].bufferDays <= 2 then 1 else 0)
  }

  // ---------------------------------------------------------------------
  // The fold

  /** The loops of `generate_dependency_report`, one pass over the rows
      and, inside it, one over each row's edges. */
  method SummarizeDependencies(rows: seq<TaskRow>) returns (r: DependencyStats)
    ensures r.total == TotalEdges(rows) && r.maxDeps == MaxFanIn(rows) && r.multi == MultiCount(rows)
    ensures r.fs == RelCount(rows, FS) && r.ss == RelCount(rows, SS)
    ensures r.ff == RelCount(rows, FF) && r.sf == RelCount(rows, SF)
    ensures r.parallel == RelCount(rows, SS) + RelCount(rows, FF)
    ensures r.critical == CriticalCount(rows)
    ensures r.complexity == ComplexityOf(MaxFanIn(rows))
  {
    var total, maxDeps, multi, parallel := 0, 0, 0, 0;
    var fs, ss, ff, sf := 0, 0, 0, 0;
    for i := 0 to |rows|
      invariant total == TotalEdges(rows[..i]) && maxDeps == MaxFanIn(rows[..i]) && multi == MultiCount(rows[..i])
      invariant fs == RelCount(rows[..i], FS) && ss == RelCount(rows[..i], SS)
      invariant ff == RelCount(rows[..i], FF) && sf == RelCount(rows[..i], SF)
      invariant parallel == ss + ff
    {
      var deps := rows[i].preds;
      assert rows[..i + 1][..i] == rows[..i];
      if |deps| > 0 {
        total := total + |deps|;
        maxDeps := Max(maxDeps, |deps|);
        if |deps| > 1 {
          multi := multi + 1;
        }
        var dfs, dss, dff, dsf := TallyRelations(deps);
        fs, ss, ff, sf := fs + dfs, ss + dss, ff + dff, sf + dsf;
        parallel := parallel + dss + dff;
      }
    }
    assert rows[..|rows|] == rows;
    var critical := CountCritical(rows);
    r := DependencyStats(total, maxDeps, multi, parallel, fs, ss, ff, sf, critical, ComplexityOf(maxDeps));
  }

  /** The second pass: tasks whose suggested buffer is at most 2 days. */
  method CountCritical(rows: seq<TaskRow>) returns (critical: nat)
    ensures critical == CriticalCount(rows)
  {
    critical := 0;
    for i := 0 to |rows|
      invariant critical == CriticalCount(rows[..i])
    {
      assert rows[..i + 1][..i] == rows[..i];
      if rows[i].bufferDays <= 2 {
        critical := critical + 1;
      }
    }
    assert rows[..|rows|] == rows;
  }

  /** The inner loop over one task's edges: one count per relation type. */
  method TallyRelations(deps: seq<Edge>) returns (fs: nat, ss: nat, ff: nat, sf: nat)
    ensures fs == OfType(deps, FS) && ss == OfType(deps, SS) && ff == OfType(deps, FF) && sf == OfType(deps, SF)
  {
    fs, ss, ff, sf := 0, 0, 0, 0;
    for k := 0 to |deps|
      invariant fs == OfType(deps[..k], FS) && ss == OfType(deps[..k], SS)
      invariant ff == OfType(deps[..k], FF) && sf == OfType(deps[..k], SF)
    {
      assert deps[..k + 1][..k] == deps[..k];
      match deps[k].rel {
        case FS => fs := fs + 1;
        case SS => ss := ss + 1;
        case FF => ff := ff + 1;
        case SF => sf := sf + 1;
      }
    }
    assert deps[..|deps|] == deps;
  }

  // ---------------------------------------------------------------------
  // What the counts mean

  lemma {:induction false} OfTypeSum(es: seq<Edge>)
    ensures OfType(es, FS) + OfType(es, SS) + OfType(es, FF) + OfType(es, SF) == |es|
  {
    if es != [] {
      OfTypeSum(es[..|es| - 1]);
    }
  }

  /** The four per-type counts add up to the total. */
  lemma {:induction false} RelCountsSum(rows: seq<TaskRow>)
    ensures RelCount(rows, FS) + RelCount(rows, SS) + RelCount(rows, FF) + RelCount(rows, SF) == TotalEdges(rows)
  {
    if rows != [] {
      RelCountsSum(rows[..|rows| - 1]);
      OfTypeSum(rows[|rows| - 1].preds);
    }
  }

  /** The largest fan-in is one of the rows' fan-ins, bounds all of them,
      and stays within any cap every row respects. */
  lemma {:induction false} MaxFanInIsMaximum(rows: seq<TaskRow>, cap: nat)
    ensures forall i :: 0 <= i < |rows| ==> |rows[i].preds| <= MaxFanIn(rows)
    ensures rows != [] ==> exists i :: 0 <= i < |rows| && |rows[i].preds| == MaxFanIn(rows)
    ensures (forall i :: 0 <= i < |rows| ==> |rows[i].preds| <= cap) ==> MaxFanIn(rows) <= cap
  {
    if rows != [] {
      var init := rows[..|rows| - 1];
      MaxFanInIsMaximum(init, cap);
      assert forall i :: 0 <= i < |init| ==> init[i] == rows[i];
      if init != [] && MaxFanIn(init) >= |rows[|rows| - 1].preds| {
        var i :| 0 <= i < |init| && |init[i].preds| == MaxFanIn(init);
        assert |rows[i].preds| == MaxFanIn(rows);
      } else {
        assert |rows[|rows| - 1].preds| == MaxFanIn(rows);
      }
    }
  }

  /** The tasks counted as critical are those whose buffer is at most 2
      days; under a strategy whose minimum buffer is 3 there are none. */
  lemma {:induction false} CriticalCountBounds(rows: seq<TaskRow>, minBuffer: int)
    ensures CriticalCount(rows) <= |rows|
    ensures (forall i :: 0 <= i < |rows| ==> rows[i].bufferDays >= minBuffer) && minBuffer >= 3 ==>
      CriticalCount(rows) == 0
  {
    if rows != [] {
      var init := rows[..|rows| - 1];
      CriticalCountBounds(init, minBuffer);
      assert forall i :: 0 <= i < |init| ==> init[i] == rows[i];
    }
  }
}
