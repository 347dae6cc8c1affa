/** The precedence network as an adjacency structure addressed by position:
    `preds[i]` holds the incoming edges of the task with id `i + 1`. */
module Precedence {
  import opened ScheduleTypes

  /** Every edge names an existing task. */
  ghost predicate EdgesInRange(preds: seq<seq<Edge>>)
  {
    forall i, k :: 0 <= i < |preds| && 0 <= k < |preds[i]| ==> 1 <= preds[i][k].pred <= |preds|
  }

  /** Every edge points to a task with a strictly smaller id. */
  ghost predicate Backward(preds: seq<seq<Edge>>)
  {
    forall i, k :: 0 <= i < |preds| && 0 <= k < |preds[i]| ==> 1 <= preds[i][k].pred <= i
  }

  lemma BackwardInRange(preds: seq<seq<Edge>>)
    requires Backward(preds)
    ensures EdgesInRange(preds)
  {
  }

  /** `v` is an immediate predecessor of `u` (both are positions). */
  ghost predicate DependsOn(preds: seq<seq<Edge>>, u: nat, v: nat)
  {
    u < |preds| && exists k :: 0 <= k < |preds[u]| && preds[u][k].pred == v + 1
  }

  /** A walk along predecessor edges: each position depends on the next. */
  ghost predicate IsWalk(preds: seq<seq<Edge>>, w: seq<nat>)
  {
    forall j :: 0 <= j < |w| - 1 ==> DependsOn(preds, w[j], w[j + 1])
  }

  /** Along a walk of a backward network the positions strictly decrease,
      so the walk's last position is below its first. */
  lemma {:induction false} BackwardWalkDescends(preds: seq<seq<Edge>>, w: seq<nat>)
    requires Backward(preds)
    requires IsWalk(preds, w)
    requires |w| >= 2
    ensures w[|w| - 1] < w[0]
  {
    assert DependsOn(preds, w[0], w[1]);
    if |w| > 2 {
      assert IsWalk(preds, w[1..]) by {
        forall j | 0 <= j < |w[1..]| - 1
          ensures DependsOn(preds, w[1..][j], w[1..][j + 1])
        {
          assert DependsOn(preds, w[j + 1], w[j + 2]);
        }
      }
      BackwardWalkDescends(preds, w[1..]);
    }
  }

  /** A backward network is acyclic: no walk of one or more edges returns to
      where it started. */
  lemma BackwardIsAcyclic(preds: seq<seq<Edge>>, w: seq<nat>)
    requires Backward(preds)
    requires IsWalk(preds, w)
    requires |w| >= 2
    ensures w[|w| - 1] != w[0]
  {
    BackwardWalkDescends(preds, w);
  }
}
