/** The cycle pass (`_remove_cycles`): for every task, in catalog order, a
    fresh depth-first search along predecessor edges starts at the task; if
    it meets a task still on its recursion stack, the task's most recently
    added edge is dropped. */
module Cycles {
  import opened ScheduleTypes
  import opened Precedence

  /** A closed walk of at least one edge. */
  ghost predicate IsCycle(preds: seq<seq<Edge>>, w: seq<nat>)
  {
    IsWalk(preds, w) && |w| >= 2 && w[0] == w[|w| - 1]
  }

  ghost predicate HasCycle(preds: seq<seq<Edge>>)
  {
    exists w :: IsCycle(preds, w)
  }

  /** A walk from `r` whose last position already occurred at index `k`:
      from `r` the search can run into a cycle. */
  ghost predicate IsLasso(preds: seq<seq<Edge>>, r: nat, w: seq<nat>, k: nat)
  {
    IsWalk(preds, w) && |w| >= 2 && w[0] == r && k < |w| - 1 && w[k] == w[|w| - 1]
  }

  ghost predicate ReachesCycle(preds: seq<seq<Edge>>, r: nat)
  {
    exists w: seq<nat>, k: nat :: IsLasso(preds, r, w, k)
  }

  /** A cycle reachable from somewhere is a cycle. */
  lemma LassoHasCycle(preds: seq<seq<Edge>>, r: nat)
    requires ReachesCycle(preds, r)
    ensures HasCycle(preds)
  {
    var w: seq<nat>, k: nat :| IsLasso(preds, r, w, k);
    var c := w[k..];
    assert IsWalk(preds, c) by {
      forall j | 0 <= j < |c| - 1 ensures DependsOn(preds, c[j], c[j + 1]) {
        assert c[j] == w[k + j] && c[j + 1] == w[k + j + 1];
      }
    }
    assert IsCycle(preds, c);
  }

  /** A network whose edges all point to smaller ids has no cycle. */
  lemma BackwardHasNoCycle(preds: seq<seq<Edge>>)
    requires Backward(preds)
    ensures !HasCycle(preds)
  {
    if HasCycle(preds) {
      var w :| IsCycle(preds, w);
      BackwardIsAcyclic(preds, w);
    }
  }

  lemma WalkExtend(preds: seq<seq<Edge>>, path: seq<nat>, v: nat)
    requires |path| >= 1 && IsWalk(preds, path)
    requires DependsOn(preds, path[|path| - 1], v)
    ensures IsWalk(preds, path + [v])
  {
    var w := path + [v];
    forall j | 0 <= j < |w| - 1 ensures DependsOn(preds, w[j], w[j + 1]) {
      if j < |path| - 1 {
        assert w[j] == path[j] && w[j + 1] == path[j + 1];
      }
    }
  }

  // ---------------------------------------------------------------------
  // Counting unvisited tasks (the search's termination measure)

  function Unvisited(s: seq<bool>): nat
  {
    if s == [] then 0 else Unvisited(s[..|s| - 1]) + (if s[|s| - 1] then 0 else 1)
  }

  /** Marking tasks visited never adds unvisited ones, and marking a new one
      removes one. */
  lemma {:induction false} UnvisitedMono(a: seq<bool>, b: seq<bool>)
    requires |a| == |b|
    requires forall i :: 0 <= i < |a| && a[i] ==> b[i]
    ensures Unvisited(b) <= Unvisited(a)
    ensures (exists i :: 0 <= i < |a| && !a[i] && b[i]) ==> Unvisited(b) < Unvisited(a)
  {
    if a != [] {
      var n := |a| - 1;
      UnvisitedMono(a[..n], b[..n]);
      if exists i :: 0 <= i < |a| && !a[i] && b[i] {
        var i :| 0 <= i < |a| && !a[i] && b[i];
        if i < n {
          assert !a[..n][i] && b[..n][i];
        }
      }
    }
  }

  // ---------------------------------------------------------------------
  // Finished tasks (visited and no longer on the recursion stack)

  ghost predicate Black(vis: seq<bool>, stk: seq<bool>, j: int)
  {
    0 <= j < |vis| && j < |stk| && vis[j] && !stk[j]
  }

  /** What the search knows about finished tasks: their predecessors are
      finished too, and no cycle is reachable from any of them. */
  ghost predicate Closed(preds: seq<seq<Edge>>, vis: seq<bool>, stk: seq<bool>)
  {
    && (forall j, e :: Black(vis, stk, j) && j < |preds| && 0 <= e < |preds[j]| ==>
          Black(vis, stk, preds[j][e].pred - 1))
    && (forall j :: Black(vis, stk, j) ==> !ReachesCycle(preds, j))
  }

  /** A walk that starts at a finished task only meets finished tasks. */
  lemma {:induction false} BlackWalk(preds: seq<seq<Edge>>, vis: seq<bool>, stk: seq<bool>, w: seq<nat>)
    requires Closed(preds, vis, stk)
    requires |w| >= 1 && IsWalk(preds, w) && Black(vis, stk, w[0])
    ensures forall j :: 0 <= j < |w| ==> Black(vis, stk, w[j])
  {
    if |w| > 1 {
      var init := w[..|w| - 1];
      assert IsWalk(preds, init) by {
        forall j | 0 <= j < |init| - 1 ensures DependsOn(preds, init[j], init[j + 1]) {
          assert init[j] == w[j] && init[j + 1] == w[j + 1];
        }
      }
      BlackWalk(preds, vis, stk, init);
      var a := w[|w| - 2];
      assert Black(vis, stk, init[|w| - 2]);
      assert DependsOn(preds, a, w[|w| - 1]);
      var e :| 0 <= e < |preds[a]| && preds[a][e].pred == w[|w| - 1] + 1;
      forall j | 0 <= j < |w| ensures Black(vis, stk, w[j]) {
        if j < |w| - 1 {
          assert w[j] == init[j];
        }
      }
    }
  }

  /** A task still on the stack whose predecessors have all finished reaches
      no cycle. */
  lemma FinishUnreachable(preds: seq<seq<Edge>>, vis: seq<bool>, stk: seq<bool>, u: nat)
    requires Closed(preds, vis, stk)
    requires u < |preds| && u < |stk| && stk[u]
    requires forall e :: 0 <= e < |preds[u]| ==> Black(vis, stk, preds[u][e].pred - 1)
    ensures !ReachesCycle(preds, u)
  {
    if ReachesCycle(preds, u) {
      var w: seq<nat>, k: nat :| IsLasso(preds, u, w, k);
      assert DependsOn(preds, w[0], w[1]);
      var e :| 0 <= e < |preds[u]| && preds[u][e].pred == w[1] + 1;
      var tail := w[1..];
      assert IsWalk(preds, tail) by {
        forall j | 0 <= j < |tail| - 1 ensures DependsOn(preds, tail[j], tail[j + 1]) {
          assert tail[j] == w[j + 1] && tail[j + 1] == w[j + 2];
        }
      }
      BlackWalk(preds, vis, stk, tail);
      if k == 0 {
        assert false;
      } else {
        assert IsLasso(preds, w[1], tail, k - 1);
        assert false;
      }
    }
  }

  /** Taking a task off the stack once all its predecessors have finished
      keeps what the search knows about finished tasks. */
  lemma FinishStep(preds: seq<seq<Edge>>, vis: seq<bool>, stk: seq<bool>, u: nat)
    requires Closed(preds, vis, stk)
    requires u < |preds| && u < |vis| && u < |stk| && vis[u] && stk[u]
    requires forall e :: 0 <= e < |preds[u]| ==> Black(vis, stk, preds[u][e].pred - 1)
    ensures Closed(preds, vis, stk[u := false])
  {
    var stk' := stk[u := false];
    FinishUnreachable(preds, vis, stk, u);
    forall j | Black(vis, stk', j) ensures Black(vis, stk, j) || j == u {
    }
    forall j, e | Black(vis, stk', j) && j < |preds| && 0 <= e < |preds[j]|
      ensures Black(vis, stk', preds[j][e].pred - 1)
    {
      assert Black(vis, stk, preds[j][e].pred - 1);
    }
  }

  /** `stk` marks exactly the positions on the stack `p`. */
  ghost predicate Marks(stk: seq<bool>, p: seq<nat>)
  {
    forall j :: 0 <= j < |stk| ==> (stk[j] <==> j in p)
  }

  /** Every position on the stack has been visited. */
  ghost predicate StackVisited(vis: seq<bool>, stk: seq<bool>)
  {
    forall j :: 0 <= j < |stk| && j < |vis| && stk[j] ==> vis[j]
  }

  /** No visited mark is lost from `a` to `b`. */
  ghost predicate Grown(a: seq<bool>, b: seq<bool>)
  {
    |a| == |b| && forall j :: 0 <= j < |a| && a[j] ==> b[j]
  }

  /** Taking the top `u` off the stack restores the marks the search began
      with. */
  lemma PopMarks(stk: seq<bool>, path: seq<nat>, u: nat)
    requires |path| >= 1 && path[|path| - 1] == u && u < |stk|
    requires Marks(stk, path)
    requires u !in path[..|path| - 1]
    ensures Marks(stk[u := false], path[..|path| - 1])
  {
    assert path == path[..|path| - 1] + [u];
  }

  /** Pushing `u`, freshly visited, onto the stack changes no finished task
      and marks exactly the new stack. */
  lemma PushMarks(preds: seq<seq<Edge>>, vis0: seq<bool>, stk0: seq<bool>, path: seq<nat>, u: nat)
    requires |vis0| == |stk0| && u < |vis0| && !vis0[u]
    requires |path| >= 1 && path[|path| - 1] == u
    requires Marks(stk0, path[..|path| - 1]) && StackVisited(vis0, stk0) && Closed(preds, vis0, stk0)
    ensures Marks(stk0[u := true], path) && StackVisited(vis0[u := true], stk0[u := true])
    ensures Closed(preds, vis0[u := true], stk0[u := true])
  {
    assert forall j :: Black(vis0[u := true], stk0[u := true], j) <==> Black(vis0, stk0, j);
    assert path == path[..|path| - 1] + [u];
  }

  /** Meeting a task that is still on the stack closes a lasso from the
      start of the search. */
  lemma StackHit(preds: seq<seq<Edge>>, path: seq<nat>, v: nat)
    requires |path| >= 1 && IsWalk(preds, path + [v]) && v in path
    ensures ReachesCycle(preds, path[0])
  {
    var idx :| 0 <= idx < |path| && path[idx] == v;
    assert IsLasso(preds, path[0], path + [v], idx);
  }

  /** A search below that reports no cycle leaves every finished task
      finished, finishes its own start `v`, and visits no fewer tasks. */
  lemma ReturnedClean(vis0: seq<bool>, stk0: seq<bool>, vis: seq<bool>, stk: seq<bool>, v: nat)
    requires Grown(vis0, vis) && stk == stk0 && v < |vis| && v < |stk| && vis[v] && !stk0[v]
    ensures forall j :: Black(vis0, stk0, j) ==> Black(vis, stk, j)
    ensures Black(vis, stk, v)
    ensures Unvisited(vis) <= Unvisited(vis0)
  {
    UnvisitedMono(vis0, vis);
  }

  /** One more predecessor of `u` has finished, and every task that had
      finished before still has. */
  lemma NextFinished(preds: seq<seq<Edge>>, u: nat, k: nat, vis0: seq<bool>, stk0: seq<bool>,
                     vis: seq<bool>, stk: seq<bool>)
    requires u < |preds| && k < |preds[u]|
    requires forall e :: 0 <= e < k ==> Black(vis0, stk0, preds[u][e].pred - 1)
    requires forall j :: Black(vis0, stk0, j) ==> Black(vis, stk, j)
    requires Black(vis, stk, preds[u][k].pred - 1)
    ensures forall e :: 0 <= e < k + 1 ==> Black(vis, stk, preds[u][e].pred - 1)
  {
  }

  // ---------------------------------------------------------------------
  // The search

  /** `has_cycle_util`: depth-first search from position `u`. `path` is the
      recursion stack (a walk from the start, ending at `u`); `onStack`
      marks the positions on it other than `u`. A reported cycle is a real
      one reachable from the start; when none is reported, no cycle is
      reachable from `u`, `u` has finished, and the stack marks are
      restored. */
  method HasCycleFrom(preds: seq<seq<Edge>>, u: nat, visited: array<bool>, onStack: array<bool>, ghost path: seq<nat>)
    returns (cycle: bool)
    requires EdgesInRange(preds)
    requires visited.Length == |preds| && onStack.Length == |preds| && visited != onStack
    requires u < |preds| && !visited[u]
    requires |path| >= 1 && path[|path| - 1] == u && IsWalk(preds, path)
    requires Marks(onStack[..], path[..|path| - 1])
    requires StackVisited(visited[..], onStack[..])
    requires Closed(preds, visited[..], onStack[..])
    modifies visited, onStack
    ensures visited[u] && Grown(old(visited[..]), visited[..])
    ensures StackVisited(visited[..], onStack[..])
    ensures cycle ==> ReachesCycle(preds, path[0])
    ensures !cycle ==> onStack[..] == old(onStack[..])
    ensures !cycle ==> Closed(preds, visited[..], onStack[..]) && !ReachesCycle(preds, u)
    decreases Unvisited(visited[..])
  {
    ghost var before := visited[..];
    ghost var stackBefore := onStack[..];
    PushMarks(preds, before, stackBefore, path, u);
    visited[u] := true;
    onStack[u] := true;
    assert visited[..] == before[u := true] && onStack[..] == stackBefore[u := true];
    UnvisitedMono(before, visited[..]);
    var k := 0;
    while k < |preds[u]|
      invariant 0 <= k <= |preds[u]|
      invariant visited[u] && Grown(before, visited[..])
      invariant Marks(onStack[..], path)
      invariant StackVisited(visited[..], onStack[..])
      invariant Unvisited(visited[..]) < Unvisited(before)
      invariant Closed(preds, visited[..], onStack[..])
      invariant forall e :: 0 <= e < k ==> Black(visited[..], onStack[..], preds[u][e].pred - 1)
    {
      ghost var vis0, stk0 := visited[..], onStack[..];
      var v := preds[u][k].pred - 1;
      assert DependsOn(preds, u, v);
      WalkExtend(preds, path, v);
      if !visited[v] {
        assert (path + [v])[..|path|] == path;
        cycle := HasCycleFrom(preds, v, visited, onStack, path + [v]);
        if cycle {
          return;
        }
        ReturnedClean(vis0, stk0, visited[..], onStack[..], v);
        NextFinished(preds, u, k, vis0, stk0, visited[..], onStack[..]);
      } else if onStack[v] {
        StackHit(preds, path, v);
        return true;
      } else {
        NextFinished(preds, u, k, vis0, stk0, vis0, stk0);
      }
      k := k + 1;
    }
    FinishStep(preds, visited[..], onStack[..], u);
    PopMarks(onStack[..], path, u);
    onStack[u] := false;
    assert onStack[..] == stackBefore;
    assert Black(visited[..], onStack[..], u);
    cycle := false;
  }

  // ---------------------------------------------------------------------
  // The pass

  /** Every task's edge list in `sub` is a prefix of its list in `full`. */
  ghost predicate PrefixNetwork(sub: seq<seq<Edge>>, full: seq<seq<Edge>>)
  {
    |sub| == |full| && forall i :: 0 <= i < |sub| ==> |sub[i]| <= |full[i]| && sub[i] == full[i][..|sub[i]|]
  }

  /** Dropping edges cannot create a cycle. */
  lemma LassoInFull(sub: seq<seq<Edge>>, full: seq<seq<Edge>>, r: nat)
    requires PrefixNetwork(sub, full)
    requires ReachesCycle(sub, r)
    ensures ReachesCycle(full, r)
  {
    var w: seq<nat>, k: nat :| IsLasso(sub, r, w, k);
    forall j | 0 <= j < |w| - 1 ensures DependsOn(full, w[j], w[j + 1]) {
      assert DependsOn(sub, w[j], w[j + 1]);
      var e :| 0 <= e < |sub[w[j]]| && sub[w[j]][e].pred == w[j + 1] + 1;
      assert full[w[j]][e] == sub[w[j]][e];
    }
    assert IsLasso(full, r, w, k);
  }

  /** Each task keeps its edge list or loses its last edge. */
  ghost predicate PassOutcome(preds0: seq<seq<Edge>>, preds: seq<seq<Edge>>)
  {
    && |preds| == |preds0|
    && forall i :: 0 <= i < |preds| ==>
         preds[i] == preds0[i] || (|preds0[i]| > 0 && preds[i] == preds0[i][..|preds0[i]| - 1])
  }

  /** The network after the pass has handled the first `i` tasks: task
      `i - 1` loses its last edge when it has one and a cycle is reachable
      from it in the network as the pass left it so far. */
  ghost function PassState(preds0: seq<seq<Edge>>, i: nat): (s: seq<seq<Edge>>)
    requires i <= |preds0|
    ensures |s| == |preds0|
  {
    if i == 0 then preds0
    else
      var s := PassState(preds0, i - 1);
      if |s[i - 1]| > 0 && ReachesCycle(s, i - 1) then s[i - 1 := s[i - 1][..|s[i - 1]| - 1]] else s
  }

  /** Dropping edges keeps every edge in range. */
  lemma PrefixInRange(sub: seq<seq<Edge>>, full: seq<seq<Edge>>)
    requires PrefixNetwork(sub, full) && EdgesInRange(full)
    ensures EdgesInRange(sub)
  {
    forall a, k | 0 <= a < |sub| && 0 <= k < |sub[a]| ensures 1 <= sub[a][k].pred <= |sub| {
      assert sub[a][k] == full[a][k];
    }
  }

  /** Tasks the pass has not reached yet keep their edges. */
  lemma {:induction false} PassAhead(preds0: seq<seq<Edge>>, i: nat, j: nat)
    requires i <= j < |preds0|
    ensures PassState(preds0, i)[j] == preds0[j]
  {
    if i > 0 {
      PassAhead(preds0, i - 1, j);
    }
  }

  /** A task's edges do not change after the pass has handled it. */
  lemma {:induction false} PassStable(preds0: seq<seq<Edge>>, i: nat, j: nat)
    requires j < i <= |preds0|
    ensures PassState(preds0, i)[j] == PassState(preds0, j + 1)[j]
  {
    if i > j + 1 {
      PassStable(preds0, i - 1, j);
    }
  }

  /** A handled task lost its last edge exactly when it had one and a
      cycle was reachable from it when its turn came. */
  lemma PassAt(preds0: seq<seq<Edge>>, i: nat, j: nat)
    requires j < i <= |preds0|
    ensures var s := PassState(preds0, i)[j];
      && (s != preds0[j] <==> |preds0[j]| > 0 && ReachesCycle(PassState(preds0, j), j))
      && (s == preds0[j] || (|preds0[j]| > 0 && s == preds0[j][..|preds0[j]| - 1]))
  {
    PassStable(preds0, i, j);
    PassAhead(preds0, j, j);
  }

  lemma PassShape(preds0: seq<seq<Edge>>, i: nat)
    requires i <= |preds0|
    ensures PrefixNetwork(PassState(preds0, i), preds0) && PassOutcome(preds0, PassState(preds0, i))
  {
    var s := PassState(preds0, i);
    forall j | 0 <= j < |preds0|
      ensures s[j] == preds0[j] || (|preds0[j]| > 0 && s[j] == preds0[j][..|preds0[j]| - 1])
    {
      if j < i {
        PassAt(preds0, i, j);
      } else {
        PassAhead(preds0, i, j);
      }
    }
    forall j | 0 <= j < |preds0| ensures |s[j]| <= |preds0[j]| && s[j] == preds0[j][..|s[j]|] {
      assert preds0[j] == preds0[j][..|preds0[j]|];
    }
  }

  /** The pass only drops an edge of a task from which a cycle was
      reachable in the original network. */
  lemma PassSound(preds0: seq<seq<Edge>>, i: nat, j: nat)
    requires j < i <= |preds0|
    requires PassState(preds0, i)[j] != preds0[j]
    ensures ReachesCycle(preds0, j)
  {
    PassAt(preds0, i, j);
    PassShape(preds0, j);
    LassoInFull(PassState(preds0, j), preds0, j);
  }

  /** `_remove_cycles`: task by task, in order, a fresh search runs on the
      network as it stands, and the task loses its last edge exactly when it
      has one and a cycle is reachable from it; so each task loses at most
      its last edge, only when a cycle was reachable from it in the original
      network, and a network without cycles is returned unchanged. */
  method RemoveCycles(preds0: seq<seq<Edge>>) returns (preds: seq<seq<Edge>>)
    requires EdgesInRange(preds0)
    ensures preds == PassState(preds0, |preds0|)
    ensures forall i :: 0 <= i < |preds| ==>
      (preds[i] != preds0[i] <==> |preds0[i]| > 0 && ReachesCycle(PassState(preds0, i), i))
    ensures PassOutcome(preds0, preds)
    ensures forall i :: 0 <= i < |preds| && preds[i] != preds0[i] ==> ReachesCycle(preds0, i)
    ensures !HasCycle(preds0) ==> preds == preds0
    ensures EdgesInRange(preds)
  {
    preds := preds0;
    var i := 0;
    while i < |preds0|
      invariant 0 <= i <= |preds0|
      invariant preds == PassState(preds0, i)
    {
      PassShape(preds0, i);
      PrefixInRange(preds, preds0);
      var visited := new bool[|preds|](_ => false);
      var onStack := new bool[|preds|](_ => false);
      assert [i][..0] == [];
      var cycle := HasCycleFrom(preds, i, visited, onStack, [i]);
      if cycle && |preds[i]| > 0 {
        preds := preds[i := preds[i][..|preds[i]| - 1]];
      }
      i := i + 1;
    }
    PassShape(preds0, |preds0|);
    PrefixInRange(preds, preds0);
    forall j | 0 <= j < |preds| ensures
      (preds[j] != preds0[j] <==> |preds0[j]| > 0 && ReachesCycle(PassState(preds0, j), j))
    {
      PassAt(preds0, |preds0|, j);
    }
    forall j | 0 <= j < |preds| && preds[j] != preds0[j] ensures ReachesCycle(preds0, j) {
      PassSound(preds0, |preds0|, j);
    }
    if !HasCycle(preds0) {
      forall j | 0 <= j < |preds| ensures preds[j] == preds0[j] {
        if preds[j] != preds0[j] {
          LassoHasCycle(preds0, j);
        }
      }
    }
  }

  /** A three-task network where tasks 1 and 2 depend on each other and
      both on task 3. */
  function TwoTaskLoop(): (preds: seq<seq<Edge>>)
    ensures EdgesInRange(preds)
  {
    [[Edge(2, FS, 0), Edge(3, FS, 0)], [Edge(1, FS, 0), Edge(3, FS, 0)], []]
  }

  /** One pass does not always break every cycle: whichever last edges the
      pass drops from `TwoTaskLoop`, tasks 1 and 2 still depend on each
      other. */
  lemma OnePassMayLeaveCycle(preds: seq<seq<Edge>>)
    requires PassOutcome(TwoTaskLoop(), preds)
    ensures HasCycle(preds)
  {
    var n := TwoTaskLoop();
    assert preds[0][0] == n[0][0] && preds[1][0] == n[1][0];
    assert DependsOn(preds, 0, 1);
    assert DependsOn(preds, 1, 0);
    assert IsCycle(preds, [0, 1, 0]);
  }
}
