/** The state assignor (`_assign_coherent_states`): marks tasks completed,
    then in progress, choosing each time at random among the tasks whose
    predecessors allow it, so that the resulting states never contradict
    the precedence network. */
module States {
  import opened ScheduleTypes
  import opened Precedence

  /** What completing a task asks of one predecessor: FS and SF need it
      completed, SS and FF need it started. */
  predicate CompletionAllowed(rel: RelType, s: State)
  {
    if rel == FS || rel == SF then s == Completed else s != NotStarted
  }

  /** What starting a task asks of one predecessor: FS, SS and FF need it
      started; SF imposes nothing. */
  predicate StartAllowed(rel: RelType, s: State)
  {
    rel == SF || s != NotStarted
  }

  /** `can_complete(i)` against the current states. */
  predicate CanComplete(preds: seq<seq<Edge>>, states: seq<State>, i: nat)
    requires EdgesInRange(preds) && |states| == |preds| && i < |preds|
  {
    forall k :: 0 <= k < |preds[i]| ==> CompletionAllowed(preds[i][k].rel, states[preds[i][k].pred - 1])
  }

  /** `can_start(i)` against the current states. */
  predicate CanStart(preds: seq<seq<Edge>>, states: seq<State>, i: nat)
    requires EdgesInRange(preds) && |states| == |preds| && i < |preds|
  {
    forall k :: 0 <= k < |preds[i]| ==> StartAllowed(preds[i][k].rel, states[preds[i][k].pred - 1])
  }

  /** The network lets task `i` advance to `v`. */
  predicate Permits(preds: seq<seq<Edge>>, states: seq<State>, i: nat, v: State)
    requires EdgesInRange(preds) && |states| == |preds| && i < |preds|
  {
    if v == Completed then CanComplete(preds, states, i) else CanStart(preds, states, i)
  }

  /** No state contradicts the network: a completed task's predecessors
      allow completion and an in-progress task's predecessors allow its
      start. */
  ghost predicate Consistent(preds: seq<seq<Edge>>, states: seq<State>)
    requires EdgesInRange(preds) && |states| == |preds|
  {
    forall i :: 0 <= i < |preds| ==>
      (states[i] == Completed ==> CanComplete(preds, states, i))
      && (states[i] == InProgress ==> CanStart(preds, states, i))
  }

  function Count(s: seq<State>, x: State): (c: nat)
    ensures c <= |s|
    ensures c == 0 <==> x !in s
  {
    if s == [] then 0 else Count(s[..|s| - 1], x) + (if s[|s| - 1] == x then 1 else 0)
  }

  /** The three counts add up to the number of tasks. */
  lemma {:induction false} CountTotal(s: seq<State>)
    ensures Count(s, NotStarted) + Count(s, InProgress) + Count(s, Completed) == |s|
  {
    if s != [] {
      CountTotal(s[..|s| - 1]);
    }
  }

  /** Overwriting one entry moves one unit between two counts. */
  lemma {:induction false} CountUpdate(s: seq<State>, i: nat, v: State, x: State)
    requires i < |s|
    ensures Count(s[i := v], x) == Count(s, x) - (if s[i] == x then 1 else 0) + (if v == x then 1 else 0)
  {
    var t := s[i := v];
    var n := |s| - 1;
    assert t[..n] == if i < n then s[..n][i := v] else s[..n];
    if i < n {
      CountUpdate(s[..n], i, v, x);
    }
  }

  function Rank(s: State): nat
  {
    match s
    case NotStarted => 0
    case InProgress => 1
    case Completed => 2
  }

  /** Every task is at least as advanced in `b` as in `a`. */
  ghost predicate Advanced(a: seq<State>, b: seq<State>)
  {
    |a| == |b| && forall i :: 0 <= i < |a| ==> Rank(a[i]) <= Rank(b[i])
  }

  /** Advancing other tasks never withdraws a permission. */
  lemma PermissionsMonotone(preds: seq<seq<Edge>>, a: seq<State>, b: seq<State>, i: nat)
    requires EdgesInRange(preds) && |a| == |preds| && Advanced(a, b) && i < |preds|
    ensures CanComplete(preds, a, i) ==> CanComplete(preds, b, i)
    ensures CanStart(preds, a, i) ==> CanStart(preds, b, i)
  {
    forall k | 0 <= k < |preds[i]| ensures Rank(a[preds[i][k].pred - 1]) <= Rank(b[preds[i][k].pred - 1]) {
    }
  }

  /** Marking a permitted task keeps the states consistent. */
  lemma AdvanceKeepsConsistent(preds: seq<seq<Edge>>, states: seq<State>, c: nat, v: State)
    requires EdgesInRange(preds) && |states| == |preds| && c < |preds|
    requires Consistent(preds, states)
    requires states[c] == NotStarted
    requires v == Completed ==> CanComplete(preds, states, c)
    requires v == InProgress ==> CanStart(preds, states, c)
    ensures Consistent(preds, states[c := v])
  {
    var t := states[c := v];
    assert Advanced(states, t);
    forall i | 0 <= i < |preds|
      ensures (t[i] == Completed ==> CanComplete(preds, t, i)) && (t[i] == InProgress ==> CanStart(preds, t, i))
    {
      PermissionsMonotone(preds, states, t, i);
    }
  }

  // ---------------------------------------------------------------------
  // The searches of one round

  /** `can_complete`: walks the edges and stops at the first one that
      forbids completion. */
  method CanCompleteNow(preds: seq<seq<Edge>>, states: seq<State>, i: nat) returns (ok: bool)
    requires EdgesInRange(preds) && |states| == |preds| && i < |preds|
    ensures ok == CanComplete(preds, states, i)
  {
    for k := 0 to |preds[i]|
      invariant forall j :: 0 <= j < k ==> CompletionAllowed(preds[i][j].rel, states[preds[i][j].pred - 1])
    {
      var e := preds[i][k];
      var s := states[e.pred - 1];
      if e.rel == FS || e.rel == SF {
        if s != Completed {
          return false;
        }
      } else if s == NotStarted {
        return false;
      }
    }
    return true;
  }

  /** `can_start`: walks the edges and stops at the first one that forbids
      the start. */
  method CanStartNow(preds: seq<seq<Edge>>, states: seq<State>, i: nat) returns (ok: bool)
    requires EdgesInRange(preds) && |states| == |preds| && i < |preds|
    ensures ok == CanStart(preds, states, i)
  {
    for k := 0 to |preds[i]|
      invariant forall j :: 0 <= j < k ==> StartAllowed(preds[i][j].rel, states[preds[i][j].pred - 1])
    {
      var e := preds[i][k];
      var s := states[e.pred - 1];
      if e.rel != SF && s == NotStarted {
        return false;
      }
    }
    return true;
  }

  /** The candidates of one round: the not-started tasks the network lets
      advance to `v` (completed or in progress), in catalog order. */
  method Candidates(preds: seq<seq<Edge>>, states: seq<State>, v: State) returns (cands: seq<nat>)
    requires EdgesInRange(preds) && |states| == |preds|
    requires v != NotStarted
    ensures forall j :: 0 <= j < |cands| ==>
      cands[j] < |preds| && states[cands[j]] == NotStarted
      && Permits(preds, states, cands[j], v)
    ensures forall i :: 0 <= i < |preds| && states[i] == NotStarted && Permits(preds, states, i, v) ==> i in cands
    ensures forall a, b :: 0 <= a < b < |cands| ==> cands[a] < cands[b]
  {
    cands := [];
    for i := 0 to |preds|
      invariant forall j :: 0 <= j < |cands| ==>
        cands[j] < i && states[cands[j]] == NotStarted
        && Permits(preds, states, cands[j], v)
      invariant forall t :: 0 <= t < i && states[t] == NotStarted && Permits(preds, states, t, v) ==> t in cands
      invariant forall a, b :: 0 <= a < b < |cands| ==> cands[a] < cands[b]
    {
      if states[i] == NotStarted {
        var ok;
        if v == Completed {
          ok := CanCompleteNow(preds, states, i);
        } else {
          ok := CanStartNow(preds, states, i);
        }
        if ok {
          cands := cands + [i];
        }
      }
    }
  }

  /** The positions currently in state `x`, in order. */
  method IndicesOf(states: seq<State>, x: State) returns (r: seq<nat>)
    ensures forall j :: 0 <= j < |r| ==> r[j] < |states| && states[r[j]] == x
    ensures forall i :: 0 <= i < |states| && states[i] == x ==> i in r
    ensures |r| == 0 <==> x !in states
  {
    r := [];
    for i := 0 to |states|
      invariant forall j :: 0 <= j < |r| ==> r[j] < i && states[r[j]] == x
      invariant forall t :: 0 <= t < i && states[t] == x ==> t in r
      invariant |r| == 0 <==> x !in states[..i]
    {
      if states[i] == x {
        r := r + [i];
      }
    }
  }

  // ---------------------------------------------------------------------
  // Progress on networks whose edges point to smaller ids

  lemma FirstOccurrence(s: seq<State>, x: State) returns (i: nat)
    requires x in s
    ensures i < |s| && s[i] == x
    ensures forall j :: 0 <= j < i ==> s[j] != x
  {
    if s[0] == x {
      i := 0;
    } else {
      var r := FirstOccurrence(s[1..], x);
      i := r + 1;
      forall j | 0 <= j < i ensures s[j] != x {
        if j > 0 {
          assert s[j] == s[1..][j - 1];
        }
      }
    }
  }

  /** With nothing in progress, the first not-started task of a backward
      network can be completed: all its predecessors come before it. */
  lemma FirstNotStartedCanComplete(preds: seq<seq<Edge>>, states: seq<State>) returns (i: nat)
    requires Backward(preds) && |states| == |preds|
    requires InProgress !in states
    requires NotStarted in states
    ensures i < |preds| && states[i] == NotStarted
    ensures EdgesInRange(preds) && CanComplete(preds, states, i)
  {
    BackwardInRange(preds);
    i := FirstOccurrence(states, NotStarted);
    forall k | 0 <= k < |preds[i]| ensures CompletionAllowed(preds[i][k].rel, states[preds[i][k].pred - 1]) {
      var p := preds[i][k].pred - 1;
      assert p < i;
      assert states[p] != InProgress;
    }
  }

  /** The first not-started task of a backward network can be started. */
  lemma FirstNotStartedCanStart(preds: seq<seq<Edge>>, states: seq<State>) returns (i: nat)
    requires Backward(preds) && |states| == |preds|
    requires NotStarted in states
    ensures i < |preds| && states[i] == NotStarted
    ensures EdgesInRange(preds) && CanStart(preds, states, i)
  {
    BackwardInRange(preds);
    i := FirstOccurrence(states, NotStarted);
    forall k | 0 <= k < |preds[i]| ensures StartAllowed(preds[i][k].rel, states[preds[i][k].pred - 1]) {
      assert preds[i][k].pred - 1 < i;
    }
  }

  // ---------------------------------------------------------------------
  // The assignor

  /** The first loop of `_assign_coherent_states`: from all tasks not
      started, complete one permitted task per round, drawn with
      `picks[r] % |candidates|`, until the target is met, no task is
      permitted, or `2n` rounds have passed. */
  method CompleteRounds(preds: seq<seq<Edge>>, target: nat, picks: seq<nat>) returns (states: seq<State>, rounds: nat)
    requires EdgesInRange(preds)
    requires |picks| >= 2 * |preds|
    ensures |states| == |preds|
    ensures rounds <= 2 * |preds| && Count(states, Completed) <= rounds <= Count(states, Completed) + 1
    ensures InProgress !in states
    ensures Consistent(preds, states)
    ensures Count(states, Completed) <= target
    ensures Backward(preds) ==> Count(states, Completed) == Min(target, |preds|)
  {
    var n := |preds|;
    states := seq(n, _ => NotStarted);
    var maxAttempts := n * 2;
    var completedCount := 0;
    var attempts := 0;
    while completedCount < target && attempts < maxAttempts
      invariant |states| == n
      invariant forall i :: 0 <= i < n ==> states[i] != InProgress
      invariant Consistent(preds, states)
      invariant completedCount == attempts == Count(states, Completed) <= target
      decreases maxAttempts - attempts
    {
      attempts := attempts + 1;
      var cands := Candidates(preds, states, Completed);
      if |cands| > 0 {
        var c := cands[picks[attempts - 1] % |cands|];
        AdvanceKeepsConsistent(preds, states, c, Completed);
        CountUpdate(states, c, Completed, Completed);
        CountUpdate(states, c, Completed, InProgress);
        states := states[c := Completed];
        completedCount := completedCount + 1;
      } else {
        // Falling back on an in-progress task: there is none yet.
        var inProgress := IndicesOf(states, InProgress);
        if |inProgress| > 0 {
          assert false;
        }
        if Backward(preds) && NotStarted in states {
          var i := FirstNotStartedCanComplete(preds, states);
          assert Permits(preds, states, i, Completed);
          assert false;
        }
        break;
      }
    }
    CountTotal(states);
    rounds := attempts;
  }

  /** The second loop: start one permitted not-started task per round until
      the target is met, no task is permitted, or `2n` rounds have passed. */
  method StartRounds(preds: seq<seq<Edge>>, states0: seq<State>, target: nat, picks: seq<nat>)
    returns (states: seq<State>, rounds: nat)
    requires EdgesInRange(preds) && |states0| == |preds|
    requires InProgress !in states0
    requires Consistent(preds, states0)
    requires |picks| >= 2 * |preds|
    ensures |states| == |preds|
    ensures Consistent(preds, states)
    ensures forall i :: 0 <= i < |preds| ==> (states[i] == Completed <==> states0[i] == Completed)
    ensures Count(states, InProgress) <= target
    ensures rounds <= 2 * |preds| && Count(states, InProgress) <= rounds <= Count(states, InProgress) + 1
    ensures Backward(preds) ==> Count(states, InProgress) == Min(target, Count(states0, NotStarted))
  {
    var n := |preds|;
    states := states0;
    var maxAttempts := n * 2;
    var inProgressCount := 0;
    var attempts := 0;
    CountTotal(states0);
    while inProgressCount < target && attempts < maxAttempts
      invariant |states| == n
      invariant Consistent(preds, states)
      invariant forall i :: 0 <= i < n ==> (states[i] == Completed <==> states0[i] == Completed)
      invariant inProgressCount == attempts == Count(states, InProgress) <= target
      invariant Count(states, NotStarted) + inProgressCount == Count(states0, NotStarted)
      decreases maxAttempts - attempts
    {
      attempts := attempts + 1;
      var cands := Candidates(preds, states, InProgress);
      if |cands| > 0 {
        var c := cands[picks[attempts - 1] % |cands|];
        AdvanceKeepsConsistent(preds, states, c, InProgress);
        CountUpdate(states, c, InProgress, NotStarted);
        CountUpdate(states, c, InProgress, InProgress);
        states := states[c := InProgress];
        inProgressCount := inProgressCount + 1;
      } else {
        if Backward(preds) && NotStarted in states {
          var i := FirstNotStartedCanStart(preds, states);
          assert Permits(preds, states, i, InProgress);
          assert false;
        }
        break;
      }
    }
    rounds := attempts;
  }

  /** `_assign_coherent_states`: the states never contradict the network
      and never exceed the targets; on a backward network both targets are
      met as far as there are tasks left. */
  method AssignCoherentStates(preds: seq<seq<Edge>>, targetCompleted: nat, targetInProgress: nat,
                              completePicks: seq<nat>, startPicks: seq<nat>)
    returns (states: seq<State>)
    requires EdgesInRange(preds)
    requires |completePicks| >= 2 * |preds| && |startPicks| >= 2 * |preds|
    ensures |states| == |preds|
    ensures Consistent(preds, states)
    ensures Count(states, Completed) <= targetCompleted
    ensures Count(states, InProgress) <= targetInProgress
    ensures Backward(preds) ==>
      && Count(states, Completed) == Min(targetCompleted, |preds|)
      && Count(states, InProgress) == Min(targetInProgress, |preds| - Min(targetCompleted, |preds|))
  {
    var completed, completionRounds := CompleteRounds(preds, targetCompleted, completePicks);
    var startRounds;
    states, startRounds := StartRounds(preds, completed, targetInProgress, startPicks);
    CountTotal(completed);
    SameCompleted(completed, states);
  }

  lemma {:induction false} SameCompleted(a: seq<State>, b: seq<State>)
    requires |a| == |b|
    requires forall i :: 0 <= i < |a| ==> (a[i] == Completed <==> b[i] == Completed)
    ensures Count(a, Completed) == Count(b, Completed)
  {
    if a != [] {
      SameCompleted(a[..|a| - 1], b[..|b| - 1]);
    }
  }
}
