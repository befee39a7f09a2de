/** What holds over every run of the scheduler: one place per clump, no lost wake-up, calls that return to
    their caller, first-in-first-out fairness, and freedom from deadlock. */
module SchedulerTheorems {
  import opened Scheduler

  // ---------------------------------------------------------------- one place

  /** In every reachable state each clump is in exactly one of the scheduler's places, and there once;
      its count is 0 unless it waits for triggers. */
  lemma OnePlace(p: Program, s: State, c: nat)
    requires Reachable(p, s) && c < |s.clumps|
    ensures |s.clumps| == |p.fire|
    ensures var here := s.clumps[c].place;
            && (s.clumps[c].shortCount > 0 <==> here == Untriggered)
            && (s.running == Some(c) <==> here == Running)
            && (c in s.runQ <==> here == Queued)
            && (forall t :: 0 <= t < |s.clumps| ==> (c in s.clumps[t].waiters <==> here == Waiting(t)))
            && (forall t :: 0 <= t < |s.clumps| ==> (s.clumps[t].caller == Some(c) <==> here == Calling(t)))
    ensures NoDup(s.runQ) && forall t :: 0 <= t < |s.clumps| ==> NoDup(s.clumps[t].waiters)
  {
    ReachableGood(p, s);
    Look(p, s, c);
    forall t | 0 <= t < |s.clumps|
      ensures c in s.clumps[t].waiters <==> s.clumps[c].place == Waiting(t)
      ensures s.clumps[t].caller == Some(c) <==> s.clumps[c].place == Calling(t)
      ensures NoDup(s.clumps[t].waiters)
    {
      Look(p, s, t);
    }
  }

  // ---------------------------------------------------------------- wake-ups and returns

  /** A clump on a wait list waits for one that has not finished. */
  lemma NoLostWakeUp(p: Program, s: State, c: nat, t: nat)
    requires Reachable(p, s) && c < |s.clumps| && t < |s.clumps| && c in s.clumps[t].waiters
    ensures |p.fire| == |s.clumps| && s.clumps[t].shortCount != p.fire[t]
  {
    OnePlace(p, s, c);
    ReachableGood(p, s);
    Look(p, s, c);
  }

  predicate Runnable(s: State, c: nat) { s.running == Some(c) || c in s.runQ }

  /** When r executes Done, everything that waited for it can run, its caller goes on after the call with
      the results copied out, and r is as it was before it was triggered. */
  lemma DoneReleases(p: Program, s: State, r: nat)
    requires Inv(p, s) && s.running == Some(r) && Current(p, s) == Done
    ensures var s' := Do(p, s, Exec(0));
            && (forall c <- s.clumps[r].waiters :: Runnable(s', c))
            && s'.clumps[r].waiters == [] && s'.clumps[r].shortCount == p.fire[r] && s'.clumps[r].pc == 0
            && s'.clumps[r].caller.None? && !Runnable(s', r)
            && (match s.clumps[r].caller
                case None => s'.copies == s.copies
                case Some(k) =>
                  && k < |s.clumps| && Runnable(s', k) && s'.clumps[k].pc == s.clumps[k].pc + 1
                  && k < |p.code| && s.clumps[k].pc < |p.code[k]| && p.code[k][s.clumps[k].pc] == CallVI(r)
                  && s'.copies == s.copies + [CopyOut(k, r, s.clumps[k].pc)])
  {
    Look(p, s, r);
    FinishKeeps(p, s, r);
    var f, s' := Finish(p, s, r), Do(p, s, Exec(0));
    FinishEffect(p, s, r);
    Look(p, f, r);
    NotRunnable(p, s', r);
    hide Inv, Finish;
    forall c | c in f.runQ ensures Runnable(s', c) {
      DispatchRuns(f, c);
    }
  }

  lemma DispatchRuns(f: State, c: nat)
    requires c in f.runQ && f.runQ[0] < |f.clumps|
    ensures Runnable(Dispatch(f), c)
  {}

  lemma NotRunnable(p: Program, s: State, c: nat)
    requires Inv(p, s) && c < |s.clumps| && s.clumps[c].place == Untriggered
    ensures !Runnable(s, c)
  {}

  /** The state Done leaves before the next clump is taken. */
  lemma FinishEffect(p: Program, s: State, r: nat)
    requires Inv(p, s) && s.running == Some(r)
    ensures var f, k := Finish(p, s, r), s.clumps[r].caller;
            && |f.clumps| == |s.clumps| && f.clumps[r].place == Untriggered
            && f.clumps[r].waiters == [] && f.clumps[r].shortCount == p.fire[r] && f.clumps[r].pc == 0
            && f.clumps[r].caller.None?
            && (k.None? ==> f.runQ == s.runQ + s.clumps[r].waiters && f.copies == s.copies)
            && (k.Some? ==>
                  && k.value < |s.clumps| && k.value != r
                  && f.runQ == s.runQ + [k.value] + s.clumps[r].waiters
                  && f.clumps[k.value].pc == s.clumps[k.value].pc + 1
                  && k.value < |p.code| && s.clumps[k.value].pc < |p.code[k.value]|
                  && p.code[k.value][s.clumps[k.value].pc] == CallVI(r)
                  && f.copies == s.copies + [CopyOut(k.value, r, s.clumps[k.value].pc)])
  {
    Look(p, s, r);
    hide WellFormed, NoDup, Paired, OpenCall, MayBlockOn;
  }

  /** Over the whole run every call of t copies in once and out once, in turn, for the same caller and
      instruction; a call still open belongs to the current caller of t. */
  lemma CallsAndReturnsAlternate(p: Program, s: State, t: nat)
    requires Reachable(p, s) && t < |s.clumps|
    ensures Paired(s.copies, t) && OpenCall(s.copies, t) == PendingCall(s, t)
    ensures s.clumps[t].caller.Some? <==> OpenCall(s.copies, t).Some?
  {
    ReachableGood(p, s);
    Look(p, s, t);
  }

  /** path goes from caller to callee. */
  ghost predicate CallPath(s: State, path: seq<nat>) {
    && path != [] && (forall i :: 0 <= i < |path| ==> path[i] < |s.clumps|)
    && forall i :: 0 < i < |path| ==> s.clumps[path[i]].caller == Some(path[i - 1])
  }

  /** Caller links have no cycle. */
  lemma {:induction false} CallersAcyclic(p: Program, s: State, path: seq<nat>)
    requires Reachable(p, s) && CallPath(s, path) && |path| > 1
    ensures path[0] != path[|path| - 1]
    ensures s.clumps[path[0]].born < s.clumps[path[|path| - 1]].born
  {
    ReachableGood(p, s);
    var last := |path| - 1;
    Look(p, s, path[last]);
    Look(p, s, path[last - 1]);
    if last > 1 {
      CallersAcyclic(p, s, path[..last]);
    }
  }

  // ---------------------------------------------------------------- fairness

  /** Does the action take a clump off the run queue, if there is one? */
  ghost predicate Dequeues(p: Program, s: State, a: Action)
    requires Inv(p, s) && Enabled(p, s, a)
  {
    match a
    case Exec(_) =>
      var instr := Current(p, s);
      || instr.CallVI? || instr.Done? || instr.Sleep?
      || (instr.Wait? && instr.target < |s.clumps| && s.clumps[instr.target].shortCount != p.fire[instr.target])
    case Pick => true
    case _ => false
  }

  /** The clump at position k of a queue has moved up by one, or is running if it was first. */
  ghost predicate MovedUp(q: seq<nat>, s': State, k: nat)
    requires k < |q|
  {
    if k > 0 then k - 1 < |s'.runQ| && s'.runQ[k - 1] == q[k] else s'.running == Some(q[k])
  }

  ghost predicate Stayed(q: seq<nat>, s': State, k: nat)
    requires k < |q|
  {
    k < |s'.runQ| && s'.runQ[k] == q[k]
  }

  lemma DispatchMovesUp(s: State, q: seq<nat>, f: State, k: nat)
    requires k < |q| && q == s.runQ && ReadyToDispatch(s, f)
    ensures MovedUp(q, Dispatch(f), k)
  {}

  /** f is a state from which the next clump is taken, with everything that was queued in s still first. */
  ghost predicate ReadyToDispatch(s: State, f: State) {
    s.runQ <= f.runQ && (f.runQ != [] ==> f.runQ[0] < |f.clumps|)
  }

  lemma DoneDispatches(p: Program, s: State, next: nat) returns (f: State)
    requires Inv(p, s) && s.running.Some? && Current(p, s).Done?
    ensures ReadyToDispatch(s, f) && Do(p, s, Exec(next)) == Dispatch(f)
  {
    var r := s.running.value;
    f := Finish(p, s, r);
    FinishKeeps(p, s, r);
    FinishEffect(p, s, r);
    hide Finish;
  }

  lemma BlockDispatches(p: Program, s: State, next: nat) returns (f: State)
    requires Inv(p, s) && Enabled(p, s, Exec(next)) && Dequeues(p, s, Exec(next)) && !Current(p, s).Done?
    ensures ReadyToDispatch(s, f) && Do(p, s, Exec(next)) == Dispatch(f)
  {
    var r := s.running.value;
    var pc := s.clumps[r].pc;
    Look(p, s, r);
    assert WellFormedInstr(p, r, pc);
    assert s.runQ != [] ==> s.runQ[0] < |s.clumps|;
    hide Located, WellFormed, Finish, CallPaired;
    match Current(p, s) {
      case CallVI(t) =>
        f := if s.clumps[t].shortCount > 0 then Link(TriggerClump(s, t), r, t) else Block(s, r, t, false, pc);
      case Wait(t) => f := Block(s, r, t, true, pc + 1);
      case Sleep => f := Vacate(s, r, Asleep, if next < |p.code[r]| then next else pc);
      case _ =>
    }
  }

  lemma NoDispatch(p: Program, s: State, a: Action)
    requires Inv(p, s) && Enabled(p, s, a) && !Dequeues(p, s, a)
    ensures s.runQ <= Do(p, s, a).runQ
  {
    if a.Exec? {
      Look(p, s, s.running.value);
      assert WellFormedInstr(p, s.running.value, s.clumps[s.running.value].pc);
    }
  }

  /** Whatever is enqueued meanwhile, a queued clump moves up by one with each dequeue, and runs when it is first. */
  lemma MovesUp(p: Program, s: State, a: Action, k: nat)
    requires Inv(p, s) && Enabled(p, s, a) && k < |s.runQ|
    ensures if Dequeues(p, s, a) then MovedUp(s.runQ, Do(p, s, a), k) else Stayed(s.runQ, Do(p, s, a), k)
  {
    assert s.runQ[0] < |s.clumps|;
    if !Dequeues(p, s, a) {
      NoDispatch(p, s, a);
    } else if a.Exec? {
      var f;
      if Current(p, s).Done? {
        f := DoneDispatches(p, s, a.next);
      } else {
        f := BlockDispatches(p, s, a.next);
      }
      hide Do, Dequeues, Inv, Enabled;
      DispatchMovesUp(s, s.runQ, f, k);
    }
  }

  ghost function CountDequeues(p: Program, s: State, actions: seq<Action>, s': State): nat
    requires Inv(p, s) && Reaches(p, s, actions, s')
    decreases |actions|
  {
    if actions == [] then 0
    else (if Dequeues(p, s, actions[0]) then 1 else 0) + CountDequeues(p, Do(p, s, actions[0]), actions[1..], s')
  }

  /** Somewhere along the run c is running. */
  ghost predicate GetsToRun(p: Program, s: State, actions: seq<Action>, s': State, c: nat)
    requires Inv(p, s) && Reaches(p, s, actions, s')
    decreases |actions|
  {
    s.running == Some(c) || (actions != [] && GetsToRun(p, Do(p, s, actions[0]), actions[1..], s', c))
  }

  lemma QueuedNotRunning(p: Program, s: State, k: nat)
    requires Inv(p, s) && k < |s.runQ|
    ensures s.running != Some(s.runQ[k])
  {}

  lemma NoAction(p: Program, s: State, s': State, c: nat)
    requires Inv(p, s) && Reaches(p, s, [], s')
    ensures s' == s && CountDequeues(p, s, [], s') == 0 && GetsToRun(p, s, [], s', c) == (s.running == Some(c))
  {}

  lemma RunsNow(p: Program, s: State, actions: seq<Action>, s': State, c: nat)
    requires Inv(p, s) && Reaches(p, s, actions, s') && s.running == Some(c)
    ensures GetsToRun(p, s, actions, s', c)
  {}

  /** The first action of a run. */
  lemma FirstAction(p: Program, s: State, actions: seq<Action>, s': State, c: nat)
    requires Inv(p, s) && Reaches(p, s, actions, s') && actions != []
    ensures Enabled(p, s, actions[0]) && Reaches(p, Do(p, s, actions[0]), actions[1..], s')
    ensures CountDequeues(p, s, actions, s')
            == (if Dequeues(p, s, actions[0]) then 1 else 0) + CountDequeues(p, Do(p, s, actions[0]), actions[1..], s')
    ensures GetsToRun(p, s, actions, s', c)
            == (s.running == Some(c) || GetsToRun(p, Do(p, s, actions[0]), actions[1..], s', c))
  {}

  /** A clump at position k of the run queue runs after exactly k + 1 dequeues. */
  lemma {:induction false} Fairness(p: Program, s: State, actions: seq<Action>, s': State, k: nat)
    requires Inv(p, s) && Reaches(p, s, actions, s') && k < |s.runQ|
    ensures var n, c := CountDequeues(p, s, actions, s'), s.runQ[k];
            && (n <= k ==> k - n < |s'.runQ| && s'.runQ[k - n] == c && !GetsToRun(p, s, actions, s', c))
            && (n > k ==> GetsToRun(p, s, actions, s', c))
    decreases |actions|
  {
    hide Inv, Do, Enabled, Dequeues, CountDequeues, Reaches, GetsToRun;
    var c := s.runQ[k];
    QueuedNotRunning(p, s, k);
    if actions == [] {
      NoAction(p, s, s', c);
    } else {
      FirstAction(p, s, actions, s', c);
      MovesUp(p, s, actions[0], k);
      var s1 := Do(p, s, actions[0]);
      if !Dequeues(p, s, actions[0]) {
        Fairness(p, s1, actions[1..], s', k);
      } else if k > 0 {
        Fairness(p, s1, actions[1..], s', k - 1);
      } else {
        RunsNow(p, s1, actions[1..], s', c);
      }
    }
  }

  /** The end of a slice changes no clump's chance to run. */
  lemma RotationKeepsRunnable(p: Program, s: State, c: nat)
    requires Inv(p, s) && s.running.Some?
    ensures var s' := Do(p, s, Rotate);
            && (Runnable(s', c) <==> Runnable(s, c))
            && s'.running.None? && (Runnable(Do(p, s', Pick), c) <==> Runnable(s, c))
  {}

  // ---------------------------------------------------------------- deadlock

  /** The clump that c waits for or has called. */
  predicate BlockedOn(s: State, c: nat, t: nat) {
    c < |s.clumps| && t < |s.clumps| && (s.clumps[c].place == Waiting(t) || s.clumps[c].place == Calling(t))
  }

  /** Clumps that can run by themselves once something outside happens: sleepers, and clumps that have got
      some of their triggers. */
  predicate Expectant(p: Program, s: State, d: nat) {
    d < |s.clumps| == |p.fire| && (s.clumps[d].place == Asleep || 0 < s.clumps[d].shortCount < p.fire[d])
  }

  /** Waits and calls go down the ranking: the static graph of waits and calls has no cycle. */
  ghost predicate Acyclic(p: Program, rank: seq<nat>) {
    |rank| == |p.fire| == |p.code| &&
    forall c, t :: 0 <= c < |p.fire| && 0 <= t < |p.fire| && MayBlockOn(p, c, t) ==> rank[t] < rank[c]
  }

  ghost predicate BlockPath(s: State, path: seq<nat>) {
    path != [] && forall i :: 0 < i < |path| ==> BlockedOn(s, path[i - 1], path[i])
  }

  /** When nothing can run, every blocked clump is blocked, through a chain, by a sleeper or by a clump
      that has got only some of its triggers. */
  lemma {:induction false} BlameChain(p: Program, s: State, rank: seq<nat>, c: nat) returns (path: seq<nat>)
    requires Reachable(p, s) && Acyclic(p, rank) && s.running.None? && s.runQ == []
    requires c < |s.clumps| && |s.clumps| == |p.fire| && (s.clumps[c].place.Waiting? || s.clumps[c].place.Calling?)
    ensures BlockPath(s, path) && path[0] == c && Expectant(p, s, path[|path| - 1])
    decreases rank[c]
  {
    ReachableGood(p, s);
    Look(p, s, c);
    var t := s.clumps[c].place.target;
    Look(p, s, t);
    assert MayBlockOn(p, c, t);
    hide Inv, Reachable, MayBlockOn;
    if s.clumps[t].place.Waiting? || s.clumps[t].place.Calling? {
      var rest := BlameChain(p, s, rank, t);
      path := [c] + rest;
      forall i | 0 < i < |path| ensures BlockedOn(s, path[i - 1], path[i]) {
        if i > 1 {
          assert BlockedOn(s, rest[i - 2], rest[i - 1]);
        }
      }
    } else {
      path := [c, t];
    }
  }

  /** Deadlock freedom: with fire counts of 1, no sleepers and an acyclic graph of waits and calls, a state
      where nothing can run has no blocked clump: every clump has finished or was never triggered. */
  lemma NoDeadlock(p: Program, s: State, rank: seq<nat>)
    requires Reachable(p, s) && Acyclic(p, rank) && s.running.None? && s.runQ == []
    requires forall c :: 0 <= c < |p.fire| ==> p.fire[c] == 1
    requires forall c :: 0 <= c < |s.clumps| ==> s.clumps[c].place != Asleep
    ensures forall c :: 0 <= c < |s.clumps| ==> s.clumps[c].place == Untriggered && s.clumps[c].shortCount == 1
  {
    ReachableGood(p, s);
    forall c | 0 <= c < |s.clumps| ensures s.clumps[c].place == Untriggered && s.clumps[c].shortCount == 1 {
      Look(p, s, c);
      if s.clumps[c].place.Waiting? || s.clumps[c].place.Calling? {
        var path := BlameChain(p, s, rank, c);
        assert false;
      }
    }
  }

  /** Without acyclicity the conclusion fails: a clump that waits for itself never runs again. */
  lemma SelfWaitDeadlocks()
    ensures var p := Program([1], [[Wait(0), Done]]);
            exists s :: Reachable(p, s) && s.running.None? && s.runQ == [] && |s.clumps| == 1 && BlockedOn(s, 0, 0)
  {
    var p := Program([1], [[Wait(0), Done]]);
    assert WellFormedInstr(p, 0, 0) && WellFormedInstr(p, 0, 1);
    StartGood(p);
    var s0 := Start(p);
    var s1 := Do(p, s0, Press(0));
    var s2 := Do(p, s1, Pick);
    assert Current(p, s2) == Wait(0);
    var s3 := Do(p, s2, Exec(0));
    var run := [Press(0), Pick, Exec(0)];
    assert run[1..] == [Pick, Exec(0)] && run[1..][1..] == [Exec(0)] && run[1..][1..][1..] == [];
    assert Reaches(p, s3, [], s3);
    assert Reaches(p, s2, run[1..][1..], s3);
    assert Reaches(p, s1, run[1..], s3);
    assert Reaches(p, s0, run, s3);
  }
}
