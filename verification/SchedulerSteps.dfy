/** What single steps of the scheduler do, told from the states before and after, and how many triggers a clump
    needs over whole runs. */
module SchedulerSteps {
  import opened Scheduler
  import opened SchedulerTheorems

  // ---------------------------------------------------------------- triggers

  /** The action triggers c: from outside, by an instruction, or by a call that finds c idle. */
  ghost predicate Triggers(p: Program, s: State, a: Action, c: nat)
    requires Inv(p, s) && Enabled(p, s, a) && c < |s.clumps|
  {
    match a
    case Press(d) => d == c
    case Exec(_) => Current(p, s) == Instr.Trigger(c) || (Current(p, s) == Instr.CallVI(c) && s.clumps[c].shortCount > 0)
    case _ => false
  }

  /** The action is the Done of c. */
  ghost predicate Finishes(p: Program, s: State, a: Action, c: nat)
    requires Inv(p, s) && Enabled(p, s, a)
  {
    a.Exec? && s.running == Some(c) && Current(p, s) == Instr.Done
  }

  /** The triggers c has got since its last Done, when it had got n before the run. */
  ghost function Received(p: Program, s: State, actions: seq<Action>, s': State, c: nat, n: int): int
    requires Inv(p, s) && Reaches(p, s, actions, s') && c < |s.clumps|
    decreases |actions|
  {
    if actions == [] then n
    else
      var a := actions[0];
      SameClumps(p, s, a);
      Received(p, Do(p, s, a), actions[1..], s', c, if Finishes(p, s, a, c) then 0 else if Triggers(p, s, a, c) then n + 1 else n)
  }

  lemma SameClumps(p: Program, s: State, a: Action)
    requires Inv(p, s) && Enabled(p, s, a)
    ensures |Do(p, s, a).clumps| == |s.clumps| == |p.fire|
  {}

  /** The running clump and its instruction. */
  lemma Here(p: Program, s: State, r: nat)
    requires Inv(p, s) && s.running == Some(r)
    ensures |p.fire| == |p.code| == |s.clumps| && r < |s.clumps| && s.clumps[r].pc < |p.code[r]|
    ensures s.clumps[r].place == Running && s.clumps[r].shortCount == 0 && r !in s.runQ
    ensures var instr := Current(p, s);
            && instr == p.code[r][s.clumps[r].pc]
            && (instr.Trigger? || instr.Wait? || instr.CallVI? ==> instr.target < |s.clumps|)
    ensures var k := s.clumps[r].caller;
            k.Some? ==> k.value < |s.clumps| && s.clumps[k.value].place == Calling(r) && s.clumps[k.value].shortCount == 0
  {
    Look(p, s, r);
    assert WellFormedInstr(p, r, s.clumps[r].pc);
  }

  /** Done restores the count of the clump that finishes and leaves the others. */
  lemma FinishCounts(p: Program, s: State, r: nat, c: nat)
    requires Inv(p, s) && s.running == Some(r) && c < |s.clumps|
    ensures |Finish(p, s, r).clumps| == |s.clumps| == |p.fire|
    ensures Finish(p, s, r).clumps[c].shortCount == if c == r then p.fire[c] else s.clumps[c].shortCount
    ensures Finish(p, s, r).clumps[c].pc != s.clumps[c].pc ==> c == r || s.clumps[c].place == Calling(r)
  {
    Here(p, s, r);
  }

  lemma DispatchCounts(s: State, c: nat)
    requires c < |s.clumps| && (s.runQ != [] ==> s.runQ[0] < |s.clumps|)
    ensures |Dispatch(s).clumps| == |s.clumps| && Dispatch(s).clumps[c].shortCount == s.clumps[c].shortCount
    ensures Dispatch(s).clumps[c].pc == s.clumps[c].pc
  {}

  /** What an instruction of r does to the count and the program counter of c. */
  ghost predicate Counts(p: Program, s: State, r: nat, next: nat, c: nat)
    requires Inv(p, s) && s.running == Some(r) && Enabled(p, s, Exec(next)) && c < |s.clumps|
  {
    var s' := Do(p, s, Exec(next));
    && |s'.clumps| == |s.clumps| == |p.fire|
    && s'.clumps[c].shortCount == (if Finishes(p, s, Exec(next), c) then p.fire[c]
                                   else s.clumps[c].shortCount - if Triggers(p, s, Exec(next), c) then 1 else 0)
    && (s'.clumps[c].pc != s.clumps[c].pc ==> c == r || (Current(p, s).Done? && s.clumps[c].place == Calling(r)))
  }

  lemma DoneCounts(p: Program, s: State, r: nat, next: nat, c: nat)
    requires Inv(p, s) && s.running == Some(r) && Enabled(p, s, Exec(next)) && c < |s.clumps| && Current(p, s).Done?
    ensures Counts(p, s, r, next, c)
  {
    Here(p, s, r);
    FinishCounts(p, s, r, c);
    FinishKeeps(p, s, r);
    DispatchCounts(Finish(p, s, r), c);
    hide Finish, Dispatch;
  }

  lemma CallCounts(p: Program, s: State, r: nat, next: nat, c: nat)
    requires Inv(p, s) && s.running == Some(r) && Enabled(p, s, Exec(next)) && c < |s.clumps| && Current(p, s).CallVI?
    ensures Counts(p, s, r, next, c)
  {
    Here(p, s, r);
    if s.clumps[Current(p, s).target].shortCount > 0 {
      CallKeeps(p, s, r, Current(p, s).target);
    }
  }

  lemma WaitCounts(p: Program, s: State, r: nat, next: nat, c: nat)
    requires Inv(p, s) && s.running == Some(r) && Enabled(p, s, Exec(next)) && c < |s.clumps| && Current(p, s).Wait?
    ensures Counts(p, s, r, next, c)
  {
    Here(p, s, r);
  }

  lemma OtherCounts(p: Program, s: State, r: nat, next: nat, c: nat)
    requires Inv(p, s) && s.running == Some(r) && Enabled(p, s, Exec(next)) && c < |s.clumps|
    requires Current(p, s).Trigger? || Current(p, s).Sleep? || Current(p, s).Plain?
    ensures Counts(p, s, r, next, c)
  {
    Here(p, s, r);
  }

  /** One instruction: counts and program counters. */
  lemma ExecCounts(p: Program, s: State, r: nat, c: nat, next: nat)
    requires Inv(p, s) && s.running == Some(r) && Enabled(p, s, Exec(next)) && c < |s.clumps|
    ensures Counts(p, s, r, next, c)
  {
    hide Inv, Enabled, Counts, Current;
    match Current(p, s)
    case Done => DoneCounts(p, s, r, next, c);
    case CallVI(_) => CallCounts(p, s, r, next, c);
    case Wait(_) => WaitCounts(p, s, r, next, c);
    case _ => OtherCounts(p, s, r, next, c);
  }

  /** A trigger takes one off the count; nothing but Done, which restores it, changes it otherwise. */
  lemma CountStep(p: Program, s: State, a: Action, c: nat)
    requires Inv(p, s) && Enabled(p, s, a) && c < |s.clumps|
    ensures |Do(p, s, a).clumps| == |s.clumps| == |p.fire|
    ensures var before, after := s.clumps[c].shortCount, Do(p, s, a).clumps[c].shortCount;
            after == if Finishes(p, s, a, c) then p.fire[c] else if Triggers(p, s, a, c) then before - 1 else before
  {
    if a.Exec? {
      ExecCounts(p, s, s.running.value, c, a.next);
    }
  }

  /** Over every run the triggers a clump has got since its last Done and those it still needs make its fire count. */
  lemma {:induction false} TriggersCounted(p: Program, s: State, actions: seq<Action>, s': State, c: nat)
    requires Inv(p, s) && Reaches(p, s, actions, s') && c < |s.clumps| == |p.fire|
    ensures |s'.clumps| == |s.clumps|
    ensures Received(p, s, actions, s', c, p.fire[c] - s.clumps[c].shortCount) == p.fire[c] - s'.clumps[c].shortCount
    decreases |actions|
  {
    hide Inv, Enabled, Do, Triggers, Finishes;
    if actions != [] {
      CountStep(p, s, actions[0], c);
      TriggersCounted(p, Do(p, s, actions[0]), actions[1..], s', c);
    }
  }

  /** A clump is idle exactly while it has got fewer triggers, since its last Done or since the start, than its
      fire count, and it has never got more. */
  lemma RunsAtLastTrigger(p: Program, actions: seq<Action>, s: State, c: nat)
    requires WellFormed(p) && Inv(p, Start(p)) && Reaches(p, Start(p), actions, s) && c < |p.fire|
    ensures |s.clumps| == |Start(p).clumps| == |p.fire|
    ensures var n := Received(p, Start(p), actions, s, c, 0);
            && 0 <= n <= p.fire[c]
            && (s.clumps[c].place == Untriggered <==> n < p.fire[c])
  {
    TriggersCounted(p, Start(p), actions, s, c);
    assert Reachable(p, s);
    ReachableGood(p, s);
    Look(p, s, c);
  }

  // ---------------------------------------------------------------- single steps

  /** Nothing but the given clumps has changed. */
  ghost predicate Others(s: State, s': State, changed: set<nat>) {
    |s'.clumps| == |s.clumps| && forall c :: 0 <= c < |s.clumps| && c !in changed ==> s'.clumps[c] == s.clumps[c]
  }

  /** The first clump of q has been taken off, and runs. */
  ghost predicate Next(s: State, q: seq<nat>, s': State) {
    && s'.runQ == (if q == [] then [] else q[1..])
    && s'.running == (if q == [] then None else Some(q[0]))
    && (q != [] && q[0] < |s.clumps| == |s'.clumps| ==> s'.clumps[q[0]].place == Running && s'.clumps[q[0]].pc == s.clumps[q[0]].pc)
  }

  ghost function Head(q: seq<nat>): set<nat> { if q == [] then {} else {q[0]} }

  /** A trigger that is not the last one only counts; the last one puts the clump at the end of the run queue. */
  lemma TriggerEffect(p: Program, s: State, t: nat)
    requires Inv(p, s) && t < |s.clumps| && s.clumps[t].shortCount > 0
    ensures var s', n := TriggerClump(s, t), s.clumps[t].shortCount;
            && Others(s, s', {t}) && s'.running == s.running && s'.copies == s.copies
            && s'.clumps[t].shortCount == n - 1 && s'.clumps[t].pc == s.clumps[t].pc
            && s'.clumps[t].waiters == s.clumps[t].waiters && s'.clumps[t].caller == s.clumps[t].caller
            && (n > 1 ==> s'.clumps[t].place == Untriggered && s'.runQ == s.runQ && !Runnable(s', t))
            && (n == 1 ==> s'.clumps[t].place == Queued && s'.runQ == s.runQ + [t])
  {
    Look(p, s, t);
  }

  /** Wait goes on when the target has finished.  Otherwise the running clump stops behind the instruction, at the
      front of those that wait for the target. */
  lemma WaitEffect(p: Program, s: State, r: nat, t: nat, next: nat)
    requires Inv(p, s) && s.running == Some(r) && Current(p, s) == Instr.Wait(t)
    ensures Enabled(p, s, Exec(next)) && r < |s.clumps| == |p.fire| && t < |s.clumps|
    ensures var s' := Do(p, s, Exec(next));
            && |s'.clumps| == |s.clumps| && s'.copies == s.copies && s'.clumps[r].pc == s.clumps[r].pc + 1
            && if s.clumps[t].shortCount == p.fire[t] then Others(s, s', {r}) && s'.running == Some(r) && s'.runQ == s.runQ
               else
                 && Others(s, s', {r, t} + Head(s.runQ)) && Next(s, s.runQ, s')
                 && s'.clumps[r].place == Waiting(t) && s'.clumps[t].waiters == [r] + s.clumps[t].waiters
                 && s'.clumps[t].shortCount == s.clumps[t].shortCount
  {
    Here(p, s, r);
  }

  /** A call of an idle clump copies the parameters in, triggers it and leaves the caller at the call.  A call of a
      clump that is active waits, at the call, behind all others that wait for it. */
  lemma CallEffect(p: Program, s: State, r: nat, t: nat, next: nat)
    requires Inv(p, s) && s.running == Some(r) && Current(p, s) == Instr.CallVI(t)
    ensures Enabled(p, s, Exec(next)) && r < |s.clumps| && t < |s.clumps|
    ensures var s' := Do(p, s, Exec(next));
            && |s'.clumps| == |s.clumps| && s'.clumps[r].pc == s.clumps[r].pc && s'.running != Some(r)
            && if s.clumps[t].shortCount > 0 then
                 && Others(s, s', {r, t} + Head(s.runQ + [t])) && Next(s, s.runQ + [t], s')
                 && s'.clumps[r].place == Calling(t) && s'.clumps[t].caller == Some(r) && s'.clumps[t].shortCount == 0
                 && s'.copies == s.copies + [CopyIn(r, t, s.clumps[r].pc)]
               else
                 && Others(s, s', {r, t} + Head(s.runQ)) && Next(s, s.runQ, s') && s'.copies == s.copies
                 && s'.clumps[r].place == Waiting(t) && s'.clumps[t].waiters == s.clumps[t].waiters + [r]
  {
    Here(p, s, r);
    if s.clumps[t].shortCount > 0 {
      CallKeeps(p, s, r, t);
    }
  }

  /** A clump that goes to sleep is in no list, and goes on where the instruction says. */
  lemma SleepEffect(p: Program, s: State, r: nat, next: nat)
    requires Inv(p, s) && s.running == Some(r) && Current(p, s) == Instr.Sleep
    ensures Enabled(p, s, Exec(next)) && r < |s.clumps| && r < |p.code|
    ensures var s' := Do(p, s, Exec(next));
            && Others(s, s', {r} + Head(s.runQ)) && Next(s, s.runQ, s') && s'.copies == s.copies
            && s'.clumps[r].place == Asleep && s'.clumps[r].pc == if next < |p.code[r]| then next else s.clumps[r].pc
  {
    Look(p, s, r);
  }

  /** A sleeper that is woken goes to the end of the run queue. */
  lemma WakeEffect(p: Program, s: State, c: nat)
    requires Inv(p, s) && c < |s.clumps| && s.clumps[c].place == Asleep
    ensures var s' := Do(p, s, Wake(c));
            && Others(s, s', {c}) && s'.runQ == s.runQ + [c] && s'.running == s.running && s'.copies == s.copies
            && s'.clumps[c] == s.clumps[c].(place := Queued)
  {}

  /** No action moves a clump on in its code but the clump's own instruction, and the Done of the clump it called. */
  lemma GoesOnWhereItStopped(p: Program, s: State, a: Action, c: nat)
    requires Inv(p, s) && Enabled(p, s, a) && c < |s.clumps|
    ensures |Do(p, s, a).clumps| == |s.clumps|
    ensures Do(p, s, a).clumps[c].pc != s.clumps[c].pc ==>
              a.Exec? && (s.running == Some(c) || (Current(p, s).Done? && s.clumps[c].place == Calling(s.running.value)))
  {
    if a.Exec? {
      ExecCounts(p, s, s.running.value, c, a.next);
    }
  }

  /** The end of a slice moves no clump on, and the running clump goes behind all that are queued. */
  lemma RotationEffect(p: Program, s: State, r: nat)
    requires Inv(p, s) && s.running == Some(r)
    ensures r < |s.clumps|
    ensures var s' := Do(p, s, Rotate);
            && Others(s, s', {r}) && s'.runQ == s.runQ + [r] && s'.running.None? && s'.copies == s.copies
            && s'.clumps[r] == s.clumps[r].(place := Queued)
            && Next(s', s'.runQ, Do(p, s', Pick)) && Others(s', Do(p, s', Pick), Head(s'.runQ))
            && forall c :: 0 <= c < |s.clumps| ==> Do(p, s', Pick).clumps[c].pc == s'.clumps[c].pc == s.clumps[c].pc
  {
    Look(p, s, r);
  }
}
