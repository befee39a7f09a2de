/** The cooperative clump scheduler of source/core/ExecutionContext.cpp as a state machine over abstract
    lists: what every step keeps, and what holds over whole runs.  Clumps are numbered.  ExecutionContext.dfy
    shows that the intrusive linked lists of the source refine it. */
module Scheduler {

  datatype Option<T> = None | Some(value: T)

  /** The instructions that matter to the scheduler.  Plain stands for all others, branches included; Sleep
      for one that puts its clump to sleep on an observed object. */
  datatype Instr = Trigger(target: nat) | Wait(target: nat) | CallVI(target: nat) | Done | Sleep | Plain

  datatype Program = Program(fire: seq<nat>, code: seq<seq<Instr>>)

  /** Where a clump is. */
  datatype Place = Untriggered | Running | Queued | Waiting(target: nat) | Calling(target: nat) | Asleep

  /** shortCount, caller, waiters (the list headed by _waitingClumps) and pc (_savePc, or the current
      instruction of the running clump) are the source's fields.  place and born are bookkeeping: where the
      clump is, and when it was last activated. */
  datatype Clump = Clump(shortCount: nat, caller: Option<nat>, waiters: seq<nat>, pc: nat, place: Place, born: nat)

  /** Parameters copied in or out for a call made by the instruction at pc of caller. */
  datatype Copy = CopyIn(caller: nat, callee: nat, pc: nat) | CopyOut(caller: nat, callee: nat, pc: nat)

  /** clock and copies are bookkeeping: the number of activations, and the parameters copied so far. */
  datatype State = State(clumps: seq<Clump>, runQ: seq<nat>, running: Option<nat>, clock: nat, copies: seq<Copy>)

  // ---------------------------------------------------------------- programs

  ghost predicate WellFormedInstr(p: Program, c: nat, i: nat)
    requires |p.fire| == |p.code| && c < |p.code| && i < |p.code[c]|
  {
    var instr := p.code[c][i];
    && (!instr.Done? ==> i + 1 < |p.code[c]|)
    && (instr.Trigger? || instr.Wait? || instr.CallVI? ==> instr.target < |p.fire|)
    && (instr.CallVI? ==> instr.target < |p.fire| && p.fire[instr.target] == 1)
  }

  /** References stay inside the program, code cannot run off its end, and the target of a call is a
      clump that one trigger activates. */
  ghost predicate WellFormed(p: Program) {
    && |p.fire| == |p.code|
    && (forall c :: 0 <= c < |p.fire| ==> p.fire[c] >= 1 && p.code[c] != [])
    && (forall c, i :: 0 <= c < |p.code| && 0 <= i < |p.code[c]| ==> WellFormedInstr(p, c, i))
  }

  // ---------------------------------------------------------------- the invariant

  ghost predicate NoDup(q: seq<nat>) {
    forall i, j :: 0 <= i < j < |q| ==> q[i] != q[j]
  }

  /** q lists clumps that are all at the given place, each once. */
  ghost predicate ListOf(s: State, q: seq<nat>, place: Place) {
    NoDup(q) && forall i :: 0 <= i < |q| ==> q[i] < |s.clumps| && s.clumps[q[i]].place == place
  }

  /** c has an instruction that can make it wait for t. */
  ghost predicate MayBlockOn(p: Program, c: nat, t: nat) {
    c < |p.code| && exists i :: 0 <= i < |p.code[c]| && (p.code[c][i] == Wait(t) || p.code[c][i] == CallVI(t))
  }

  /** c is in the place it says it is, and what it is blocked by is still to come:
      - a clump on a wait list waits for one that has not finished, so no wake-up is lost;
      - a caller waits at its call for an active callee, activated after the caller itself. */
  ghost predicate ThereAndBlocked(p: Program, s: State, c: nat)
    requires |p.fire| == |p.code| == |s.clumps| && c < |s.clumps|
  {
    match s.clumps[c].place
    case Untriggered => true
    case Running => s.running == Some(c)
    case Queued => c in s.runQ
    case Waiting(t) =>
      t < |s.clumps| && c in s.clumps[t].waiters && s.clumps[t].shortCount != p.fire[t] && MayBlockOn(p, c, t)
    case Calling(t) =>
      && t < |s.clumps| && s.clumps[t].caller == Some(c)
      && s.clumps[t].shortCount == 0 && s.clumps[c].born < s.clumps[t].born
      && s.clumps[c].pc < |p.code[c]| && p.code[c][s.clumps[c].pc] == CallVI(t)
    case Asleep => true
  }

  /** The lists and links that start at t, and its counts. */
  ghost predicate Owns(p: Program, s: State, t: nat)
    requires |p.fire| == |p.code| == |s.clumps| && t < |s.clumps|
  {
    var clump := s.clumps[t];
    && ListOf(s, clump.waiters, Waiting(t))
    && (clump.caller.Some? ==> clump.caller.value < |s.clumps| && s.clumps[clump.caller.value].place == Calling(t))
    && clump.shortCount <= p.fire[t] && (clump.shortCount > 0 <==> clump.place == Untriggered)
    && clump.pc < |p.code[t]| && clump.born < s.clock
  }

  /** The call of t that has copied its parameters in and not yet out. */
  ghost function OpenCall(copies: seq<Copy>, t: nat): Option<(nat, nat)> {
    if copies == [] then None
    else
      var last := copies[|copies| - 1];
      if last.callee != t then OpenCall(copies[..|copies| - 1], t)
      else if last.CopyIn? then Some((last.caller, last.pc)) else None
  }

  /** Calls of t copy in and out in turn, for the same caller and the same instruction. */
  ghost predicate Paired(copies: seq<Copy>, t: nat) {
    copies == [] ||
    (var last, init := copies[|copies| - 1], copies[..|copies| - 1];
     && Paired(init, t)
     && (last.callee == t ==> OpenCall(init, t) == if last.CopyIn? then None else Some((last.caller, last.pc))))
  }

  /** The call of t still to be answered: its caller and the call instruction. */
  ghost function PendingCall(s: State, t: nat): Option<(nat, nat)>
    requires t < |s.clumps|
  {
    var k := s.clumps[t].caller;
    if k.Some? && k.value < |s.clumps| then Some((k.value, s.clumps[k.value].pc)) else None
  }

  ghost predicate CallPaired(s: State, t: nat)
    requires t < |s.clumps|
  {
    Paired(s.copies, t) && OpenCall(s.copies, t) == PendingCall(s, t)
  }

  /** Each clump is in exactly one place. */
  ghost predicate Located(p: Program, s: State) {
    && |p.fire| == |p.code| == |s.clumps|
    && ListOf(s, s.runQ, Queued)
    && (s.running.Some? ==> s.running.value < |s.clumps| && s.clumps[s.running.value].place == Running)
    && (forall c :: 0 <= c < |s.clumps| ==> ThereAndBlocked(p, s, c))
    && (forall t :: 0 <= t < |s.clumps| ==> Owns(p, s, t))
  }

  ghost predicate Inv(p: Program, s: State) {
    && WellFormed(p) && Located(p, s)
    && (forall t :: 0 <= t < |s.clumps| ==> CallPaired(s, t))
  }

  // ---------------------------------------------------------------- the steps

  ghost function Put(s: State, c: nat, clump: Clump): State
    requires c < |s.clumps|
  {
    s.(clumps := s.clumps[c := clump])
  }

  ghost function Move(s: State, c: nat, place: Place): State
    requires c < |s.clumps|
  {
    Put(s, c, s.clumps[c].(place := place))
  }

  /** A clump joins the end of the run queue. */
  ghost function Enqueue(s: State, c: nat): State
    requires c < |s.clumps|
  {
    Move(s, c, Queued).(runQ := s.runQ + [c])
  }

  /** _runningQueueElt = _runQueue.Dequeue(). */
  ghost function Dispatch(s: State): State
    requires s.runQ != [] ==> s.runQ[0] < |s.clumps|
  {
    if s.runQ == [] then s.(running := None)
    else Move(s, s.runQ[0], Running).(running := Some(s.runQ[0]), runQ := s.runQ[1..])
  }

  /** The running clump r stops at pc and is at place from now on. */
  ghost function Vacate(s: State, r: nat, place: Place, pc: nat): State
    requires r < |s.clumps|
  {
    Put(s, r, s.clumps[r].(place := place, pc := pc)).(running := None)
  }

  /** VIClump::Trigger. */
  ghost function TriggerClump(s: State, t: nat): State
    requires t < |s.clumps| && s.clumps[t].shortCount > 0
  {
    var n := s.clumps[t].shortCount - 1;
    if n > 0 then Put(s, t, s.clumps[t].(shortCount := n)) else Activate(s, t)
  }

  ghost function Activate(s: State, t: nat): State
    requires t < |s.clumps|
  {
    Put(s, t, s.clumps[t].(shortCount := 0, place := Queued, born := s.clock)).(runQ := s.runQ + [t], clock := s.clock + 1)
  }

  ghost function Advance(s: State, r: nat, pc: nat): State
    requires r < |s.clumps|
  {
    Put(s, r, s.clumps[r].(pc := pc))
  }

  /** The running clump r joins the wait list of t: at its front for Wait, at its end for CallVI. */
  ghost function Block(s: State, r: nat, t: nat, front: bool, pc: nat): State
    requires r < |s.clumps| && t < |s.clumps|
  {
    var q := s.clumps[t].waiters;
    var s1 := Vacate(s, r, Waiting(t), pc);
    Put(s1, t, s1.clumps[t].(waiters := if front then [r] + q else q + [r]))
  }

  /** The running clump r becomes the caller of t and is suspended at its call. */
  ghost function Link(s: State, r: nat, t: nat): State
    requires r < |s.clumps| && t < |s.clumps|
  {
    var s1 := Put(s, t, s.clumps[t].(caller := Some(r)));
    Vacate(s1, r, Calling(t), s1.clumps[r].pc).(copies := s.copies + [CopyIn(r, t, s1.clumps[r].pc)])
  }

  /** Done resumes the caller of r just after the call. */
  ghost function Return(s: State, r: nat): State
    requires r < |s.clumps|
  {
    if s.clumps[r].caller.None? || s.clumps[r].caller.value >= |s.clumps| then s
    else
      var k := s.clumps[r].caller.value;
      var pc := s.clumps[k].pc;
      var s1 := Put(s, r, s.clumps[r].(caller := None));
      Put(s1, k, s1.clumps[k].(pc := pc + 1, place := Queued)).(runQ := s.runQ + [k], copies := s.copies + [CopyOut(k, r, pc)])
  }

  /** Done drains the wait list of r. */
  ghost function Drain(s: State, r: nat): State
    requires r < |s.clumps|
  {
    var woken := seq(|s.clumps|, c requires 0 <= c < |s.clumps| =>
                     if s.clumps[c].place == Waiting(r) then s.clumps[c].(place := Queued) else s.clumps[c]);
    s.(clumps := woken[r := woken[r].(waiters := [])], runQ := s.runQ + s.clumps[r].waiters)
  }

  /** Done resets r to its start. */
  ghost function Reset(s: State, r: nat, fire: nat): State
    requires r < |s.clumps|
  {
    var s1 := Vacate(s, r, Untriggered, 0);
    Put(s1, r, s1.clumps[r].(shortCount := fire))
  }

  /** The running clump goes to the end of the run queue. */
  ghost function Requeue(s: State, r: nat): State
    requires r < |s.clumps|
  {
    Enqueue(s, r).(running := None)
  }

  // ---------------------------------------------------------------- every step keeps the invariant

  /** The parts of Inv about one clump. */
  ghost predicate Good(p: Program, s: State, c: nat)
    requires |p.fire| == |p.code| == |s.clumps| && c < |s.clumps|
  {
    ThereAndBlocked(p, s, c) && Owns(p, s, c) && CallPaired(s, c)
  }

  lemma GoodAll(p: Program, s: State)
    requires |p.fire| == |p.code| == |s.clumps|
    requires WellFormed(p) && ListOf(s, s.runQ, Queued)
    requires s.running.Some? ==> s.running.value < |s.clumps| && s.clumps[s.running.value].place == Running
    requires forall c :: 0 <= c < |s.clumps| ==> Good(p, s, c)
    ensures Inv(p, s)
  {
    forall c | 0 <= c < |s.clumps| ensures ThereAndBlocked(p, s, c) && Owns(p, s, c) && CallPaired(s, c) {
      assert Good(p, s, c);
    }
  }

  /** Facts about c and the clumps it is tied to. */
  lemma Look(p: Program, s: State, c: nat)
    requires Inv(p, s) && c < |s.clumps|
    ensures Good(p, s, c)
    ensures s.clumps[c].caller.Some? ==> s.clumps[c].caller.value < |s.clumps| && Good(p, s, s.clumps[c].caller.value)
    ensures s.clumps[c].place.Waiting? || s.clumps[c].place.Calling? ==>
              s.clumps[c].place.target < |s.clumps| && Good(p, s, s.clumps[c].place.target)
  {}

  lemma DispatchKeeps(p: Program, s: State)
    requires Inv(p, s) && s.running.None?
    ensures Inv(p, Dispatch(s))
  {
    hide WellFormed, MayBlockOn, Paired, OpenCall;
    var s' := Dispatch(s);
    forall c | 0 <= c < |s.clumps| ensures Good(p, s', c) {
      Look(p, s, c);
    }
    GoodAll(p, s');
  }

  lemma ActivateKeeps(p: Program, s: State, t: nat)
    requires Inv(p, s) && t < |s.clumps| && s.clumps[t].place == Untriggered
    ensures Inv(p, Activate(s, t))
  {
    hide WellFormed, MayBlockOn, Paired, OpenCall, NoDup;
    var s' := Activate(s, t);
    Look(p, s, t);
    Join(s.runQ, t, false);
    forall c | 0 <= c < |s.clumps| ensures Good(p, s', c) {
      Look(p, s, c);
    }
    GoodAll(p, s');
  }

  lemma TriggerKeeps(p: Program, s: State, t: nat)
    requires Inv(p, s) && t < |s.clumps| && s.clumps[t].shortCount > 0
    ensures Inv(p, TriggerClump(s, t))
  {
    hide WellFormed, MayBlockOn, Paired, OpenCall, NoDup;
    Look(p, s, t);
    var s' := TriggerClump(s, t);
    if s.clumps[t].shortCount == 1 {
      ActivateKeeps(p, s, t);
    } else {
      forall c | 0 <= c < |s.clumps| ensures Good(p, s', c) {
        Look(p, s, c);
      }
      GoodAll(p, s');
    }
  }

  lemma AdvanceKeeps(p: Program, s: State, r: nat, pc: nat)
    requires Inv(p, s) && s.running == Some(r) && pc < |p.code[r]|
    ensures Inv(p, Advance(s, r, pc))
  {
    hide WellFormed, MayBlockOn, Paired, OpenCall, NoDup;
    var s' := Advance(s, r, pc);
    forall c | 0 <= c < |s.clumps| ensures Good(p, s', c) {
      Look(p, s, c);
    }
    GoodAll(p, s');
  }

  /** A clump that is elsewhere can join a list. */
  lemma Join(q: seq<nat>, r: nat, front: bool)
    requires NoDup(q) && r !in q
    ensures NoDup(if front then [r] + q else q + [r])
  {}

  lemma PairedIn(copies: seq<Copy>, copy: Copy, t: nat)
    ensures copy.callee != t ==> OpenCall(copies + [copy], t) == OpenCall(copies, t)
    ensures copy.callee == t ==> OpenCall(copies + [copy], t) == if copy.CopyIn? then Some((copy.caller, copy.pc)) else None
    ensures Paired(copies, t)
            && (copy.callee == t ==> OpenCall(copies, t) == if copy.CopyIn? then None else Some((copy.caller, copy.pc)))
            ==> Paired(copies + [copy], t)
  {}

  lemma BlockThere(p: Program, s: State, r: nat, t: nat, front: bool, pc: nat, c: nat)
    requires Inv(p, s) && s.running == Some(r) && pc < |p.code[r]|
    requires t < |s.clumps| && s.clumps[t].shortCount != p.fire[t] && MayBlockOn(p, r, t)
    requires c < |s.clumps|
    ensures ThereAndBlocked(p, Block(s, r, t, front, pc), c)
  {
    hide WellFormed, MayBlockOn, NoDup, CallPaired;
    Look(p, s, c);
  }

  lemma BlockOwns(p: Program, s: State, r: nat, t: nat, front: bool, pc: nat, c: nat)
    requires Inv(p, s) && s.running == Some(r) && pc < |p.code[r]|
    requires t < |s.clumps| && s.clumps[t].shortCount != p.fire[t] && MayBlockOn(p, r, t)
    requires c < |s.clumps|
    ensures Owns(p, Block(s, r, t, front, pc), c)
  {
    hide WellFormed, MayBlockOn, NoDup, CallPaired;
    Look(p, s, c);
    if c == t {
      Join(s.clumps[t].waiters, r, front);
    }
  }

  lemma BlockPaired(p: Program, s: State, r: nat, t: nat, front: bool, pc: nat, c: nat)
    requires Inv(p, s) && s.running == Some(r) && pc < |p.code[r]|
    requires t < |s.clumps| && s.clumps[t].shortCount != p.fire[t] && MayBlockOn(p, r, t)
    requires c < |s.clumps|
    ensures CallPaired(Block(s, r, t, front, pc), c)
  {
    hide WellFormed, MayBlockOn, NoDup, Paired, OpenCall;
    Look(p, s, c);
  }

  lemma BlockKeeps(p: Program, s: State, r: nat, t: nat, front: bool, pc: nat)
    requires Inv(p, s) && s.running == Some(r) && pc < |p.code[r]|
    requires t < |s.clumps| && s.clumps[t].shortCount != p.fire[t] && MayBlockOn(p, r, t)
    ensures Inv(p, Block(s, r, t, front, pc))
  {
    hide WellFormed, MayBlockOn, NoDup, ThereAndBlocked, Owns, CallPaired;
    var s' := Block(s, r, t, front, pc);
    forall c | 0 <= c < |s.clumps| ensures Good(p, s', c) {
      BlockThere(p, s, r, t, front, pc, c);
      BlockOwns(p, s, r, t, front, pc, c);
      BlockPaired(p, s, r, t, front, pc, c);
    }
    GoodAll(p, s');
  }

  lemma LinkThere(p: Program, s: State, r: nat, t: nat, c: nat)
    requires Inv(p, s) && s.running == Some(r) && t < |s.clumps|
    requires s.clumps[r].pc < |p.code[r]| && p.code[r][s.clumps[r].pc] == CallVI(t)
    requires s.clumps[t].caller.None? && s.clumps[t].shortCount == 0 && s.clumps[r].born < s.clumps[t].born
    requires c < |s.clumps|
    ensures ThereAndBlocked(p, Link(s, r, t), c)
  {
    hide WellFormed, MayBlockOn, NoDup, CallPaired;
    Look(p, s, c);
  }

  lemma LinkOwns(p: Program, s: State, r: nat, t: nat, c: nat)
    requires Inv(p, s) && s.running == Some(r) && t < |s.clumps|
    requires s.clumps[r].pc < |p.code[r]| && p.code[r][s.clumps[r].pc] == CallVI(t)
    requires s.clumps[t].caller.None? && s.clumps[t].shortCount == 0 && s.clumps[r].born < s.clumps[t].born
    requires c < |s.clumps|
    ensures Owns(p, Link(s, r, t), c)
  {
    hide WellFormed, MayBlockOn, NoDup, CallPaired;
    Look(p, s, c);
  }

  lemma LinkPaired(p: Program, s: State, r: nat, t: nat, c: nat)
    requires Inv(p, s) && s.running == Some(r) && t < |s.clumps|
    requires s.clumps[r].pc < |p.code[r]| && p.code[r][s.clumps[r].pc] == CallVI(t)
    requires s.clumps[t].caller.None? && s.clumps[t].shortCount == 0 && s.clumps[r].born < s.clumps[t].born
    requires c < |s.clumps|
    ensures CallPaired(Link(s, r, t), c)
  {
    hide WellFormed, MayBlockOn, NoDup, Paired, OpenCall;
    Look(p, s, c);
    PairedIn(s.copies, CopyIn(r, t, s.clumps[r].pc), c);
  }

  lemma LinkKeeps(p: Program, s: State, r: nat, t: nat)
    requires Inv(p, s) && s.running == Some(r) && t < |s.clumps|
    requires s.clumps[r].pc < |p.code[r]| && p.code[r][s.clumps[r].pc] == CallVI(t)
    requires s.clumps[t].caller.None? && s.clumps[t].shortCount == 0 && s.clumps[r].born < s.clumps[t].born
    ensures Inv(p, Link(s, r, t))
  {
    hide WellFormed, MayBlockOn, NoDup, ThereAndBlocked, Owns, CallPaired;
    var s' := Link(s, r, t);
    forall c | 0 <= c < |s.clumps| ensures Good(p, s', c) {
      LinkThere(p, s, r, t, c);
      LinkOwns(p, s, r, t, c);
      LinkPaired(p, s, r, t, c);
    }
    GoodAll(p, s');
  }

  /** CallVI of a clump that is not active; its asserts _shortCount == 1 and _caller == nullptr hold. */
  lemma CallKeeps(p: Program, s: State, r: nat, t: nat)
    requires Inv(p, s) && s.running == Some(r) && t < |s.clumps|
    requires s.clumps[r].pc < |p.code[r]| && p.code[r][s.clumps[r].pc] == CallVI(t)
    requires s.clumps[t].shortCount > 0
    ensures s.clumps[t].shortCount == 1 && s.clumps[t].caller.None?
    ensures Inv(p, Link(TriggerClump(s, t), r, t))
  {
    Look(p, s, t);
    Look(p, s, r);
    assert WellFormedInstr(p, r, s.clumps[r].pc);
    TriggerKeeps(p, s, t);
    LinkKeeps(p, TriggerClump(s, t), r, t);
  }

  lemma ReturnThere(p: Program, s: State, r: nat, k: nat, c: nat)
    requires Inv(p, s) && s.running == Some(r) && s.clumps[r].caller == Some(k)
    requires k < |s.clumps| && s.clumps[k].place == Calling(r) && s.clumps[k].pc + 1 < |p.code[k]|
    requires c < |s.clumps|
    ensures ThereAndBlocked(p, Return(s, r), c)
  {
    hide WellFormed, MayBlockOn, NoDup, CallPaired;
    Look(p, s, c);
  }

  lemma ReturnOwns(p: Program, s: State, r: nat, k: nat, c: nat)
    requires Inv(p, s) && s.running == Some(r) && s.clumps[r].caller == Some(k)
    requires k < |s.clumps| && s.clumps[k].place == Calling(r) && s.clumps[k].pc + 1 < |p.code[k]|
    requires c < |s.clumps|
    ensures Owns(p, Return(s, r), c)
  {
    hide WellFormed, MayBlockOn, NoDup, CallPaired;
    Look(p, s, c);
  }

  lemma ReturnPaired(p: Program, s: State, r: nat, k: nat, c: nat)
    requires Inv(p, s) && s.running == Some(r) && s.clumps[r].caller == Some(k)
    requires k < |s.clumps| && s.clumps[k].place == Calling(r) && s.clumps[k].pc + 1 < |p.code[k]|
    requires c < |s.clumps|
    ensures CallPaired(Return(s, r), c)
  {
    hide WellFormed, MayBlockOn, NoDup, Paired, OpenCall;
    Look(p, s, c);
    PairedIn(s.copies, CopyOut(k, r, s.clumps[k].pc), c);
  }

  lemma ReturnKeeps(p: Program, s: State, r: nat)
    requires Inv(p, s) && s.running == Some(r)
    ensures Inv(p, Return(s, r))
  {
    Look(p, s, r);
    if s.clumps[r].caller.Some? {
      var k := s.clumps[r].caller.value;
      assert WellFormedInstr(p, k, s.clumps[k].pc);
      hide WellFormed, MayBlockOn, NoDup, ThereAndBlocked, Owns, CallPaired;
      var s' := Return(s, r);
      Join(s.runQ, k, false);
      forall c | 0 <= c < |s.clumps| ensures Good(p, s', c) {
        ReturnThere(p, s, r, k, c);
        ReturnOwns(p, s, r, k, c);
        ReturnPaired(p, s, r, k, c);
      }
      GoodAll(p, s');
    }
  }

  lemma DrainThere(p: Program, s: State, r: nat, c: nat)
    requires Inv(p, s) && s.running == Some(r)
    requires c < |s.clumps|
    ensures ThereAndBlocked(p, Drain(s, r), c)
  {
    hide WellFormed, MayBlockOn, NoDup, CallPaired;
    Look(p, s, c);
  }

  lemma DrainOwns(p: Program, s: State, r: nat, c: nat)
    requires Inv(p, s) && s.running == Some(r)
    requires c < |s.clumps|
    ensures Owns(p, Drain(s, r), c)
  {
    hide WellFormed, MayBlockOn, CallPaired;
    Look(p, s, c);
  }

  lemma DrainPaired(p: Program, s: State, r: nat, c: nat)
    requires Inv(p, s) && s.running == Some(r)
    requires c < |s.clumps|
    ensures CallPaired(Drain(s, r), c)
  {
    hide WellFormed, MayBlockOn, NoDup, Paired, OpenCall;
    Look(p, s, c);
  }

  lemma DrainKeeps(p: Program, s: State, r: nat)
    requires Inv(p, s) && s.running == Some(r)
    ensures Inv(p, Drain(s, r))
  {
    Look(p, s, r);
    hide WellFormed, MayBlockOn, ThereAndBlocked, CallPaired;
    var s' := Drain(s, r);
    forall c | 0 <= c < |s.clumps| ensures Good(p, s', c) {
      DrainThere(p, s, r, c);
      DrainOwns(p, s, r, c);
      DrainPaired(p, s, r, c);
    }
    GoodAll(p, s');
  }

  lemma ResetKeeps(p: Program, s: State, r: nat)
    requires Inv(p, s) && s.running == Some(r)
    requires s.clumps[r].caller.None? && s.clumps[r].waiters == []
    ensures Inv(p, Reset(s, r, p.fire[r]))
  {
    Look(p, s, r);
    assert p.fire[r] >= 1 && p.code[r] != [];
    hide WellFormed, MayBlockOn, Paired, OpenCall, NoDup;
    var s' := Reset(s, r, p.fire[r]);
    forall c | 0 <= c < |s.clumps| ensures Good(p, s', c) {
      Look(p, s, c);
    }
    GoodAll(p, s');
  }

  lemma RequeueKeeps(p: Program, s: State, r: nat)
    requires Inv(p, s) && s.running == Some(r)
    ensures Inv(p, Requeue(s, r))
  {
    hide WellFormed, MayBlockOn, Paired, OpenCall;
    var s' := Requeue(s, r);
    forall c | 0 <= c < |s.clumps| ensures Good(p, s', c) {
      Look(p, s, c);
    }
    GoodAll(p, s');
  }

  lemma WakeKeeps(p: Program, s: State, c: nat)
    requires Inv(p, s) && c < |s.clumps| && s.clumps[c].place == Asleep
    ensures Inv(p, Enqueue(s, c))
  {
    hide WellFormed, MayBlockOn, Paired, OpenCall;
    var s' := Enqueue(s, c);
    forall d | 0 <= d < |s.clumps| ensures Good(p, s', d) {
      Look(p, s, d);
    }
    GoodAll(p, s');
  }

  /** Done: resume the caller, drain the wait list, reset the count, take the next clump. */
  ghost function Finish(p: Program, s: State, r: nat): State
    requires r < |s.clumps| == |p.fire|
  {
    Reset(Drain(Return(s, r), r), r, p.fire[r])
  }

  lemma FinishKeeps(p: Program, s: State, r: nat)
    requires Inv(p, s) && s.running == Some(r)
    ensures Inv(p, Finish(p, s, r)) && Finish(p, s, r).running.None?
  {
    Look(p, s, r);
    ReturnKeeps(p, s, r);
    DrainKeeps(p, Return(s, r), r);
    ResetKeeps(p, Drain(Return(s, r), r), r);
  }

  lemma VacateAsleepKeeps(p: Program, s: State, r: nat, pc: nat)
    requires Inv(p, s) && s.running == Some(r) && pc < |p.code[r]|
    ensures Inv(p, Vacate(s, r, Asleep, pc))
  {
    hide WellFormed, MayBlockOn, Paired, OpenCall, NoDup;
    var s' := Vacate(s, r, Asleep, pc);
    forall c | 0 <= c < |s.clumps| ensures Good(p, s', c) {
      Look(p, s, c);
    }
    GoodAll(p, s');
  }

  // ---------------------------------------------------------------- runs

  /** The instruction the running clump is at. */
  ghost function Current(p: Program, s: State): Instr
    requires Inv(p, s) && s.running.Some?
  {
    var r := s.running.value;
    assert Owns(p, s, r);
    p.code[r][s.clumps[r].pc]
  }

  /** Trigger asserts a positive count; this is the one assert a program can break. */
  ghost predicate Faults(p: Program, s: State)
    requires Inv(p, s) && s.running.Some?
  {
    var instr := Current(p, s);
    instr.Trigger? && instr.target < |s.clumps| && s.clumps[instr.target].shortCount == 0
  }

  /** One instruction of the running clump; next is where a plain or a sleeping instruction continues. */
  ghost function Execute(p: Program, s: State, next: nat): State
    requires Inv(p, s) && s.running.Some? && !Faults(p, s)
  {
    var r := s.running.value;
    var pc := s.clumps[r].pc;
    assert Owns(p, s, r) && WellFormedInstr(p, r, pc);
    match Current(p, s)
    case Trigger(t) => Advance(TriggerClump(s, t), r, pc + 1)
    case Wait(t) =>
      if s.clumps[t].shortCount == p.fire[t] then Advance(s, r, pc + 1)
      else
        assert MayBlockOn(p, r, t);
        BlockKeeps(p, s, r, t, true, pc + 1);
        Dispatch(Block(s, r, t, true, pc + 1))
    case CallVI(t) =>
      if s.clumps[t].shortCount > 0 then
        CallKeeps(p, s, r, t);
        Dispatch(Link(TriggerClump(s, t), r, t))
      else
        assert MayBlockOn(p, r, t);
        BlockKeeps(p, s, r, t, false, pc);
        Dispatch(Block(s, r, t, false, pc))
    case Done =>
      FinishKeeps(p, s, r);
      Dispatch(Finish(p, s, r))
    case Sleep =>
      VacateAsleepKeeps(p, s, r, if next < |p.code[r]| then next else pc);
      Dispatch(Vacate(s, r, Asleep, if next < |p.code[r]| then next else pc))
    case Plain => Advance(s, r, if next < |p.code[r]| then next else pc + 1)
  }

  lemma ExecuteKeeps(p: Program, s: State, next: nat)
    requires Inv(p, s) && s.running.Some? && !Faults(p, s)
    ensures Inv(p, Execute(p, s, next))
  {
    var r := s.running.value;
    var pc := s.clumps[r].pc;
    Look(p, s, r);
    assert WellFormedInstr(p, r, pc);
    match Current(p, s)
    case Trigger(t) =>
      TriggerKeeps(p, s, t);
      AdvanceKeeps(p, TriggerClump(s, t), r, pc + 1);
    case Wait(t) =>
      if s.clumps[t].shortCount == p.fire[t] {
        AdvanceKeeps(p, s, r, pc + 1);
      } else {
        assert MayBlockOn(p, r, t);
        BlockKeeps(p, s, r, t, true, pc + 1);
        DispatchKeeps(p, Block(s, r, t, true, pc + 1));
      }
    case CallVI(t) =>
      if s.clumps[t].shortCount > 0 {
        CallKeeps(p, s, r, t);
        DispatchKeeps(p, Link(TriggerClump(s, t), r, t));
      } else {
        assert MayBlockOn(p, r, t);
        BlockKeeps(p, s, r, t, false, pc);
        DispatchKeeps(p, Block(s, r, t, false, pc));
      }
    case Done =>
      FinishKeeps(p, s, r);
      DispatchKeeps(p, Finish(p, s, r));
    case Sleep =>
      var pc' := if next < |p.code[r]| then next else pc;
      VacateAsleepKeeps(p, s, r, pc');
      DispatchKeeps(p, Vacate(s, r, Asleep, pc'));
    case Plain =>
      AdvanceKeeps(p, s, r, if next < |p.code[r]| then next else pc + 1);
  }

  datatype Action =
    | Exec(next: nat)         // the running clump executes an instruction
    | Pick                    // nothing is running: take the next clump
    | Rotate                  // end of a slice or time out: back to the run queue
    | Wake(clump: nat)        // from outside: a sleeper wakes
    | Press(clump: nat)       // from outside: a trigger

  ghost predicate Enabled(p: Program, s: State, a: Action)
    requires Inv(p, s)
  {
    match a
    case Exec(_) => s.running.Some? && !Faults(p, s)
    case Pick => s.running.None?
    case Rotate => s.running.Some?
    case Wake(c) => c < |s.clumps| && s.clumps[c].place == Asleep
    case Press(c) => c < |s.clumps| && s.clumps[c].shortCount > 0
  }

  ghost function Do(p: Program, s: State, a: Action): (s': State)
    requires Inv(p, s) && Enabled(p, s, a)
    ensures Inv(p, s')
  {
    match a
    case Exec(next) => ExecuteKeeps(p, s, next); Execute(p, s, next)
    case Pick => DispatchKeeps(p, s); Dispatch(s)
    case Rotate => RequeueKeeps(p, s, s.running.value); Requeue(s, s.running.value)
    case Wake(c) => WakeKeeps(p, s, c); Enqueue(s, c)
    case Press(c) => TriggerKeeps(p, s, c); TriggerClump(s, c)
  }

  /** Before anything has run, every clump waits for its triggers. */
  ghost function Start(p: Program): State
    requires |p.fire| == |p.code|
  {
    State(seq(|p.fire|, c requires 0 <= c < |p.fire| => Clump(p.fire[c], None, [], 0, Untriggered, 0)), [], None, 1, [])
  }

  lemma StartGood(p: Program)
    requires WellFormed(p)
    ensures Inv(p, Start(p))
  {}

  /** s can be reached by some sequence of actions. */
  ghost predicate Reaches(p: Program, s: State, actions: seq<Action>, s': State)
    requires Inv(p, s)
    decreases |actions|
  {
    if actions == [] then s == s'
    else Enabled(p, s, actions[0]) && Reaches(p, Do(p, s, actions[0]), actions[1..], s')
  }

  ghost predicate Reachable(p: Program, s: State) {
    WellFormed(p) && (StartGood(p); exists actions :: Reaches(p, Start(p), actions, s))
  }

  /** The invariant holds over all runs. */
  lemma {:induction false} ReachesKeeps(p: Program, s: State, actions: seq<Action>, s': State)
    requires Inv(p, s) && Reaches(p, s, actions, s')
    ensures Inv(p, s')
    decreases |actions|
  {
    if actions != [] {
      ReachesKeeps(p, Do(p, s, actions[0]), actions[1..], s');
    }
  }

  lemma ReachableGood(p: Program, s: State)
    requires Reachable(p, s)
    ensures Inv(p, s)
  {
    StartGood(p);
    var actions :| Reaches(p, Start(p), actions, s);
    ReachesKeeps(p, Start(p), actions, s);
  }

  /** A run goes on by one action. */
  lemma {:induction false} ReachesOneMore(p: Program, s: State, actions: seq<Action>, s1: State, a: Action)
    requires Inv(p, s) && Reaches(p, s, actions, s1) && Inv(p, s1) && Enabled(p, s1, a)
    ensures Reaches(p, s, actions + [a], Do(p, s1, a))
    decreases |actions|
  {
    hide Inv, Enabled, Do;
    var all := actions + [a];
    if actions == [] {
      assert all[0] == a && all[1..] == [];
    } else {
      ReachesOneMore(p, Do(p, s, actions[0]), actions[1..], s1, a);
      assert all[0] == actions[0] && all[1..] == actions[1..] + [a];
    }
  }

  lemma {:induction false} ReachesTransitive(p: Program, s: State, first: seq<Action>, s1: State, second: seq<Action>, s2: State)
    requires Inv(p, s) && Reaches(p, s, first, s1) && Inv(p, s1) && Reaches(p, s1, second, s2)
    ensures Reaches(p, s, first + second, s2)
    decreases |first|
  {
    hide Inv, Enabled, Do;
    var all := first + second;
    if first == [] {
      assert all == second;
    } else {
      ReachesTransitive(p, Do(p, s, first[0]), first[1..], s1, second, s2);
      assert all[0] == first[0] && all[1..] == first[1..] + second;
    }
  }

  /** Runs that start in a reachable state stay among the reachable states. */
  lemma ReachableOnward(p: Program, s: State, actions: seq<Action>, s': State)
    requires Reachable(p, s) && Inv(p, s) && Reaches(p, s, actions, s')
    ensures Reachable(p, s')
  {
    StartGood(p);
    var first :| Reaches(p, Start(p), first, s);
    ReachesTransitive(p, Start(p), first, s, actions, s');
  }
}
