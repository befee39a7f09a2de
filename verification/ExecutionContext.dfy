/** The scheduler of source/core/ExecutionContext.cpp on its own data structures: clumps linked through next
    and waitingClumps, a run queue, and the slice loop.  Every instruction is shown to do what the state
    machine in Scheduler.dfy says, so what SchedulerTheorems.dfy proves holds here. */
module ExecutionContext {
  import opened Scheduler
  import opened ClumpQueue

  /** The fields of one clump, as a value. */
  datatype Cell = Cell(next: VIClump?, waitingClumps: VIClump?, caller: VIClump?, savePc: nat, shortCount: nat, asleep: bool)

  // ---------------------------------------------------------------- what the fields represent

  ghost predicate InRange(n: nat, q: seq<nat>) { forall i :: 0 <= i < |q| ==> q[i] < n }

  ghost function Objects(clumps: seq<VIClump>, q: seq<nat>): (r: seq<VIClump>)
    requires InRange(|clumps|, q)
    ensures |r| == |q| && forall i :: 0 <= i < |q| ==> r[i] == clumps[q[i]]
  {
    seq(|q|, i requires 0 <= i < |q| => clumps[q[i]])
  }

  /** What follows the i-th clump of a list. */
  ghost function Follower(clumps: seq<VIClump>, q: seq<nat>, i: nat): VIClump?
    requires InRange(|clumps|, q) && i < |q|
  {
    if i + 1 < |q| then clumps[q[i + 1]] else null
  }

  /** q is linked from head to null through the next fields of the cells. */
  ghost predicate Linked(clumps: seq<VIClump>, cells: seq<Cell>, head: VIClump?, q: seq<nat>) {
    && |cells| == |clumps| && InRange(|clumps|, q)
    && head == (if q == [] then null else clumps[q[0]])
    && forall i :: 0 <= i < |q| ==> cells[q[i]].next == Follower(clumps, q, i)
  }

  /** The lists of s hold different clumps. */
  ghost predicate Separate(s: State) {
    && ListOf(s, s.runQ, Queued)
    && forall t :: 0 <= t < |s.clumps| ==> ListOf(s, s.clumps[t].waiters, Waiting(t))
  }

  /** Cell c represents clump c of s; the cell of the running clump lags behind in savePc. */
  ghost predicate Fields(clumps: seq<VIClump>, cells: seq<Cell>, s: State, running: Option<nat>, c: nat)
    requires c < |clumps| == |s.clumps| == |cells|
  {
    var cell, clump := cells[c], s.clumps[c];
    && cell.shortCount == clump.shortCount
    && cell.asleep == clump.place.Asleep?
    && (running != Some(c) ==> cell.savePc == clump.pc)
    && (clump.caller.None? ==> cell.caller == null)
    && (clump.caller.Some? ==> clump.caller.value < |clumps| && cell.caller == clumps[clump.caller.value])
    && Linked(clumps, cells, cell.waitingClumps, clump.waiters)
    && (clump.place.Queued? || clump.place.Waiting? || cell.next == null)
  }

  ghost predicate Represents(clumps: seq<VIClump>, cells: seq<Cell>, s: State, running: Option<nat>) {
    && |clumps| == |s.clumps| == |cells| && Separate(s)
    && InRange(|clumps|, s.runQ)
    && forall c :: 0 <= c < |clumps| ==> Fields(clumps, cells, s, running, c)
  }

  /** Relinking a clump that is not in q leaves q linked. */
  lemma RelinkOther(clumps: seq<VIClump>, cells: seq<Cell>, head: VIClump?, q: seq<nat>, x: nat, next: VIClump?)
    requires Linked(clumps, cells, head, q) && x < |cells| && x !in q
    ensures Linked(clumps, cells[x := cells[x].(next := next)], head, q)
  {}

  /** Queueing clump c: the last queued clump, if any, is linked to it. */
  lemma EnqueueRepresents(clumps: seq<VIClump>, cells: seq<Cell>, s: State, running: Option<nat>,
                          c: nat, cells': seq<Cell>)
    requires Represents(clumps, cells, s, running) && c < |clumps|
    requires cells[c].next == null && !cells[c].asleep && s.clumps[c].place != Queued
    requires forall t :: 0 <= t < |s.clumps| ==> c !in s.clumps[t].waiters
    requires cells' == if s.runQ == [] then cells
                       else var x := s.runQ[|s.runQ| - 1]; cells[x := cells[x].(next := clumps[c])]
    ensures Represents(clumps, cells', Enqueue(s, c), running)
  {
    var s' := Enqueue(s, c);
    Join(s.runQ, c, false);
    forall d | 0 <= d < |clumps| ensures Fields(clumps, cells', s', running, d) {
      assert Fields(clumps, cells, s, running, d) && ListOf(s, s.clumps[d].waiters, Waiting(d));
      if s.runQ != [] {
        RelinkOther(clumps, cells, cells[d].waitingClumps, s.clumps[d].waiters, s.runQ[|s.runQ| - 1], clumps[c]);
      }
    }
  }

  /** Taking the first clump of a nonempty queue. */
  lemma DequeueRepresents(clumps: seq<VIClump>, cells: seq<Cell>, s: State)
    requires Represents(clumps, cells, s, None) && s.runQ != []
    ensures var x := s.runQ[0];
            x < |cells| && Represents(clumps, cells[x := cells[x].(next := null)], Dispatch(s), Some(x))
  {
    var s', x := Dispatch(s), s.runQ[0];
    var cells' := cells[x := cells[x].(next := null)];
    assert ListOf(s', s'.runQ, Queued);
    forall d | 0 <= d < |clumps| ensures Fields(clumps, cells', s', Some(x), d) {
      assert Fields(clumps, cells, s, None, d) && ListOf(s, s.clumps[d].waiters, Waiting(d));
      RelinkOther(clumps, cells, cells[d].waitingClumps, s.clumps[d].waiters, x, null);
    }
  }

  predicate Unlisted(place: Place) { !place.Queued? && !place.Waiting? }

  /** Changing one clump's fields other than its links. */
  lemma UpdateRepresents(clumps: seq<VIClump>, cells: seq<Cell>, s: State, running: Option<nat>,
                         c: nat, cell: Cell, clump: Clump, s': State, running': Option<nat>)
    requires Represents(clumps, cells, s, running) && c < |clumps|
    requires s'.clumps == s.clumps[c := clump] && s'.runQ == s.runQ
    requires cell.next == cells[c].next && cell.waitingClumps == cells[c].waitingClumps
    requires clump.waiters == s.clumps[c].waiters
    requires clump.place == s.clumps[c].place || (Unlisted(clump.place) && Unlisted(s.clumps[c].place))
    requires cell.shortCount == clump.shortCount && cell.asleep == clump.place.Asleep?
    requires running' != Some(c) ==> cell.savePc == clump.pc
    requires clump.caller.None? ==> cell.caller == null
    requires clump.caller.Some? ==> clump.caller.value < |clumps| && cell.caller == clumps[clump.caller.value]
    requires running' == running || running.None? || running == Some(c)
    ensures Represents(clumps, cells[c := cell], s', running')
  {
    assert ListOf(s', s'.runQ, Queued);
    forall d | 0 <= d < |clumps| ensures ListOf(s', s'.clumps[d].waiters, Waiting(d)) {
      assert ListOf(s, s.clumps[d].waiters, Waiting(d));
    }
    assert Separate(s');
    hide Separate, ListOf, Linked;
    var cells' := cells[c := cell];
    forall d | 0 <= d < |clumps| ensures Fields(clumps, cells', s', running', d) {
      assert Fields(clumps, cells, s, running, d);
      LinkedElsewhere(clumps, cells, cells[d].waitingClumps, s.clumps[d].waiters, cells');
    }
  }

  lemma OnlyLastIsNull(clumps: seq<VIClump>, cells: seq<Cell>, head: VIClump?, q: seq<nat>)
    requires Linked(clumps, cells, head, q)
    ensures forall i :: 0 <= i < |q| ==> (cells[q[i]].next == null <==> i == |q| - 1)
  {}

  lemma LinkFront(clumps: seq<VIClump>, cells: seq<Cell>, head: VIClump?, q: seq<nat>, r: nat, cells': seq<Cell>)
    requires Linked(clumps, cells, head, q) && r < |cells| == |cells'| && r !in q
    requires forall i :: 0 <= i < |cells| ==> cells'[i].next == if i == r then head else cells[i].next
    ensures Linked(clumps, cells', clumps[r], [r] + q)
  {}

  lemma LinkBack(clumps: seq<VIClump>, cells: seq<Cell>, head: VIClump?, q: seq<nat>, r: nat, cells': seq<Cell>)
    requires Linked(clumps, cells, head, q) && NoDup(q) && r < |cells| == |cells'| && r !in q && cells[r].next == null
    requires forall i :: 0 <= i < |cells| ==>
               cells'[i].next == if q != [] && i == q[|q| - 1] then clumps[r] else cells[i].next
    ensures Linked(clumps, cells', if q == [] then clumps[r] else head, q + [r])
  {}

  lemma LinkedElsewhere(clumps: seq<VIClump>, cells: seq<Cell>, head: VIClump?, q: seq<nat>, cells': seq<Cell>)
    requires Linked(clumps, cells, head, q) && |cells'| == |cells|
    requires forall i <- q :: i < |cells| ==> cells'[i].next == cells[i].next
    ensures Linked(clumps, cells', head, q)
  {}

  /** The lists stay separate when r, in none, joins those that wait for t. */
  lemma BlockSeparate(s: State, r: nat, t: nat, front: bool, pc: nat)
    requires Separate(s) && r < |s.clumps| && t < |s.clumps| && Unlisted(s.clumps[r].place)
    ensures Separate(Block(s, r, t, front, pc))
  {
    hide NoDup;
    var s' := Block(s, r, t, front, pc);
    assert ListOf(s', s'.runQ, Queued);
    forall d | 0 <= d < |s.clumps| ensures ListOf(s', s'.clumps[d].waiters, Waiting(d)) {
      assert ListOf(s, s.clumps[d].waiters, Waiting(d));
      if d == t {
        Join(s.clumps[t].waiters, r, front);
      }
    }
  }

  /** What a clump on a wait list looks like from the outside. */
  lemma WaitersApart(s: State, r: nat, d: nat, t: nat)
    requires Separate(s) && r < |s.clumps| && d < |s.clumps| && t < |s.clumps| && Unlisted(s.clumps[r].place)
    ensures r !in s.clumps[d].waiters
    ensures d != t ==> forall w <- s.clumps[d].waiters :: w !in s.clumps[t].waiters
  {}

  /** The fields of clump d after r has joined the clumps that wait for t. */
  lemma BlockFields(clumps: seq<VIClump>, cells: seq<Cell>, s: State, r: nat, t: nat, front: bool, pc: nat, cells': seq<Cell>, d: nat)
    requires d < |clumps| == |s.clumps| == |cells| == |cells'| && r < |clumps| && t < |clumps|
    requires Fields(clumps, cells, s, Some(r), d) && s.clumps[r].place == Running
    requires Linked(clumps, cells', cells'[d].waitingClumps, Block(s, r, t, front, pc).clumps[d].waiters)
    requires cells'[d].(next := null, waitingClumps := null) == cells[d].(next := null, waitingClumps := null)
    requires cells'[d].next == cells[d].next || d == r || s.clumps[d].place.Waiting?
    ensures Fields(clumps, cells', Block(s, r, t, front, pc), Some(r), d)
  {}

  /** r, in no list, is put in front of the clumps that wait for t. */
  lemma InsertRepresents(clumps: seq<VIClump>, cells: seq<Cell>, s: State, r: nat, t: nat, pc: nat, cells': seq<Cell>)
    requires Represents(clumps, cells, s, Some(r)) && r < |clumps| && t < |clumps| && s.clumps[r].place == Running
    requires var c1 := cells[r := cells[r].(next := cells[t].waitingClumps)];
             cells' == c1[t := c1[t].(waitingClumps := clumps[r])]
    ensures Represents(clumps, cells', Block(s, r, t, true, pc), Some(r))
  {
    BlockSeparate(s, r, t, true, pc);
    var s' := Block(s, r, t, true, pc);
    assert forall i :: 0 <= i < |cells| ==> cells'[i].next == if i == r then cells[t].waitingClumps else cells[i].next;
    hide Linked, Separate, ListOf, Follower;
    forall d | 0 <= d < |clumps| ensures Fields(clumps, cells', s', Some(r), d) {
      assert Fields(clumps, cells, s, Some(r), d);
      WaitersApart(s, r, d, t);
      if d == t {
        LinkFront(clumps, cells, cells[t].waitingClumps, s.clumps[t].waiters, r, cells');
      } else {
        LinkedElsewhere(clumps, cells, cells[d].waitingClumps, s.clumps[d].waiters, cells');
      }
      hide Fields;
      BlockFields(clumps, cells, s, r, t, true, pc, cells', d);
    }
  }

  lemma BeforeAppend(clumps: seq<VIClump>, cells: seq<Cell>, s: State, r: nat, t: nat)
    requires Represents(clumps, cells, s, Some(r)) && r < |clumps| && t < |clumps| && s.clumps[r].place == Running
    ensures cells[r].next == null
    ensures var q := s.clumps[t].waiters;
            && Linked(clumps, cells, cells[t].waitingClumps, q) && (q == [] <==> cells[t].waitingClumps == null)
            && (q != [] ==> q[|q| - 1] < |clumps| && q[|q| - 1] !in s.runQ)
  {
    assert Fields(clumps, cells, s, Some(r), r) && Fields(clumps, cells, s, Some(r), t);
    assert ListOf(s, s.clumps[t].waiters, Waiting(t)) && ListOf(s, s.runQ, Queued);
  }

  /** Cell i after r has been put behind q, the clumps that wait for t. */
  ghost function AppendedCell(clumps: seq<VIClump>, cells: seq<Cell>, q: seq<nat>, r: nat, t: nat, i: nat): Cell
    requires i < |cells| && r < |clumps|
  {
    if q == [] && i == t then cells[i].(waitingClumps := clumps[r])
    else if q != [] && i == q[|q| - 1] then cells[i].(next := clumps[r])
    else cells[i]
  }

  /** r, in no list, is put behind the clumps that wait for t. */
  lemma AppendRepresents(clumps: seq<VIClump>, cells: seq<Cell>, s: State, r: nat, t: nat, pc: nat, cells': seq<Cell>)
    requires Represents(clumps, cells, s, Some(r)) && r < |clumps| && t < |clumps| && s.clumps[r].place == Running
    requires |cells'| == |cells| && forall i :: 0 <= i < |cells| ==> cells'[i] == AppendedCell(clumps, cells, s.clumps[t].waiters, r, t, i)
    ensures Represents(clumps, cells', Block(s, r, t, false, pc), Some(r))
  {
    var s', q := Block(s, r, t, false, pc), s.clumps[t].waiters;
    BlockSeparate(s, r, t, false, pc);
    assert ListOf(s, q, Waiting(t)) && Fields(clumps, cells, s, Some(r), r) && Fields(clumps, cells, s, Some(r), t);
    hide ListOf, Linked, Separate, NoDup, Follower;
    assert forall i :: 0 <= i < |cells| ==>
             cells'[i].next == if q != [] && i == q[|q| - 1] then clumps[r] else cells[i].next;
    forall d | 0 <= d < |clumps| ensures Fields(clumps, cells', s', Some(r), d) {
      assert Fields(clumps, cells, s, Some(r), d);
      WaitersApart(s, r, d, t);
      if d == t {
        LinkBack(clumps, cells, cells[t].waitingClumps, q, r, cells');
      } else {
        LinkedElsewhere(clumps, cells, cells[d].waitingClumps, s.clumps[d].waiters, cells');
      }
      BlockFields(clumps, cells, s, r, t, false, pc, cells', d);
    }
  }

  ghost function Decrement(s: State, t: nat): State
    requires t < |s.clumps| && s.clumps[t].shortCount > 0
  {
    Put(s, t, s.clumps[t].(shortCount := s.clumps[t].shortCount - 1))
  }

  lemma DecrementRepresents(clumps: seq<VIClump>, cells: seq<Cell>, s: State, running: Option<nat>, t: nat)
    requires Represents(clumps, cells, s, running) && t < |clumps| && s.clumps[t].place == Untriggered
    requires t < |cells| && cells[t].shortCount > 0
    ensures |s.clumps| == |clumps| && s.clumps[t].shortCount == cells[t].shortCount && cells[t].next == null && !cells[t].asleep
    ensures Represents(clumps, cells[t := cells[t].(shortCount := cells[t].shortCount - 1)], Decrement(s, t), running)
    ensures forall u :: 0 <= u < |s.clumps| ==> t !in s.clumps[u].waiters
  {
    assert Fields(clumps, cells, s, running, t);
    var s1 := Decrement(s, t);
    UpdateRepresents(clumps, cells, s, running, t, cells[t].(shortCount := cells[t].shortCount - 1), s1.clumps[t], s1, running);
    forall u | 0 <= u < |s.clumps| ensures t !in s.clumps[u].waiters {
      WaitersApart(s, t, u, u);
    }
  }

  /** Represents does not depend on the bookkeeping. */
  lemma BookkeepingRepresents(clumps: seq<VIClump>, cells: seq<Cell>, s: State, running: Option<nat>, s': State)
    requires Represents(clumps, cells, s, running)
    requires |s'.clumps| == |s.clumps| && s'.runQ == s.runQ
    requires forall c :: 0 <= c < |s.clumps| ==> s'.clumps[c].(born := 0) == s.clumps[c].(born := 0)
    ensures Represents(clumps, cells, s', running)
  {
    assert forall c :: 0 <= c < |s.clumps| ==> s'.clumps[c].place == s.clumps[c].place;
    assert ListOf(s', s'.runQ, Queued);
    forall d | 0 <= d < |clumps| ensures Fields(clumps, cells, s', running, d) && ListOf(s', s'.clumps[d].waiters, Waiting(d)) {
      assert Fields(clumps, cells, s, running, d) && ListOf(s, s.clumps[d].waiters, Waiting(d));
      assert s'.clumps[d].waiters == s.clumps[d].waiters;
    }
  }

  // ---------------------------------------------------------------- draining a wait list

  /** The wait list of r is disconnected; its clumps are in no list until they are queued. */
  ghost function Disconnect(s: State, r: nat): State
    requires r < |s.clumps|
  {
    Put(s, r, s.clumps[r].(waiters := []))
  }

  ghost function EnqueueAll(s: State, q: seq<nat>): State
    requires InRange(|s.clumps|, q)
    decreases |q|
  {
    if q == [] then s else EnqueueAll(Enqueue(s, q[0]), q[1..])
  }

  lemma {:induction false} EnqueueAllEffect(s: State, q: seq<nat>)
    requires InRange(|s.clumps|, q)
    ensures var s' := EnqueueAll(s, q);
            && s' == s.(clumps := s'.clumps, runQ := s.runQ + q) && |s'.clumps| == |s.clumps|
            && forall c :: 0 <= c < |s.clumps| ==>
                 s'.clumps[c] == if c in q then s.clumps[c].(place := Queued) else s.clumps[c]
    decreases |q|
  {
    if q != [] {
      EnqueueAllEffect(Enqueue(s, q[0]), q[1..]);
      assert q == [q[0]] + q[1..];
    }
  }

  /** Queueing the disconnected clumps one by one is what the state machine does at once. */
  lemma DrainByOne(p: Program, s: State, r: nat)
    requires Inv(p, s) && r < |s.clumps|
    ensures InRange(|s.clumps|, s.clumps[r].waiters)
    ensures EnqueueAll(Disconnect(s, r), s.clumps[r].waiters) == Drain(s, r)
  {
    var q := s.clumps[r].waiters;
    Look(p, s, r);
    EnqueueAllEffect(Disconnect(s, r), q);
    var s1, s2 := EnqueueAll(Disconnect(s, r), q), Drain(s, r);
    forall c | 0 <= c < |s.clumps| ensures s1.clumps[c] == s2.clumps[c] {
      Look(p, s, c);
    }
  }

  lemma DisconnectRepresents(clumps: seq<VIClump>, cells: seq<Cell>, s: State, running: Option<nat>, r: nat)
    requires Represents(clumps, cells, s, running) && r < |clumps|
    ensures Represents(clumps, cells[r := cells[r].(waitingClumps := null)], Disconnect(s, r), running)
  {
    var s', cells' := Disconnect(s, r), cells[r := cells[r].(waitingClumps := null)];
    assert ListOf(s', s'.runQ, Queued);
    forall d | 0 <= d < |clumps| ensures ListOf(s', s'.clumps[d].waiters, Waiting(d)) {
      assert ListOf(s, s.clumps[d].waiters, Waiting(d));
    }
    assert Separate(s') && Linked(clumps, cells', null, []);
    hide Separate, ListOf, Linked;
    forall d | 0 <= d < |clumps| ensures Fields(clumps, cells', s', running, d) {
      assert Fields(clumps, cells, s, running, d);
      LinkedElsewhere(clumps, cells, cells[d].waitingClumps, s.clumps[d].waiters, cells');
    }
  }

  /** Clearing the link of a clump that is in no list. */
  lemma UnlinkRepresents(clumps: seq<VIClump>, cells: seq<Cell>, s: State, running: Option<nat>, w: nat)
    requires Represents(clumps, cells, s, running) && w < |clumps|
    requires w !in s.runQ && forall t :: 0 <= t < |s.clumps| ==> w !in s.clumps[t].waiters
    ensures Represents(clumps, cells[w := cells[w].(next := null)], s, running)
  {
    var cells' := cells[w := cells[w].(next := null)];
    forall d | 0 <= d < |clumps| ensures Fields(clumps, cells', s, running, d) {
      assert Fields(clumps, cells, s, running, d);
      RelinkOther(clumps, cells, cells[d].waitingClumps, s.clumps[d].waiters, w, null);
    }
  }

  // ---------------------------------------------------------------- the execution context

  class ExecutionContext {
    ghost const program: Program
    const clumps: seq<VIClump>             // instructions name clumps by their index here
    const runQueue: VIClumpQueue
    var runningQueueElt: VIClump?
    var breakoutCount: int
    ghost var st: State                    // the abstract state

    ghost predicate Static() {
      && |program.fire| == |program.code| == |clumps| && Distinct(clumps)
      && forall c :: 0 <= c < |clumps| ==> clumps[c].fireCount == program.fire[c] && clumps[c].code == program.code[c]
    }

    ghost function Cells(): (cells: seq<Cell>)
      reads clumps
      ensures |cells| == |clumps|
      ensures forall c :: 0 <= c < |clumps| ==> cells[c] == CellOf(clumps[c])
    {
      seq(|clumps|, c requires 0 <= c < |clumps| reads clumps => CellOf(clumps[c]))
    }

    static ghost function CellOf(c: VIClump): Cell
      reads c
    {
      Cell(c.next, c.waitingClumps, c.caller, c.savePc, c.shortCount, c.asleep)
    }

    /** The run queue holds the clumps with these numbers. */
    ghost predicate QueueIs(ids: seq<nat>)
      reads runQueue, clumps
    {
      && Static() && (forall i :: 0 <= i < |runQueue.Contents| ==> runQueue.Contents[i] in clumps) && runQueue.Valid()
      && InRange(|clumps|, ids) && runQueue.Contents == Objects(clumps, ids)
    }

    /** The fields represent s. */
    ghost predicate Holds(s: State, running: Option<nat>)
      reads runQueue, clumps
    {
      QueueIs(s.runQ) && Represents(clumps, Cells(), s, running)
    }

    ghost predicate RunningIs(running: Option<nat>)
      reads this
    {
      if running.None? then runningQueueElt == null
      else running.value < |clumps| && runningQueueElt == clumps[running.value]
    }

    ghost predicate Valid()
      reads this, runQueue, clumps
    {
      Inv(program, st) && Holds(st, st.running) && RunningIs(st.running)
    }

    /** The slice is cut short when nothing is left to run or waiting clumps have been queued, and goes on otherwise. */
    ghost predicate GivesUp(next: int, before: int, drained: bool)
      reads this`breakoutCount
    {
      breakoutCount == if next == -1 || drained then 0 else before
    }

    /** A context for clumps that have not been triggered yet. */
    constructor (ghost program: Program, clumps: seq<VIClump>)
      requires WellFormed(program) && |clumps| == |program.fire| && Distinct(clumps)
      requires forall c :: 0 <= c < |clumps| ==>
                 clumps[c].fireCount == program.fire[c] == clumps[c].shortCount && clumps[c].code == program.code[c]
      requires forall c <- clumps :: c.next == null && c.waitingClumps == null && c.caller == null && c.savePc == 0 && !c.asleep
      ensures Valid() && st == Start(program) && this.program == program && this.clumps == clumps
    {
      this.program, this.clumps := program, clumps;
      runQueue := new VIClumpQueue();
      runningQueueElt, breakoutCount, st := null, 0, Start(program);
      new;
      StartGood(program);
      forall c | 0 <= c < |clumps| ensures Fields(clumps, Cells(), st, None, c) {
        assert clumps[c] in clumps;
      }
    }

    lemma ClumpTells(c: nat, ids: seq<nat>)
      requires c < |clumps| && QueueIs(ids)
      ensures |program.fire| == |program.code| == |clumps|
      ensures clumps[c].fireCount == program.fire[c] && clumps[c].code == program.code[c]
    {}

    /** When only the next field of clump x has changed, only its cell has. */
    twostate lemma OneLinkChanged(x: nat)
      requires Distinct(clumps) && x < |clumps|
      requires forall c <- clumps :: c != clumps[x] ==> c.next == old(c.next)
      requires forall c <- clumps :: c.waitingClumps == old(c.waitingClumps) && c.caller == old(c.caller)
      requires forall c <- clumps :: c.savePc == old(c.savePc) && c.shortCount == old(c.shortCount) && c.asleep == old(c.asleep)
      ensures Cells() == old(Cells())[x := old(Cells())[x].(next := clumps[x].next)]
    {
      forall d | 0 <= d < |clumps| && d != x ensures Cells()[d] == old(Cells())[d] {
        assert clumps[d] in clumps && clumps[d] != clumps[x];
      }
      assert clumps[x] in clumps;
    }

    /** Adds a clump to the queue: only the link of the clump before it changes. */
    method AddToQueue(elt: VIClump, ghost c: nat, ghost ids: seq<nat>)
      requires c < |clumps| && elt == clumps[c] && QueueIs(ids) && c !in ids && elt.next == null
      modifies runQueue, clumps`next
      ensures QueueIs(ids + [c])
      ensures Cells() == if ids == [] then old(Cells())
                         else var x := ids[|ids| - 1]; old(Cells())[x := old(Cells())[x].(next := clumps[c])]
    {
      assert clumps[c] !in runQueue.Contents;
      hide Distinct, Chain;
      ghost var x := if ids == [] then c else ids[|ids| - 1];
      ghost var cells := Cells();
      assert runQueue.Last(clumps[c]) == clumps[x];
      label before:
      runQueue.Enqueue(elt);
      assert runQueue.Contents == Objects(clumps, ids + [c]);
      OneLinkChanged@before(x);
      assert ids == [] ==> Cells()[x] == cells[x];
    }

    /** Takes a clump off the queue: only its own link changes. */
    method TakeFromQueue(ghost ids: seq<nat>) returns (elt: VIClump?)
      requires QueueIs(ids)
      modifies runQueue, clumps`next
      ensures ids == [] ==> elt == null && QueueIs([]) && Cells() == old(Cells())
      ensures ids != [] ==>
                var x := ids[0];
                elt == clumps[x] && QueueIs(ids[1..]) && Cells() == old(Cells())[x := old(Cells())[x].(next := null)]
    {
      hide Distinct, Chain;
      label before:
      elt := runQueue.Dequeue();
      if ids != [] {
        assert runQueue.Contents == Objects(clumps, ids[1..]);
        OneLinkChanged@before(ids[0]);
      } else {
        assert runQueue.Contents == Objects(clumps, []);
      }
    }

    /** When only fields of clump x have changed, only its cell has. */
    twostate lemma OneClumpChanged(x: nat)
      requires Distinct(clumps) && x < |clumps|
      requires forall c <- clumps :: c != clumps[x] ==> CellOf(c) == old(CellOf(c))
      ensures Cells() == old(Cells())[x := CellOf(clumps[x])]
    {
      forall d | 0 <= d < |clumps| && d != x ensures Cells()[d] == old(Cells())[d] {
        assert clumps[d] in clumps && clumps[d] != clumps[x];
      }
    }

    /** Queues clump c, which is in no list. */
    method EnqueueRunQueue(elt: VIClump, ghost c: nat, ghost s: State, ghost running: Option<nat>)
      requires c < |clumps| && elt == clumps[c] && Holds(s, running)
      requires elt.next == null && elt.shortCount == 0
      requires s.clumps[c].place != Queued && !s.clumps[c].place.Asleep?
      requires forall t :: 0 <= t < |s.clumps| ==> c !in s.clumps[t].waiters
      modifies runQueue, clumps`next
      ensures Holds(Enqueue(s, c), running)
      ensures Cells() == if s.runQ == [] then old(Cells())
                         else var x := s.runQ[|s.runQ| - 1]; old(Cells())[x := old(Cells())[x].(next := clumps[c])]
    {
      ghost var cells := Cells();
      assert Fields(clumps, cells, s, running, c);
      AddToQueue(elt, c, s.runQ);
      EnqueueRepresents(clumps, cells, s, running, c, Cells());
    }

    /** The queue is as before when no link has changed. */
    twostate lemma QueueKept(ids: seq<nat>)
      requires old(QueueIs(ids))
      requires unchanged(runQueue) && forall i :: 0 <= i < |runQueue.Contents| ==> runQueue.Contents[i].next == old(runQueue.Contents[i].next)
      ensures QueueIs(ids)
    {
      hide Distinct, InRange, Objects;
    }

    lemma NotQueued(c: nat, ids: seq<nat>)
      requires c < |clumps| && QueueIs(ids) && c !in ids
      ensures forall i :: 0 <= i < |runQueue.Contents| ==> runQueue.Contents[i] != clumps[c]
    {}

    // Assignments to one field of a clump: only its cell changes.

    method SavePc(elt: VIClump, pc: nat, ghost c: nat, ghost ids: seq<nat>)
      requires c < |clumps| && elt == clumps[c] && QueueIs(ids)
      modifies clumps`savePc
      ensures QueueIs(ids) && Cells() == old(Cells())[c := old(Cells())[c].(savePc := pc)]
    {
      hide Chain, Distinct, InRange, Objects;
      label before:
      elt.savePc := pc;
      QueueKept@before(ids);
      OneClumpChanged@before(c);
    }

    method SetShortCount(elt: VIClump, n: nat, ghost c: nat, ghost ids: seq<nat>)
      requires c < |clumps| && elt == clumps[c] && QueueIs(ids)
      modifies clumps`shortCount
      ensures QueueIs(ids) && Cells() == old(Cells())[c := old(Cells())[c].(shortCount := n)]
    {
      hide Chain, Distinct, InRange, Objects;
      label before:
      elt.shortCount := n;
      QueueKept@before(ids);
      OneClumpChanged@before(c);
    }

    method SetCaller(elt: VIClump, caller: VIClump?, ghost c: nat, ghost ids: seq<nat>)
      requires c < |clumps| && elt == clumps[c] && QueueIs(ids)
      modifies clumps`caller
      ensures QueueIs(ids) && Cells() == old(Cells())[c := old(Cells())[c].(caller := caller)]
    {
      hide Chain, Distinct, InRange, Objects;
      label before:
      elt.caller := caller;
      QueueKept@before(ids);
      OneClumpChanged@before(c);
    }

    method SetAsleep(elt: VIClump, asleep: bool, ghost c: nat, ghost ids: seq<nat>)
      requires c < |clumps| && elt == clumps[c] && QueueIs(ids)
      modifies clumps`asleep
      ensures QueueIs(ids) && Cells() == old(Cells())[c := old(Cells())[c].(asleep := asleep)]
    {
      hide Chain, Distinct, InRange, Objects;
      label before:
      elt.asleep := asleep;
      QueueKept@before(ids);
      OneClumpChanged@before(c);
    }

    method SetWaiting(elt: VIClump, head: VIClump?, ghost c: nat, ghost ids: seq<nat>)
      requires c < |clumps| && elt == clumps[c] && QueueIs(ids)
      modifies clumps`waitingClumps
      ensures QueueIs(ids) && Cells() == old(Cells())[c := old(Cells())[c].(waitingClumps := head)]
    {
      hide Chain, Distinct, InRange, Objects;
      label before:
      elt.waitingClumps := head;
      QueueKept@before(ids);
      OneClumpChanged@before(c);
    }

    method SetNext(elt: VIClump, next: VIClump?, ghost c: nat, ghost ids: seq<nat>)
      requires c < |clumps| && elt == clumps[c] && QueueIs(ids) && c !in ids
      modifies clumps`next
      ensures QueueIs(ids) && Cells() == old(Cells())[c := old(Cells())[c].(next := next)]
    {
      hide Chain, Distinct, InRange, Objects;
      NotQueued(c, ids);
      label before:
      elt.next := next;
      QueueKept@before(ids);
      OneClumpChanged@before(c);
    }

    /** VIClump::Trigger. */
    method TriggerElt(elt: VIClump, ghost t: nat, ghost s: State, ghost running: Option<nat>)
      requires t < |clumps| && elt == clumps[t] && Holds(s, running) && s.clumps[t].place == Untriggered
      requires elt.shortCount > 0
      modifies runQueue, clumps`next, clumps`shortCount
      ensures s.clumps[t].shortCount > 0 && Holds(TriggerClump(s, t), running)
    {
      hide Represents, QueueIs;
      DecrementRepresents(clumps, Cells(), s, running, t);
      SetShortCount(elt, elt.shortCount - 1, t, s.runQ);
      ghost var s1 := Decrement(s, t);
      if elt.shortCount == 0 {
        EnqueueRunQueue(elt, t, s1, running);
        BookkeepingRepresents(clumps, Cells(), Enqueue(s1, t), running, TriggerClump(s, t));
      }
    }

    /** VIClump::InsertIntoWaitList, for the running clump r. */
    method InsertIntoWaitList(target: VIClump, elt: VIClump, ghost t: nat, ghost r: nat, ghost s: State, ghost pc: nat)
      requires t < |clumps| && target == clumps[t] && r < |clumps| && elt == clumps[r]
      requires Holds(s, Some(r)) && s.clumps[r].place == Running
      modifies clumps`next, clumps`waitingClumps
      ensures Holds(Block(s, r, t, true, pc), Some(r))
    {
      ghost var cells := Cells();
      assert Fields(clumps, cells, s, Some(r), r) && r !in s.runQ;
      hide Represents, QueueIs, ListOf, Separate, Linked;
      assert elt.next == null;  // asserted by the source
      SetNext(elt, target.waitingClumps, r, s.runQ);
      SetWaiting(target, elt, t, s.runQ);
      InsertRepresents(clumps, cells, s, r, t, pc, Cells());
    }

    /** The walk to the end of a wait list. */
    method LastWaiting(target: VIClump, ghost t: nat, ghost q: seq<nat>) returns (waiting: VIClump)
      requires t < |clumps| && target == clumps[t] && Linked(clumps, Cells(), target.waitingClumps, q) && q != []
      ensures waiting == clumps[q[|q| - 1]]
    {
      ghost var cells := Cells();
      waiting := target.waitingClumps;
      ghost var j := 0;
      OnlyLastIsNull(clumps, cells, waiting, q);
      while waiting.next != null
        invariant 0 <= j < |q| && waiting == clumps[q[j]] && cells[q[j]].next == waiting.next
        decreases |q| - j
      {
        waiting := waiting.next;
        j := j + 1;
      }
    }

    /** Links elt behind the clumps q that wait for target. */
    method LinkAtEnd(target: VIClump, elt: VIClump, ghost t: nat, ghost r: nat, ghost q: seq<nat>, ghost ids: seq<nat>)
      requires t < |clumps| && target == clumps[t] && r < |clumps| && elt == clumps[r] && QueueIs(ids)
      requires Linked(clumps, Cells(), target.waitingClumps, q) && (q == [] <==> target.waitingClumps == null)
      requires q != [] ==> q[|q| - 1] < |clumps| && q[|q| - 1] !in ids
      modifies clumps`next, clumps`waitingClumps
      ensures QueueIs(ids)
      ensures forall i :: 0 <= i < |clumps| ==> Cells()[i] == AppendedCell(clumps, old(Cells()), q, r, t, i)
    {
      hide Linked, QueueIs;
      if target.waitingClumps == null {
        SetWaiting(target, elt, t, ids);
      } else {
        var waiting := LastWaiting(target, t, q);
        SetNext(waiting, elt, q[|q| - 1], ids);
      }
    }

    /** VIClump::AppendToWaitList, for the running clump r. */
    method AppendToWaitList(target: VIClump, elt: VIClump, ghost t: nat, ghost r: nat, ghost s: State, ghost pc: nat)
      requires t < |clumps| && target == clumps[t] && r < |clumps| && elt == clumps[r]
      requires Holds(s, Some(r)) && s.clumps[r].place == Running
      modifies clumps`next, clumps`waitingClumps
      ensures Holds(Block(s, r, t, false, pc), Some(r))
    {
      ghost var cells := Cells();
      BeforeAppend(clumps, cells, s, r, t);
      hide Represents, Linked, QueueIs, AppendedCell;
      assert elt.next == null;  // asserted by the source
      LinkAtEnd(target, elt, t, r, s.clumps[t].waiters, s.runQ);
      AppendRepresents(clumps, cells, s, r, t, pc, Cells());
    }

    /** Suspends the running clump r at pc and runs the next one, if there is one; f is the state in which
        r has been vacated.  The result is the instruction to go on with, -1 for the cul-de-sac. */
    method SuspendRunningQueueElt(pc: nat, ghost r: nat, ghost f: State) returns (next: int)
      requires r < |clumps| && runningQueueElt == clumps[r] && Holds(f, Some(r))
      requires f.clumps[r].pc == pc && f.clumps[r].place != Running
      modifies this`runningQueueElt, this`breakoutCount, runQueue, clumps`next, clumps`savePc
      ensures f.runQ != [] ==> f.runQ[0] < |f.clumps|
      ensures Holds(Dispatch(f), Dispatch(f).running) && RunningIs(Dispatch(f).running)
      ensures next == NextPc(Dispatch(f)) && GivesUp(next, old(breakoutCount), false)
    {
      ghost var cells := Cells();
      hide Represents, QueueIs;
      SuspendRepresents(clumps, cells, f, r, pc);
      SavePc(runningQueueElt, pc, r, f.runQ);
      runningQueueElt := TakeFromQueue(f.runQ);
      if runningQueueElt == null {
        assert Represents(clumps, Cells(), Dispatch(f), None);
        breakoutCount := 0;
        next := -1;
      } else {
        assert Represents(clumps, Cells(), Dispatch(f), Some(f.runQ[0]));
        next := runningQueueElt.savePc;
      }
    }

    // The instructions.  pc is the instruction being executed, the result the one to go on with.

    /** Carries on at pc without suspending the running clump. */
    ghost method GoOn(s: State, r: nat, pc: nat)
      requires r < |clumps| && s.running == Some(r) && Holds(s, Some(r)) && RunningIs(Some(r))
      requires Inv(program, s) && pc < |program.code[r]|
      modifies this`st
      ensures Valid() && st == Advance(s, r, pc) && NextPc(st) == pc
    {
      AdvanceKeeps(program, s, r, pc);
      AdvanceRepresents(clumps, Cells(), s, r, pc);
      st := Advance(s, r, pc);
    }

    /** Suspends the running clump and enters the state the state machine gives. */
    method Leave(pc: nat, ghost r: nat, ghost f: State) returns (next: int)
      requires r < |clumps| && runningQueueElt == clumps[r] && Holds(f, Some(r))
      requires r < |f.clumps| && f.clumps[r].pc == pc && f.clumps[r].place != Running
      requires (f.runQ != [] ==> f.runQ[0] < |f.clumps|) && Inv(program, Dispatch(f))
      modifies this, runQueue, clumps`next, clumps`savePc
      ensures Valid() && st == Dispatch(f) && next == NextPc(st) && GivesUp(next, old(breakoutCount), false)
    {
      hide Inv, Represents, QueueIs;
      next := SuspendRunningQueueElt(pc, r, f);
      st := Dispatch(f);
    }

    method Trigger(target: VIClump, pc: nat, ghost t: nat, ghost r: nat) returns (next: nat)
      requires Valid() && st.running == Some(r) && st.clumps[r].pc == pc && Current(program, st) == Instr.Trigger(t)
      requires t < |clumps| && target == clumps[t] && target.shortCount > 0
      modifies this`st, runQueue, clumps`next, clumps`shortCount
      ensures Valid() && old(!Faults(program, st)) && st == Execute(program, old(st), 0) && next == NextPc(st)
    {
      hide Inv, Execute, Faults, Current, Represents, QueueIs, Advance, TriggerClump;
      CellTells(clumps, Cells(), st, Some(r), t);
      TriggerStep(program, st, r, t);
      ghost var s := st;
      TriggerElt(target, t, s, Some(r));
      next := pc + 1;
      GoOn(TriggerClump(s, t), r, pc + 1);
    }

    method Wait(target: VIClump, pc: nat, ghost t: nat, ghost r: nat) returns (next: int)
      requires Valid() && st.running == Some(r) && st.clumps[r].pc == pc && Current(program, st) == Instr.Wait(t)
      requires t < |clumps| && target == clumps[t]
      modifies this, runQueue, clumps`next, clumps`savePc, clumps`waitingClumps
      ensures Valid() && st == Execute(program, old(st), 0) && next == NextPc(st) && GivesUp(next, old(breakoutCount), false)
    {
      hide Inv, Execute, Current, Represents, QueueIs, Block, Dispatch, Advance, Faults;
      CellTells(clumps, Cells(), st, Some(r), t);
      ClumpTells(t, st.runQ);
      WaitStep(program, st, r, t);
      ghost var s := st;
      if target.shortCount == target.fireCount {
        next := pc + 1;
        GoOn(s, r, pc + 1);
      } else {
        InsertIntoWaitList(target, runningQueueElt, t, r, s, pc + 1);
        next := Leave(pc + 1, r, Block(s, r, t, true, pc + 1));
      }
    }

    method CallVI(target: VIClump, pc: nat, ghost t: nat, ghost r: nat) returns (next: int)
      requires Valid() && st.running == Some(r) && st.clumps[r].pc == pc && Current(program, st) == Instr.CallVI(t)
      requires t < |clumps| && target == clumps[t]
      modifies this, runQueue, clumps`next, clumps`savePc, clumps`waitingClumps, clumps`caller, clumps`shortCount
      ensures Valid() && st == Execute(program, old(st), 0) && next == NextPc(st) && GivesUp(next, old(breakoutCount), false)
    {
      hide Inv, Execute, Current, Represents, QueueIs, Block, Dispatch, Faults, Link, TriggerClump, WithCaller;
      ghost var s := st;
      CellTells(clumps, Cells(), s, Some(r), t);
      CallStep(program, s, r, t);
      if target.shortCount > 0 {
        assert target.shortCount == 1;
        assert target.caller == null;
        CallerRepresents(clumps, Cells(), s, Some(r), t, Some(r));
        SetCaller(target, runningQueueElt, t, s.runQ);
        // Copying the parameters in is not part of this model.
        TriggerElt(target, t, WithCaller(s, t, Some(r)), Some(r));
        LinkRepresents(clumps, Cells(), s, r, t);
        next := Leave(pc, r, Link(TriggerClump(s, t), r, t));
      } else {
        AppendToWaitList(target, runningQueueElt, t, r, s, pc);
        next := Leave(pc, r, Block(s, r, t, false, pc));
      }
    }

    /** The part of Done that lets the caller proceed. */
    method ReturnToCaller(elt: VIClump, ghost r: nat, ghost s: State)
      requires r < |clumps| && elt == clumps[r] && Holds(s, Some(r)) && At(program, s, r, Instr.Done)
      modifies runQueue, clumps`next, clumps`savePc, clumps`caller
      ensures Holds(Return(s, r), Some(r))
    {
      hide Inv, Current, Represents, QueueIs, Return, WithCaller, Advance;
      CellTells(clumps, Cells(), s, Some(r), r);
      ReturnStep(program, s, r);
      var callerClump := elt.caller;
      if callerClump != null {
        ghost var k := s.clumps[r].caller.value;
        CellTells(clumps, Cells(), s, Some(r), k);
        SaveRepresents(clumps, Cells(), s, r, k, s.clumps[k].pc + 1);
        // Copying the results out is not part of this model.
        SavePc(callerClump, callerClump.savePc + 1, k, s.runQ);
        ghost var s1 := Advance(s, k, s.clumps[k].pc + 1);
        CallerRepresents(clumps, Cells(), s1, Some(r), r, None);
        SetCaller(elt, null, r, s1.runQ);
        EnqueueRunQueue(callerClump, k, WithCaller(s1, r, None), Some(r));
        ReturnRepresents(clumps, Cells(), s, r, k);
      }
    }

    /** Takes the first of the clumps that waited for r out of its chain and queues it. */
    method QueueWaiter(elt: VIClump, ghost r: nat, ghost s: State, ghost q: seq<nat>) returns (rest: VIClump?)
      requires Holds(s, Some(r)) && Linked(clumps, Cells(), elt, q) && Loose(s, q, r)
      requires q != [] && q[0] < |clumps| && elt == clumps[q[0]] && q[0] < |s.clumps| && InRange(|s.clumps|, q)
      modifies runQueue, clumps`next
      ensures Holds(Enqueue(s, q[0]), Some(r)) && Linked(clumps, Cells(), rest, q[1..])
      ensures Loose(Enqueue(s, q[0]), q[1..], r) && InRange(|Enqueue(s, q[0]).clumps|, q[1..])
      ensures EnqueueAll(s, q) == EnqueueAll(Enqueue(s, q[0]), q[1..])
    {
      hide Represents, QueueIs, EnqueueAll, Loose, Linked, Enqueue;
      LooseFirst(clumps, Cells(), s, elt, q, r);
      rest := elt.next;
      SetNext(elt, null, q[0], s.runQ);
      ghost var cells := Cells();
      EnqueueRunQueue(elt, q[0], s, Some(r));
      LooseNext(clumps, cells, Cells(), s, rest, q, r);
    }

    /** Queues the clumps q of a disconnected wait list, in order. */
    method QueueWaiters(head: VIClump?, ghost r: nat, ghost s: State, ghost q: seq<nat>)
      requires Holds(s, Some(r)) && Linked(clumps, Cells(), head, q) && Loose(s, q, r) && InRange(|s.clumps|, q)
      modifies this`breakoutCount, runQueue, clumps`next
      ensures Holds(EnqueueAll(s, q), Some(r)) && breakoutCount == if q != [] then 0 else old(breakoutCount)
    {
      hide Represents, QueueIs, EnqueueAll, Loose, Linked, Enqueue;
      var waitingClump := head;
      ghost var cur, rest := s, q;
      while waitingClump != null
        invariant Holds(cur, Some(r)) && Linked(clumps, Cells(), waitingClump, rest) && Loose(cur, rest, r)
        invariant InRange(|cur.clumps|, rest) && EnqueueAll(cur, rest) == EnqueueAll(s, q)
        invariant breakoutCount == if |rest| < |q| then 0 else old(breakoutCount)
        invariant |rest| <= |q|
        decreases |rest|
      {
        LooseFirst(clumps, Cells(), cur, waitingClump, rest, r);
        waitingClump := QueueWaiter(waitingClump, r, cur, rest);
        cur, rest := Enqueue(cur, rest[0]), rest[1..];
        breakoutCount := 0;
      }
      LooseNone(clumps, Cells(), cur, rest);
    }

    /** The part of Done that queues the clumps that wait for this one. */
    method DrainWaiters(elt: VIClump, ghost r: nat, ghost s: State)
      requires r < |clumps| && elt == clumps[r] && Holds(s, Some(r)) && Inv(program, s) && s.running == Some(r)
      modifies this`breakoutCount, runQueue, clumps`next, clumps`waitingClumps
      ensures r < |s.clumps| && Holds(Drain(s, r), Some(r))
      ensures breakoutCount == if s.clumps[r].waiters != [] then 0 else old(breakoutCount)
    {
      hide Inv, Represents, QueueIs, Drain, Disconnect, EnqueueAll, Loose, Linked, Enqueue;
      CellTells(clumps, Cells(), s, Some(r), r);
      DrainByOne(program, s, r);
      DrainStart(program, clumps, Cells(), s, r);
      var waitingClump := elt.waitingClumps;
      SetWaiting(elt, null, r, s.runQ);
      QueueWaiters(waitingClump, r, Disconnect(s, r), s.clumps[r].waiters);
    }

    method Done(pc: nat, ghost r: nat) returns (next: int)
      requires Valid() && st.running == Some(r) && st.clumps[r].pc == pc && Current(program, st) == Instr.Done
      modifies this, runQueue, clumps`next, clumps`savePc, clumps`waitingClumps, clumps`caller, clumps`shortCount
      ensures Valid() && st == Execute(program, old(st), 0) && next == NextPc(st) && GivesUp(next, old(breakoutCount), old(st.clumps[r].waiters != []))
    {
      hide Inv, Execute, Current, Represents, QueueIs, Return, Drain, Dispatch, Faults, Reset, Finish;
      ghost var s := st;
      CellTells(clumps, Cells(), s, Some(r), r);
      DoneStep(program, s, r);
      ReturnStep(program, s, r);
      ReturnToCaller(runningQueueElt, r, s);
      DrainWaiters(runningQueueElt, r, Return(s, r));
      ghost var s2 := Drain(Return(s, r), r);
      ClumpTells(r, s2.runQ);
      ResetRepresents(clumps, Cells(), s2, r, program.fire[r]);
      SetShortCount(runningQueueElt, runningQueueElt.fireCount, r, s2.runQ);
      next := Leave(0, r, Reset(s2, r, program.fire[r]));
    }

    /** An instruction that puts the running clump to sleep until an observed object wakes it. */
    method Sleep(resumeAt: nat, ghost pc: nat, ghost r: nat) returns (next: int)
      requires Valid() && st.running == Some(r) && st.clumps[r].pc == pc && Current(program, st) == Instr.Sleep
      requires resumeAt < |runningQueueElt.code|
      modifies this, runQueue, clumps`next, clumps`savePc, clumps`asleep
      ensures Valid() && st == Execute(program, old(st), resumeAt) && next == NextPc(st) && GivesUp(next, old(breakoutCount), false)
    {
      hide Inv, Execute, Current, Represents, QueueIs, Vacate, Dispatch, Faults;
      ghost var s := st;
      ClumpTells(r, s.runQ);
      CellTells(clumps, Cells(), s, Some(r), r);
      SleepStep(program, s, r, resumeAt);
      SleepRepresents(clumps, Cells(), s, r, resumeAt);
      SetAsleep(runningQueueElt, true, r, s.runQ);
      next := Leave(resumeAt, r, Vacate(s, r, Asleep, resumeAt));
    }

    /** The dispatch through an instruction's function pointer.  choice is where a plain or a sleeping
        instruction goes on.  The one assert that can fail is that of Trigger: then the result says so. */
    method ExecuteInstruction(pc: nat, choice: nat, ghost r: nat) returns (next: int, fault: bool)
      requires Valid() && st.running == Some(r) && st.clumps[r].pc == pc
      modifies this, runQueue, clumps
      ensures Valid() && fault == old(Faults(program, st)) && GivesUp(next, old(breakoutCount), old(Current(program, st).Done? && st.clumps[r].waiters != []))
      ensures if fault then st == old(st) else st == Execute(program, old(st), choice) && next == NextPc(st)
    {
      hide Represents, QueueIs, Execute, Inv, ListOf;
      InstructionAt(r);
      match runningQueueElt.code[pc]
      case Trigger(t) =>
        CellTells(clumps, Cells(), st, Some(r), t);
        next, fault := 0, clumps[t].shortCount == 0;
        if !fault {
          ChoiceIgnored(program, st, choice);
          next := Trigger(clumps[t], pc, t, r);
        }
      case Wait(t) =>
        ChoiceIgnored(program, st, choice);
        fault := false;
        next := Wait(clumps[t], pc, t, r);
      case CallVI(t) =>
        ChoiceIgnored(program, st, choice);
        fault := false;
        next := CallVI(clumps[t], pc, t, r);
      case Done =>
        ChoiceIgnored(program, st, choice);
        fault := false;
        next := Done(pc, r);
      case Sleep =>
        var resumeAt := if choice < |runningQueueElt.code| then choice else pc;
        SleepChoice(program, st, choice);
        fault := false;
        next := Sleep(resumeAt, pc, r);
      case Plain =>
        next, fault := if choice < |runningQueueElt.code| then choice else pc + 1, false;
        PlainStep(program, st, choice);
        GoOn(st, r, next);
    }

    /** What the running clump and its instruction are. */
    lemma InstructionAt(r: nat)
      requires Valid() && st.running == Some(r)
      ensures |program.code| == |clumps| == |st.clumps| && r < |clumps| && runningQueueElt == clumps[r]
      ensures runningQueueElt.code == program.code[r] && st.clumps[r].pc < |program.code[r]|
      ensures var instr := Current(program, st);
              && instr == program.code[r][st.clumps[r].pc]
              && (instr.Trigger? || instr.Wait? || instr.CallVI? ==> instr.target < |clumps|)
      ensures runningQueueElt.next == null && runningQueueElt.shortCount == 0
    {
      AtBasics(program, st, r, Current(program, st));
      CellTells(clumps, Cells(), st, Some(r), r);
      ClumpTells(r, st.runQ);
    }

    /** Takes the next clump off the run queue. */
    method PickNext() returns (next: int)
      requires Valid() && st.running.None?
      modifies this`st, this`runningQueueElt, runQueue, clumps`next
      ensures Valid() && st == Dispatch(old(st)) && next == NextPc(st)
    {
      hide Represents, QueueIs, Inv;
      ghost var s, cells := st, Cells();
      DispatchKeeps(program, s);
      PickRepresents(clumps, cells, s);
      runningQueueElt := TakeFromQueue(s.runQ);
      st := Dispatch(s);
      next := -1;
      if runningQueueElt != null {
        next := runningQueueElt.savePc;
      }
    }

    /** Saves the place of the running clump and puts it at the end of the run queue. */
    method Requeue(current: nat, ghost r: nat)
      requires Valid() && st.running == Some(r) && current == NextPc(st)
      modifies this`st, this`runningQueueElt, runQueue, clumps`next, clumps`savePc
      ensures Valid() && st == Scheduler.Requeue(old(st), r)
    {
      hide Represents, QueueIs, Inv;
      ghost var s, cells := st, Cells();
      RequeueKeeps(program, s, r);
      RequeueRepresents(program, clumps, cells, s, r);
      SavePc(runningQueueElt, current, r, s.runQ);
      var eltToReQueue := runningQueueElt;
      runningQueueElt := null;
      ghost var saved := Cells();
      AddToQueue(eltToReQueue, r, s.runQ);
      EnqueueRepresents(clumps, saved, s, None, r, Cells());
      st := Scheduler.Requeue(s, r);
      BookkeepingRepresents(clumps, Cells(), Enqueue(s, r), None, st);
    }

    /** An observed object wakes clump c. */
    method WakeUp(elt: VIClump, ghost c: nat)
      requires Valid() && c < |clumps| && elt == clumps[c] && elt.asleep
      modifies this`st, runQueue, clumps`next, clumps`asleep
      ensures Valid() && c < |old(st).clumps| && old(st).clumps[c].place == Asleep && st == Enqueue(old(st), c)
    {
      hide Represents, QueueIs, Inv;
      ghost var s := st;
      CellTells(clumps, Cells(), s, s.running, c);
      WakeKeeps(program, s, c);
      WakeRepresents(program, clumps, Cells(), s, c);
      SetAsleep(elt, false, c, s.runQ);
      EnqueueRunQueue(elt, c, Move(s, c, Untriggered), s.running);
      st := Enqueue(s, c);
      assert Enqueue(Move(s, c, Untriggered), c) == st;
    }

    /** Wakes the sleepers among the given clumps: timers that are due, or objects that have changed. */
    method WakeDue(due: seq<nat>, ghost s0: State, ghost before: seq<Action>) returns (ghost actions: seq<Action>)
      requires Valid() && Inv(program, s0) && Reaches(program, s0, before, st)
      modifies this`st, runQueue, clumps`next, clumps`asleep
      ensures Valid() && Reaches(program, s0, actions, st)
      ensures st.running == old(st.running) && NextPc(st) == old(NextPc(st)) && Executed(actions) == Executed(before)
      ensures |st.clumps| == |clumps| && forall c <- due :: c < |clumps| ==> st.clumps[c].place != Asleep
      ensures old(st.runQ) <= st.runQ
    {
      hide Represents, QueueIs, Inv, Reaches, Executed;
      SameSize();
      actions := before;
      for i := 0 to |due|
        invariant Valid() && Reaches(program, s0, actions, st) && Executed(actions) == Executed(before)
        invariant old(st.runQ) <= st.runQ && |st.clumps| == |clumps|
        invariant forall j :: 0 <= j < i && due[j] < |clumps| ==> st.clumps[due[j]].place != Asleep
        invariant st.running == old(st.running) && NextPc(st) == old(NextPc(st))
      {
        ghost var s := st;
        if due[i] < |clumps| {
          CellTells(clumps, Cells(), s, s.running, due[i]);
        }
        if due[i] < |clumps| && clumps[due[i]].asleep {
          WakeUp(clumps[due[i]], due[i]);
          ReachesOneMore(program, s0, actions, s, Wake(due[i]));
          WakeAside(program, s, due[i]);
          ExecutedMore(actions, Wake(due[i]));
          actions := actions + [Wake(due[i])];
        }
      }
    }

    /** VirtualInstrument::PressGo on the root clump c of a VI.  Its assert fails when the clump is idle and does
        not start with its first trigger. */
    method PressGo(elt: VIClump, ghost c: nat) returns (fault: bool)
      requires Valid() && c < |clumps| && elt == clumps[c]
      modifies this`st, runQueue, clumps`next, clumps`shortCount
      ensures Valid() && c < |old(st).clumps| && c < |program.fire|
      ensures fault <==> old(st).clumps[c].shortCount >= 1 && program.fire[c] != 1
      ensures st == if fault || old(st).clumps[c].shortCount < 1 then old(st) else TriggerClump(old(st), c)
    {
      hide Represents, QueueIs, Inv, TriggerClump;
      CellTells(clumps, Cells(), st, st.running, c);
      ClumpTells(c, st.runQ);
      if elt.shortCount < 1 {
        return false;
      }
      if elt.fireCount != 1 {
        return true;
      }
      fault := false;
      ghost var s := st;
      PressStep(program, s, c);
      TriggerElt(elt, c, s, s.running);
      st := TriggerClump(s, c);
    }

    /** Runs clumps in slices of numSlices + 1 instructions until nothing is left to run or the time, here
        counted in slices, is up.  What it does is a run of the state machine; actions is that run, and slices the
        number of slices begun.  Clumps are left in the run queue only when all the time has been used. */
    method ExecuteSlices(numSlices: int, slicesOfTime: nat) returns (reply: SlicesResult, ghost actions: seq<Action>, ghost slices: nat)
      requires Valid() && st.running.None?
      modifies this, runQueue, clumps
      ensures Valid() && Reaches(program, old(st), actions, st)
      ensures reply.AssertFailed? ==> st.running.Some? && Faults(program, st)
      ensures !reply.AssertFailed? ==> st.running.None? && (reply == ClumpsInRunQueue <==> st.runQ != [])
      ensures reply == ClumpsInRunQueue ==> slices == slicesOfTime + 1
      ensures slices <= slicesOfTime + 1 && (old(st).runQ != [] ==> slices >= 1)
      ensures (if reply.AssertFailed? then slices - 1 else slices) <= Executed(actions)
    {
      hide Represents, QueueIs, Inv, Reaches, Faults, Executed, Ends, CutsShort;
      ghost var s0 := st;
      ReachesStart(program, s0);
      NothingExecuted();
      var due: seq<nat> := *;
      actions := WakeDue(due, s0, []);
      var current: int;
      current, actions := PickInRun(s0, actions);
      RunningHere();
      var timeLeft: nat := slicesOfTime;
      slices := 0;
      while runningQueueElt != null
        invariant Valid() && Reaches(program, s0, actions, st) && current == NextPc(st)
        invariant slices <= Executed(actions) && slices + timeLeft <= slicesOfTime + 1
        invariant runningQueueElt != null ==> slices + timeLeft == slicesOfTime
        invariant runningQueueElt == null ==> st.runQ == [] || slices == slicesOfTime + 1
        invariant runningQueueElt == null && old(st).runQ != [] ==> slices >= 1
        decreases timeLeft, runningQueueElt != null
      {
        ghost var n, last, choice;
        var fault: bool;
        slices := slices + 1;
        current, fault, actions, n, last, choice := RunSlice(current, numSlices, s0, actions);
        if fault {
          return AssertFailed, actions, slices;
        }
        due := *;
        actions := WakeDue(due, s0, actions);
        current, actions := EndSlice(current, timeLeft > 0, s0, actions);
        timeLeft := if timeLeft > 0 then timeLeft - 1 else 0;
      }
      reply := ClumpsFinished;
      if !runQueue.IsEmpty() {
        reply := ClumpsInRunQueue;
      }
      EmptyWhenIdle();
      RunningHere();
    }

    lemma EmptyWhenIdle()
      requires Valid()
      ensures runQueue.IsEmpty() <==> st.runQ == []
    {}

    method PickInRun(ghost s0: State, ghost before: seq<Action>) returns (next: int, ghost actions: seq<Action>)
      requires Valid() && st.running.None? && Inv(program, s0) && Reaches(program, s0, before, st)
      modifies this`st, this`runningQueueElt, runQueue, clumps`next
      ensures Valid() && Reaches(program, s0, actions, st) && st == Dispatch(old(st)) && next == NextPc(st)
      ensures actions == before + [Pick] && Executed(actions) == Executed(before)
    {
      hide Represents, QueueIs, Inv, Reaches;
      ExecutedMore(before, Pick);
      ghost var s := st;
      next := PickNext();
      ReachesOneMore(program, s0, before, s, Pick);
      actions := before + [Pick];
    }

    /** One slice: the inner loop, which executes numSlices + 1 instructions, but at least one, unless an instruction
        cuts it short: one that leaves nothing to run, or a Done that queues waiting clumps.  n is the number
        executed, and the last one, in state last, the reason when there are fewer. */
    method RunSlice(first: int, numSlices: int, ghost s0: State, ghost before: seq<Action>)
      returns (current: int, fault: bool, ghost actions: seq<Action>, ghost n: nat, ghost last: State, ghost choice: nat)
      requires Valid() && runningQueueElt != null && first == NextPc(st) && Inv(program, s0) && Reaches(program, s0, before, st)
      modifies this, runQueue, clumps
      ensures Valid() && Reaches(program, s0, actions, st) && Executed(actions) == Executed(before) + n
      ensures n <= InSlice(numSlices)
      ensures if fault then n < InSlice(numSlices) && st.running.Some? && Faults(program, st) else current == NextPc(st)
      ensures !fault ==> n >= 1 && Ends(program, s0, actions, last, choice) && (n == InSlice(numSlices) || CutsShort(program, last, choice))
    {
      hide Represents, QueueIs, Inv, Reaches, Faults, Execute, Executed, Ends, CutsShort, Current;
      RunningHere();
      breakoutCount := numSlices;
      current, actions, fault, n := first, before, false, 0;
      last, choice := st, 0;
      assert runningQueueElt.next == null && runningQueueElt.shortCount == 0;  // asserted by the source
      var again := true;
      while again
        invariant Valid() && Reaches(program, s0, actions, st) && current == NextPc(st) && !fault
        invariant again ==> runningQueueElt != null && breakoutCount == numSlices - n && (n == 0 || breakoutCount >= 0)
        invariant Executed(actions) == Executed(before) + n && (n == 0 ==> again) && n <= InSlice(numSlices)
        invariant n > 0 ==> Ends(program, s0, actions, last, choice)
        invariant !again ==> n == InSlice(numSlices) || CutsShort(program, last, choice)
        decreases again, breakoutCount
      {
        RunningHere();
        ghost var r := st.running.value;
        var due: seq<nat> := *;
        actions := WakeDue(due, s0, actions);
        ghost var s := st;
        var goOn: nat := *;
        RunningHere();
        current, fault := ExecuteInstruction(current, goOn, r);
        if fault {
          return;
        }
        EndsWith(program, s0, actions, s, goOn);
        CutsNow(program, s, goOn);
        ReachesOneMore(program, s0, actions, s, Exec(goOn));
        ExecutedMore(actions, Exec(goOn));
        actions, n, last, choice := actions + [Exec(goOn)], n + 1, s, goOn;
        RunningHere();
        again := breakoutCount > 0;
        breakoutCount := breakoutCount - 1;
      }
    }

    lemma RunningHere()
      requires Valid()
      ensures runningQueueElt != null <==> st.running.Some?
      ensures st.running.Some? ==>
                var r := st.running.value;
                && r < |clumps| == |st.clumps| && runningQueueElt == clumps[r] && NextPc(st) == st.clumps[r].pc
                && runningQueueElt.next == null && runningQueueElt.shortCount == 0
    {
      if st.running.Some? {
        InstructionAt(st.running.value);
      }
    }

    /** What happens between slices: while there is time the running clump goes behind those queued, and the next
        one runs; when not, it is put back. */
    method EndSlice(first: int, timeLeft: bool, ghost s0: State, ghost before: seq<Action>)
      returns (current: int, ghost actions: seq<Action>)
      requires Valid() && first == NextPc(st) && Inv(program, s0) && Reaches(program, s0, before, st)
      modifies this`st, this`runningQueueElt, runQueue, clumps`next, clumps`savePc
      ensures Valid() && Reaches(program, s0, actions, st) && current == NextPc(st) && Executed(actions) == Executed(before)
      ensures st == match old(st).running
                    case None => if timeLeft then Dispatch(old(st)) else old(st)
                    case Some(r) =>
                      if !timeLeft then Scheduler.Requeue(old(st), r)
                      else if old(st).runQ == [] then old(st) else Dispatch(Scheduler.Requeue(old(st), r))
      ensures !timeLeft ==> runningQueueElt == null
      ensures timeLeft && runningQueueElt == null ==> st.runQ == []
    {
      hide Represents, QueueIs, Inv, Reaches, Executed;
      current, actions := first, before;
      RunningHere();
      EmptyWhenIdle();
      QueuedHere();
      if timeLeft {
        if runningQueueElt != null {
          if !runQueue.IsEmpty() {
            actions := RequeueInRun(current, s0, actions);
            current, actions := PickInRun(s0, actions);
            RunningHere();
            assert runningQueueElt != null;
          }
        } else {
          current, actions := PickInRun(s0, actions);
          RunningHere();
        }
      } else if runningQueueElt != null {
        actions := RequeueInRun(current, s0, actions);
        current := -1;
      }
    }

    method RequeueInRun(current: int, ghost s0: State, ghost before: seq<Action>) returns (ghost actions: seq<Action>)
      requires Valid() && runningQueueElt != null && current == NextPc(st) && Inv(program, s0) && Reaches(program, s0, before, st)
      modifies this`st, this`runningQueueElt, runQueue, clumps`next, clumps`savePc
      ensures old(st).running.Some? && Valid() && Reaches(program, s0, actions, st) && st == Scheduler.Requeue(old(st), old(st).running.value)
      ensures st.running.None? && runningQueueElt == null && st.runQ != [] && st.runQ[0] < |st.clumps|
      ensures Executed(actions) == Executed(before)
    {
      hide Represents, QueueIs, Inv, Reaches;
      RunningHere();
      ghost var s := st;
      Requeue(current, s.running.value);
      ReachesOneMore(program, s0, before, s, Rotate);
      ExecutedMore(before, Rotate);
      actions := before + [Rotate];
      QueuedHere();
    }

    lemma SameSize()
      requires Valid()
      ensures |st.clumps| == |clumps|
    {}

    lemma QueuedHere()
      requires Valid()
      ensures st.runQ != [] ==> st.runQ[0] < |st.clumps|
    {}
  }

  datatype SlicesResult = ClumpsFinished | ClumpsInRunQueue | AssertFailed

  /** The instructions in a run. */
  ghost function Executed(actions: seq<Action>): nat {
    if actions == [] then 0 else Executed(actions[..|actions| - 1]) + if actions[|actions| - 1].Exec? then 1 else 0
  }

  lemma NothingExecuted()
    ensures Executed([]) == 0
  {}

  lemma ExecutedMore(actions: seq<Action>, a: Action)
    ensures Executed(actions + [a]) == Executed(actions) + if a.Exec? then 1 else 0
  {
    assert (actions + [a])[..|actions|] == actions;
  }

  /** The length of a slice in instructions. */
  function InSlice(numSlices: int): nat { if numSlices > 0 then numSlices + 1 else 1 }

  /** The instruction that the running clump of s executes leaves nothing to run, or queues waiting clumps. */
  ghost predicate CutsShort(p: Program, s: State, choice: nat) {
    && Inv(p, s) && s.running.Some? && !Faults(p, s)
    && (Execute(p, s, choice).running.None?
        || (s.running.value < |s.clumps| && Current(p, s) == Instr.Done && s.clumps[s.running.value].waiters != []))
  }

  /** The run ends with an instruction in state last. */
  ghost predicate Ends(p: Program, s0: State, actions: seq<Action>, last: State, choice: nat)
    requires Inv(p, s0)
  {
    actions != [] && actions[|actions| - 1] == Exec(choice) && Reaches(p, s0, actions[..|actions| - 1], last)
  }

  lemma EndsWith(p: Program, s0: State, actions: seq<Action>, s: State, choice: nat)
    requires Inv(p, s0) && Reaches(p, s0, actions, s)
    ensures Ends(p, s0, actions + [Exec(choice)], s, choice)
  {
    hide Inv, Reaches;
    assert (actions + [Exec(choice)])[..|actions|] == actions;
  }

  lemma CutsNow(p: Program, s: State, choice: nat)
    requires Inv(p, s) && s.running.Some? && !Faults(p, s)
    ensures s.running.value < |s.clumps|
    ensures CutsShort(p, s, choice)
            <==> Execute(p, s, choice).running.None? || (Current(p, s).Done? && s.clumps[s.running.value].waiters != [])
  {
    Look(p, s, s.running.value);
    hide Execute, Faults;
  }

  lemma ChoiceIgnored(p: Program, s: State, choice: nat)
    requires Inv(p, s) && s.running.Some? && !Current(p, s).Plain? && !Current(p, s).Sleep?
    ensures Current(p, s).Trigger? || !Faults(p, s)
    ensures !Faults(p, s) ==> Execute(p, s, choice) == Execute(p, s, 0)
  {}

  lemma SleepChoice(p: Program, s: State, choice: nat)
    requires Inv(p, s) && s.running.Some? && Current(p, s).Sleep?
    ensures var r := s.running.value;
            && r < |s.clumps| == |p.code| && !Faults(p, s) && s.clumps[r].pc < |p.code[r]|
            && Execute(p, s, choice) == Execute(p, s, if choice < |p.code[r]| then choice else s.clumps[r].pc)
  {
    Look(p, s, s.running.value);
  }

  lemma PlainStep(p: Program, s: State, choice: nat)
    requires Inv(p, s) && s.running.Some? && Current(p, s).Plain?
    ensures var r := s.running.value;
            && r < |s.clumps| == |p.code| && !Faults(p, s) && s.clumps[r].pc + 1 < |p.code[r]|
            && Execute(p, s, choice) == Advance(s, r, if choice < |p.code[r]| then choice else s.clumps[r].pc + 1)
  {
    AtBasics(p, s, s.running.value, Instr.Plain);
  }

  lemma PickRepresents(clumps: seq<VIClump>, cells: seq<Cell>, s: State)
    requires Represents(clumps, cells, s, None)
    ensures InRange(|clumps|, s.runQ) && |s.clumps| == |clumps| == |cells|
    ensures if s.runQ == [] then Represents(clumps, cells, Dispatch(s), None)
            else
              var x := s.runQ[0];
              && x < |cells| && cells[x].savePc == s.clumps[x].pc
              && Represents(clumps, cells[x := cells[x].(next := null)], Dispatch(s), Some(x))
  {
    if s.runQ == [] {
      EmptyDispatchRepresents(clumps, cells, s);
    } else {
      DequeueRepresents(clumps, cells, s);
      assert Fields(clumps, cells, s, None, s.runQ[0]);
    }
  }

  lemma RequeueRepresents(p: Program, clumps: seq<VIClump>, cells: seq<Cell>, s: State, r: nat)
    requires Inv(p, s) && s.running == Some(r) && r < |clumps| && Represents(clumps, cells, s, Some(r))
    ensures r < |cells| && r < |s.clumps| && r !in s.runQ && s.clumps[r].place == Running
    ensures var cells' := cells[r := cells[r].(savePc := s.clumps[r].pc)];
            Represents(clumps, cells', s, None) && cells'[r].next == null && !cells'[r].asleep
    ensures forall t :: 0 <= t < |s.clumps| ==> r !in s.clumps[t].waiters
    ensures Scheduler.Requeue(s, r).running.None? && |Enqueue(s, r).clumps| == |s.clumps|
  {
    Look(p, s, r);
    assert Fields(clumps, cells, s, Some(r), r) && s.clumps[r := s.clumps[r]] == s.clumps;
    UpdateRepresents(clumps, cells, s, Some(r), r, cells[r].(savePc := s.clumps[r].pc), s.clumps[r], s, None);
    forall t | 0 <= t < |s.clumps| ensures r !in s.clumps[t].waiters {
      Look(p, s, t);
    }
  }

  lemma WakeRepresents(p: Program, clumps: seq<VIClump>, cells: seq<Cell>, s: State, c: nat)
    requires Inv(p, s) && c < |clumps| && Represents(clumps, cells, s, s.running) && c < |s.clumps| && s.clumps[c].place == Asleep
    ensures c < |cells| && cells[c].next == null && cells[c].shortCount == 0
    ensures var s' := Move(s, c, Untriggered);
            && Represents(clumps, cells[c := cells[c].(asleep := false)], s', s.running)
            && s'.runQ == s.runQ && s'.clumps[c].place == Untriggered
            && forall t :: 0 <= t < |s'.clumps| ==> c !in s'.clumps[t].waiters
  {
    Look(p, s, c);
    var s' := Move(s, c, Untriggered);
    assert Fields(clumps, cells, s, s.running, c);
    UpdateRepresents(clumps, cells, s, s.running, c, cells[c].(asleep := false), s'.clumps[c], s', s.running);
    forall t | 0 <= t < |s.clumps| ensures c !in s'.clumps[t].waiters {
      Look(p, s, t);
    }
  }

  /** A wake-up does not disturb the running clump. */
  lemma WakeAside(p: Program, s: State, c: nat)
    requires Inv(p, s) && c < |s.clumps| && s.clumps[c].place == Asleep
    ensures Enqueue(s, c).running == s.running && NextPc(Enqueue(s, c)) == NextPc(s)
  {}

  lemma PressStep(p: Program, s: State, c: nat)
    requires Inv(p, s) && c < |s.clumps| && s.clumps[c].shortCount > 0
    ensures s.clumps[c].place == Untriggered && Inv(p, TriggerClump(s, c)) && TriggerClump(s, c).running == s.running
    ensures s.running != Some(c)
  {
    Look(p, s, c);
    TriggerKeeps(p, s, c);
  }

  lemma ReachesStart(p: Program, s: State)
    requires Inv(p, s)
    ensures Reaches(p, s, [], s)
  {}

  ghost function WithCaller(s: State, t: nat, k: Option<nat>): State
    requires t < |s.clumps|
  {
    Put(s, t, s.clumps[t].(caller := k))
  }

  lemma CallerRepresents(clumps: seq<VIClump>, cells: seq<Cell>, s: State, running: Option<nat>, t: nat, k: Option<nat>)
    requires Represents(clumps, cells, s, running) && t < |clumps| && (k.Some? ==> k.value < |clumps|)
    ensures t < |cells| && t < |s.clumps|
    ensures Represents(clumps, cells[t := cells[t].(caller := if k.None? then null else clumps[k.value])], WithCaller(s, t, k), running)
    ensures var s' := WithCaller(s, t, k);
            && s'.runQ == s.runQ && |s'.clumps| == |s.clumps|
            && (forall c :: 0 <= c < |s.clumps| ==>
                  s'.clumps[c].place == s.clumps[c].place && s'.clumps[c].shortCount == s.clumps[c].shortCount
                  && s'.clumps[c].waiters == s.clumps[c].waiters)
  {
    assert Fields(clumps, cells, s, running, t);
    var s' := WithCaller(s, t, k);
    UpdateRepresents(clumps, cells, s, running, t, cells[t].(caller := if k.None? then null else clumps[k.value]),
                     s'.clumps[t], s', running);
  }

  lemma LinkRepresents(clumps: seq<VIClump>, cells: seq<Cell>, s: State, r: nat, t: nat)
    requires r < |clumps| && t < |clumps| && |s.clumps| == |clumps|
    requires s.clumps[r].place == Running && s.clumps[t].place == Untriggered && s.clumps[t].shortCount > 0
    requires Represents(clumps, cells, TriggerClump(WithCaller(s, t, Some(r)), t), Some(r))
    ensures |TriggerClump(s, t).clumps| == |s.clumps| && Represents(clumps, cells, Link(TriggerClump(s, t), r, t), Some(r))
    ensures Link(TriggerClump(s, t), r, t).runQ == TriggerClump(WithCaller(s, t, Some(r)), t).runQ
  {
    var s1, f := TriggerClump(WithCaller(s, t, Some(r)), t), Link(TriggerClump(s, t), r, t);
    assert Fields(clumps, cells, s1, Some(r), r) && cells[r := cells[r]] == cells;
    assert f.clumps == s1.clumps[r := f.clumps[r]];
    UpdateRepresents(clumps, cells, s1, Some(r), r, cells[r], f.clumps[r], f, Some(r));
  }

  lemma SaveRepresents(clumps: seq<VIClump>, cells: seq<Cell>, s: State, r: nat, k: nat, pc: nat)
    requires Represents(clumps, cells, s, Some(r)) && k < |clumps| && k != r
    ensures k < |cells| && k < |s.clumps|
    ensures Represents(clumps, cells[k := cells[k].(savePc := pc)], Advance(s, k, pc), Some(r))
    ensures var s' := Advance(s, k, pc);
            && s'.runQ == s.runQ && |s'.clumps| == |s.clumps|
            && (forall c :: 0 <= c < |s.clumps| ==>
                  s'.clumps[c].place == s.clumps[c].place && s'.clumps[c].shortCount == s.clumps[c].shortCount
                  && s'.clumps[c].waiters == s.clumps[c].waiters)
  {
    assert Fields(clumps, cells, s, Some(r), k);
    var s' := Advance(s, k, pc);
    UpdateRepresents(clumps, cells, s, Some(r), k, cells[k].(savePc := pc), s'.clumps[k], s', Some(r));
  }

  lemma ReturnRepresents(clumps: seq<VIClump>, cells: seq<Cell>, s: State, r: nat, k: nat)
    requires r < |clumps| == |s.clumps| && k < |clumps| && k != r && s.clumps[r].caller == Some(k)
    requires Represents(clumps, cells, Enqueue(WithCaller(Advance(s, k, s.clumps[k].pc + 1), r, None), k), Some(r))
    ensures Represents(clumps, cells, Return(s, r), Some(r))
    ensures Return(s, r).runQ == Enqueue(WithCaller(Advance(s, k, s.clumps[k].pc + 1), r, None), k).runQ
  {
    var s1, s2 := Enqueue(WithCaller(Advance(s, k, s.clumps[k].pc + 1), r, None), k), Return(s, r);
    assert s1.clumps == s2.clumps;
    BookkeepingRepresents(clumps, cells, s1, Some(r), s2);
  }

  lemma ResetRepresents(clumps: seq<VIClump>, cells: seq<Cell>, s: State, r: nat, fire: nat)
    requires Represents(clumps, cells, s, Some(r)) && r < |clumps| && r < |s.clumps| && s.clumps[r].place == Running
    ensures r < |cells| && Represents(clumps, cells[r := cells[r].(shortCount := fire)], Reset(s, r, fire), Some(r))
    ensures Reset(s, r, fire).runQ == s.runQ
  {
    assert Fields(clumps, cells, s, Some(r), r);
    var s' := Reset(s, r, fire);
    UpdateRepresents(clumps, cells, s, Some(r), r, cells[r].(shortCount := fire), s'.clumps[r], s', Some(r));
  }

  lemma SleepRepresents(clumps: seq<VIClump>, cells: seq<Cell>, s: State, r: nat, pc: nat)
    requires Represents(clumps, cells, s, Some(r)) && r < |clumps| && r < |s.clumps| && s.clumps[r].place == Running
    ensures r < |cells| && Represents(clumps, cells[r := cells[r].(asleep := true)], Vacate(s, r, Asleep, pc), Some(r))
    ensures Vacate(s, r, Asleep, pc).runQ == s.runQ
  {
    assert Fields(clumps, cells, s, Some(r), r);
    var s' := Vacate(s, r, Asleep, pc);
    UpdateRepresents(clumps, cells, s, Some(r), r, cells[r].(asleep := true), s'.clumps[r], s', Some(r));
  }

  // ---------------------------------------------------------------- the loop of Done

  /** The clumps q, which waited for r, are in no list any more. */
  ghost predicate Loose(s: State, q: seq<nat>, r: nat) {
    && NoDup(q)
    && forall i :: 0 <= i < |q| ==>
         && q[i] < |s.clumps| && s.clumps[q[i]].place == Waiting(r) && s.clumps[q[i]].shortCount == 0
         && forall t :: 0 <= t < |s.clumps| ==> q[i] !in s.clumps[t].waiters
  }

  lemma DrainStart(p: Program, clumps: seq<VIClump>, cells: seq<Cell>, s: State, r: nat)
    requires Inv(p, s) && r < |clumps| && Represents(clumps, cells, s, Some(r))
    ensures r < |cells| && r < |s.clumps| && Disconnect(s, r).runQ == s.runQ && |Disconnect(s, r).clumps| == |s.clumps|
    ensures var cells' := cells[r := cells[r].(waitingClumps := null)];
            && Represents(clumps, cells', Disconnect(s, r), Some(r))
            && Linked(clumps, cells', cells[r].waitingClumps, s.clumps[r].waiters)
    ensures Loose(Disconnect(s, r), s.clumps[r].waiters, r)
  {
    assert Fields(clumps, cells, s, Some(r), r);
    DisconnectRepresents(clumps, cells, s, Some(r), r);
    LinkedElsewhere(clumps, cells, cells[r].waitingClumps, s.clumps[r].waiters, cells[r := cells[r].(waitingClumps := null)]);
    Look(p, s, r);
    var s', q := Disconnect(s, r), s.clumps[r].waiters;
    forall i | 0 <= i < |q|
      ensures s'.clumps[q[i]].place == Waiting(r) && s'.clumps[q[i]].shortCount == 0
      ensures forall t :: 0 <= t < |s.clumps| ==> q[i] !in s'.clumps[t].waiters
    {
      Look(p, s, q[i]);
      forall t | 0 <= t < |s.clumps| ensures q[i] !in s'.clumps[t].waiters {
        Look(p, s, t);
      }
    }
  }

  lemma LinkedRest(clumps: seq<VIClump>, cells: seq<Cell>, head: VIClump?, q: seq<nat>)
    requires Linked(clumps, cells, head, q) && q != []
    ensures Linked(clumps, cells, cells[q[0]].next, q[1..])
  {}

  lemma LinkedNull(clumps: seq<VIClump>, cells: seq<Cell>, head: VIClump?, q: seq<nat>)
    requires Linked(clumps, cells, head, q)
    ensures head == null <==> q == []
  {}

  lemma LooseFirst(clumps: seq<VIClump>, cells: seq<Cell>, s: State, head: VIClump?, q: seq<nat>, r: nat)
    requires Represents(clumps, cells, s, Some(r)) && Linked(clumps, cells, head, q) && Loose(s, q, r) && head != null
    ensures q != [] && q[0] < |clumps| == |cells| == |s.clumps| && head == clumps[q[0]]
    ensures var w := q[0];
            && w !in s.runQ && s.clumps[w].place == Waiting(r) && cells[w].shortCount == 0
            && (forall t :: 0 <= t < |s.clumps| ==> w !in s.clumps[t].waiters)
            && Represents(clumps, cells[w := cells[w].(next := null)], s, Some(r))
            && Linked(clumps, cells[w := cells[w].(next := null)], cells[w].next, q[1..])
  {
    LinkedNull(clumps, cells, head, q);
    var w := q[0];
    assert Fields(clumps, cells, s, Some(r), w) && ListOf(s, s.runQ, Queued);
    UnlinkRepresents(clumps, cells, s, Some(r), w);
    LinkedRest(clumps, cells, head, q);
    RelinkOther(clumps, cells, cells[w].next, q[1..], w, null);
  }

  lemma LooseEnqueue(s: State, q: seq<nat>, r: nat)
    requires Loose(s, q, r) && q != []
    ensures q[0] < |s.clumps| && Loose(Enqueue(s, q[0]), q[1..], r)
  {}

  /** A loose clump is not the last one in the queue. */
  lemma LooseQueued(clumps: seq<VIClump>, cells: seq<Cell>, s: State, q: seq<nat>, r: nat)
    requires Loose(s, q, r) && Represents(clumps, cells, s, Some(r)) && s.runQ != []
    ensures s.runQ[|s.runQ| - 1] !in q
  {}

  lemma LooseNext(clumps: seq<VIClump>, cells: seq<Cell>, cells': seq<Cell>, s: State, head: VIClump?, q: seq<nat>, r: nat)
    requires Loose(s, q, r) && q != [] && Linked(clumps, cells, head, q[1..]) && Represents(clumps, cells, s, Some(r))
    requires q[0] < |clumps|
    requires cells' == if s.runQ == [] then cells
                       else var x := s.runQ[|s.runQ| - 1];
                            if x < |cells| then cells[x := cells[x].(next := clumps[q[0]])] else cells
    ensures Loose(Enqueue(s, q[0]), q[1..], r) && Linked(clumps, cells', head, q[1..])
    ensures InRange(|s.clumps|, q[1..]) && |Enqueue(s, q[0]).clumps| == |s.clumps|
    ensures InRange(|s.clumps|, q) && EnqueueAll(s, q) == EnqueueAll(Enqueue(s, q[0]), q[1..])
  {
    LooseEnqueue(s, q, r);
    if s.runQ != [] {
      LooseQueued(clumps, cells, s, q, r);
    }
    hide Linked, ListOf, Fields, Separate, Enqueue;
    LinkedElsewhere(clumps, cells, head, q[1..], cells');
  }

  lemma LooseNone(clumps: seq<VIClump>, cells: seq<Cell>, s: State, q: seq<nat>)
    requires Linked(clumps, cells, null, q) && InRange(|s.clumps|, q)
    ensures q == [] && EnqueueAll(s, q) == s
  {}

  /** What the fields of clump c tell. */
  lemma CellTells(clumps: seq<VIClump>, cells: seq<Cell>, s: State, running: Option<nat>, c: nat)
    requires Represents(clumps, cells, s, running) && c < |clumps|
    ensures |s.clumps| == |clumps| == |cells|
    ensures cells[c].shortCount == s.clumps[c].shortCount && (cells[c].asleep <==> s.clumps[c].place == Asleep)
    ensures s.clumps[c].caller.None? <==> cells[c].caller == null
    ensures s.clumps[c].caller.Some? ==>
              s.clumps[c].caller.value < |clumps| && cells[c].caller == clumps[s.clumps[c].caller.value]
    ensures Unlisted(s.clumps[c].place) ==> cells[c].next == null
    ensures running != Some(c) ==> cells[c].savePc == s.clumps[c].pc
  {
    assert Fields(clumps, cells, s, running, c);
    if s.clumps[c].caller.Some? {
      var caller: VIClump := clumps[s.clumps[c].caller.value];
      assert cells[c].caller == caller;
    }
  }

  // ---------------------------------------------------------------- the steps of the state machine, by instruction

  /** What the state machine knows of the instruction the running clump r executes. */
  ghost predicate At(p: Program, s: State, r: nat, instr: Instr) {
    Inv(p, s) && s.running == Some(r) && r < |s.clumps| && Current(p, s) == instr
  }

  /** f is s with the running clump r taken off and stopped at pc. */
  ghost predicate Vacated(f: State, s: State, r: nat, pc: nat) {
    && |f.clumps| == |s.clumps| && r < |f.clumps| && f.clumps[r].pc == pc && f.clumps[r].place != Running
    && (f.runQ != [] ==> f.runQ[0] < |f.clumps|)
  }

  lemma AtBasics(p: Program, s: State, r: nat, instr: Instr)
    requires At(p, s, r, instr)
    ensures |p.fire| == |p.code| == |s.clumps| && s.clumps[r].place == Running && s.clumps[r].pc < |p.code[r]|
    ensures p.code[r][s.clumps[r].pc] == instr && s.clumps[r].shortCount == 0
    ensures instr.Done? || s.clumps[r].pc + 1 < |p.code[r]|
    ensures instr.Trigger? || instr.Wait? || instr.CallVI? ==> instr.target < |s.clumps|
    ensures instr.Wait? || instr.CallVI? ==> MayBlockOn(p, r, instr.target)
  {
    Look(p, s, r);
    assert WellFormedInstr(p, r, s.clumps[r].pc);
  }

  lemma TriggerStep(p: Program, s: State, r: nat, t: nat)
    requires At(p, s, r, Instr.Trigger(t)) && t < |s.clumps| && s.clumps[t].shortCount > 0
    ensures var pc, s1 := s.clumps[r].pc, TriggerClump(s, t);
            && s.clumps[t].place == Untriggered && |p.code| == |s.clumps| && pc + 1 < |p.code[r]|
            && Inv(p, s1) && s1.running == Some(r) && !Faults(p, s) && Execute(p, s, 0) == Advance(s1, r, pc + 1)
  {
    AtBasics(p, s, r, Instr.Trigger(t));
    Look(p, s, t);
    TriggerKeeps(p, s, t);
  }

  lemma WaitStep(p: Program, s: State, r: nat, t: nat)
    requires At(p, s, r, Instr.Wait(t))
    ensures t < |s.clumps| == |p.fire| == |p.code| && s.clumps[r].place == Running && s.clumps[r].pc + 1 < |p.code[r]|
    ensures !Faults(p, s)
    ensures var pc := s.clumps[r].pc;
            if s.clumps[t].shortCount == p.fire[t] then Execute(p, s, 0) == Advance(s, r, pc + 1)
            else
              var f := Block(s, r, t, true, pc + 1);
              Vacated(f, s, r, pc + 1) && Execute(p, s, 0) == Dispatch(f) && Inv(p, Dispatch(f))
  {
    AtBasics(p, s, r, Instr.Wait(t));
    if s.clumps[t].shortCount != p.fire[t] {
      BlockKeeps(p, s, r, t, true, s.clumps[r].pc + 1);
      DispatchKeeps(p, Block(s, r, t, true, s.clumps[r].pc + 1));
    }
  }

  lemma CallStep(p: Program, s: State, r: nat, t: nat)
    requires At(p, s, r, Instr.CallVI(t))
    ensures t < |s.clumps| == |p.fire| == |p.code| && s.clumps[r].place == Running && !Faults(p, s)
    ensures s.clumps[t].shortCount > 0 ==> |TriggerClump(s, t).clumps| == |s.clumps|
    ensures var pc := s.clumps[r].pc;
            if s.clumps[t].shortCount > 0 then
              var f := Link(TriggerClump(s, t), r, t);
              && s.clumps[t].shortCount == 1 && s.clumps[t].caller.None? && s.clumps[t].place == Untriggered
              && Vacated(f, s, r, pc) && Execute(p, s, 0) == Dispatch(f) && Inv(p, Dispatch(f))
            else
              var f := Block(s, r, t, false, pc);
              Vacated(f, s, r, pc) && Execute(p, s, 0) == Dispatch(f) && Inv(p, Dispatch(f))
  {
    AtBasics(p, s, r, Instr.CallVI(t));
    Look(p, s, t);
    if s.clumps[t].shortCount > 0 {
      CallKeeps(p, s, r, t);
      DispatchKeeps(p, Link(TriggerClump(s, t), r, t));
    } else {
      assert WellFormedInstr(p, r, s.clumps[r].pc);
      BlockKeeps(p, s, r, t, false, s.clumps[r].pc);
      DispatchKeeps(p, Block(s, r, t, false, s.clumps[r].pc));
    }
  }

  lemma ReturnStep(p: Program, s: State, r: nat)
    requires At(p, s, r, Instr.Done)
    ensures s.clumps[r].caller.Some? ==>
              var k := s.clumps[r].caller.value;
              && k < |s.clumps| == |p.code| && k != r && s.clumps[k].place == Calling(r) && s.clumps[k].shortCount == 0
              && s.clumps[k].pc < |p.code[k]| && p.code[k][s.clumps[k].pc] == Instr.CallVI(r)
              && forall t :: 0 <= t < |s.clumps| ==> k !in s.clumps[t].waiters
    ensures s.clumps[r].caller.None? ==> Return(s, r) == s
    ensures |Return(s, r).clumps| == |s.clumps| && Return(s, r).clumps[r].waiters == s.clumps[r].waiters
  {
    Look(p, s, r);
    if s.clumps[r].caller.Some? {
      var k := s.clumps[r].caller.value;
      Look(p, s, k);
      forall t | 0 <= t < |s.clumps| ensures k !in s.clumps[t].waiters {
        Look(p, s, t);
      }
    }
  }

  lemma DoneStep(p: Program, s: State, r: nat)
    requires At(p, s, r, Instr.Done)
    ensures |p.fire| == |p.code| == |s.clumps| && !Faults(p, s)
    ensures var s1 := Return(s, r);
            && |s1.clumps| == |s.clumps| && Inv(p, s1) && s1.running == Some(r)
            && |Drain(s1, r).clumps| == |s.clumps| && Drain(s1, r).clumps[r].place == Running
            && var f := Reset(Drain(s1, r), r, p.fire[r]);
               Vacated(f, s, r, 0) && Execute(p, s, 0) == Dispatch(f) && Inv(p, Dispatch(f))
  {
    AtBasics(p, s, r, Instr.Done);
    ReturnKeeps(p, s, r);
    Look(p, s, r);
    DrainKeeps(p, Return(s, r), r);
    FinishKeeps(p, s, r);
    DispatchKeeps(p, Finish(p, s, r));
    Look(p, Drain(Return(s, r), r), r);
    assert Finish(p, s, r).runQ != [] ==> Finish(p, s, r).runQ[0] < |s.clumps|;
  }

  lemma SleepStep(p: Program, s: State, r: nat, next: nat)
    requires At(p, s, r, Instr.Sleep) && |p.code| == |s.clumps| && next < |p.code[r]|
    ensures !Faults(p, s) && s.clumps[r].place == Running
    ensures var f := Vacate(s, r, Asleep, next);
            Vacated(f, s, r, next) && Execute(p, s, next) == Dispatch(f) && Inv(p, Dispatch(f))
  {
    AtBasics(p, s, r, Instr.Sleep);
    VacateAsleepKeeps(p, s, r, next);
    DispatchKeeps(p, Vacate(s, r, Asleep, next));
  }

  lemma AdvanceRepresents(clumps: seq<VIClump>, cells: seq<Cell>, s: State, r: nat, pc: nat)
    requires Represents(clumps, cells, s, Some(r)) && r < |clumps|
    ensures Represents(clumps, cells, Advance(s, r, pc), Some(r))
  {
    assert Fields(clumps, cells, s, Some(r), r);
    assert cells[r := cells[r]] == cells;
    var s' := Advance(s, r, pc);
    UpdateRepresents(clumps, cells, s, Some(r), r, cells[r], s'.clumps[r], s', Some(r));
  }

  /** Saving the program counter of the vacated clump r and taking the first clump of the queue. */
  lemma SuspendRepresents(clumps: seq<VIClump>, cells: seq<Cell>, f: State, r: nat, pc: nat)
    requires Represents(clumps, cells, f, Some(r)) && r < |clumps| && f.clumps[r].pc == pc
    ensures r < |cells|
    ensures InRange(|clumps|, f.runQ) && |f.clumps| == |clumps|
    ensures var saved := cells[r := cells[r].(savePc := pc)];
            if f.runQ == [] then Represents(clumps, saved, Dispatch(f), None)
            else
              var x := f.runQ[0];
              && x < |saved| && saved[x].savePc == f.clumps[x].pc
              && Represents(clumps, saved[x := saved[x].(next := null)], Dispatch(f), Some(x))
  {
    assert Fields(clumps, cells, f, Some(r), r);
    var cell := cells[r].(savePc := pc);
    assert f.clumps[r := f.clumps[r]] == f.clumps;
    UpdateRepresents(clumps, cells, f, Some(r), r, cell, f.clumps[r], f, None);
    if f.runQ != [] {
      DequeueRepresents(clumps, cells[r := cell], f);
      assert Fields(clumps, cells[r := cell], f, None, f.runQ[0]);
    } else {
      EmptyDispatchRepresents(clumps, cells[r := cell], f);
    }
  }

  lemma EmptyDispatchRepresents(clumps: seq<VIClump>, cells: seq<Cell>, f: State)
    requires Represents(clumps, cells, f, None) && f.runQ == []
    ensures Represents(clumps, cells, Dispatch(f), None)
  {
    assert ListOf(Dispatch(f), [], Queued);
    forall d | 0 <= d < |clumps|
      ensures Fields(clumps, cells, Dispatch(f), None, d) && ListOf(Dispatch(f), f.clumps[d].waiters, Waiting(d))
    {
      assert Fields(clumps, cells, f, None, d) && ListOf(f, f.clumps[d].waiters, Waiting(d));
    }
  }

  /** The instruction to execute next: that of the running clump, or -1 when nothing runs. */
  ghost function NextPc(s: State): int {
    if s.running.Some? && s.running.value < |s.clumps| then s.clumps[s.running.value].pc else -1
  }
}
