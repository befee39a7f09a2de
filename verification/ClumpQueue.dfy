/** The intrusive queue of source/core/Queue.cpp and the fields of a clump that the scheduler links through. */
module ClumpQueue {
  import Scheduler

  /** A clump; see source/include/VirtualInstrument.h.  The observer machinery is reduced to one flag. */
  class VIClump {
    var next: VIClump?             // the next clump when this one is in a list
    var waitingClumps: VIClump?    // head of the list of clumps that wait for this one
    var caller: VIClump?           // the clump to resume when this one is done
    var savePc: nat                // where to go on
    const code: seq<Scheduler.Instr>
    const fireCount: nat           // what shortCount is reset to
    var shortCount: nat            // triggers still missing
    var asleep: bool               // an observed object holds this clump

    constructor (code: seq<Scheduler.Instr>, fire: nat)
      ensures next == null && waitingClumps == null && caller == null && savePc == 0 && !asleep
      ensures this.code == code && fireCount == fire == shortCount
    {
      this.code, fireCount := code, fire;
      next, waitingClumps, caller, savePc, shortCount, asleep := null, null, null, 0, fire, false;
    }
  }

  ghost predicate Distinct(q: seq<VIClump>) {
    forall i, j :: 0 <= i < j < |q| ==> q[i] != q[j]
  }

  /** q is linked through next from head to null. */
  ghost predicate Chain(head: VIClump?, q: seq<VIClump>)
    reads q
  {
    && head == (if q == [] then null else q[0])
    && forall i {:trigger q[i].next} :: 0 <= i < |q| ==> q[i].next == if i + 1 < |q| then q[i + 1] else null
  }

  class VIClumpQueue {
    var head: VIClump?
    var tail: VIClump?
    ghost var Contents: seq<VIClump>

    ghost predicate Valid()
      reads this, Contents
    {
      && Distinct(Contents) && Chain(head, Contents)
      && tail == if Contents == [] then null else Contents[|Contents| - 1]
    }

    /** The clump an addition is linked behind: the last one, or elt itself in an empty queue. */
    ghost function Last(elt: VIClump): VIClump
      reads this
    {
      if Contents == [] then elt else Contents[|Contents| - 1]
    }

    ghost function First(): set<VIClump>
      reads this
    {
      if Contents == [] then {} else {Contents[0]}
    }

    constructor ()
      ensures Valid() && Contents == []
    {
      head, tail, Contents := null, null, [];
    }

    predicate IsEmpty()
      reads this
    {
      head == null
    }

    /** The clump must not be in any list. */
    method Enqueue(elt: VIClump)
      requires Valid() && elt !in Contents && elt.next == null
      modifies this, Last(elt)`next
      ensures Valid() && Contents == old(Contents) + [elt]
      ensures elt.next == null && (old(Contents) != [] ==> old(Last(elt)).next == elt)
    {
      if head == null {
        head := elt;
        tail := elt;
        elt.next := null;
      } else {
        assert tail.next == null && elt != tail && elt != head;
        tail.next := elt;
        tail := elt;
      }
      Contents := Contents + [elt];
    }

    method Dequeue() returns (elt: VIClump?)
      requires Valid()
      modifies this, First()`next
      ensures Valid()
      ensures old(Contents) == [] ==> elt == null && Contents == []
      ensures old(Contents) != [] ==> elt == old(Contents)[0] && Contents == old(Contents)[1..] && elt.next == null
    {
      elt := head;
      assert Contents != [] ==> (tail == head <==> |Contents| == 1);
      if tail != head {
        head := elt.next;
        elt.next := null;
        Contents := Contents[1..];
      } else if head != null {
        head := null;
        tail := null;
        Contents := [];
      }
    }
  }
}
