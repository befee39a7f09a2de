/** The event oracle of source/core/Events.cpp with its loops; each method does what EventState.dfy says. */
module EventOracle {
  import opened EventState
  import opened EventInvariant
  import EventTheorems

  datatype InsertStatus = NewRegistration | AddedToNewQueue | NoChange

  class EventOracle {
    var qObject: seq<Queue>
    var eventReg: seq<seq<RegInfo>>
    var sequenceNumber: nat                     // EventData::_s_eventSequenceNumber
    var regRefnums: map<nat, DynRegInfo>        // the registration refnums in use
    var occurrences: seq<nat>                   // how often each structure's occurrence has fired
    var setCounts: seq<nat>                     // how many of these the structure has handled

    ghost function State(): Oracle
      reads this
    {
      Oracle(qObject, eventReg, sequenceNumber, regRefnums, occurrences, setCounts)
    }

    constructor (structures: nat)
      ensures State() == EventTheorems.Start(structures)
    {
      qObject, eventReg := [Queue([], false, false, None)], [[]];
      sequenceNumber, regRefnums := 0, map[];
      occurrences, setCounts := seq(structures, _ => 0), seq(structures, _ => 0);
    }

    // ---------------------------------------------------------------- one queue

    /** EventQueueObject::OccurEvent */
    method PushEvent(q: nat, e: Event)
      requires q < |qObject|
      modifies this
      ensures State() == Push(old(State()), q, e)
    {
      var queue := qObject[q];
      sequenceNumber := sequenceNumber + 1;
      qObject := qObject[q := queue.(events := queue.events + [e.(seqNo := sequenceNumber)])];
      if queue.observer.Some? {
        SetOccurrence(queue.observer.value);
      }
    }

    method SetOccurrence(k: nat)
      modifies this`occurrences
      ensures occurrences == Fire(old(occurrences), Some(k), 1)
    {
      if k < |occurrences| {
        occurrences := occurrences[k := occurrences[k] + 1];
      }
    }

    /** EventQueueObject::SetObserver: fires once for each event that is already in the queue. */
    method ObserveQueue(q: nat, observer: Option<nat>)
      requires q < |qObject|
      modifies this
      ensures State() == SetObserver(old(State()), q, observer)
    {
      var queue := qObject[q];
      ghost var fired := occurrences;
      if queue.observer != observer && observer.Some? {
        var i := |queue.events|;
        while i > 0
          invariant 0 <= i <= |queue.events|
          invariant State() == old(State()).(fired := occurrences)
          invariant occurrences == Fire(fired, observer, |queue.events| - i)
        {
          SetOccurrence(observer.value);
          i := i - 1;
        }
      }
      qObject := qObject[q := queue.(observer := observer)];
    }

    /** EventQueueObject::ClearQueue */
    method ClearQueue(q: nat)
      requires q < |qObject| && !qObject[q].locked
      modifies this`qObject
      ensures qObject == old(qObject)[q := old(qObject)[q].(events := [])]
    {
      var keepGoing := true;
      while keepGoing
        invariant q < |qObject| && qObject == old(qObject)[q := old(qObject)[q].(events := qObject[q].events)]
        invariant !keepGoing ==> qObject[q].events == []
        decreases keepGoing, |qObject[q].events|
      {
        keepGoing := DiscardTopEvent(q);
      }
    }

    method DiscardTopEvent(q: nat) returns (discarded: bool)
      requires q < |qObject|
      modifies this`qObject
      ensures discarded == (old(qObject)[q].events != [])
      ensures qObject == if discarded then old(qObject)[q := old(qObject)[q].(events := old(qObject)[q].events[1..])] else old(qObject)
    {
      discarded := |qObject[q].events| > 0;
      if discarded {
        qObject := qObject[q := qObject[q].(events := qObject[q].events[1..])];
      }
    }

    method DeleteEventQueue(q: nat)
      requires q < |qObject| ==> !qObject[q].locked
      modifies this`qObject
      ensures State() == DeleteQueue(old(State()), q)
    {
      if q < |qObject| {
        ClearQueue(q);
        qObject := qObject[q := qObject[q].(active := false)];
      }
    }

    /** Hands out the front event and locks the queue until it has been processed; None is a time-out. */
    method GetEventData(q: nat) returns (e: Option<Event>)
      requires q < |qObject|
      modifies this`qObject
      ensures e == if old(qObject)[q].events == [] then None else Some(old(qObject)[q].events[0])
      ensures qObject == if e.None? then old(qObject) else old(qObject)[q := old(qObject)[q].(locked := true)]
    {
      if |qObject[q].events| > 0 {
        qObject := qObject[q := qObject[q].(locked := true)];
        return Some(qObject[q].events[0]);
      }
      return None;
    }

    method DoneProcessingEvent(q: nat)
      requires q < |qObject|
      modifies this`qObject
      ensures var queue := old(qObject)[q];
              qObject == if !queue.locked then old(qObject)
                         else if queue.events == [] then old(qObject)[q := queue.(locked := false)]
                         else old(qObject)[q := queue.(locked := false, events := queue.events[1..])]
    {
      if qObject[q].locked {
        var _ := DiscardTopEvent(q);
        qObject := qObject[q := qObject[q].(locked := false)];
      }
    }

    method GetNewQueueObject(observer: Option<nat>) returns (q: nat)
      requires qObject != []
      modifies this
      ensures q == NewQueueID(old(State())) && State() == NewQueue(old(State()), observer)
    {
      q := 1;  // queue 0 is reserved
      while q < |qObject| && qObject[q].active
        invariant 1 <= q <= |qObject| && FirstFree(qObject, 1) == FirstFree(qObject, q)
      {
        q := q + 1;
      }
      if q < |qObject| {
        qObject := qObject[q := qObject[q].(active := true)];
        ObserveQueue(q, observer);
      } else {
        qObject := qObject + [Queue([], true, false, observer)];
      }
    }

    // ---------------------------------------------------------------- registration lists

    method FindSublist(list: seq<RegInfo>, source: nat, etype: nat) returns (i: nat)
      ensures i == Find(list, source, etype)
    {
      i := 0;
      while i < |list| && (list[i].source != source || list[i].etype != etype)
        invariant 0 <= i <= |list|
        invariant forall j :: 0 <= j < i ==> list[j].source != source || list[j].etype != etype
      {
        i := i + 1;
      }
    }

    method FindEntry(qIDs: seq<RegQueueID>, x: RegQueueID) returns (i: nat)
      ensures i == IndexOf(qIDs, x)
    {
      i := 0;
      while i < |qIDs| && (qIDs[i].qID != x.qID || qIDs[i].ref != x.ref)
        invariant 0 <= i <= |qIDs|
        invariant forall j :: 0 <= j < i ==> qIDs[j] != x
      {
        i := i + 1;
      }
    }

    /** The list is the old one with the registration added; the status says what was there before. */
    method EventListInsert(index: nat, x: RegQueueID, source: nat, etype: nat) returns (added: InsertStatus)
      requires index < |eventReg|
      modifies this`eventReg
      ensures eventReg == old(eventReg)[index := Inserted(old(eventReg)[index], Reg(source, etype, x.qID, x.ref))]
      ensures added.NoChange? <==> Has(old(eventReg)[index], Reg(source, etype, x.qID, x.ref))
      ensures added.NewRegistration? <==>
                forall i :: 0 <= i < |old(eventReg)[index]| ==> old(eventReg)[index][i].source != source || old(eventReg)[index][i].etype != etype
    {
      added := NoChange;
      var list := eventReg[index];
      var i := FindSublist(list, source, etype);
      if i != |list| {
        var k := FindEntry(list[i].qIDs, x);
        if k == |list[i].qIDs| {
          eventReg := eventReg[index := list[i := list[i].(qIDs := list[i].qIDs + [x])]];
          added := AddedToNewQueue;
        }
      } else {
        eventReg := eventReg[index := list + [RegInfo(source, etype, [x])]];
        added := NewRegistration;
      }
    }

    method EventListRemove(index: int, x: RegQueueID, source: nat, etype: nat) returns (removed: bool)
      modifies this`eventReg
      ensures removed <==> 0 <= index < |old(eventReg)| && Has(old(eventReg)[index], Reg(source, etype, x.qID, x.ref))
      ensures eventReg == if 0 <= index < |old(eventReg)|
                          then old(eventReg)[index := Removed(old(eventReg)[index], Reg(source, etype, x.qID, x.ref))] else old(eventReg)
    {
      removed := false;
      if !(0 <= index < |eventReg|) {
        return;
      }
      var list := eventReg[index];
      var i := FindSublist(list, source, etype);
      if i != |list| {
        var k := FindEntry(list[i].qIDs, x);
        if k != |list[i].qIDs| {
          var rest := list[i].qIDs[..k] + list[i].qIDs[k + 1..];
          if rest == [] {
            eventReg := eventReg[index := list[..i] + list[i + 1..]];
          } else {
            eventReg := eventReg[index := list[i := list[i].(qIDs := rest)]];
          }
          removed := true;
        }
      }
    }

    /** Registration of a dynamic reference, which goes to the application bucket. */
    method RegisterForEvent(q: nat, source: nat, etype: nat, ref: nat) returns (status: InsertStatus)
      requires eventReg != []
      modifies this`eventReg
      ensures q >= |qObject| || ref == NOT_A_REFNUM ==> status == NoChange && eventReg == old(eventReg)
      ensures q < |qObject| && ref != NOT_A_REFNUM ==> State() == Register(old(State()), Reg(source, etype, q, ref))
    {
      if q >= |qObject| {
        return NoChange;
      }
      if ref == NOT_A_REFNUM {
        return NoChange;
      }
      status := EventListInsert(APP_BUCKET, RegQueueID(q, ref), source, etype);
    }

    method UnregisterForEvent(q: nat, source: nat, etype: nat, index: int, ref: nat) returns (removed: bool)
      modifies this`eventReg
      ensures q >= |qObject| ==> !removed && eventReg == old(eventReg)
      ensures q < |qObject| && index == APP_BUCKET && old(eventReg) != [] ==>
                State() == Unregister(old(State()), Reg(source, etype, q, ref))
    {
      if q >= |qObject| {
        return false;
      }
      removed := EventListRemove(index, RegQueueID(q, ref), source, etype);
    }

    // ---------------------------------------------------------------- broadcast

    /** Broadcasts an event to all registered queues. */
    method OccurEvent(bucket: int, e: Event)
      requires Inv(State())
      modifies this
      ensures Inv(old(State())) && Inv(State())
      ensures 0 <= bucket < |old(eventReg)| ==> QueuesExist(old(State()), Members(old(eventReg)[bucket], e.source, e.etype))
      ensures State() == Occur(old(State()), bucket, e)
    {
      OccurKeeps(State(), bucket, e);
      hide Inv, Push;
      if 0 <= bucket < |eventReg| {
        var list := eventReg[bucket];
        var i := FindSublist(list, e.source, e.etype);
        if i != |list| {
          var qIDs := list[i].qIDs;
          var j := 0;
          while j < |qIDs|
            invariant 0 <= j <= |qIDs| && QueuesExist(State(), qIDs[j..])
            invariant Broadcast(State(), qIDs[j..], e) == Occur(old(State()), bucket, e)
          {
            assert qIDs[j..][0] == qIDs[j] && qIDs[j..][1..] == qIDs[j + 1..];
            if qIDs[j].ref == e.ref {
              PushedExist(State(), qIDs[j].qID, e, qIDs[j + 1..]);
              PushEvent(qIDs[j].qID, e);
            }
            j := j + 1;
          }
        }
      }
    }

    // ---------------------------------------------------------------- dynamic registration

    /** RegisterForEventsCore on a scalar reference. */
    method RegisterForEventsCore(q: nat, r: nat, refInput: nat, source: nat, etype: nat, ref: nat, again: bool)
      requires eventReg != [] && r in regRefnums && regRefnums[r].qID == q < |qObject|
      requires refInput < |regRefnums[r].entries|
      requires regRefnums[r].entries[refInput].etype == etype && source == SourceFor(etype)
      modifies this
      ensures again ==> State() == RegisterAgain(old(State()), r, refInput, ref)
      ensures !again ==> State() == if ref == NOT_A_REFNUM then old(State()) else Register(old(State()), Reg(source, etype, q, ref))
    {
      if again {
        var entry := regRefnums[r].entries[refInput];
        if entry.ref == ref {
          return;
        }
        StillThere(State(), Reg(source, etype, q, entry.ref));
        var _ := UnregisterForEvent(q, source, etype, APP_BUCKET, entry.ref);
        regRefnums := regRefnums[r := regRefnums[r].(entries := regRefnums[r].entries[refInput := entry.(ref := ref)])];
      }
      if ref != NOT_A_REFNUM {
        var _ := RegisterForEvent(q, source, etype, ref);
      }
    }

    /** RegisterForEvents.  regRef is the registration refnum passed in; when it is not valid a new queue and a
        new refnum, unused by then, are allocated.  ok is false when an argument is out of order. */
    method RegisterForEvents(regRef: nat, unused: nat, args: seq<RegArg>) returns (r: nat, ok: bool)
      requires Inv(State()) && unused != NOT_A_REFNUM && unused !in regRefnums
      modifies this
      ensures Inv(old(State())) && Inv(State())
      ensures regRef in old(regRefnums) ==> r == regRef && (State(), ok) == Reregister(old(State()), regRef, args)
      ensures regRef !in old(regRefnums) ==> r == unused && (State(), ok) == RegisterNew(old(State()), unused, args)
    {
      var again := regRef in regRefnums;
      ghost var goal;
      if again {
        EventTheorems.ReregisterKeeps(State(), regRef, args);
        r := regRef;
        goal := Reregister(State(), r, args);
        if |regRefnums[r].entries| != |args| {
          return r, false;
        }
      } else {
        RegisterNewKeeps(State(), unused, args);
        goal := RegisterNew(State(), unused, args);
        r := unused;
        ghost var before := State();
        var q := GetNewQueueObject(None);
        NewQueueIsNew(before, None);
        NewQueueKeeps(before, None);
        AddInfo(before, State(), r, q);
        regRefnums := regRefnums[r := DynRegInfo(q, [])];
      }
      ok := RegisterInputs(r, args, again);
    }

    /** The loop of RegisterForEvents over its inputs. */
    method RegisterInputs(r: nat, args: seq<RegArg>, again: bool) returns (ok: bool)
      requires Inv(State()) && r in regRefnums
      requires if again then |regRefnums[r].entries| == |args| else regRefnums[r].entries == []
      modifies this
      ensures Inv(old(State())) && (State(), ok) == RegisterArgs(old(State()), r, 0, args, again)
    {
      hide Inv, RegisterArg, ArgFits;
      HasBuckets();
      var i := 0;
      while i < |args|
        invariant 0 <= i <= |args| && Inv(State()) && r in regRefnums && eventReg != []
        invariant if again then |regRefnums[r].entries| == |args| else |regRefnums[r].entries| == i
        invariant RegisterArgs(State(), r, i, args, again) == RegisterArgs(old(State()), r, 0, args, again)
        decreases |args| - i
      {
        ok := RegisterOne(r, i, args[i], again);
        if !ok {
          return;
        }
        i := i + 1;
      }
      ok := true;
    }

    lemma HasBuckets()
      requires Inv(State())
      ensures eventReg != [] && forall r :: r in regRefnums ==> regRefnums[r].qID < |qObject|
    {}

    /** Checks and registers one input. */
    method RegisterOne(r: nat, i: nat, arg: RegArg, again: bool) returns (ok: bool)
      requires Inv(State()) && r in regRefnums
      requires if again then i < |regRefnums[r].entries| else i == |regRefnums[r].entries|
      modifies this
      ensures Inv(old(State())) && Inv(State()) && r in regRefnums && eventReg != []
      ensures |regRefnums[r].entries| == (if again then |old(regRefnums)[r].entries| else if ok then i + 1 else i)
      ensures ok == ArgFits(old(regRefnums)[r].entries, i, arg, again)
      ensures State() == if ok then RegisterArg(old(State()), r, i, arg, again) else old(State())
    {
      HasBuckets();
      hide Inv, Register, Unregister;
      match arg
      case Wildcard =>
        return again;
      case Arg(given, ref) =>
        var etype := given;
        if etype == 0 {
          if again {
            etype := regRefnums[r].entries[i].etype;
          } else {
            return false;
          }
        } else if again && etype != regRefnums[r].entries[i].etype {
          return false;
        }
        RegisterInput(r, i, etype, ref, again);
        HasBuckets();
        EntriesAfter(old(State()), r, i, etype, ref);
        ok := true;
    }

    static lemma EntriesAfter(o: Oracle, r: nat, i: nat, etype: nat, ref: nat)
      requires o.regs != [] && r in o.dynamic
      ensures var d := RegisterFirst(o, r, etype, ref).dynamic; r in d && |d[r].entries| == |o.dynamic[r].entries| + 1
      ensures i < |o.dynamic[r].entries| ==>
                var d := RegisterAgain(o, r, i, ref).dynamic; r in d && |d[r].entries| == |o.dynamic[r].entries|
    {}

    /** One input of RegisterForEvents. */
    method RegisterInput(r: nat, i: nat, etype: nat, ref: nat, again: bool)
      requires Inv(State()) && r in regRefnums
      requires if again then i < |regRefnums[r].entries| && etype == regRefnums[r].entries[i].etype else i == |regRefnums[r].entries|
      modifies this
      ensures Inv(old(State())) && Inv(State())
      ensures State() == if again then RegisterAgain(old(State()), r, i, ref) else RegisterFirst(old(State()), r, etype, ref)
    {
      ghost var s := State();
      assert InfoGood(s, r);
      if again {
        RegisterAgainKeeps(s, r, i, ref);
      } else {
        RegisterFirstKeeps(s, r, etype, ref);
      }
      var source := SourceFor(etype);
      if !again {
        regRefnums := regRefnums[r := regRefnums[r].(entries := regRefnums[r].entries + [RegEntry(source, etype, ref)])];
      }
      RegisterForEventsCore(regRefnums[r].qID, r, i, source, etype, ref, again);
    }

    method UnregisterForEventsAux(r: nat) returns (ok: bool)
      requires Inv(State())
      modifies this
      ensures Inv(old(State())) && Inv(State()) && ok == (r in old(regRefnums))
      ensures State() == if ok then Dispose(old(State()), r) else old(State())
    {
      if r !in regRefnums {
        return false;
      }
      DisposeKeeps(State(), r);
      var info := regRefnums[r];
      assert InfoGood(State(), r) && QueueGood(State(), info.qID);
      regRefnums := regRefnums - {r};
      DeleteEventQueue(info.qID);
      UnregisterAll(info.qID, info.entries);
      ok := true;
    }

    /** The loop of UnregisterForEventsAux over the inputs. */
    method UnregisterAll(q: nat, entries: seq<RegEntry>)
      requires q < |qObject| && eventReg != []
      modifies this
      ensures State() == UnregisterEntries(old(State()), q, entries)
    {
      hide Unregister;
      var i := 0;
      while i < |entries|
        invariant 0 <= i <= |entries| && eventReg != [] && q < |qObject|
        invariant UnregisterEntries(State(), q, entries[i..]) == UnregisterEntries(old(State()), q, entries)
        decreases |entries| - i
      {
        assert entries[i..][0] == entries[i] && entries[i..][1..] == entries[i + 1..];
        ghost var before := State();
        var _ := UnregisterForEvent(q, entries[i].source, entries[i].etype, APP_BUCKET, entries[i].ref);
        StillThere(before, Reg(entries[i].source, entries[i].etype, q, entries[i].ref));
        i := i + 1;
      }
    }

    static lemma StillThere(o: Oracle, x: Reg)
      requires o.regs != []
      ensures Unregister(o, x).regs != [] && Unregister(o, x).queues == o.queues
    {}

    // ---------------------------------------------------------------- dispatch

    /** The queue with the earliest event among the static queue q and those of the refnums. */
    method GetPendingEventInfo(q: nat, refs: seq<nat>) returns (p: Pending)
      requires Inv(State()) && q < |qObject|
      ensures IsEarliest(State(), q, refs, |refs|, p)
      ensures forall r <- refs :: r in regRefnums ==> regRefnums[r].qID < |qObject|
      ensures p == PendingEvent(State(), q, refs)
    {
      FindsEarliest(State(), q, refs);
      hide Inv, IsEarliest;
      p := NOTHING;
      var skipped := 0;
      if q != NOT_A_QUEUE && |qObject[q].events| > 0 {
        p := Pending(q, 0, qObject[q].events[0].seqNo, 0);
      }
      var regIndex := 0;
      while regIndex < |refs|
        invariant 0 <= regIndex <= |refs| && p.qID < |qObject| && skipped >= 0
        invariant Earliest(State(), refs, regIndex, p, skipped) == PendingEvent(State(), q, refs)
      {
        if refs[regIndex] in regRefnums {
          var info := regRefnums[refs[regIndex]];
          if |qObject[info.qID].events| > 0
             && (p.qID == NOT_A_QUEUE || qObject[info.qID].events[0].seqNo < p.seqNo) {
            p := Pending(info.qID, regIndex + 1, qObject[info.qID].events[0].seqNo, skipped);
          }
          skipped := skipped + |info.entries|;
        }
        regIndex := regIndex + 1;
      }
    }

    /** The observing, waiting and dispatching of WaitForEventsAndDispatch for structure k with static queue q.
        retry says that the structure has been woken up.  Matching the event to a case of the structure and
        copying its data are not part of this model. */
    method WaitForEventsAndDispatch(k: nat, q: nat, refs: seq<nat>, retry: bool) returns (got: Outcome)
      requires Inv(State()) && q < |qObject| && k < |occurrences|
      modifies this
      ensures Inv(old(State())) && Inv(State())
      ensures k < |old(setCounts)| && forall r <- refs :: r in old(regRefnums) ==> old(regRefnums)[r].qID < |old(qObject)|
      ensures (State(), got) == Dispatch(old(State()), k, q, refs, retry)
    {
      DispatchKeeps(State(), k, q, refs, retry);
      ObserveAll(k, q, refs);
      ghost var o1 := State();
      assert o1 == Observe(old(State()), q, refs, k);
      if !(occurrences[k] > setCounts[k]) && !retry {
        return Sleeps;
      }
      setCounts := setCounts[k := setCounts[k] + 1];
      HandledKeeps(o1, State());
      var p := GetPendingEventInfo(q, refs);
      assert QueueGood(State(), p.qID);
      hide Inv, Observe, PendingEvent, Pop;
      var e := HandleEvent(p.qID);
      got := if e.Some? then Delivers(e.value, p.qID) else TimesOut;
    }

    /** The event of an unlocked queue is handed out, handled, and then removed. */
    method HandleEvent(q: nat) returns (e: Option<Event>)
      requires q < |qObject| && !qObject[q].locked
      modifies this`qObject
      ensures e == if old(qObject)[q].events == [] then None else Some(old(qObject)[q].events[0])
      ensures State() == Pop(old(State()), q)
    {
      e := GetEventData(q);
      DoneProcessingEvent(q);
    }

    /** The structure observes all its queues. */
    method ObserveAll(k: nat, q: nat, refs: seq<nat>)
      requires Inv(State()) && q < |qObject|
      requires forall r <- refs :: r in regRefnums ==> regRefnums[r].qID < |qObject|
      modifies this
      ensures Inv(State()) && State() == Observe(old(State()), q, refs, k)
    {
      ObserveKeeps(State(), q, refs, k);
      hide Inv, SetObserver;
      ObserverOnly(State(), q, Some(k));
      if q != NOT_A_QUEUE {
        ObserveQueue(q, Some(k));
      }
      var i := 0;
      while i < |refs|
        invariant 0 <= i <= |refs| && regRefnums == old(regRefnums) && |qObject| == |old(qObject)|
        invariant ObserveFrom(State(), refs, i, k) == Observe(old(State()), q, refs, k)
      {
        if refs[i] in regRefnums {
          ObserverOnly(State(), regRefnums[refs[i]].qID, Some(k));
          ObserveQueue(regRefnums[refs[i]].qID, Some(k));
        }
        i := i + 1;
      }
    }
  }
}
