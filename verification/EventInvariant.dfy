/** What every operation of the event oracle keeps, and what each achieves. */
module EventInvariant {
  import opened EventState

  ghost predicate Sorted(events: seq<Event>) {
    forall i, j :: 0 <= i < j < |events| ==> events[i].seqNo < events[j].seqNo
  }

  ghost predicate Numbered(events: seq<Event>, limit: nat) {
    forall i :: 0 <= i < |events| ==> 1 <= events[i].seqNo <= limit
  }

  ghost predicate Differ(a: seq<Event>, b: seq<Event>) {
    forall i, j :: 0 <= i < |a| && 0 <= j < |b| ==> a[i].seqNo != b[j].seqNo
  }

  /** A free queue is empty, queue 0 is never used, and events are in the order they occurred. */
  ghost predicate QueueGood(o: Oracle, q: nat)
    requires q < |o.queues|
  {
    var queue := o.queues[q];
    && !queue.locked && (q == NOT_A_QUEUE ==> !queue.active) && (!queue.active ==> queue.events == [])
    && Sorted(queue.events) && Numbered(queue.events, o.seqNo)
  }

  ghost predicate InvQueues(o: Oracle) {
    && o.queues != [] && |o.fired| == |o.handled|
    && (forall q :: 0 <= q < |o.queues| ==> QueueGood(o, q))
    && (forall p, q :: 0 <= p < |o.queues| && 0 <= q < |o.queues| && p != q ==> Differ(o.queues[p].events, o.queues[q].events))
  }

  /** Registration x belongs to an input of refnum r. */
  ghost predicate OwnedBy(o: Oracle, r: nat, x: Reg) {
    r in o.dynamic && o.dynamic[r].qID == x.qID && RegEntry(x.source, x.etype, x.ref) in o.dynamic[r].entries
  }

  ghost predicate InfoGood(o: Oracle, r: nat)
    requires r in o.dynamic
  {
    var info := o.dynamic[r];
    && r != NOT_A_REFNUM && info.qID < |o.queues| && o.queues[info.qID].active
    && forall i :: 0 <= i < |info.entries| ==> info.entries[i].source == SourceFor(info.entries[i].etype)
  }

  ghost predicate AllOwned(o: Oracle) {
    && o.regs != []
    && (forall b :: 0 <= b < |o.regs| ==> WellFormedList(o.regs[b]))
    && (forall b, x :: 0 <= b < |o.regs| && Has(o.regs[b], x) ==> b == APP_BUCKET && exists r :: OwnedBy(o, r, x))
  }

  /** Every refnum has an active queue of its own. */
  ghost predicate InfosGood(o: Oracle) {
    && (forall r :: r in o.dynamic ==> InfoGood(o, r))
    && (forall r, s :: r in o.dynamic && s in o.dynamic && r != s ==> o.dynamic[r].qID != o.dynamic[s].qID)
  }

  ghost predicate Inv(o: Oracle) {
    InvQueues(o) && AllOwned(o) && InfosGood(o)
  }

  /** No registration names a free queue. */
  lemma RegisteredIsActive(o: Oracle, b: nat, x: Reg)
    requires Inv(o) && b < |o.regs| && Has(o.regs[b], x)
    ensures b == APP_BUCKET && x.qID != NOT_A_QUEUE && x.qID < |o.queues| && o.queues[x.qID].active
  {
    var r :| OwnedBy(o, r, x);
    assert InfoGood(o, r) && QueueGood(o, x.qID);
  }

  lemma DynamicExists(o: Oracle)
    requires Inv(o)
    ensures forall r :: r in o.dynamic ==> o.dynamic[r].qID < |o.queues|
  {}

  // ---------------------------------------------------------------- one queue changes

  lemma QueueChanged(o: Oracle, o': Oracle, q: nat)
    requires InvQueues(o) && q < |o.queues| == |o'.queues| && |o'.fired| == |o'.handled| && o.seqNo <= o'.seqNo
    requires forall p :: 0 <= p < |o.queues| && p != q ==> o'.queues[p] == o.queues[p]
    requires QueueGood(o', q)
    requires forall p :: 0 <= p < |o.queues| && p != q ==> Differ(o'.queues[q].events, o.queues[p].events)
    ensures InvQueues(o')
  {
    forall p | 0 <= p < |o'.queues| ensures QueueGood(o', p) {
      if p != q {
        assert QueueGood(o, p);
      }
    }
  }

  lemma RegsKept(o: Oracle, o': Oracle)
    requires AllOwned(o) && InfosGood(o) && o'.regs == o.regs && o'.dynamic == o.dynamic && |o.queues| <= |o'.queues|
    requires forall q :: 0 <= q < |o.queues| && o.queues[q].active ==> o'.queues[q].active
    ensures AllOwned(o') && InfosGood(o')
  {
    forall r | r in o'.dynamic ensures InfoGood(o', r) {
      assert InfoGood(o, r);
    }
    forall b, x | 0 <= b < |o'.regs| && Has(o'.regs[b], x) ensures b == APP_BUCKET && exists r :: OwnedBy(o', r, x) {
      var r :| OwnedBy(o, r, x);
      assert OwnedBy(o', r, x);
    }
  }

  lemma PushKeeps(o: Oracle, q: nat, e: Event)
    requires Inv(o) && q < |o.queues| && o.queues[q].active
    ensures Inv(Push(o, q, e))
  {
    hide WellFormedList, Has, OwnedBy;
    var o' := Push(o, q, e);
    assert QueueGood(o, q);
    forall p | 0 <= p < |o.queues| && p != q ensures Differ(o'.queues[q].events, o.queues[p].events) {
      assert QueueGood(o, p);
    }
    QueueChanged(o, o', q);
    RegsKept(o, o');
  }

  lemma PopKeeps(o: Oracle, q: nat)
    requires Inv(o) && q < |o.queues|
    ensures Inv(Pop(o, q))
  {
    hide WellFormedList, Has, OwnedBy;
    var o' := Pop(o, q);
    assert QueueGood(o, q);
    if o.queues[q].events != [] {
      QueueChanged(o, o', q);
      RegsKept(o, o');
    }
  }

  lemma ObserverKeeps(o: Oracle, q: nat, observer: Option<nat>)
    requires Inv(o) && q < |o.queues|
    ensures Inv(SetObserver(o, q, observer))
  {
    hide WellFormedList, Has, OwnedBy;
    var o' := SetObserver(o, q, observer);
    assert QueueGood(o, q);
    QueueChanged(o, o', q);
    RegsKept(o, o');
  }

  lemma {:induction false} ObserveFromKeeps(o: Oracle, refs: seq<nat>, i: nat, k: nat)
    requires Inv(o) && i <= |refs| && forall r <- refs :: r in o.dynamic ==> o.dynamic[r].qID < |o.queues|
    ensures Inv(ObserveFrom(o, refs, i, k))
    decreases |refs| - i
  {
    hide Inv, SetObserver;
    if i < |refs| {
      if refs[i] in o.dynamic {
        ObserverKeeps(o, o.dynamic[refs[i]].qID, Some(k));
        ObserverOnly(o, o.dynamic[refs[i]].qID, Some(k));
        ObserveFromKeeps(SetObserver(o, o.dynamic[refs[i]].qID, Some(k)), refs, i + 1, k);
      } else {
        ObserveFromKeeps(o, refs, i + 1, k);
      }
    }
  }

  lemma ObserverOnly(o: Oracle, q: nat, observer: Option<nat>)
    requires q < |o.queues|
    ensures SetObserver(o, q, observer).dynamic == o.dynamic && |SetObserver(o, q, observer).queues| == |o.queues|
  {}

  lemma ObserveKeeps(o: Oracle, q: nat, refs: seq<nat>, k: nat)
    requires Inv(o) && q < |o.queues| && forall r <- refs :: r in o.dynamic ==> o.dynamic[r].qID < |o.queues|
    ensures Inv(Observe(o, q, refs, k))
  {
    hide Inv, SetObserver;
    ObserverKeeps(o, q, Some(k));
    ObserverOnly(o, q, Some(k));
    ObserveFromKeeps(if q != NOT_A_QUEUE then SetObserver(o, q, Some(k)) else o, refs, 0, k);
  }

  lemma DispatchKeeps(o: Oracle, k: nat, q: nat, refs: seq<nat>, retry: bool)
    requires Inv(o) && q < |o.queues| && k < |o.fired|
    ensures k < |o.handled| && forall r <- refs :: r in o.dynamic ==> o.dynamic[r].qID < |o.queues|
    ensures Inv(Dispatch(o, k, q, refs, retry).0)
  {
    DynamicExists(o);
    assert |o.fired| == |o.handled|;
    hide Inv, Observe, PendingEvent, Pop;
    ObserveKeeps(o, q, refs, k);
    var o1 := Observe(o, q, refs, k);
    if o1.fired[k] > o1.handled[k] || retry {
      var o2 := o1.(handled := o1.handled[k := o1.handled[k] + 1]);
      HandledKeeps(o1, o2);
      PopKeeps(o2, PendingEvent(o2, q, refs).qID);
    }
  }

  lemma HandledKeeps(o: Oracle, o': Oracle)
    requires Inv(o) && o' == o.(handled := o'.handled) && |o'.handled| == |o.handled|
    ensures Inv(o')
  {
    hide WellFormedList, Has, OwnedBy, Sorted, Numbered, Differ;
    assert forall q :: 0 <= q < |o.queues| ==> QueueGood(o, q) ==> QueueGood(o', q);
    RegsKept(o, o');
  }

  // ---------------------------------------------------------------- broadcast

  lemma RegisteredExist(o: Oracle, b: nat, source: nat, etype: nat)
    requires Inv(o) && b < |o.regs|
    ensures forall i :: 0 <= i < |Members(o.regs[b], source, etype)| ==>
              Members(o.regs[b], source, etype)[i].qID < |o.queues| && o.queues[Members(o.regs[b], source, etype)[i].qID].active
    ensures QueuesExist(o, Members(o.regs[b], source, etype))
  {
    var list := Members(o.regs[b], source, etype);
    forall i | 0 <= i < |list| ensures list[i].qID < |o.queues| && o.queues[list[i].qID].active {
      assert Has(o.regs[b], Reg(source, etype, list[i].qID, list[i].ref));
      RegisteredIsActive(o, b, Reg(source, etype, list[i].qID, list[i].ref));
    }
  }

  lemma {:induction false} BroadcastKeeps(o: Oracle, qIDs: seq<RegQueueID>, e: Event)
    requires Inv(o) && QueuesExist(o, qIDs) && forall i :: 0 <= i < |qIDs| ==> o.queues[qIDs[i].qID].active
    ensures Inv(Broadcast(o, qIDs, e))
    decreases |qIDs|
  {
    hide Inv;
    if qIDs != [] {
      if qIDs[0].ref == e.ref {
        PushKeeps(o, qIDs[0].qID, e);
        BroadcastKeeps(Push(o, qIDs[0].qID, e), qIDs[1..], e);
      } else {
        BroadcastKeeps(o, qIDs[1..], e);
      }
    }
  }

  lemma OccurKeeps(o: Oracle, bucket: int, e: Event)
    requires Inv(o)
    ensures 0 <= bucket < |o.regs| ==> QueuesExist(o, Members(o.regs[bucket], e.source, e.etype))
    ensures Inv(Occur(o, bucket, e))
  {
    if 0 <= bucket < |o.regs| {
      RegisteredExist(o, bucket, e.source, e.etype);
      BroadcastKeeps(o, Members(o.regs[bucket], e.source, e.etype), e);
    }
  }

  /** How many entries of the list name the reference. */
  ghost function Count(qIDs: seq<RegQueueID>, ref: nat): nat {
    if qIDs == [] then 0 else (if qIDs[0].ref == ref then 1 else 0) + Count(qIDs[1..], ref)
  }

  lemma CountPrefix(qIDs: seq<RegQueueID>, ref: nat, i: nat)
    requires i < |qIDs|
    ensures Count(qIDs[..i + 1], ref) == (if qIDs[0].ref == ref then 1 else 0) + Count(qIDs[1..][..i], ref)
  {
    assert qIDs[..i + 1][1..] == qIDs[1..][..i];
  }

  /** The event, as it is put into the queue of the i-th entry. */
  ghost function Numbering(o: Oracle, qIDs: seq<RegQueueID>, e: Event, i: nat): Event
    requires i < |qIDs|
  {
    e.(seqNo := o.seqNo + Count(qIDs[..i + 1], e.ref))
  }

  /** What queue q gets from a broadcast. */
  ghost function Received(o: Oracle, qIDs: seq<RegQueueID>, e: Event, q: nat): seq<Event> {
    var i := IndexOf(qIDs, RegQueueID(q, e.ref));
    if i == |qIDs| then [] else [Numbering(o, qIDs, e, i)]
  }

  lemma ReceivedStep(o: Oracle, qIDs: seq<RegQueueID>, e: Event, q: nat)
    requires qIDs != [] && NoDup(qIDs)
    ensures NoDup(qIDs[1..])
    ensures var x, o1 := RegQueueID(q, e.ref), o.(seqNo := o.seqNo + if qIDs[0].ref == e.ref then 1 else 0);
            if qIDs[0] == x then Received(o, qIDs, e, q) == [e.(seqNo := o.seqNo + 1)] && Received(o1, qIDs[1..], e, q) == []
            else Received(o, qIDs, e, q) == Received(o1, qIDs[1..], e, q)
  {
    var rest, x := qIDs[1..], RegQueueID(q, e.ref);
    var i := IndexOf(qIDs, x);
    assert forall j :: 0 <= j < |rest| ==> rest[j] == qIDs[j + 1];
    if i < |qIDs| {
      CountPrefix(qIDs, e.ref, i);
      assert i == 0 ==> rest[..i] == [];
    }
  }

  lemma PushEffect(o: Oracle, p: nat, e: Event, q: nat)
    requires p < |o.queues| && q < |o.queues|
    ensures var o' := Push(o, p, e);
            && |o'.queues| == |o.queues| && o'.seqNo == o.seqNo + 1
            && o'.queues[q] == if p == q then o.queues[q].(events := o.queues[q].events + [e.(seqNo := o.seqNo + 1)]) else o.queues[q]
  {}

  lemma ReceivedNumber(o: Oracle, o': Oracle, qIDs: seq<RegQueueID>, e: Event, q: nat)
    requires o.seqNo == o'.seqNo
    ensures Received(o, qIDs, e, q) == Received(o', qIDs, e, q)
  {}

  /** A broadcast gives each matching queue exactly one event, numbered in the order of the list, and leaves
      the others alone. */
  lemma {:induction false} BroadcastExact(o: Oracle, qIDs: seq<RegQueueID>, e: Event, q: nat)
    requires QueuesExist(o, qIDs) && NoDup(qIDs) && q < |o.queues|
    ensures var o' := Broadcast(o, qIDs, e);
            && |o'.queues| == |o.queues| && o'.seqNo == o.seqNo + Count(qIDs, e.ref)
            && o'.queues[q] == o.queues[q].(events := o.queues[q].events + Received(o, qIDs, e, q))
    decreases |qIDs|
  {
    if qIDs != [] {
      ReceivedStep(o, qIDs, e, q);
      hide Received, Push;
      var o1 := o;
      if qIDs[0].ref == e.ref {
        PushEffect(o, qIDs[0].qID, e, q);
        PushedExist(o, qIDs[0].qID, e, qIDs[1..]);
        o1 := Push(o, qIDs[0].qID, e);
        ReceivedNumber(o.(seqNo := o.seqNo + 1), o1, qIDs[1..], e, q);
      }
      BroadcastExact(o1, qIDs[1..], e, q);
    }
  }

  lemma PushedExist(o: Oracle, q: nat, e: Event, qIDs: seq<RegQueueID>)
    requires QueuesExist(o, qIDs) && q < |o.queues|
    ensures QueuesExist(Push(o, q, e), qIDs)
  {}

  // ---------------------------------------------------------------- queue allocation

  /** A new queue is not queue 0, was not in use, and holds no events; the queues in use are as before. */
  lemma NewQueueIsNew(o: Oracle, observer: Option<nat>)
    requires Inv(o)
    ensures var q, o' := NewQueueID(o), NewQueue(o, observer);
            && q != NOT_A_QUEUE && (q < |o.queues| ==> !o.queues[q].active)
            && q < |o'.queues| && o'.queues[q] == Queue([], true, false, observer)
            && (forall p :: 0 <= p < |o.queues| && p != q ==> p < |o'.queues| && o'.queues[p] == o.queues[p])
            && |o'.queues| == (if q < |o.queues| then |o.queues| else |o.queues| + 1)
            && o' == o.(queues := o'.queues, fired := o'.fired) && o'.fired == o.fired
  {
    hide AllOwned, InfosGood, Differ, Sorted, Numbered;
    var q := NewQueueID(o);
    if q < |o.queues| {
      assert QueueGood(o, q);
      FireNone(o.fired, observer);
    }
  }

  lemma FireNone(fired: seq<nat>, observer: Option<nat>)
    ensures Fire(fired, observer, 0) == fired
  {}

  lemma NewQueueKeeps(o: Oracle, observer: Option<nat>)
    requires Inv(o)
    ensures Inv(NewQueue(o, observer))
  {
    NewQueueIsNew(o, observer);
    hide WellFormedList, Has, OwnedBy, NewQueue, Sorted, Numbered, NewQueueID;
    var q, o' := NewQueueID(o), NewQueue(o, observer);
    forall p | 0 <= p < |o'.queues| ensures QueueGood(o', p) {
      if p != q {
        assert QueueGood(o, p);
      } else {
        EmptyGood(o');
      }
    }
    RegsKept(o, o');
  }

  lemma EmptyGood(o: Oracle)
    ensures Sorted([]) && Numbered([], o.seqNo)
  {}

  lemma DeleteKeeps(o: Oracle, q: nat)
    requires InvQueues(o)
    ensures InvQueues(DeleteQueue(o, q))
  {
    if q < |o.queues| {
      assert QueueGood(o, q);
      QueueChanged(o, DeleteQueue(o, q), q);
    }
  }

  // ---------------------------------------------------------------- registration

  lemma RegisterKeeps(o: Oracle, r: nat, x: Reg)
    requires Inv(o) && OwnedBy(o, r, x)
    ensures Inv(Register(o, x)) && forall y :: Has(Register(o, x).regs[APP_BUCKET], y) <==> Has(o.regs[APP_BUCKET], y) || y == x
  {
    hide WellFormedList, Has, Inserted, QueueGood, Differ;
    var o' := Register(o, x);
    InsertOne(o.regs[0], x, x);
    forall y ensures Has(o'.regs[0], y) <==> Has(o.regs[0], y) || y == x {
      InsertOne(o.regs[0], x, y);
    }
    SameBooks(o, o');
    forall b, y | 0 <= b < |o'.regs| && Has(o'.regs[b], y) ensures b == APP_BUCKET && exists s :: OwnedBy(o', s, y) {
      if b == 0 && y == x {
        assert OwnedBy(o', r, x);
      } else {
        assert Has(o.regs[b], y);
        var s :| OwnedBy(o, s, y);
        assert OwnedBy(o', s, y);
      }
    }
  }

  /** The queues and refnums are good whatever the registrations. */
  lemma SameBooks(o: Oracle, o': Oracle)
    requires InvQueues(o) && InfosGood(o) && o' == o.(regs := o'.regs)
    ensures InvQueues(o') && InfosGood(o')
  {
    forall q | 0 <= q < |o'.queues| ensures QueueGood(o', q) {
      assert QueueGood(o, q);
    }
    forall r | r in o'.dynamic ensures InfoGood(o', r) {
      assert InfoGood(o, r);
    }
  }

  lemma RemoveKeeps(o: Oracle, x: Reg)
    requires Inv(o)
    ensures Inv(Unregister(o, x)) && forall y :: Has(Unregister(o, x).regs[APP_BUCKET], y) <==> Has(o.regs[APP_BUCKET], y) && y != x
  {
    hide WellFormedList, Has, Removed, QueueGood, Differ;
    var o' := Unregister(o, x);
    RemoveOne(o.regs[0], x, x);
    forall y ensures Has(o'.regs[0], y) <==> Has(o.regs[0], y) && y != x {
      RemoveOne(o.regs[0], x, y);
    }
    SameBooks(o, o');
    forall b, y | 0 <= b < |o'.regs| && Has(o'.regs[b], y) ensures b == APP_BUCKET && exists s :: OwnedBy(o', s, y) {
      assert Has(o.regs[b], y);
      var s :| OwnedBy(o, s, y);
      assert OwnedBy(o', s, y);
    }
  }

  /** The entries of refnum r may change as long as they cover what is registered for its queue. */
  lemma EntriesKeep(o: Oracle, r: nat, entries: seq<RegEntry>)
    requires Inv(o) && r in o.dynamic
    requires forall i :: 0 <= i < |entries| ==> entries[i].source == SourceFor(entries[i].etype)
    requires forall x :: Has(o.regs[APP_BUCKET], x) && x.qID == o.dynamic[r].qID ==> RegEntry(x.source, x.etype, x.ref) in entries
    ensures Inv(o.(dynamic := o.dynamic[r := o.dynamic[r].(entries := entries)]))
  {
    hide WellFormedList, Has, QueueGood, Differ;
    var o' := o.(dynamic := o.dynamic[r := o.dynamic[r].(entries := entries)]);
    forall q | 0 <= q < |o'.queues| ensures QueueGood(o', q) {
      QueueGoodKept(o, o', q);
    }
    forall s | s in o'.dynamic ensures InfoGood(o', s) {
      assert InfoGood(o, s);
    }
    forall b, x | 0 <= b < |o'.regs| && Has(o'.regs[b], x) ensures b == APP_BUCKET && exists s :: OwnedBy(o', s, x) {
      var s :| OwnedBy(o, s, x);
      assert OwnedBy(o', s, x);
    }
  }

  lemma QueueGoodKept(o: Oracle, o': Oracle, q: nat)
    requires q < |o.queues| && QueueGood(o, q) && o'.queues == o.queues && o'.seqNo == o.seqNo
    ensures QueueGood(o', q)
  {}

  lemma RegisterFirstKeeps(o: Oracle, r: nat, etype: nat, ref: nat)
    requires Inv(o) && r in o.dynamic
    ensures Inv(RegisterFirst(o, r, etype, ref))
  {
    var info, source := o.dynamic[r], SourceFor(etype);
    var entries := info.entries + [RegEntry(source, etype, ref)];
    assert InfoGood(o, r);
    forall x | Has(o.regs[APP_BUCKET], x) && x.qID == info.qID ensures RegEntry(x.source, x.etype, x.ref) in entries {
      OwnerKnown(o, r, x);
    }
    hide Inv, SourceFor, Has;
    EntriesKeep(o, r, entries);
    var o1 := o.(dynamic := o.dynamic[r := info.(entries := entries)]);
    if ref != NOT_A_REFNUM {
      assert entries[|entries| - 1] == RegEntry(source, etype, ref);
      RegisterKeeps(o1, r, Reg(source, etype, info.qID, ref));
    }
  }

  /** A registration for the queue of r is for one of the inputs of r. */
  lemma OwnerKnown(o: Oracle, r: nat, x: Reg)
    requires Inv(o) && r in o.dynamic && Has(o.regs[APP_BUCKET], x) && x.qID == o.dynamic[r].qID
    ensures OwnedBy(o, r, x)
  {}

  lemma RegisterAgainKeeps(o: Oracle, r: nat, i: nat, ref: nat)
    requires Inv(o) && r in o.dynamic && i < |o.dynamic[r].entries|
    ensures Inv(RegisterAgain(o, r, i, ref))
  {
    var info := o.dynamic[r];
    var entry := info.entries[i];
    assert InfoGood(o, r);
    if entry.ref != ref {
      var x, y := Reg(entry.source, entry.etype, info.qID, entry.ref), Reg(entry.source, entry.etype, info.qID, ref);
      var o1, entries := Unregister(o, x), info.entries[i := entry.(ref := ref)];
      RemoveKeeps(o, x);
      forall z | Has(o1.regs[APP_BUCKET], z) && z.qID == info.qID ensures RegEntry(z.source, z.etype, z.ref) in entries {
        OwnerKnown(o1, r, z);
        var j :| 0 <= j < |info.entries| && info.entries[j] == RegEntry(z.source, z.etype, z.ref);
        assert j != i;
        assert entries[j] == info.entries[j];
      }
      hide Inv, SourceFor, Has;
      EntriesKeep(o1, r, entries);
      var o2 := o1.(dynamic := o1.dynamic[r := info.(entries := entries)]);
      if ref != NOT_A_REFNUM {
        assert entries[i] == RegEntry(y.source, y.etype, y.ref);
        RegisterKeeps(o2, r, y);
      }
    }
  }

  lemma {:induction false} RegisterArgsKeep(o: Oracle, r: nat, i: nat, args: seq<RegArg>, again: bool)
    requires Inv(o) && r in o.dynamic && i <= |args| && (again ==> |o.dynamic[r].entries| == |args|)
    ensures Inv(RegisterArgs(o, r, i, args, again).0)
    decreases |args| - i
  {
    assert o.regs != [];
    hide Inv, RegisterFirst, RegisterAgain;
    if i < |args| && ArgFits(o.dynamic[r].entries, i, args[i], again) {
      if args[i].Arg? {
        if again {
          RegisterAgainKeeps(o, r, i, args[i].ref);
        } else {
          RegisterFirstKeeps(o, r, args[i].etype, args[i].ref);
        }
      }
      RegisterArgsShape(o, r, i, args[i], again);
      RegisterArgsKeep(RegisterArg(o, r, i, args[i], again), r, i + 1, args, again);
    }
  }

  lemma RegisterArgsShape(o: Oracle, r: nat, i: nat, arg: RegArg, again: bool)
    requires Inv(o) && r in o.dynamic && (again ==> i < |o.dynamic[r].entries|)
    ensures var o' := RegisterArg(o, r, i, arg, again);
            && o'.regs != [] && r in o'.dynamic
            && (again ==> |o'.dynamic[r].entries| == |o.dynamic[r].entries|)
  {}

  lemma RegisterNewKeeps(o: Oracle, r: nat, args: seq<RegArg>)
    requires Inv(o) && r !in o.dynamic && r != NOT_A_REFNUM
    ensures Inv(RegisterNew(o, r, args).0)
  {
    var q, o1 := NewQueueID(o), NewQueue(o, None);
    NewQueueIsNew(o, None);
    NewQueueKeeps(o, None);
    AddInfo(o, o1, r, q);
    RegisterArgsKeep(o1.(dynamic := o1.dynamic[r := DynRegInfo(q, [])]), r, 0, args, false);
  }

  lemma AddInfo(o: Oracle, o1: Oracle, r: nat, q: nat)
    requires Inv(o) && Inv(o1) && r !in o.dynamic && r != NOT_A_REFNUM && o1.dynamic == o.dynamic
    requires q < |o1.queues| && o1.queues[q].active && (q < |o.queues| ==> !o.queues[q].active)
    ensures Inv(o1.(dynamic := o1.dynamic[r := DynRegInfo(q, [])]))
  {
    hide WellFormedList, Has, QueueGood, Differ;
    var o2 := o1.(dynamic := o1.dynamic[r := DynRegInfo(q, [])]);
    forall p | 0 <= p < |o2.queues| ensures QueueGood(o2, p) {
      QueueGoodKept(o1, o2, p);
    }
    forall s | s in o2.dynamic ensures InfoGood(o2, s) && (s != r ==> o2.dynamic[s].qID != q) {
      if s != r {
        assert InfoGood(o, s) && InfoGood(o1, s);
      }
    }
    forall b, x | 0 <= b < |o2.regs| && Has(o2.regs[b], x) ensures b == APP_BUCKET && exists s :: OwnedBy(o2, s, x) {
      var s :| OwnedBy(o1, s, x);
      assert OwnedBy(o2, s, x);
    }
  }

  lemma {:induction false} UnregisterEntriesEffect(o: Oracle, q: nat, entries: seq<RegEntry>)
    requires o.regs != [] && forall b :: 0 <= b < |o.regs| ==> WellFormedList(o.regs[b])
    ensures var o' := UnregisterEntries(o, q, entries);
            && o' == o.(regs := o'.regs) && |o'.regs| == |o.regs|
            && (forall b :: 0 <= b < |o.regs| ==> WellFormedList(o'.regs[b]) && (b != APP_BUCKET ==> o'.regs[b] == o.regs[b]))
            && forall y :: Has(o'.regs[APP_BUCKET], y) <==>
                 Has(o.regs[APP_BUCKET], y) && !(y.qID == q && RegEntry(y.source, y.etype, y.ref) in entries)
    decreases |entries|
  {
    hide WellFormedList, Has, Removed;
    if entries != [] {
      var x := Reg(entries[0].source, entries[0].etype, q, entries[0].ref);
      RemoveOne(o.regs[0], x, x);
      UnregisterEntriesEffect(Unregister(o, x), q, entries[1..]);
      assert entries == [entries[0]] + entries[1..];
      forall y ensures Has(Unregister(o, x).regs[APP_BUCKET], y) <==> Has(o.regs[APP_BUCKET], y) && y != x {
        RemoveOne(o.regs[0], x, y);
      }
    }
  }

  /** What disposing of a refnum does: its queue is freed and no registration for it is left. */
  lemma DisposeEffect(o: Oracle, r: nat)
    requires Inv(o) && r in o.dynamic
    ensures var o', q := Dispose(o, r), o.dynamic[r].qID;
            && q < |o.queues| && |o'.regs| == |o.regs|
            && o' == o.(queues := o.queues[q := o.queues[q].(events := [], active := false)], regs := o'.regs, dynamic := o.dynamic - {r})
            && (forall b :: 0 <= b < |o.regs| ==> WellFormedList(o'.regs[b]) && (b != APP_BUCKET ==> o'.regs[b] == o.regs[b]))
            && forall y :: Has(o'.regs[APP_BUCKET], y) <==> Has(o.regs[APP_BUCKET], y) && y.qID != q
  {
    var info, o' := o.dynamic[r], Dispose(o, r);
    assert InfoGood(o, r);
    UnregisterEntriesEffect(DeleteQueue(o.(dynamic := o.dynamic - {r}), info.qID), info.qID, info.entries);
    hide WellFormedList, Has, UnregisterEntries, InvQueues;
    forall y ensures Has(o'.regs[0], y) <==> Has(o.regs[0], y) && y.qID != info.qID {
      if Has(o.regs[0], y) && y.qID == info.qID {
        OwnerKnown(o, r, y);
      }
    }
  }

  lemma DisposeKeeps(o: Oracle, r: nat)
    requires Inv(o) && r in o.dynamic
    ensures Inv(Dispose(o, r))
  {
    var o', q := Dispose(o, r), o.dynamic[r].qID;
    DisposeEffect(o, r);
    hide WellFormedList, Has, Dispose, QueueGood, Differ;
    DeleteKeeps(o, q);
    SameQueues(DeleteQueue(o, q), o');
    forall s | s in o'.dynamic ensures InfoGood(o', s) {
      assert InfoGood(o, s);
    }
    forall b, x | 0 <= b < |o'.regs| && Has(o'.regs[b], x) ensures b == APP_BUCKET && exists s :: OwnedBy(o', s, x) {
      assert Has(o.regs[b], x);
      var s :| OwnedBy(o, s, x);
      assert OwnedBy(o', s, x);
    }
  }

  lemma SameQueues(o: Oracle, o': Oracle)
    requires InvQueues(o) && o'.queues == o.queues && o'.seqNo == o.seqNo && o'.fired == o.fired && o'.handled == o.handled
    ensures InvQueues(o')
  {
    forall q | 0 <= q < |o'.queues| ensures QueueGood(o', q) {
      assert QueueGood(o, q);
    }
  }

  /** An event goes to the queues registered for its source, type and reference, once each, and numbers grow. */
  lemma OccurExact(o: Oracle, bucket: nat, e: Event, q: nat)
    requires Inv(o) && bucket < |o.regs| && q < |o.queues|
    ensures QueuesExist(o, Members(o.regs[bucket], e.source, e.etype))
    ensures var o', list := Occur(o, bucket, e), Members(o.regs[bucket], e.source, e.etype);
            && |o'.queues| == |o.queues| && o'.seqNo == o.seqNo + Count(list, e.ref)
            && o'.queues[q] == o.queues[q].(events := o'.queues[q].events)
            && if Has(o.regs[bucket], Reg(e.source, e.etype, q, e.ref)) then
                 exists n :: o.seqNo < n <= o'.seqNo && o'.queues[q].events == o.queues[q].events + [e.(seqNo := n)]
               else o'.queues[q].events == o.queues[q].events
  {
    var list := Members(o.regs[bucket], e.source, e.etype);
    RegisteredExist(o, bucket, e.source, e.etype);
    MembersNoDup(o.regs[bucket], e.source, e.etype);
    BroadcastExact(o, list, e, q);
    var i := IndexOf(list, RegQueueID(q, e.ref));
    if i < |list| {
      CountBounds(list, e.ref, i);
      var n := o.seqNo + Count(list[..i + 1], e.ref);
      assert Received(o, list, e, q) == [e.(seqNo := n)];
      assert o.seqNo < n <= Occur(o, bucket, e).seqNo;
    } else {
      assert Received(o, list, e, q) == [];
    }
  }

  lemma {:induction false} CountBounds(qIDs: seq<RegQueueID>, ref: nat, i: nat)
    requires i < |qIDs| && qIDs[i].ref == ref
    ensures 1 <= Count(qIDs[..i + 1], ref) <= Count(qIDs, ref)
    decreases |qIDs|
  {
    CountPrefix(qIDs, ref, i);
    if i > 0 {
      CountBounds(qIDs[1..], ref, i - 1);
    }
  }

  // ---------------------------------------------------------------- the earliest event

  /** Queue w is the static queue q, or that of one of the first n refnums. */
  ghost predicate Watched(o: Oracle, q: nat, refs: seq<nat>, n: nat, w: nat)
    requires n <= |refs|
  {
    (q != NOT_A_QUEUE && w == q) || exists i :: 0 <= i < n && refs[i] in o.dynamic && o.dynamic[refs[i]].qID == w
  }

  /** The number of event inputs of the first n refnums. */
  ghost function Inputs(o: Oracle, refs: seq<nat>, n: nat): nat
    requires n <= |refs|
  {
    if n == 0 then 0 else Inputs(o, refs, n - 1) + if refs[n - 1] in o.dynamic then |o.dynamic[refs[n - 1]].entries| else 0
  }

  /** best is the earliest event of the watched queues: none of them holds an earlier one. */
  ghost predicate IsEarliest(o: Oracle, q: nat, refs: seq<nat>, n: nat, best: Pending)
    requires n <= |refs|
  {
    if best.qID == NOT_A_QUEUE then
      best == NOTHING && forall w :: 0 <= w < |o.queues| && Watched(o, q, refs, n, w) ==> o.queues[w].events == []
    else
      && best.qID < |o.queues| && Watched(o, q, refs, n, best.qID)
      && o.queues[best.qID].events != [] && o.queues[best.qID].events[0].seqNo == best.seqNo
      && (forall w :: 0 <= w < |o.queues| && Watched(o, q, refs, n, w) && o.queues[w].events != [] ==>
            best.seqNo <= o.queues[w].events[0].seqNo)
      && 0 <= best.index <= n
      && (if best.index == 0 then best.qID == q && best.base == 0
          else && refs[best.index - 1] in o.dynamic && o.dynamic[refs[best.index - 1]].qID == best.qID
               && best.base == Inputs(o, refs, best.index - 1))
  }

  lemma {:induction false} EarliestFrom(o: Oracle, q: nat, refs: seq<nat>, i: nat, best: Pending, skipped: nat)
    requires i <= |refs| && best.qID < |o.queues| && forall r <- refs :: r in o.dynamic ==> 0 < o.dynamic[r].qID < |o.queues|
    requires IsEarliest(o, q, refs, i, best) && skipped == Inputs(o, refs, i)
    ensures IsEarliest(o, q, refs, |refs|, Earliest(o, refs, i, best, skipped))
    decreases |refs| - i
  {
    if i < |refs| {
      WatchedNext(o, q, refs, i);
      if refs[i] in o.dynamic {
        var info := o.dynamic[refs[i]];
        assert Watched(o, q, refs, i + 1, info.qID);
        hide Watched;
        EarliestFrom(o, q, refs, i + 1, Look(o, info.qID, best, i + 1, skipped), skipped + |info.entries|);
      } else {
        hide Watched;
        EarliestFrom(o, q, refs, i + 1, best, skipped);
      }
    }
  }

  lemma WatchedNext(o: Oracle, q: nat, refs: seq<nat>, i: nat)
    requires i < |refs|
    ensures forall w :: Watched(o, q, refs, i + 1, w) <==>
              Watched(o, q, refs, i, w) || (refs[i] in o.dynamic && o.dynamic[refs[i]].qID == w)
  {
    forall w | Watched(o, q, refs, i, w) ensures Watched(o, q, refs, i + 1, w) {
      if !(q != NOT_A_QUEUE && w == q) {
        var j :| 0 <= j < i && refs[j] in o.dynamic && o.dynamic[refs[j]].qID == w;
      }
    }
    assert refs[i] in o.dynamic ==> Watched(o, q, refs, i + 1, o.dynamic[refs[i]].qID);
  }

  /** GetPendingEventInfo finds the earliest event of all the queues it looks at. */
  lemma FindsEarliest(o: Oracle, q: nat, refs: seq<nat>)
    requires Inv(o) && q < |o.queues|
    ensures forall r :: r in o.dynamic ==> 0 < o.dynamic[r].qID < |o.queues|
    ensures IsEarliest(o, q, refs, |refs|, PendingEvent(o, q, refs))
  {
    forall r | r in o.dynamic ensures 0 < o.dynamic[r].qID < |o.queues| {
      assert InfoGood(o, r) && QueueGood(o, 0);
    }
    assert QueueGood(o, 0);
    assert o.queues[0].events == [];
    hide Inv;
    EarliestFrom(o, q, refs, 0, StaticPending(o, q), 0);
  }

  // ---------------------------------------------------------------- re-registration

  /** What is registered for refnum r is what its inputs say. */
  ghost predicate Faithful(o: Oracle, r: nat)
    requires o.regs != [] && r in o.dynamic
  {
    var info := o.dynamic[r];
    forall x: Reg :: x.qID == info.qID ==>
      (Has(o.regs[APP_BUCKET], x) <==> x.ref != NOT_A_REFNUM && RegEntry(x.source, x.etype, x.ref) in info.entries)
  }

  /** Registering input i again for another reference keeps registrations and inputs in step exactly when no
      other input has the event type and reference that input i gives up. */
  lemma ReregistrationFaithful(o: Oracle, r: nat, i: nat, ref: nat)
    requires Inv(o) && r in o.dynamic && Faithful(o, r) && i < |o.dynamic[r].entries| && ref != o.dynamic[r].entries[i].ref
    ensures var o', entries := RegisterAgain(o, r, i, ref), o.dynamic[r].entries;
            && o'.regs != [] && r in o'.dynamic
            && (Faithful(o', r) <==>
                entries[i].ref == NOT_A_REFNUM || forall j :: 0 <= j < |entries| && j != i ==> entries[j] != entries[i])
  {
    var info := o.dynamic[r];
    var entry, entries := info.entries[i], info.entries;
    assert InfoGood(o, r) && entry.source == SourceFor(entry.etype);
    var x, y := Reg(entry.source, entry.etype, info.qID, entry.ref), Reg(entry.source, entry.etype, info.qID, ref);
    var o' := RegisterAgain(o, r, i, ref);
    var after := entries[i := entry.(ref := ref)];
    AgainEffect(o, r, i, ref);
    hide Inv, Has, RegisterAgain;
    assert after[i] == RegEntry(y.source, y.etype, y.ref);
    if entry.ref != NOT_A_REFNUM {
      if j :| 0 <= j < |entries| && j != i && entries[j] == entry {
        assert after[j] == RegEntry(x.source, x.etype, x.ref);
        assert !Faithful(o', r);
        return;
      }
    }
    forall z: Reg | z.qID == info.qID
      ensures Has(o'.regs[APP_BUCKET], z) <==> z.ref != NOT_A_REFNUM && RegEntry(z.source, z.etype, z.ref) in after
    {
      EntrySwap(entries, i, ref, RegEntry(z.source, z.etype, z.ref));
    }
  }

  lemma EntrySwap(entries: seq<RegEntry>, i: nat, ref: nat, e: RegEntry)
    requires i < |entries| && ref != entries[i].ref
    ensures var after := entries[i := entries[i].(ref := ref)];
            && (e == after[i] ==> e in after)
            && (e != after[i] && e != entries[i] ==> (e in after <==> e in entries))
            && (e == entries[i] ==> (e in after <==> exists j :: 0 <= j < |entries| && j != i && entries[j] == entries[i]))
  {
    var after := entries[i := entries[i].(ref := ref)];
    if e in after && e != after[i] {
      var j :| 0 <= j < |after| && after[j] == e;
      assert entries[j] == e;
    }
    if e in entries && e != entries[i] {
      var j :| 0 <= j < |entries| && entries[j] == e;
      assert after[j] == e;
    }
    if j :| e == entries[i] && 0 <= j < |entries| && j != i && entries[j] == entries[i] {
      assert after[j] == e;
    }
  }

  lemma AgainEffect(o: Oracle, r: nat, i: nat, ref: nat)
    requires Inv(o) && r in o.dynamic && i < |o.dynamic[r].entries| && ref != o.dynamic[r].entries[i].ref
    ensures var o', info := RegisterAgain(o, r, i, ref), o.dynamic[r];
            var entry := info.entries[i];
            var x, y := Reg(entry.source, entry.etype, info.qID, entry.ref), Reg(entry.source, entry.etype, info.qID, ref);
            && o'.regs != [] && r in o'.dynamic && o'.dynamic[r] == info.(entries := info.entries[i := entry.(ref := ref)])
            && forall z :: Has(o'.regs[APP_BUCKET], z) <==>
                 (Has(o.regs[APP_BUCKET], z) && z != x) || (ref != NOT_A_REFNUM && z == y)
  {
    var info := o.dynamic[r];
    var entry := info.entries[i];
    assert InfoGood(o, r);
    var x, y := Reg(entry.source, entry.etype, info.qID, entry.ref), Reg(entry.source, entry.etype, info.qID, ref);
    RemoveOne(o.regs[0], x, x);
    var mid := Removed(o.regs[0], x);
    hide WellFormedList, Has, Inserted, Removed;
    forall z
      ensures Has(RegisterAgain(o, r, i, ref).regs[0], z) <==> (Has(o.regs[0], z) && z != x) || (ref != NOT_A_REFNUM && z == y)
    {
      RemoveOne(o.regs[0], x, z);
      InsertOne(mid, y, z);
    }
  }
}
