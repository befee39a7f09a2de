/** The state that source/core/Events.cpp keeps, as values, and what each of its operations does to it.
    EventOracle.dfy shows that the loops of the source compute these functions; EventTheorems.dfy follows
    them over whole runs. */
module EventState {

  datatype Option<T> = None | Some(value: T)

  datatype Event = Event(source: nat, etype: nat, ref: nat, seqNo: nat)

  /** An event queue.  observer is the event structure whose occurrence it fires. */
  datatype Queue = Queue(events: seq<Event>, active: bool, locked: bool, observer: Option<nat>)

  datatype RegQueueID = RegQueueID(qID: nat, ref: nat)
  datatype RegInfo = RegInfo(source: nat, etype: nat, qIDs: seq<RegQueueID>)

  /** One registration: events of this source, type and reference go to queue qID. */
  datatype Reg = Reg(source: nat, etype: nat, qID: nat, ref: nat)

  /** What a dynamic registration refnum stands for. */
  datatype RegEntry = RegEntry(source: nat, etype: nat, ref: nat)
  datatype DynRegInfo = DynRegInfo(qID: nat, entries: seq<RegEntry>)

  /** queues and regs are the oracle's _qObject and _eventReg, seqNo the global sequence number, dynamic the
      registration refnums in use.  Event structure k has an occurrence, fired fired[k] times, and has
      handled handled[k] of them (its setCount). */
  datatype Oracle = Oracle(queues: seq<Queue>, regs: seq<seq<RegInfo>>, seqNo: nat, dynamic: map<nat, DynRegInfo>,
                           fired: seq<nat>, handled: seq<nat>)

  const NOT_A_QUEUE := 0           // kNotAQueueID
  const APP_BUCKET := 0            // kAppEventOracleIdx
  const NOT_A_REFNUM := 0          // kNotARefNum

  /** GetEventSourceForEventType */
  function SourceFor(etype: nat): nat {
    if etype == 1000 then 25 else if etype >= 2 then 1000 else 0
  }

  // ---------------------------------------------------------------- registration lists

  /** The position of the sublist for a source and type, or the length of the list. */
  function Find(list: seq<RegInfo>, source: nat, etype: nat): (i: nat)
    ensures i <= |list| && (i < |list| ==> list[i].source == source && list[i].etype == etype)
    ensures forall j :: 0 <= j < i ==> list[j].source != source || list[j].etype != etype
  {
    if list == [] then 0
    else if list[0].source == source && list[0].etype == etype then 0
    else 1 + Find(list[1..], source, etype)
  }

  function IndexOf(qIDs: seq<RegQueueID>, x: RegQueueID): (i: nat)
    ensures i <= |qIDs| && (i < |qIDs| ==> qIDs[i] == x) && (i < |qIDs| <==> x in qIDs)
    ensures forall j :: 0 <= j < i ==> qIDs[j] != x
  {
    if qIDs == [] then 0 else if qIDs[0] == x then 0 else 1 + IndexOf(qIDs[1..], x)
  }

  function Without<T>(s: seq<T>, i: nat): seq<T>
    requires i < |s|
  {
    s[..i] + s[i + 1..]
  }

  function Inserted(list: seq<RegInfo>, x: Reg): seq<RegInfo> {
    var i, e := Find(list, x.source, x.etype), RegQueueID(x.qID, x.ref);
    if i == |list| then list + [RegInfo(x.source, x.etype, [e])]
    else if e in list[i].qIDs then list
    else list[i := list[i].(qIDs := list[i].qIDs + [e])]
  }

  function Removed(list: seq<RegInfo>, x: Reg): seq<RegInfo> {
    var i, e := Find(list, x.source, x.etype), RegQueueID(x.qID, x.ref);
    if i == |list| || e !in list[i].qIDs then list
    else
      var rest := Without(list[i].qIDs, IndexOf(list[i].qIDs, e));
      if rest == [] then Without(list, i) else list[i := list[i].(qIDs := rest)]
  }

  ghost predicate NoDup<T(!new)>(s: seq<T>) {
    forall i, j :: 0 <= i < j < |s| ==> s[i] != s[j]
  }

  /** One sublist for a source and type, none of them empty, no entry twice. */
  ghost predicate WellFormedList(list: seq<RegInfo>) {
    && (forall i, j :: 0 <= i < j < |list| ==> list[i].source != list[j].source || list[i].etype != list[j].etype)
    && (forall i :: 0 <= i < |list| ==> list[i].qIDs != [] && NoDup(list[i].qIDs))
  }

  /** The sublist for a source and type. */
  function Members(list: seq<RegInfo>, source: nat, etype: nat): seq<RegQueueID> {
    var i := Find(list, source, etype);
    if i < |list| then list[i].qIDs else []
  }

  predicate Has(list: seq<RegInfo>, x: Reg) {
    RegQueueID(x.qID, x.ref) in Members(list, x.source, x.etype)
  }

  /** The set that a registration list stands for. */
  ghost function Regs(list: seq<RegInfo>): iset<Reg> {
    iset x | Has(list, x)
  }

  lemma WithoutAt<T>(s: seq<T>, i: nat)
    requires i < |s|
    ensures |Without(s, i)| == |s| - 1
    ensures forall j :: 0 <= j < |s| - 1 ==> Without(s, i)[j] == if j < i then s[j] else s[j + 1]
  {}

  /** The position of a key in a well-formed list is the only one with that key. */
  lemma FindsOnly(list: seq<RegInfo>, i: nat)
    requires WellFormedList(list) && i < |list|
    ensures Find(list, list[i].source, list[i].etype) == i
  {}

  lemma MembersNoDup(list: seq<RegInfo>, source: nat, etype: nat)
    requires WellFormedList(list)
    ensures NoDup(Members(list, source, etype))
  {}

  // The three ways a list changes.

  lemma AppendWellFormed(list: seq<RegInfo>, info: RegInfo)
    requires WellFormedList(list) && Find(list, info.source, info.etype) == |list| && info.qIDs != [] && NoDup(info.qIDs)
    ensures WellFormedList(list + [info])
  {}

  lemma AppendSublist(list: seq<RegInfo>, info: RegInfo, source: nat, etype: nat)
    requires WellFormedList(list) && Find(list, info.source, info.etype) == |list| && info.qIDs != [] && NoDup(info.qIDs)
    ensures WellFormedList(list + [info])
    ensures Members(list + [info], source, etype)
            == if source == info.source && etype == info.etype then info.qIDs else Members(list, source, etype)
  {
    AppendWellFormed(list, info);
    hide WellFormedList, NoDup, Find;
    var after, i := list + [info], Find(list, source, etype);
    if source == info.source && etype == info.etype {
      FindsOnly(after, |list|);
    } else if i < |list| {
      assert after[i] == list[i];
      FindsOnly(after, i);
    } else {
      assert forall k :: 0 <= k < |after| ==> after[k].source != source || after[k].etype != etype;
    }
  }

  lemma UpdateSublist(list: seq<RegInfo>, i: nat, qIDs: seq<RegQueueID>, source: nat, etype: nat)
    requires WellFormedList(list) && i < |list| && qIDs != [] && NoDup(qIDs)
    ensures WellFormedList(list[i := list[i].(qIDs := qIDs)])
    ensures Members(list[i := list[i].(qIDs := qIDs)], source, etype)
            == if source == list[i].source && etype == list[i].etype then qIDs else Members(list, source, etype)
  {
    var after, j := list[i := list[i].(qIDs := qIDs)], Find(list, source, etype);
    if j < |list| {
      FindsOnly(after, j);
      FindsOnly(list, i);
    }
  }

  lemma DropWellFormed(list: seq<RegInfo>, i: nat)
    requires WellFormedList(list) && i < |list|
    ensures WellFormedList(Without(list, i))
  {}

  lemma DropSublist(list: seq<RegInfo>, i: nat, source: nat, etype: nat)
    requires WellFormedList(list) && i < |list|
    ensures WellFormedList(Without(list, i))
    ensures Members(Without(list, i), source, etype)
            == if source == list[i].source && etype == list[i].etype then [] else Members(list, source, etype)
  {
    DropWellFormed(list, i);
    WithoutAt(list, i);
    FindsOnly(list, i);
    hide WellFormedList, NoDup, Without, Find;
    var after, j := Without(list, i), Find(list, source, etype);
    if j < i {
      assert after[j] == list[j];
      FindsOnly(after, j);
    } else if i < j < |list| {
      assert after[j - 1] == list[j];
      FindsOnly(after, j - 1);
    } else {
      forall k | 0 <= k < |after| ensures after[k].source != source || after[k].etype != etype {
        FindsOnly(list, if k < i then k else k + 1);
      }
    }
  }

  lemma InsertOne(list: seq<RegInfo>, x: Reg, y: Reg)
    requires WellFormedList(list)
    ensures WellFormedList(Inserted(list, x)) && (Has(Inserted(list, x), y) <==> Has(list, y) || y == x)
  {
    var i, e := Find(list, x.source, x.etype), RegQueueID(x.qID, x.ref);
    hide WellFormedList, NoDup;
    if i == |list| {
      SingleNoDup(e);
      AppendSublist(list, RegInfo(x.source, x.etype, [e]), y.source, y.etype);
    } else if e !in list[i].qIDs {
      MembersNoDup(list, x.source, x.etype);
      PushNoDup(list[i].qIDs, e);
      UpdateSublist(list, i, list[i].qIDs + [e], y.source, y.etype);
    }
  }

  lemma SingleNoDup(e: RegQueueID)
    ensures NoDup([e])
  {}

  lemma PushNoDup(qIDs: seq<RegQueueID>, e: RegQueueID)
    requires NoDup(qIDs) && e !in qIDs
    ensures NoDup(qIDs + [e])
  {}

  lemma WithoutEntry(qIDs: seq<RegQueueID>, i: nat, e: RegQueueID)
    requires NoDup(qIDs) && i < |qIDs|
    ensures NoDup(Without(qIDs, i))
    ensures e in Without(qIDs, i) <==> e in qIDs && e != qIDs[i]
  {}

  lemma RemoveOne(list: seq<RegInfo>, x: Reg, y: Reg)
    requires WellFormedList(list)
    ensures WellFormedList(Removed(list, x)) && (Has(Removed(list, x), y) <==> Has(list, y) && y != x)
  {
    var i, e := Find(list, x.source, x.etype), RegQueueID(x.qID, x.ref);
    hide WellFormedList, NoDup, Without;
    if i < |list| && e in list[i].qIDs {
      var k := IndexOf(list[i].qIDs, e);
      MembersNoDup(list, x.source, x.etype);
      WithoutEntry(list[i].qIDs, k, RegQueueID(y.qID, y.ref));
      if Without(list[i].qIDs, k) == [] {
        DropSublist(list, i, y.source, y.etype);
      } else {
        UpdateSublist(list, i, Without(list[i].qIDs, k), y.source, y.etype);
      }
    }
  }

  /** Insertion adds to the set. */
  lemma InsertAdds(list: seq<RegInfo>, x: Reg)
    requires WellFormedList(list)
    ensures WellFormedList(Inserted(list, x)) && Regs(Inserted(list, x)) == Regs(list) + iset{x}
  {
    hide WellFormedList, Inserted, Has;
    InsertOne(list, x, x);
    forall y ensures Has(Inserted(list, x), y) <==> Has(list, y) || y == x {
      InsertOne(list, x, y);
    }
  }

  /** Removal deletes from the set, and leaves no empty sublist. */
  lemma RemoveDeletes(list: seq<RegInfo>, x: Reg)
    requires WellFormedList(list)
    ensures WellFormedList(Removed(list, x)) && Regs(Removed(list, x)) == Regs(list) - iset{x}
  {
    hide WellFormedList, Removed, Has;
    RemoveOne(list, x, x);
    forall y ensures Has(Removed(list, x), y) <==> Has(list, y) && y != x {
      RemoveOne(list, x, y);
    }
  }

  // ---------------------------------------------------------------- queues

  /** SetOccurrence, n times. */
  function Fire(fired: seq<nat>, observer: Option<nat>, n: nat): seq<nat> {
    if observer.Some? && observer.value < |fired| then fired[observer.value := fired[observer.value] + n] else fired
  }

  /** EventQueueObject::OccurEvent */
  function Push(o: Oracle, q: nat, e: Event): Oracle
    requires q < |o.queues|
  {
    var queue := o.queues[q];
    o.(queues := o.queues[q := queue.(events := queue.events + [e.(seqNo := o.seqNo + 1)])], seqNo := o.seqNo + 1,
       fired := Fire(o.fired, queue.observer, 1))
  }

  predicate QueuesExist(o: Oracle, qIDs: seq<RegQueueID>) {
    forall i :: 0 <= i < |qIDs| ==> qIDs[i].qID < |o.queues|
  }

  function Broadcast(o: Oracle, qIDs: seq<RegQueueID>, e: Event): Oracle
    requires QueuesExist(o, qIDs)
    decreases |qIDs|
  {
    if qIDs == [] then o
    else Broadcast(if qIDs[0].ref == e.ref then Push(o, qIDs[0].qID, e) else o, qIDs[1..], e)
  }

  /** EventOracle::OccurEvent */
  function Occur(o: Oracle, bucket: int, e: Event): Oracle
    requires 0 <= bucket < |o.regs| ==> QueuesExist(o, Members(o.regs[bucket], e.source, e.etype))
  {
    if 0 <= bucket < |o.regs| then Broadcast(o, Members(o.regs[bucket], e.source, e.etype), e) else o
  }

  /** EventQueueObject::SetObserver: a new observer is told of the events already in the queue. */
  function SetObserver(o: Oracle, q: nat, observer: Option<nat>): Oracle
    requires q < |o.queues|
  {
    var queue := o.queues[q];
    o.(queues := o.queues[q := queue.(observer := observer)],
       fired := if queue.observer == observer then o.fired else Fire(o.fired, observer, |queue.events|))
  }

  function FirstFree(queues: seq<Queue>, i: nat): (q: nat)
    requires i <= |queues|
    ensures i <= q <= |queues| && (q < |queues| ==> !queues[q].active)
    ensures forall j :: i <= j < q ==> queues[j].active
    decreases |queues| - i
  {
    if i == |queues| || !queues[i].active then i else FirstFree(queues, i + 1)
  }

  /** The queue that GetNewQueueObject hands out. */
  function NewQueueID(o: Oracle): (q: nat)
    requires o.queues != []
    ensures 1 <= q <= |o.queues|
  {
    FirstFree(o.queues, 1)
  }

  /** EventOracle::GetNewQueueObject */
  function NewQueue(o: Oracle, observer: Option<nat>): Oracle
    requires o.queues != []
  {
    var q := NewQueueID(o);
    if q < |o.queues| then SetObserver(o.(queues := o.queues[q := o.queues[q].(active := true)]), q, observer)
    else o.(queues := o.queues + [Queue([], true, false, observer)])
  }

  /** EventOracle::DeleteEventQueue */
  function DeleteQueue(o: Oracle, q: nat): Oracle {
    if q < |o.queues| then o.(queues := o.queues[q := o.queues[q].(events := [], active := false)]) else o
  }

  // ---------------------------------------------------------------- dynamic registration

  function Register(o: Oracle, x: Reg): Oracle
    requires o.regs != []
  {
    o.(regs := o.regs[APP_BUCKET := Inserted(o.regs[APP_BUCKET], x)])
  }

  function Unregister(o: Oracle, x: Reg): Oracle
    requires o.regs != []
  {
    o.(regs := o.regs[APP_BUCKET := Removed(o.regs[APP_BUCKET], x)])
  }

  /** An argument of RegisterForEvents: nothing wired, or an event type (0 when not wired) and a reference. */
  datatype RegArg = Wildcard | Arg(etype: nat, ref: nat)

  /** Whether the i-th argument of a registration or re-registration is in order. */
  predicate ArgFits(entries: seq<RegEntry>, i: nat, arg: RegArg, again: bool)
    requires again ==> i < |entries|
  {
    if again then arg.Wildcard? || arg.etype == 0 || arg.etype == entries[i].etype
    else arg.Arg? && arg.etype != 0
  }

  /** The first registration of the next input of refnum r. */
  function RegisterFirst(o: Oracle, r: nat, etype: nat, ref: nat): Oracle
    requires o.regs != [] && r in o.dynamic
  {
    var info := o.dynamic[r];
    var o1 := o.(dynamic := o.dynamic[r := info.(entries := info.entries + [RegEntry(SourceFor(etype), etype, ref)])]);
    if ref == NOT_A_REFNUM then o1 else Register(o1, Reg(SourceFor(etype), etype, info.qID, ref))
  }

  /** Input i of refnum r is registered again, for another reference. */
  function RegisterAgain(o: Oracle, r: nat, i: nat, ref: nat): Oracle
    requires o.regs != [] && r in o.dynamic && i < |o.dynamic[r].entries|
  {
    var info := o.dynamic[r];
    var entry := info.entries[i];
    if entry.ref == ref then o
    else
      var source := SourceFor(entry.etype);
      var o1 := Unregister(o, Reg(source, entry.etype, info.qID, entry.ref));
      var o2 := o1.(dynamic := o1.dynamic[r := info.(entries := info.entries[i := entry.(ref := ref)])]);
      if ref == NOT_A_REFNUM then o2 else Register(o2, Reg(source, entry.etype, info.qID, ref))
  }

  function RegisterArg(o: Oracle, r: nat, i: nat, arg: RegArg, again: bool): Oracle
    requires o.regs != [] && r in o.dynamic && (again ==> i < |o.dynamic[r].entries|)
  {
    if arg.Wildcard? then o
    else if again then RegisterAgain(o, r, i, arg.ref) else RegisterFirst(o, r, arg.etype, arg.ref)
  }

  /** RegisterForEvents from argument i on; it stops at an argument that is out of order. */
  function RegisterArgs(o: Oracle, r: nat, i: nat, args: seq<RegArg>, again: bool): (res: (Oracle, bool))
    requires o.regs != [] && r in o.dynamic && i <= |args| && (again ==> |o.dynamic[r].entries| == |args|)
    ensures res.0.regs != [] && r in res.0.dynamic
    decreases |args| - i
  {
    if i == |args| then (o, true)
    else if !ArgFits(o.dynamic[r].entries, i, args[i], again) then (o, false)
    else RegisterArgs(RegisterArg(o, r, i, args[i], again), r, i + 1, args, again)
  }

  /** RegisterForEvents without a valid refnum: a new queue, and the new refnum r for it. */
  function RegisterNew(o: Oracle, r: nat, args: seq<RegArg>): (Oracle, bool)
    requires o.queues != [] && o.regs != []
  {
    var o1 := NewQueue(o, None);
    RegisterArgs(o1.(dynamic := o1.dynamic[r := DynRegInfo(NewQueueID(o), [])]), r, 0, args, false)
  }

  /** RegisterForEvents with the valid refnum r. */
  function Reregister(o: Oracle, r: nat, args: seq<RegArg>): (Oracle, bool)
    requires o.regs != [] && r in o.dynamic
  {
    if |o.dynamic[r].entries| != |args| then (o, false) else RegisterArgs(o, r, 0, args, true)
  }

  function UnregisterEntries(o: Oracle, q: nat, entries: seq<RegEntry>): Oracle
    requires o.regs != []
    decreases |entries|
  {
    if entries == [] then o
    else UnregisterEntries(Unregister(o, Reg(entries[0].source, entries[0].etype, q, entries[0].ref)), q, entries[1..])
  }

  /** UnregisterForEventsAux on a valid refnum. */
  function Dispose(o: Oracle, r: nat): Oracle
    requires o.regs != [] && r in o.dynamic
  {
    var info := o.dynamic[r];
    UnregisterEntries(DeleteQueue(o.(dynamic := o.dynamic - {r}), info.qID), info.qID, info.entries)
  }

  // ---------------------------------------------------------------- dispatch

  /** The earliest pending event found so far: its queue (0 for none), the number of the queue in the list
      (0 for the static queue, -1 for none), its sequence number, and the event inputs skipped before it. */
  datatype Pending = Pending(qID: nat, index: int, seqNo: nat, base: nat)

  function Look(o: Oracle, q: nat, best: Pending, index: int, skipped: nat): (p: Pending)
    requires q < |o.queues| && best.qID < |o.queues|
    ensures p.qID < |o.queues|
  {
    if o.queues[q].events != [] && (best.qID == NOT_A_QUEUE || o.queues[q].events[0].seqNo < best.seqNo)
    then Pending(q, index, o.queues[q].events[0].seqNo, skipped) else best
  }

  /** GetPendingEventInfo from the i-th refnum on. */
  function Earliest(o: Oracle, refs: seq<nat>, i: nat, best: Pending, skipped: nat): (p: Pending)
    requires i <= |refs| && best.qID < |o.queues| && forall r <- refs :: r in o.dynamic ==> o.dynamic[r].qID < |o.queues|
    ensures p.qID < |o.queues|
    decreases |refs| - i
  {
    if i == |refs| then best
    else if refs[i] !in o.dynamic then Earliest(o, refs, i + 1, best, skipped)
    else
      var info := o.dynamic[refs[i]];
      Earliest(o, refs, i + 1, Look(o, info.qID, best, i + 1, skipped), skipped + |info.entries|)
  }

  const NOTHING := Pending(NOT_A_QUEUE, -1, 0, 0)

  function StaticPending(o: Oracle, q: nat): (p: Pending)
    requires q < |o.queues|
    ensures p.qID < |o.queues|
  {
    if q == NOT_A_QUEUE then NOTHING else Look(o, q, NOTHING, 0, 0)
  }

  /** EventOracle::GetPendingEventInfo */
  function PendingEvent(o: Oracle, q: nat, refs: seq<nat>): (p: Pending)
    requires q < |o.queues| && forall r <- refs :: r in o.dynamic ==> o.dynamic[r].qID < |o.queues|
    ensures p.qID < |o.queues|
  {
    Earliest(o, refs, 0, StaticPending(o, q), 0)
  }

  /** Event structure k observes the queues of the refnums from the i-th on. */
  function ObserveFrom(o: Oracle, refs: seq<nat>, i: nat, k: nat): (o': Oracle)
    requires i <= |refs| && forall r <- refs :: r in o.dynamic ==> o.dynamic[r].qID < |o.queues|
    ensures |o'.queues| == |o.queues| && o'.dynamic == o.dynamic && |o'.fired| == |o.fired| && o'.handled == o.handled
    decreases |refs| - i
  {
    if i == |refs| then o
    else ObserveFrom(if refs[i] in o.dynamic then SetObserver(o, o.dynamic[refs[i]].qID, Some(k)) else o, refs, i + 1, k)
  }

  function Observe(o: Oracle, q: nat, refs: seq<nat>, k: nat): (o': Oracle)
    requires q < |o.queues| && forall r <- refs :: r in o.dynamic ==> o.dynamic[r].qID < |o.queues|
    ensures |o'.queues| == |o.queues| && o'.dynamic == o.dynamic && |o'.fired| == |o.fired| && o'.handled == o.handled
  {
    ObserveFrom(if q != NOT_A_QUEUE then SetObserver(o, q, Some(k)) else o, refs, 0, k)
  }

  /** GetEventData and DoneProcessingEvent on a queue that is not locked. */
  function Pop(o: Oracle, q: nat): Oracle
    requires q < |o.queues|
  {
    if o.queues[q].events == [] then o
    else o.(queues := o.queues[q := o.queues[q].(events := o.queues[q].events[1..])])
  }

  datatype Outcome = Sleeps | TimesOut | Delivers(event: Event, from: nat)

  /** WaitForEventsAndDispatch of structure k with static queue q; retry when the structure has been woken. */
  function Dispatch(o: Oracle, k: nat, q: nat, refs: seq<nat>, retry: bool): (Oracle, Outcome)
    requires q < |o.queues| && k < |o.fired| == |o.handled|
    requires forall r <- refs :: r in o.dynamic ==> o.dynamic[r].qID < |o.queues|
  {
    var o1 := Observe(o, q, refs, k);
    if o1.fired[k] <= o1.handled[k] && !retry then (o1, Sleeps)
    else
      var o2 := o1.(handled := o1.handled[k := o1.handled[k] + 1]);
      var first := PendingEvent(o2, q, refs).qID;
      (Pop(o2, first), if o2.queues[first].events == [] then TimesOut else Delivers(o2.queues[first].events[0], first))
  }
}
