/** Whole runs of the event oracle, however registrations, events and event structures interleave. */
module EventTheorems {
  import opened EventState
  import opened EventInvariant

  datatype Action =
    | EventOccurs(bucket: int, event: Event)
    | QueueNeeded(observer: Option<nat>)                     // for the static events of a structure
    | NewRegistration(r: nat, args: seq<RegArg>)             // RegisterForEvents, giving out refnum r
    | RegistrationAgain(r: nat, args: seq<RegArg>)           // RegisterForEvents on refnum r
    | RegistrationDisposed(r: nat)                           // UnregisterForEvents, or clean-up
    | StructureRuns(k: nat, q: nat, refs: seq<nat>, retry: bool)

  ghost predicate Enabled(o: Oracle, a: Action)
    requires Inv(o)
  {
    match a
    case EventOccurs(_, _) => true
    case QueueNeeded(_) => true
    case NewRegistration(r, _) => r !in o.dynamic && r != NOT_A_REFNUM
    case RegistrationAgain(r, _) => r in o.dynamic
    case RegistrationDisposed(r) => r in o.dynamic
    case StructureRuns(k, q, _, _) => q < |o.queues| && k < |o.fired|
  }

  /** The state after an action, and what a structure got. */
  ghost function Do(o: Oracle, a: Action): (res: (Oracle, Outcome))
    requires Inv(o) && Enabled(o, a)
    ensures Inv(res.0)
  {
    match a
    case EventOccurs(bucket, e) => OccurKeeps(o, bucket, e); (Occur(o, bucket, e), Sleeps)
    case QueueNeeded(observer) => NewQueueKeeps(o, observer); (NewQueue(o, observer), Sleeps)
    case NewRegistration(r, args) => RegisterNewKeeps(o, r, args); (RegisterNew(o, r, args).0, Sleeps)
    case RegistrationAgain(r, args) => ReregisterKeeps(o, r, args); (Reregister(o, r, args).0, Sleeps)
    case RegistrationDisposed(r) => DisposeKeeps(o, r); (Dispose(o, r), Sleeps)
    case StructureRuns(k, q, refs, retry) => DispatchKeeps(o, k, q, refs, retry); Dispatch(o, k, q, refs, retry)
  }

  lemma ReregisterKeeps(o: Oracle, r: nat, args: seq<RegArg>)
    requires Inv(o) && r in o.dynamic
    ensures Inv(Reregister(o, r, args).0)
  {
    if |o.dynamic[r].entries| == |args| {
      RegisterArgsKeep(o, r, 0, args, true);
    }
  }

  /** An oracle for a number of event structures, before anything has happened. */
  ghost function Start(structures: nat): (o: Oracle)
    ensures Inv(o)
  {
    var none := seq(structures, _ => 0);
    Oracle([Queue([], false, false, None)], [[]], 0, map[], none, none)
  }

  ghost predicate Reaches(o: Oracle, actions: seq<Action>, o': Oracle)
    requires Inv(o)
    decreases |actions|
  {
    if actions == [] then o == o'
    else Enabled(o, actions[0]) && Reaches(Do(o, actions[0]).0, actions[1..], o')
  }

  /** Over all runs: no registration names a free queue, free queues are empty, and so is every new one. */
  lemma {:induction false} ReachesKeeps(o: Oracle, actions: seq<Action>, o': Oracle)
    requires Inv(o) && Reaches(o, actions, o')
    ensures Inv(o')
    decreases |actions|
  {
    hide Inv, Do;
    if actions != [] {
      ReachesKeeps(Do(o, actions[0]).0, actions[1..], o');
    }
  }

  // ---------------------------------------------------------------- how an action changes the queues

  ghost predicate NewerOrThere(o: Oracle, o': Oracle, w: nat)
    requires w < |o'.queues|
  {
    forall i :: 0 <= i < |o'.queues[w].events| ==>
      o'.queues[w].events[i].seqNo > o.seqNo || (w < |o.queues| && o'.queues[w].events[i] in o.queues[w].events)
  }

  /** Queues lose events, or gain newer ones; a refnum keeps its queue, or is new and has an empty one. */
  ghost predicate Evolves(o: Oracle, o': Oracle) {
    && o.seqNo <= o'.seqNo && |o.queues| <= |o'.queues|
    && (forall w :: 0 <= w < |o'.queues| ==> NewerOrThere(o, o', w))
    && forall r :: r in o'.dynamic ==>
         || (r in o.dynamic && o.dynamic[r].qID == o'.dynamic[r].qID)
         || (o'.dynamic[r].qID < |o'.queues| && o'.queues[o'.dynamic[r].qID].events == [])
  }

  lemma RegisterArgsOnly(o: Oracle, r: nat, i: nat, args: seq<RegArg>, again: bool)
    requires o.regs != [] && r in o.dynamic && i <= |args| && (again ==> |o.dynamic[r].entries| == |args|)
    ensures var o' := RegisterArgs(o, r, i, args, again).0;
            && o' == o.(regs := o'.regs, dynamic := o'.dynamic)
            && o'.dynamic.Keys == o.dynamic.Keys
            && forall s :: s in o.dynamic ==> o'.dynamic[s].qID == o.dynamic[s].qID
    decreases |args| - i
  {
    hide Inserted, Removed;
    if i < |args| && ArgFits(o.dynamic[r].entries, i, args[i], again) {
      RegisterArgsOnly(RegisterArg(o, r, i, args[i], again), r, i + 1, args, again);
    }
  }

  lemma OccurEvolves(o: Oracle, bucket: int, e: Event)
    requires Inv(o)
    ensures 0 <= bucket < |o.regs| ==> QueuesExist(o, Members(o.regs[bucket], e.source, e.etype))
    ensures Evolves(o, Occur(o, bucket, e))
  {
    OccurKeeps(o, bucket, e);
    var o' := Occur(o, bucket, e);
    if 0 <= bucket < |o.regs| {
      OccurOnly(o, Members(o.regs[bucket], e.source, e.etype), e);
      hide Inv, Occur, Has, Members;
      forall w | 0 <= w < |o.queues| ensures NewerOrThere(o, o', w) {
        OccurExact(o, bucket, e, w);
      }
    }
  }

  lemma {:induction false} OccurOnly(o: Oracle, qIDs: seq<RegQueueID>, e: Event)
    requires QueuesExist(o, qIDs)
    ensures var o' := Broadcast(o, qIDs, e);
            && |o'.queues| == |o.queues| && o.seqNo <= o'.seqNo
            && o' == o.(queues := o'.queues, seqNo := o'.seqNo, fired := o'.fired) && |o'.fired| == |o.fired|
    decreases |qIDs|
  {
    if qIDs != [] {
      OccurOnly(if qIDs[0].ref == e.ref then Push(o, qIDs[0].qID, e) else o, qIDs[1..], e);
    }
  }

  /** Observing changes only who is told. */
  ghost predicate SameEvents(o: Oracle, o': Oracle) {
    && o' == o.(queues := o'.queues, fired := o'.fired) && |o'.queues| == |o.queues| && |o'.fired| == |o.fired|
    && forall w :: 0 <= w < |o.queues| ==> o'.queues[w].events == o.queues[w].events
  }

  lemma {:induction false} ObserveFromOnly(o: Oracle, refs: seq<nat>, i: nat, k: nat)
    requires i <= |refs| && forall r <- refs :: r in o.dynamic ==> o.dynamic[r].qID < |o.queues|
    ensures SameEvents(o, ObserveFrom(o, refs, i, k))
    ensures forall w :: 0 <= w < |o.queues| && o.queues[w].observer == Some(k) ==> ObserveFrom(o, refs, i, k).queues[w].observer == Some(k)
    ensures forall j :: i <= j < |refs| && refs[j] in o.dynamic ==>
              ObserveFrom(o, refs, i, k).queues[o.dynamic[refs[j]].qID].observer == Some(k)
    decreases |refs| - i
  {
    if i < |refs| {
      ObserveFromOnly(if refs[i] in o.dynamic then SetObserver(o, o.dynamic[refs[i]].qID, Some(k)) else o, refs, i + 1, k);
    }
  }

  lemma ObserveOnly(o: Oracle, q: nat, refs: seq<nat>, k: nat)
    requires q < |o.queues| && forall r <- refs :: r in o.dynamic ==> o.dynamic[r].qID < |o.queues|
    ensures var o' := Observe(o, q, refs, k);
            && SameEvents(o, o')
            && forall w :: 0 <= w < |o.queues| && Watched(o, q, refs, |refs|, w) ==> o'.queues[w].observer == Some(k)
  {
    ObserveFromOnly(if q != NOT_A_QUEUE then SetObserver(o, q, Some(k)) else o, refs, 0, k);
  }

  /** What a structure that runs gets: an event is the earliest of those it watches, and it is taken out. */
  lemma DispatchEffect(o: Oracle, k: nat, q: nat, refs: seq<nat>, retry: bool)
    requires Inv(o) && q < |o.queues| && k < |o.fired|
    ensures k < |o.handled| && forall r <- refs :: r in o.dynamic ==> o.dynamic[r].qID < |o.queues|
    ensures var (o', got) := Dispatch(o, k, q, refs, retry);
            match got
            case Sleeps => SameEvents(o, o')
            case TimesOut => SameEvents(o, o'.(handled := o.handled)) && forall w :: 0 <= w < |o.queues| && Watched(o, q, refs, |refs|, w) ==> o.queues[w].events == []
            case Delivers(e, from) =>
              && from < |o.queues| && Watched(o, q, refs, |refs|, from) && o.queues[from].events != [] && e == o.queues[from].events[0]
              && (forall w :: 0 <= w < |o.queues| && Watched(o, q, refs, |refs|, w) && o.queues[w].events != [] ==>
                    e.seqNo <= o.queues[w].events[0].seqNo)
              && |o'.queues| == |o.queues| && o'.queues[from].events == o.queues[from].events[1..]
              && (forall w :: 0 <= w < |o.queues| && w != from ==> o'.queues[w].events == o.queues[w].events)
              && o'.dynamic == o.dynamic && o'.seqNo == o.seqNo && o'.regs == o.regs && |o'.fired| == |o.fired|
  {
    DispatchKeeps(o, k, q, refs, retry);
    DynamicExists(o);
    ObserveOnly(o, q, refs, k);
    ObserveKeeps(o, q, refs, k);
    var o1 := Observe(o, q, refs, k);
    assert QueueGood(o, NOT_A_QUEUE);
    hide Inv, Observe, PendingEvent;
    if o1.fired[k] > o1.handled[k] || retry {
      var o2 := o1.(handled := o1.handled[k := o1.handled[k] + 1]);
      HandledKeeps(o1, o2);
      FindsEarliest(o2, q, refs);
      assert forall w :: Watched(o2, q, refs, |refs|, w) <==> Watched(o, q, refs, |refs|, w);
    }
  }

  lemma NewRegistrationEvolves(o: Oracle, r: nat, args: seq<RegArg>)
    requires Inv(o)
    ensures Evolves(o, RegisterNew(o, r, args).0)
  {
    var q, o1 := NewQueueID(o), NewQueue(o, None);
    NewQueueIsNew(o, None);
    RegisterArgsOnly(o1.(dynamic := o1.dynamic[r := DynRegInfo(q, [])]), r, 0, args, false);
    hide Inv, NewQueue, RegisterArgs, NewQueueID;
  }

  lemma DispatchEvolves(o: Oracle, k: nat, q: nat, refs: seq<nat>, retry: bool)
    requires Inv(o) && q < |o.queues| && k < |o.fired|
    ensures k < |o.handled| && forall r <- refs :: r in o.dynamic ==> o.dynamic[r].qID < |o.queues|
    ensures Evolves(o, Dispatch(o, k, q, refs, retry).0)
  {
    DispatchEffect(o, k, q, refs, retry);
    hide Inv, Dispatch, Watched;
    var o' := Dispatch(o, k, q, refs, retry).0;
    assert forall w :: 0 <= w < |o.queues| ==> NewerOrThere(o, o', w);
  }

  lemma DisposeEvolves(o: Oracle, r: nat)
    requires Inv(o) && r in o.dynamic
    ensures Evolves(o, Dispose(o, r))
  {
    DisposeEffect(o, r);
    hide Inv, Dispose;
  }

  lemma DoEvolves(o: Oracle, a: Action)
    requires Inv(o) && Enabled(o, a)
    ensures Evolves(o, Do(o, a).0)
  {
    hide Inv, Occur, NewQueue, RegisterNew, Dispose, Dispatch, Evolves;
    match a
    case EventOccurs(bucket, e) => OccurEvolves(o, bucket, e);
    case QueueNeeded(observer) => NewQueueEvolves(o, observer);
    case NewRegistration(r, args) => NewRegistrationEvolves(o, r, args);
    case RegistrationAgain(r, args) => AgainEvolves(o, r, args);
    case RegistrationDisposed(r) => DisposeEvolves(o, r);
    case StructureRuns(k, q, refs, retry) => DispatchEvolves(o, k, q, refs, retry);
  }

  lemma NewQueueEvolves(o: Oracle, observer: Option<nat>)
    requires Inv(o)
    ensures Evolves(o, NewQueue(o, observer))
  {
    NewQueueIsNew(o, observer);
    hide Inv, NewQueue;
  }

  lemma AgainEvolves(o: Oracle, r: nat, args: seq<RegArg>)
    requires Inv(o) && r in o.dynamic
    ensures Evolves(o, Reregister(o, r, args).0)
  {
    if |o.dynamic[r].entries| == |args| {
      RegisterArgsOnly(o, r, 0, args, true);
    }
  }

  // ---------------------------------------------------------------- delivery

  /** The sequence numbers that structures which watch the static queue q and the refnums get in a run. */
  ghost function Deliveries(o: Oracle, actions: seq<Action>, o': Oracle, q: nat, refs: seq<nat>): seq<nat>
    requires Inv(o) && Reaches(o, actions, o')
    decreases |actions|
  {
    if actions == [] then []
    else
      var (o1, got) := Do(o, actions[0]);
      var rest := Deliveries(o1, actions[1..], o', q, refs);
      if got.Delivers? && actions[0].StructureRuns? && actions[0].q == q && actions[0].refs == refs then [got.event.seqNo] + rest else rest
  }

  /** Every event still pending in the watched queues comes after number n. */
  ghost predicate After(o: Oracle, q: nat, refs: seq<nat>, n: nat) {
    && n <= o.seqNo
    && forall w, i :: 0 <= w < |o.queues| && Watched(o, q, refs, |refs|, w) && 0 <= i < |o.queues[w].events| ==>
         n < o.queues[w].events[i].seqNo
  }

  lemma AfterLater(o: Oracle, a: Action, q: nat, refs: seq<nat>, n: nat)
    requires Inv(o) && Enabled(o, a) && After(o, q, refs, n)
    ensures After(Do(o, a).0, q, refs, n)
  {
    DoEvolves(o, a);
    var o' := Do(o, a).0;
    hide Do, Inv, Enabled;
    forall w, i | 0 <= w < |o'.queues| && Watched(o', q, refs, |refs|, w) && 0 <= i < |o'.queues[w].events|
      ensures n < o'.queues[w].events[i].seqNo
    {
      assert NewerOrThere(o, o', w);
      if o'.queues[w].events[i].seqNo <= o.seqNo {
        WatchedBefore(o, o', q, refs, w);
      }
    }
  }

  /** A queue with events that is watched now was watched before. */
  lemma WatchedBefore(o: Oracle, o': Oracle, q: nat, refs: seq<nat>, w: nat)
    requires Evolves(o, o') && w < |o'.queues| && o'.queues[w].events != [] && Watched(o', q, refs, |refs|, w)
    ensures Watched(o, q, refs, |refs|, w)
  {}

  /** The event delivered came after number n, and everything still pending comes after it. */
  lemma DeliveryMovesOn(o: Oracle, a: Action, q: nat, refs: seq<nat>, n: nat)
    requires Inv(o) && Enabled(o, a) && After(o, q, refs, n)
    requires a.StructureRuns? && a.q == q && a.refs == refs && Do(o, a).1.Delivers?
    ensures n < Do(o, a).1.event.seqNo && After(Do(o, a).0, q, refs, Do(o, a).1.event.seqNo)
  {
    DispatchEffect(o, a.k, q, refs, a.retry);
    var (o', got) := Do(o, a);
    var e, from := got.event, got.from;
    assert QueueGood(o, from);
    assert o.queues[from].events[0].seqNo == e.seqNo;
    forall w, i | 0 <= w < |o'.queues| && Watched(o', q, refs, |refs|, w) && 0 <= i < |o'.queues[w].events|
      ensures e.seqNo < o'.queues[w].events[i].seqNo
    {
      SameWatch(o, o', q, refs, w);
      LaterInQueue(o, w, if w == from then i + 1 else i);
      if w != from {
        assert Differ(o.queues[w].events, o.queues[from].events);
      }
    }
  }

  lemma SameWatch(o: Oracle, o': Oracle, q: nat, refs: seq<nat>, w: nat)
    requires o'.dynamic == o.dynamic && Watched(o', q, refs, |refs|, w)
    ensures Watched(o, q, refs, |refs|, w)
  {}

  lemma LaterInQueue(o: Oracle, w: nat, i: nat)
    requires Inv(o) && w < |o.queues| && i < |o.queues[w].events|
    ensures o.queues[w].events[0].seqNo <= o.queues[w].events[i].seqNo
    ensures i > 0 ==> o.queues[w].events[0].seqNo < o.queues[w].events[i].seqNo
  {
    assert QueueGood(o, w);
  }

  ghost predicate Increasing(numbers: seq<nat>) {
    forall i, j :: 0 <= i < j < |numbers| ==> numbers[i] < numbers[j]
  }

  /** Structures that watch the same queues get events in the order in which they occurred, each once,
      whatever else happens in between. */
  lemma {:induction false} DeliveredInOrder(o: Oracle, actions: seq<Action>, o': Oracle, q: nat, refs: seq<nat>, n: nat)
    requires Inv(o) && Reaches(o, actions, o') && After(o, q, refs, n)
    ensures Increasing(Deliveries(o, actions, o', q, refs))
    ensures forall i :: 0 <= i < |Deliveries(o, actions, o', q, refs)| ==> n < Deliveries(o, actions, o', q, refs)[i]
    decreases |actions|
  {
    hide Inv, Do, Enabled, After;
    if actions != [] {
      var (o1, got) := Do(o, actions[0]);
      if got.Delivers? && actions[0].StructureRuns? && actions[0].q == q && actions[0].refs == refs {
        DeliveryMovesOn(o, actions[0], q, refs, n);
        DeliveredInOrder(o1, actions[1..], o', q, refs, got.event.seqNo);
      } else {
        AfterLater(o, actions[0], q, refs, n);
        DeliveredInOrder(o1, actions[1..], o', q, refs, n);
      }
    }
  }

  lemma AfterNothing(o: Oracle, q: nat, refs: seq<nat>)
    requires Inv(o)
    ensures After(o, q, refs, 0)
  {
    forall w, i | 0 <= w < |o.queues| && 0 <= i < |o.queues[w].events| ensures 0 < o.queues[w].events[i].seqNo {
      assert QueueGood(o, w);
    }
  }

  /** From any state on, deliveries to a fixed set of queues come in strictly increasing order. */
  lemma DeliveryOrder(o: Oracle, actions: seq<Action>, o': Oracle, q: nat, refs: seq<nat>)
    requires Inv(o) && Reaches(o, actions, o')
    ensures Increasing(Deliveries(o, actions, o', q, refs))
  {
    AfterNothing(o, q, refs);
    DeliveredInOrder(o, actions, o', q, refs, 0);
  }

  /** All sequence numbers that anyone gets in a run. */
  ghost function AllDeliveries(o: Oracle, actions: seq<Action>, o': Oracle): seq<nat>
    requires Inv(o) && Reaches(o, actions, o')
    decreases |actions|
  {
    if actions == [] then []
    else
      var (o1, got) := Do(o, actions[0]);
      var rest := AllDeliveries(o1, actions[1..], o');
      if got.Delivers? then [got.event.seqNo] + rest else rest
  }

  /** Number n has been used and is in no queue. */
  ghost predicate Gone(o: Oracle, n: nat) {
    n <= o.seqNo && forall w, i :: 0 <= w < |o.queues| && 0 <= i < |o.queues[w].events| ==> o.queues[w].events[i].seqNo != n
  }

  lemma GoneForGood(o: Oracle, a: Action, n: nat)
    requires Inv(o) && Enabled(o, a) && Gone(o, n)
    ensures Gone(Do(o, a).0, n) && (Do(o, a).1.Delivers? ==> Do(o, a).1.event.seqNo != n)
  {
    DoEvolves(o, a);
    var (o', got) := Do(o, a);
    if got.Delivers? {
      DispatchEffect(o, a.k, a.q, a.refs, a.retry);
    }
    hide Do, Inv, Enabled;
    forall w, i | 0 <= w < |o'.queues| && 0 <= i < |o'.queues[w].events| ensures o'.queues[w].events[i].seqNo != n {
      assert NewerOrThere(o, o', w);
    }
  }

  lemma DeliveredIsGone(o: Oracle, a: Action)
    requires Inv(o) && Enabled(o, a) && Do(o, a).1.Delivers?
    ensures Gone(Do(o, a).0, Do(o, a).1.event.seqNo)
  {
    DispatchEffect(o, a.k, a.q, a.refs, a.retry);
    var (o', got) := Do(o, a);
    var from := got.from;
    assert QueueGood(o, from);
    assert o.queues[from].events[0].seqNo == got.event.seqNo;
    forall w, i | 0 <= w < |o'.queues| && 0 <= i < |o'.queues[w].events| ensures o'.queues[w].events[i].seqNo != got.event.seqNo {
      if w == from {
        LaterInQueue(o, w, i + 1);
      } else {
        assert Differ(o.queues[w].events, o.queues[from].events);
      }
    }
  }

  lemma {:induction false} NotDeliveredAgain(o: Oracle, actions: seq<Action>, o': Oracle, n: nat)
    requires Inv(o) && Reaches(o, actions, o') && Gone(o, n)
    ensures n !in AllDeliveries(o, actions, o')
    decreases |actions|
  {
    hide Inv, Do, Enabled, Gone;
    if actions != [] {
      GoneForGood(o, actions[0], n);
      NotDeliveredAgain(Do(o, actions[0]).0, actions[1..], o', n);
    }
  }

  /** No event put into a queue is delivered twice, to whomever. */
  lemma {:induction false} DeliveredOnce(o: Oracle, actions: seq<Action>, o': Oracle)
    requires Inv(o) && Reaches(o, actions, o')
    ensures NoDup(AllDeliveries(o, actions, o'))
    decreases |actions|
  {
    hide Inv, Do, Enabled, Gone;
    if actions != [] {
      var (o1, got) := Do(o, actions[0]);
      DeliveredOnce(o1, actions[1..], o');
      if got.Delivers? {
        DeliveredIsGone(o, actions[0]);
        NotDeliveredAgain(o1, actions[1..], o', got.event.seqNo);
      }
    }
  }
}
