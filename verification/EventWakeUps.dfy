/** Whether an event structure can sleep while an event waits for it.  A structure goes on when its occurrence
    has fired more often than the structure has handled it; the queues it observes fire the occurrence. */
module EventWakeUps {
  import opened EventState
  import opened EventInvariant
  import opened EventTheorems

  /** The events in a queue that are for structure k. */
  ghost function Owed(queue: Queue, k: nat): nat {
    if queue.observer == Some(k) then |queue.events| else 0
  }

  ghost function Waiting(queues: seq<Queue>, k: nat): nat {
    if queues == [] then 0 else Waiting(queues[..|queues| - 1], k) + Owed(queues[|queues| - 1], k)
  }

  lemma {:induction false} WaitingUpdate(queues: seq<Queue>, i: nat, queue: Queue, k: nat)
    requires i < |queues|
    ensures Waiting(queues[i := queue], k) == Waiting(queues, k) - Owed(queues[i], k) + Owed(queue, k)
  {
    var n := |queues| - 1;
    if i == n {
      assert queues[i := queue][..n] == queues[..n];
    } else {
      assert queues[i := queue][..n] == queues[..n][i := queue];
      WaitingUpdate(queues[..n], i, queue, k);
    }
  }

  lemma {:induction false} WaitingHas(queues: seq<Queue>, i: nat, k: nat)
    requires i < |queues|
    ensures Owed(queues[i], k) <= Waiting(queues, k)
  {
    if i < |queues| - 1 {
      WaitingHas(queues[..|queues| - 1], i, k);
    }
  }

  lemma WaitingAppend(queues: seq<Queue>, queue: Queue, k: nat)
    ensures Waiting(queues + [queue], k) == Waiting(queues, k) + Owed(queue, k)
  {}

  /** How far the firings that structure k has not handled exceed the events waiting for it. */
  ghost function Slack(o: Oracle, k: nat): int
    requires k < |o.fired| && k < |o.handled|
  {
    o.fired[k] - o.handled[k] - Waiting(o.queues, k)
  }

  lemma PushSlack(o: Oracle, q: nat, e: Event, k: nat)
    requires q < |o.queues| && k < |o.fired| == |o.handled|
    ensures Slack(Push(o, q, e), k) == Slack(o, k)
  {
    WaitingUpdate(o.queues, q, Push(o, q, e).queues[q], k);
  }

  lemma {:induction false} BroadcastSlack(o: Oracle, qIDs: seq<RegQueueID>, e: Event, k: nat)
    requires QueuesExist(o, qIDs) && k < |o.fired| == |o.handled|
    ensures |Broadcast(o, qIDs, e).fired| == |o.fired| && Broadcast(o, qIDs, e).handled == o.handled
    ensures Slack(Broadcast(o, qIDs, e), k) == Slack(o, k)
    decreases |qIDs|
  {
    if qIDs != [] {
      if qIDs[0].ref == e.ref {
        PushSlack(o, qIDs[0].qID, e, k);
        BroadcastSlack(Push(o, qIDs[0].qID, e), qIDs[1..], e, k);
      } else {
        BroadcastSlack(o, qIDs[1..], e, k);
      }
    }
  }

  lemma ObserverSlack(o: Oracle, q: nat, observer: Option<nat>, k: nat)
    requires q < |o.queues| && k < |o.fired| == |o.handled|
    ensures Slack(SetObserver(o, q, observer), k) >= Slack(o, k)
  {
    WaitingUpdate(o.queues, q, o.queues[q].(observer := observer), k);
  }

  lemma {:induction false} ObserveFromSlack(o: Oracle, refs: seq<nat>, i: nat, j: nat, k: nat)
    requires i <= |refs| && k < |o.fired| == |o.handled| && forall r <- refs :: r in o.dynamic ==> o.dynamic[r].qID < |o.queues|
    ensures Slack(ObserveFrom(o, refs, i, j), k) >= Slack(o, k)
    decreases |refs| - i
  {
    if i < |refs| {
      if refs[i] in o.dynamic {
        ObserverSlack(o, o.dynamic[refs[i]].qID, Some(j), k);
        ObserveFromSlack(SetObserver(o, o.dynamic[refs[i]].qID, Some(j)), refs, i + 1, j, k);
      } else {
        ObserveFromSlack(o, refs, i + 1, j, k);
      }
    }
  }

  lemma ObserveSlack(o: Oracle, q: nat, refs: seq<nat>, j: nat, k: nat)
    requires q < |o.queues| && k < |o.fired| == |o.handled| && forall r <- refs :: r in o.dynamic ==> o.dynamic[r].qID < |o.queues|
    ensures Slack(Observe(o, q, refs, j), k) >= Slack(o, k)
  {
    hide SetObserver, Slack;
    ObserverSlack(o, q, Some(j), k);
    var o1 := if q != NOT_A_QUEUE then SetObserver(o, q, Some(j)) else o;
    ObserverCounts(o, q, Some(j));
    ObserveFromSlack(o1, refs, 0, j, k);
  }

  lemma ObserverCounts(o: Oracle, q: nat, observer: Option<nat>)
    requires q < |o.queues|
    ensures var o' := SetObserver(o, q, observer);
            |o'.fired| == |o.fired| && o'.handled == o.handled && |o'.queues| == |o.queues| && o'.dynamic == o.dynamic
  {}

  lemma PopSlack(o: Oracle, q: nat, j: nat, k: nat)
    requires q < |o.queues| && k < |o.fired| == |o.handled|
    requires o.queues[q].events != [] ==> o.queues[q].observer == Some(j)
    ensures var o' := Pop(o, q);
            && |o'.fired| == |o.fired| && |o'.handled| == |o.handled|
            && Slack(o', k) == Slack(o, k) + if j == k && o.queues[q].events != [] then 1 else 0
  {
    if o.queues[q].events != [] {
      WaitingUpdate(o.queues, q, Pop(o, q).queues[q], k);
    }
  }

  lemma HandledSlack(o: Oracle, j: nat, k: nat)
    requires j < |o.fired| == |o.handled| && k < |o.fired|
    ensures Slack(o.(handled := o.handled[j := o.handled[j] + 1]), k) == Slack(o, k) - if j == k then 1 else 0
  {}

  /** A structure that runs pays for the event it gets; for a time-out it pays without getting one. */
  lemma DispatchSlack(o: Oracle, j: nat, q: nat, refs: seq<nat>, retry: bool, k: nat)
    requires Inv(o) && q < |o.queues| && j < |o.fired| && k < |o.fired|
    ensures j < |o.handled| && forall r <- refs :: r in o.dynamic ==> o.dynamic[r].qID < |o.queues|
    ensures var (o', got) := Dispatch(o, j, q, refs, retry);
            && |o'.fired| == |o.fired| == |o'.handled|
            && Slack(o', k) >= Slack(o, k) - if j == k && got.TimesOut? then 1 else 0
  {
    DispatchKeeps(o, j, q, refs, retry);
    DispatchEffect(o, j, q, refs, retry);
    ObserveSlack(o, q, refs, j, k);
    ObserveOnly(o, q, refs, j);
    var o1 := Observe(o, q, refs, j);
    hide Inv, Observe, PendingEvent, Watched, Slack, Pop;
    if o1.fired[j] > o1.handled[j] || retry {
      var o2 := o1.(handled := o1.handled[j := o1.handled[j] + 1]);
      HandledSlack(o1, j, k);
      PopSlack(o2, PendingEvent(o2, q, refs).qID, j, k);
    }
  }

  /** The time-outs structure k has handled in a run. */
  ghost function TimeOuts(o: Oracle, actions: seq<Action>, o': Oracle, k: nat): nat
    requires Inv(o) && Reaches(o, actions, o')
    decreases |actions|
  {
    if actions == [] then 0
    else
      var (o1, got) := Do(o, actions[0]);
      TimeOuts(o1, actions[1..], o', k) + if actions[0].StructureRuns? && actions[0].k == k && got.TimesOut? then 1 else 0
  }

  lemma NewQueueSlack(o: Oracle, observer: Option<nat>, k: nat)
    requires Inv(o) && k < |o.fired|
    ensures |NewQueue(o, observer).fired| == |NewQueue(o, observer).handled| == |o.fired|
    ensures Slack(NewQueue(o, observer), k) >= Slack(o, k)
  {
    NewQueueIsNew(o, observer);
    var q, o' := NewQueueID(o), NewQueue(o, observer);
    hide Inv, NewQueue, NewQueueID;
    if q < |o.queues| {
      WaitingUpdate(o.queues, q, o'.queues[q], k);
      assert o'.queues == o.queues[q := o'.queues[q]];
    } else {
      WaitingAppend(o.queues, o'.queues[q], k);
      assert o'.queues == o.queues + [o'.queues[q]];
    }
  }

  lemma OccurSlack(o: Oracle, bucket: int, e: Event, k: nat)
    requires Inv(o) && k < |o.fired|
    ensures 0 <= bucket < |o.regs| ==> QueuesExist(o, Members(o.regs[bucket], e.source, e.etype))
    ensures var o' := Occur(o, bucket, e); |o'.fired| == |o.fired| == |o'.handled| && Slack(o', k) >= Slack(o, k)
  {
    OccurKeeps(o, bucket, e);
    if 0 <= bucket < |o.regs| {
      BroadcastSlack(o, Members(o.regs[bucket], e.source, e.etype), e, k);
    }
  }

  lemma RegisterNewSlack(o: Oracle, r: nat, args: seq<RegArg>, k: nat)
    requires Inv(o) && k < |o.fired|
    ensures var o' := RegisterNew(o, r, args).0; |o'.fired| == |o.fired| == |o'.handled| && Slack(o', k) >= Slack(o, k)
  {
    NewQueueSlack(o, None, k);
    var o1 := NewQueue(o, None);
    RegisterArgsOnly(o1.(dynamic := o1.dynamic[r := DynRegInfo(NewQueueID(o), [])]), r, 0, args, false);
    hide Inv, NewQueue, RegisterArgs;
  }

  lemma DisposeSlack(o: Oracle, r: nat, k: nat)
    requires Inv(o) && r in o.dynamic && k < |o.fired|
    ensures var o' := Dispose(o, r); |o'.fired| == |o.fired| == |o'.handled| && Slack(o', k) >= Slack(o, k)
  {
    DisposeEffect(o, r);
    hide Dispose;
    var q := o.dynamic[r].qID;
    WaitingUpdate(o.queues, q, o.queues[q].(events := [], active := false), k);
  }

  lemma DoSlack(o: Oracle, a: Action, k: nat)
    requires Inv(o) && Enabled(o, a) && k < |o.fired|
    ensures var (o', got) := Do(o, a);
            && |o'.fired| == |o.fired| == |o'.handled| == |o.handled|
            && Slack(o', k) >= Slack(o, k) - if a.StructureRuns? && a.k == k && got.TimesOut? then 1 else 0
  {
    assert |o.fired| == |o.handled|;
    hide Inv, Occur, NewQueue, RegisterNew, Dispose, Dispatch, Slack;
    match a
    case EventOccurs(bucket, e) => OccurSlack(o, bucket, e, k);
    case QueueNeeded(observer) => NewQueueSlack(o, observer, k);
    case NewRegistration(r, args) => RegisterNewSlack(o, r, args, k);
    case RegistrationAgain(r, args) => AgainSlack(o, r, args, k);
    case RegistrationDisposed(r) => DisposeSlack(o, r, k);
    case StructureRuns(j, q, refs, retry) => DispatchSlack(o, j, q, refs, retry, k);
  }

  lemma AgainSlack(o: Oracle, r: nat, args: seq<RegArg>, k: nat)
    requires Inv(o) && r in o.dynamic && k < |o.fired|
    ensures var o' := Reregister(o, r, args).0; |o'.fired| == |o.fired| == |o'.handled| && Slack(o', k) >= Slack(o, k)
  {
    if |o.dynamic[r].entries| == |args| {
      RegisterArgsOnly(o, r, 0, args, true);
    }
  }

  /** Over a run, structure k falls behind by no more than the time-outs it has handled. */
  lemma {:induction false} RunSlack(o: Oracle, actions: seq<Action>, o': Oracle, k: nat)
    requires Inv(o) && Reaches(o, actions, o') && k < |o.fired| == |o.handled|
    ensures k < |o'.fired| == |o'.handled|
    ensures Slack(o', k) >= Slack(o, k) - TimeOuts(o, actions, o', k)
    decreases |actions|
  {
    hide Inv, Do, Enabled, Slack;
    if actions != [] {
      DoSlack(o, actions[0], k);
      RunSlack(Do(o, actions[0]).0, actions[1..], o', k);
    }
  }

  lemma AsleepWith(o: Oracle, k: nat, q: nat, refs: seq<nat>, retry: bool, w: nat)
    requires Inv(o) && q < |o.queues| && k < |o.fired| && k < |o.handled| && w < |o.queues|
    requires Watched(o, q, refs, |refs|, w) && forall r <- refs :: r in o.dynamic ==> o.dynamic[r].qID < |o.queues|
    requires Dispatch(o, k, q, refs, retry).1.Sleeps?
    ensures |o.queues[w].events| <= -Slack(o, k)
  {
    ObserveOnly(o, q, refs, k);
    ObserveSlack(o, q, refs, k, k);
    var o1 := Observe(o, q, refs, k);
    hide Inv, Observe, Waiting, Watched, PendingEvent;
    WaitingHas(o1.queues, w, k);
    assert Owed(o1.queues[w], k) == |o.queues[w].events|;
  }

  lemma NothingOwed(structures: nat, k: nat)
    requires k < structures
    ensures var o := Start(structures); k < |o.fired| == |o.handled| && Slack(o, k) == 0
  {
    assert Start(structures).queues == [UNUSED] && [UNUSED][..0] == [];
    assert Waiting([UNUSED][..0], k) == 0;
    assert Waiting([UNUSED], k) == 0;
  }

  /** A structure that goes to sleep leaves at most as many events unhandled as it has handled time-outs;
      so one that has never timed out sleeps only when all its queues are empty. */
  lemma SleepsWithin(structures: nat, actions: seq<Action>, o: Oracle, a: Action, w: nat)
    requires Reaches(Start(structures), actions, o) && Inv(o) && Enabled(o, a)
    requires a.StructureRuns? && a.k < structures && Do(o, a).1.Sleeps?
    requires w < |o.queues| && Watched(o, a.q, a.refs, |a.refs|, w)
    ensures |o.queues[w].events| <= TimeOuts(Start(structures), actions, o, a.k)
  {
    NothingOwed(structures, a.k);
    RunSlack(Start(structures), actions, o, a.k);
    DispatchKeeps(o, a.k, a.q, a.refs, a.retry);
    hide Inv, Dispatch, Slack, Watched, Reaches, TimeOuts, Start;
    AsleepWith(o, a.k, a.q, a.refs, a.retry, w);
  }

  // ---------------------------------------------------------------- exactly when a structure sleeps

  /** The events in the first n queues that structure k watches and does not observe yet. */
  ghost function Unseen(o: Oracle, q: nat, refs: seq<nat>, k: nat, n: nat): nat
    requires n <= |o.queues|
  {
    if n == 0 then 0
    else
      var w := n - 1;
      Unseen(o, q, refs, k, w) + if Watched(o, q, refs, |refs|, w) && o.queues[w].observer != Some(k) then |o.queues[w].events| else 0
  }

  /** Queue w belongs to one of the refnums from the i-th on. */
  ghost predicate Named(o: Oracle, refs: seq<nat>, i: nat, w: nat)
    requires i <= |refs|
  {
    exists j :: i <= j < |refs| && refs[j] in o.dynamic && o.dynamic[refs[j]].qID == w
  }

  /** Observing makes k the observer of the queues named, and of no others. */
  lemma {:induction false} ObserveFromExact(o: Oracle, refs: seq<nat>, i: nat, k: nat, w: nat)
    requires i <= |refs| && w < |o.queues| && forall r <- refs :: r in o.dynamic ==> o.dynamic[r].qID < |o.queues|
    ensures ObserveFrom(o, refs, i, k).queues[w] == if Named(o, refs, i, w) then o.queues[w].(observer := Some(k)) else o.queues[w]
    decreases |refs| - i
  {
    if i < |refs| {
      var o' := if refs[i] in o.dynamic then SetObserver(o, o.dynamic[refs[i]].qID, Some(k)) else o;
      ObserveFromExact(o', refs, i + 1, k, w);
      NamedNext(o, refs, i, w);
      assert Named(o', refs, i + 1, w) <==> Named(o, refs, i + 1, w);
    }
  }

  lemma NamedNext(o: Oracle, refs: seq<nat>, i: nat, w: nat)
    requires i < |refs|
    ensures Named(o, refs, i, w) <==> (refs[i] in o.dynamic && o.dynamic[refs[i]].qID == w) || Named(o, refs, i + 1, w)
  {}

  lemma ObserveExact(o: Oracle, q: nat, refs: seq<nat>, k: nat, w: nat)
    requires q < |o.queues| && w < |o.queues| && forall r <- refs :: r in o.dynamic ==> o.dynamic[r].qID < |o.queues|
    ensures Observe(o, q, refs, k).queues[w] == if Watched(o, q, refs, |refs|, w) then o.queues[w].(observer := Some(k)) else o.queues[w]
  {
    var o' := if q != NOT_A_QUEUE then SetObserver(o, q, Some(k)) else o;
    ObserveFromExact(o', refs, 0, k, w);
    assert Named(o', refs, 0, w) <==> Named(o, refs, 0, w);
    assert Watched(o, q, refs, |refs|, w) <==> (q != NOT_A_QUEUE && w == q) || Named(o, refs, 0, w);
  }

  /** A structure is told of as many events as it comes to observe. */
  lemma ObserverSame(o: Oracle, q: nat, k: nat)
    requires q < |o.queues| && k < |o.fired| == |o.handled|
    ensures Slack(SetObserver(o, q, Some(k)), k) == Slack(o, k)
  {
    WaitingUpdate(o.queues, q, SetObserver(o, q, Some(k)).queues[q], k);
  }

  lemma {:induction false} ObserveFromSame(o: Oracle, refs: seq<nat>, i: nat, k: nat)
    requires i <= |refs| && k < |o.fired| == |o.handled| && forall r <- refs :: r in o.dynamic ==> o.dynamic[r].qID < |o.queues|
    ensures Slack(ObserveFrom(o, refs, i, k), k) == Slack(o, k)
    decreases |refs| - i
  {
    hide Slack;
    if i < |refs| {
      if refs[i] in o.dynamic {
        ObserverSame(o, o.dynamic[refs[i]].qID, k);
        ObserverCounts(o, o.dynamic[refs[i]].qID, Some(k));
        hide SetObserver;
        ObserveFromSame(SetObserver(o, o.dynamic[refs[i]].qID, Some(k)), refs, i + 1, k);
      } else {
        ObserveFromSame(o, refs, i + 1, k);
      }
    }
  }

  lemma {:induction false} UnseenIsNew(o: Oracle, o': Oracle, q: nat, refs: seq<nat>, k: nat, n: nat)
    requires n <= |o.queues| == |o'.queues|
    requires forall w :: 0 <= w < n ==>
               o'.queues[w] == if Watched(o, q, refs, |refs|, w) then o.queues[w].(observer := Some(k)) else o.queues[w]
    ensures Waiting(o'.queues[..n], k) == Waiting(o.queues[..n], k) + Unseen(o, q, refs, k, n)
  {
    hide Watched;
    if n > 0 {
      UnseenIsNew(o, o', q, refs, k, n - 1);
      assert o.queues[..n][..n - 1] == o.queues[..n - 1] && o'.queues[..n][..n - 1] == o'.queues[..n - 1];
    }
  }

  /** Observing fires the structure once for each event it has not been told of. */
  lemma ObserveFires(o: Oracle, q: nat, refs: seq<nat>, k: nat)
    requires q < |o.queues| && k < |o.fired| == |o.handled| && forall r <- refs :: r in o.dynamic ==> o.dynamic[r].qID < |o.queues|
    ensures Observe(o, q, refs, k).fired[k] == o.fired[k] + Unseen(o, q, refs, k, |o.queues|)
  {
    var o', o1 := if q != NOT_A_QUEUE then SetObserver(o, q, Some(k)) else o, Observe(o, q, refs, k);
    if q != NOT_A_QUEUE {
      ObserverSame(o, q, k);
    }
    ObserveFromSame(o', refs, 0, k);
    forall w | 0 <= w < |o.queues|
      ensures o1.queues[w] == if Watched(o, q, refs, |refs|, w) then o.queues[w].(observer := Some(k)) else o.queues[w]
    {
      ObserveExact(o, q, refs, k, w);
    }
    hide Observe, ObserveFrom, SetObserver, Watched;
    UnseenIsNew(o, o1, q, refs, k, |o.queues|);
    assert o.queues[..|o.queues|] == o.queues && o1.queues[..|o1.queues|] == o1.queues;
  }

  /** A structure sleeps exactly when it has not been woken and has handled at least as often as its occurrence
      has fired, the events it has not been told of included. */
  lemma SleepsExactly(o: Oracle, k: nat, q: nat, refs: seq<nat>, retry: bool)
    requires Inv(o) && q < |o.queues| && k < |o.fired|
    ensures k < |o.handled| && forall r <- refs :: r in o.dynamic ==> o.dynamic[r].qID < |o.queues|
    ensures Dispatch(o, k, q, refs, retry).1.Sleeps? <==>
              !retry && o.fired[k] + Unseen(o, q, refs, k, |o.queues|) <= o.handled[k]
  {
    DispatchKeeps(o, k, q, refs, retry);
    hide Inv;
    ObserveFires(o, q, refs, k);
    hide Observe, Unseen, PendingEvent, Pop;
  }

  /** An event waits in one of the queues the structure watches. */
  ghost predicate EventWaits(o: Oracle, q: nat, refs: seq<nat>) {
    exists w :: 0 <= w < |o.queues| && Watched(o, q, refs, |refs|, w) && o.queues[w].events != []
  }

  /** The surplus of time-outs, one by one: how much oftener k has handled than it will have been fired. */
  ghost function Surplus(o: Oracle, k: nat, q: nat, refs: seq<nat>): int
    requires k < |o.fired| && k < |o.handled|
  {
    o.handled[k] - o.fired[k] - Unseen(o, q, refs, k, |o.queues|)
  }

  /** A structure that runs gets its event, when there is one, exactly when it has been woken or has no surplus;
      otherwise it sleeps on it. */
  lemma SleepsOnEventExactly(o: Oracle, k: nat, q: nat, refs: seq<nat>, retry: bool)
    requires Inv(o) && q < |o.queues| && k < |o.fired| && EventWaits(o, q, refs)
    ensures k < |o.handled| && forall r <- refs :: r in o.dynamic ==> o.dynamic[r].qID < |o.queues|
    ensures var got := Dispatch(o, k, q, refs, retry).1;
            && (got.Sleeps? <==> !retry && Surplus(o, k, q, refs) >= 0)
            && (got.Delivers? <==> retry || Surplus(o, k, q, refs) < 0)
  {
    SleepsExactly(o, k, q, refs, retry);
    DispatchEffect(o, k, q, refs, retry);
    hide Inv, Dispatch, Unseen, Watched;
  }

  // ---------------------------------------------------------------- a run in which a structure sleeps on an event

  const UNUSED := Queue([], false, false, None)
  const EVENT := Event(25, 1000, 7, 1)

  /** One registration for user event 7; the queue, and what structure 0 has been told and has handled. */
  ghost function OneQueue(queue: Queue, seqNo: nat, fired: nat, handled: nat): Oracle {
    Oracle([UNUSED, queue], [[RegInfo(25, 1000, [RegQueueID(1, 7)])]], seqNo,
           map[5 := DynRegInfo(1, [RegEntry(25, 1000, 7)])], [fired], [handled])
  }

  lemma FirstInput(o: Oracle)
    requires o == Oracle([UNUSED, Queue([], true, false, None)], [[]], 0, map[5 := DynRegInfo(1, [])], [0], [0])
    ensures RegisterFirst(o, 5, 1000, 7) == OneQueue(Queue([], true, false, None), 0, 0, 0)
  {
    assert Inserted([], Reg(25, 1000, 1, 7)) == [RegInfo(25, 1000, [RegQueueID(1, 7)])];
    assert o.dynamic[5].entries + [RegEntry(25, 1000, 7)] == [RegEntry(25, 1000, 7)];
    assert RegisterFirst(o, 5, 1000, 7).dynamic == map[5 := DynRegInfo(1, [RegEntry(25, 1000, 7)])];
    assert RegisterFirst(o, 5, 1000, 7).regs == [[RegInfo(25, 1000, [RegQueueID(1, 7)])]];
  }

  lemma FirstQueue(o: Oracle)
    requires o == Oracle([UNUSED], [[]], 0, map[], [0], [0])
    ensures NewQueueID(o) == 1
    ensures var o1 := NewQueue(o, None);
            o1.(dynamic := o1.dynamic[5 := DynRegInfo(1, [])])
            == Oracle([UNUSED, Queue([], true, false, None)], [[]], 0, map[5 := DynRegInfo(1, [])], [0], [0])
  {}

  lemma Registers()
    ensures var o := OneQueue(Queue([], true, false, None), 0, 0, 0);
            Do(Start(1), NewRegistration(5, [Arg(1000, 7)])).0 == o && Inv(o)
  {
    var o0, args := Start(1), [Arg(1000, 7)];
    RegisterNewKeeps(o0, 5, args);
    assert o0 == Oracle([UNUSED], [[]], 0, map[], [0], [0]);
    hide Inv, NewQueue, RegisterFirst, OneQueue;
    FirstQueue(o0);
    var o2 := Oracle([UNUSED, Queue([], true, false, None)], [[]], 0, map[5 := DynRegInfo(1, [])], [0], [0]);
    FirstInput(o2);
    assert RegisterArgs(RegisterFirst(o2, 5, 1000, 7), 5, 1, args, false) == (RegisterFirst(o2, 5, 1000, 7), true);
  }

  /** Observing its only queue, for the first time or again, while it is empty. */
  lemma ObservesNothing(queue: Queue, handled: nat)
    requires queue == Queue([], true, false, None) || queue == Queue([], true, false, Some(0))
    ensures Observe(OneQueue(queue, 0, 0, handled), 0, [5], 0) == OneQueue(Queue([], true, false, Some(0)), 0, 0, handled)
  {
    var o, o1 := OneQueue(queue, 0, 0, handled), OneQueue(Queue([], true, false, Some(0)), 0, 0, handled);
    assert ObserveFrom(o1, [5], 1, 0) == o1;
    assert SetObserver(o, 1, Some(0)) == o1;
  }

  lemma SleepsFirst()
    requires Inv(OneQueue(Queue([], true, false, None), 0, 0, 0))
    ensures var o := OneQueue(Queue([], true, false, Some(0)), 0, 0, 0);
            Do(OneQueue(Queue([], true, false, None), 0, 0, 0), StructureRuns(0, 0, [5], false)) == (o, Sleeps) && Inv(o)
  {
    DispatchKeeps(OneQueue(Queue([], true, false, None), 0, 0, 0), 0, 0, [5], false);
    ObservesNothing(Queue([], true, false, None), 0);
  }

  lemma HandlesTimeOut()
    requires Inv(OneQueue(Queue([], true, false, Some(0)), 0, 0, 0))
    ensures var o := OneQueue(Queue([], true, false, Some(0)), 0, 0, 1);
            Do(OneQueue(Queue([], true, false, Some(0)), 0, 0, 0), StructureRuns(0, 0, [5], true)) == (o, TimesOut) && Inv(o)
  {
    DispatchKeeps(OneQueue(Queue([], true, false, Some(0)), 0, 0, 0), 0, 0, [5], true);
    ObservesNothing(Queue([], true, false, Some(0)), 0);
    var o2 := OneQueue(Queue([], true, false, Some(0)), 0, 0, 1);
    assert [0][0 := 1] == [1];
    assert Earliest(o2, [5], 1, NOTHING, 1) == NOTHING;
    assert PendingEvent(o2, 0, [5]) == NOTHING;
  }

  lemma EventComes()
    requires Inv(OneQueue(Queue([], true, false, Some(0)), 0, 0, 1))
    ensures var o := OneQueue(Queue([EVENT], true, false, Some(0)), 1, 1, 1);
            Do(OneQueue(Queue([], true, false, Some(0)), 0, 0, 1), EventOccurs(0, EVENT)).0 == o && Inv(o)
  {
    var o := OneQueue(Queue([], true, false, Some(0)), 0, 0, 1);
    OccurKeeps(o, 0, EVENT);
    var list := [RegQueueID(1, 7)];
    assert Members(o.regs[0], 25, 1000) == list;
    var o1 := Push(o, 1, EVENT);
    assert o.queues[1].events + [EVENT] == [EVENT] && Fire(o.fired, Some(0), 1) == [1];
    assert Broadcast(o1, list[1..], EVENT) == o1;
    assert o1 == OneQueue(Queue([EVENT], true, false, Some(0)), 1, 1, 1);
  }

  lemma GoesToSleep()
    requires Inv(OneQueue(Queue([EVENT], true, false, Some(0)), 1, 1, 1))
    ensures Do(OneQueue(Queue([EVENT], true, false, Some(0)), 1, 1, 1), StructureRuns(0, 0, [5], false)).1 == Sleeps
  {
    var o := OneQueue(Queue([EVENT], true, false, Some(0)), 1, 1, 1);
    DispatchKeeps(o, 0, 0, [5], false);
    assert SetObserver(o, 1, Some(0)) == o;
    assert ObserveFrom(o, [5], 1, 0) == o;
    assert Observe(o, 0, [5], 0) == o;
  }

  /** Event structure 0 on its way to sleep on an event: it sleeps, since nothing has occurred, is woken by its
      time-out and handles that, and the event occurs before it waits again. */
  const SLEEPY: seq<Action> := [NewRegistration(5, [Arg(1000, 7)]), StructureRuns(0, 0, [5], false),
                                StructureRuns(0, 0, [5], true), EventOccurs(0, EVENT)]

  lemma FourSteps(o: Oracle, o1: Oracle, o2: Oracle, o3: Oracle, o4: Oracle)
    requires Inv(o) && Enabled(o, SLEEPY[0]) && Do(o, SLEEPY[0]).0 == o1 && Inv(o1) && Enabled(o1, SLEEPY[1]) && Do(o1, SLEEPY[1]).0 == o2
    requires Inv(o2) && Enabled(o2, SLEEPY[2]) && Do(o2, SLEEPY[2]).0 == o3 && Inv(o3) && Enabled(o3, SLEEPY[3]) && Do(o3, SLEEPY[3]).0 == o4
    ensures Reaches(o, SLEEPY, o4)
  {
    hide Do, Inv, Enabled;
    var c, d := SLEEPY[2], SLEEPY[3];
    assert SLEEPY[1..][1..] == [c, d] && [c, d][1..] == [d] && [d][1..] == [];
    assert Reaches(o3, [d], o4);
    assert Reaches(o2, [c, d], o4);
    assert SLEEPY[1..][0] == SLEEPY[1];
    assert Reaches(o1, SLEEPY[1..], o4);
  }

  /** One time-out is enough for a structure to sleep on a pending event. */
  lemma SleepsOnAnEvent()
    ensures var o := OneQueue(Queue([EVENT], true, false, Some(0)), 1, 1, 1);
            && Reaches(Start(1), SLEEPY, o)
            && Inv(o) && Do(o, StructureRuns(0, 0, [5], false)).1 == Sleeps
            && Watched(o, 0, [5], 1, 1) && o.queues[1].events == [EVENT]
  {
    Registers();
    SleepsFirst();
    HandlesTimeOut();
    EventComes();
    GoesToSleep();
    var o1, o2 := OneQueue(Queue([], true, false, None), 0, 0, 0), OneQueue(Queue([], true, false, Some(0)), 0, 0, 0);
    var o3, o4 := OneQueue(Queue([], true, false, Some(0)), 0, 0, 1), OneQueue(Queue([EVENT], true, false, Some(0)), 1, 1, 1);
    hide Do, Inv;
    FourSteps(Start(1), o1, o2, o3, o4);
    assert [5][0] == 5;
  }
}
