/** What a call of RegisterForEvents registers, and which events then reach the refnum's queue. */
module EventRegistration {
  import opened EventState
  import opened EventInvariant
  import opened EventReregistration

  /** User events come from source 25, control events, from value changes on, from 1000, time-outs from 0. */
  lemma Sources(etype: nat)
    ensures SourceFor(1000) == 25 && SourceFor(2) == 1000 && SourceFor(0) == 0
    ensures SourceFor(etype) == 25 <==> etype == 1000
    ensures SourceFor(etype) == 1000 <==> etype >= 2 && etype != 1000
    ensures SourceFor(etype) == 0 <==> etype < 2
  {}

  // ---------------------------------------------------------------- a new refnum

  /** A first registration needs an event type and a wire. */
  predicate InOrder(arg: RegArg) { arg.Arg? && arg.etype != 0 }

  /** The inputs of refnum r are those the first n arguments ask for. */
  ghost predicate HasInputs(o: Oracle, r: nat, args: seq<RegArg>, n: nat)
    requires r in o.dynamic && n <= |args|
  {
    && |o.dynamic[r].entries| == n
    && forall i :: 0 <= i < n ==>
         InOrder(args[i]) && o.dynamic[r].entries[i] == RegEntry(SourceFor(args[i].etype), args[i].etype, args[i].ref)
  }

  lemma FirstEffect(o: Oracle, r: nat, etype: nat, ref: nat)
    requires Inv(o) && r in o.dynamic && Faithful(o, r)
    ensures var o' := RegisterFirst(o, r, etype, ref);
            && Inv(o') && r in o'.dynamic && o'.dynamic[r].qID == o.dynamic[r].qID && o'.queues == o.queues
            && o'.dynamic[r].entries == o.dynamic[r].entries + [RegEntry(SourceFor(etype), etype, ref)] && Faithful(o', r)
  {
    RegisterFirstKeeps(o, r, etype, ref);
    var info, e := o.dynamic[r], RegEntry(SourceFor(etype), etype, ref);
    var x, o' := Reg(SourceFor(etype), etype, info.qID, ref), RegisterFirst(o, r, etype, ref);
    forall z: Reg | z.qID == info.qID
      ensures Has(o'.regs[APP_BUCKET], z) <==> z.ref != NOT_A_REFNUM && RegEntry(z.source, z.etype, z.ref) in info.entries + [e]
    {
      if ref != NOT_A_REFNUM {
        InsertOne(o.regs[APP_BUCKET], x, z);
      }
      assert z == x <==> RegEntry(z.source, z.etype, z.ref) == e;
    }
  }

  /** How many arguments a call takes before it is through or stops. */
  lemma {:induction false} ArgsRegister(o: Oracle, r: nat, i: nat, args: seq<RegArg>) returns (n: nat)
    requires Inv(o) && r in o.dynamic && i <= |args| && HasInputs(o, r, args, i) && Faithful(o, r)
    ensures var (o', ok) := RegisterArgs(o, r, i, args, false);
            && Inv(o') && r in o'.dynamic && i <= n <= |args| && HasInputs(o', r, args, n) && Faithful(o', r)
            && o'.dynamic[r].qID == o.dynamic[r].qID && o'.queues == o.queues
            && (ok <==> n == |args|) && (n < |args| ==> !InOrder(args[n]))
    decreases |args| - i
  {
    if i == |args| || !InOrder(args[i]) {
      n := i;
    } else {
      FirstEffect(o, r, args[i].etype, args[i].ref);
      var o1 := RegisterFirst(o, r, args[i].etype, args[i].ref);
      hide Inv, Faithful, RegisterFirst;
      n := ArgsRegister(o1, r, i + 1, args);
    }
  }

  /** A call without a valid refnum registers all its inputs for a new, empty queue; or, when it stops at an
      argument that is out of order, those before it. */
  lemma NewCallFaithful(o: Oracle, r: nat, args: seq<RegArg>) returns (n: nat)
    requires Inv(o) && r !in o.dynamic && r != NOT_A_REFNUM
    ensures var (o', ok) := RegisterNew(o, r, args);
            && Inv(o') && r in o'.dynamic && n <= |args| && HasInputs(o', r, args, n) && Faithful(o', r)
            && (ok <==> n == |args|) && (n < |args| ==> !InOrder(args[n]))
            && o'.dynamic[r].qID == NewQueueID(o) < |o'.queues| && o'.queues[NewQueueID(o)].events == []
  {
    var q := NewQueueID(o);
    NewQueueKeeps(o, None);
    NewQueueIsNew(o, None);
    AddInfo(o, NewQueue(o, None), r, q);
    var o1 := NewQueue(o, None).(dynamic := NewQueue(o, None).dynamic[r := DynRegInfo(q, [])]);
    NothingYet(o, o1, r);
    hide Inv, Faithful, NewQueue;
    n := ArgsRegister(o1, r, 0, args);
  }

  /** Nothing is registered for a queue that was not in use. */
  lemma NothingYet(o: Oracle, o1: Oracle, r: nat)
    requires Inv(o) && o1.regs == o.regs && r in o1.dynamic && o1.dynamic[r] == DynRegInfo(NewQueueID(o), [])
    ensures Faithful(o1, r)
  {
    NewQueueIsNew(o, None);
    forall z: Reg | z.qID == NewQueueID(o) ensures !Has(o1.regs[APP_BUCKET], z) {
      if Has(o.regs[APP_BUCKET], z) {
        RegisteredIsActive(o, APP_BUCKET, z);
      }
    }
  }

  // ---------------------------------------------------------------- events

  /** While registrations and inputs of a refnum are in step, an event reaches its queue, once, exactly when it is
      one that an input asks for. */
  lemma InputsReached(o: Oracle, r: nat, e: Event)
    requires Inv(o) && r in o.dynamic && Faithful(o, r)
    ensures QueuesExist(o, Members(o.regs[APP_BUCKET], e.source, e.etype))
    ensures var q, o' := o.dynamic[r].qID, Occur(o, APP_BUCKET, e);
            && q < |o.queues| == |o'.queues|
            && if e.ref != NOT_A_REFNUM && RegEntry(e.source, e.etype, e.ref) in o.dynamic[r].entries then
                 exists n :: o.seqNo < n <= o'.seqNo && o'.queues[q].events == o.queues[q].events + [e.(seqNo := n)]
               else o'.queues[q].events == o.queues[q].events
  {
    DynamicExists(o);
    OccurExact(o, APP_BUCKET, e, o.dynamic[r].qID);
    var x := Reg(e.source, e.etype, o.dynamic[r].qID, e.ref);
    assert x.qID == o.dynamic[r].qID;
  }

  /** After a call for a new refnum, an event of the type and the reference of any argument reaches its queue. */
  lemma NewCallReached(o: Oracle, r: nat, args: seq<RegArg>, i: nat, e: Event)
    requires Inv(o) && r !in o.dynamic && r != NOT_A_REFNUM && RegisterNew(o, r, args).1
    requires i < |args| && args[i].Arg? && args[i].ref != NOT_A_REFNUM
    requires e.source == SourceFor(args[i].etype) && e.etype == args[i].etype && e.ref == args[i].ref
    ensures var o1 := RegisterNew(o, r, args).0;
            && Inv(o1) && QueuesExist(o1, Members(o1.regs[APP_BUCKET], e.source, e.etype))
            && var q, o2 := NewQueueID(o), Occur(o1, APP_BUCKET, e);
               q < |o2.queues| && exists n :: o1.seqNo < n <= o2.seqNo && o2.queues[q].events == [e.(seqNo := n)]
  {
    var n := NewCallFaithful(o, r, args);
    var o1 := RegisterNew(o, r, args).0;
    hide Inv, Faithful, RegisterNew, Occur, Members, Has;
    InputsReached(o1, r, e);
    assert o1.dynamic[r].entries[i] == RegEntry(e.source, e.etype, e.ref);
    assert o1.queues[NewQueueID(o)].events == [];
    var seq1 :| o1.seqNo < seq1 <= Occur(o1, APP_BUCKET, e).seqNo
                && Occur(o1, APP_BUCKET, e).queues[NewQueueID(o)].events == o1.queues[NewQueueID(o)].events + [e.(seqNo := seq1)];
    assert o1.queues[NewQueueID(o)].events + [e.(seqNo := seq1)] == [e.(seqNo := seq1)];
  }

  // ---------------------------------------------------------------- a refnum in use

  /** Which argument of a re-registration is in order: nothing wired, no event type, or the one of the input. */
  predicate InOrderAgain(entry: RegEntry, arg: RegArg) {
    arg.Wildcard? || arg.etype == 0 || arg.etype == entry.etype
  }

  lemma {:induction false} ArgsAgain(o: Oracle, r: nat, i: nat, args: seq<RegArg>)
    requires Inv(o) && r in o.dynamic && i <= |args| == |o.dynamic[r].entries|
    ensures var (o', ok) := RegisterArgs(o, r, i, args, true);
            var before, after := o.dynamic[r].entries, Rewired(o.dynamic[r].entries, i, args);
            && (ok <==> forall j :: i <= j < |args| ==> InOrderAgain(before[j], args[j]))
            && (ok ==> forall j :: i <= j < |args| ==>
                  after[j] == if args[j].Wildcard? then before[j] else before[j].(ref := args[j].ref))
    decreases |args| - i
  {
    if i < |args| && InOrderAgain(o.dynamic[r].entries[i], args[i]) {
      var o1 := RegisterArg(o, r, i, args[i], true);
      var before := o.dynamic[r].entries;
      if !args[i].Wildcard? {
        RegisterAgainKeeps(o, r, i, args[i].ref);
        assert before[i := before[i]] == before;
        assert o1.dynamic[r].entries == before[i := before[i].(ref := args[i].ref)];
      }
      ArgsAgain(o1, r, i + 1, args);
    }
  }

  /** A re-registration call is through exactly when it has an argument for each input and each is in order; then
      each input has the reference wired to it, or the one it had. */
  lemma CallAgain(o: Oracle, r: nat, args: seq<RegArg>)
    requires Inv(o) && r in o.dynamic
    ensures var ok, before, after := Reregister(o, r, args).1, o.dynamic[r].entries, InputsAfter(o.dynamic[r].entries, args);
            && (ok <==> |args| == |before| && forall j :: 0 <= j < |args| ==> InOrderAgain(before[j], args[j]))
            && (ok ==> |after| == |args| && forall j :: 0 <= j < |args| ==>
                  after[j] == if args[j].Wildcard? then before[j] else before[j].(ref := args[j].ref))
  {
    if |args| == |o.dynamic[r].entries| {
      ArgsAgain(o, r, 0, args);
    }
  }
}
