/** When a whole call of RegisterForEvents on a refnum in use keeps its registrations and its inputs in step. */
module EventReregistration {
  import opened EventState
  import opened EventInvariant
  import opened EventTheorems

  /** The inputs after re-registering them from the i-th on, up to an argument that is out of order. */
  function Rewired(entries: seq<RegEntry>, i: nat, args: seq<RegArg>): (after: seq<RegEntry>)
    requires i <= |args| == |entries|
    ensures |after| == |entries| && forall j :: 0 <= j < i ==> after[j] == entries[j]
    decreases |args| - i
  {
    if i == |args| || !ArgFits(entries, i, args[i], true) then entries
    else Rewired(if args[i].Wildcard? then entries else entries[i := entries[i].(ref := args[i].ref)], i + 1, args)
  }

  /** The inputs after a call. */
  function InputsAfter(entries: seq<RegEntry>, args: seq<RegArg>): (after: seq<RegEntry>)
    ensures |after| == |entries|
  {
    if |args| == |entries| then Rewired(entries, 0, args) else entries
  }

  predicate Changed(before: seq<RegEntry>, after: seq<RegEntry>, i: nat)
    requires i < |before| == |after|
  {
    before[i] != after[i]
  }

  /** Whether e is registered when the first i inputs have gone from old to new. */
  predicate Live(before: seq<RegEntry>, after: seq<RegEntry>, i: nat, e: RegEntry)
    requires i <= |before| == |after|
  {
    if i == 0 then e in before
    else if !Changed(before, after, i - 1) then Live(before, after, i - 1, e)
    else e == after[i - 1] || (e != before[i - 1] && Live(before, after, i - 1, e))
  }

  /** What is registered for refnum r after its first i inputs, and its inputs at that time. */
  ghost predicate Halfway(o: Oracle, r: nat, before: seq<RegEntry>, after: seq<RegEntry>, i: nat)
    requires i <= |before| == |after|
  {
    && o.regs != [] && r in o.dynamic && |o.dynamic[r].entries| == |before|
    && (forall j :: 0 <= j < |before| ==> o.dynamic[r].entries[j] == if j < i then after[j] else before[j])
    && (forall z: Reg :: z.qID == o.dynamic[r].qID ==>
          (Has(o.regs[APP_BUCKET], z) <==> z.ref != NOT_A_REFNUM && Live(before, after, i, RegEntry(z.source, z.etype, z.ref))))
  }

  lemma {:induction false} LiveStays(before: seq<RegEntry>, after: seq<RegEntry>, i: nat, n: nat, e: RegEntry)
    requires i <= n <= |before| == |after| && forall j :: i <= j < n ==> !Changed(before, after, j)
    ensures Live(before, after, n, e) == Live(before, after, i, e)
  {
    if i < n {
      LiveStays(before, after, i, n - 1, e);
    }
  }

  /** One input is registered again, for another reference. */
  lemma HalfwayStep(o: Oracle, r: nat, before: seq<RegEntry>, after: seq<RegEntry>, i: nat)
    requires Inv(o) && i < |before| == |after| && Halfway(o, r, before, after, i)
    requires after[i] == before[i].(ref := after[i].ref) && Changed(before, after, i)
    ensures Halfway(RegisterAgain(o, r, i, after[i].ref), r, before, after, i + 1)
  {
    var ref := after[i].ref;
    AgainEffect(o, r, i, ref);
    hide Inv, Has, RegisterAgain;
    var o' := RegisterAgain(o, r, i, ref);
    forall z: Reg | z.qID == o.dynamic[r].qID
      ensures Has(o'.regs[APP_BUCKET], z) <==> z.ref != NOT_A_REFNUM && Live(before, after, i + 1, RegEntry(z.source, z.etype, z.ref))
    {
      assert z == Reg(before[i].source, before[i].etype, z.qID, before[i].ref) <==> RegEntry(z.source, z.etype, z.ref) == before[i];
    }
  }

  lemma {:induction false} CallIsLive(o: Oracle, r: nat, i: nat, args: seq<RegArg>, before: seq<RegEntry>, after: seq<RegEntry>)
    requires Inv(o) && i <= |args| == |before| == |after| && Halfway(o, r, before, after, i)
    requires after == Rewired(o.dynamic[r].entries, i, args)
    ensures Halfway(RegisterArgs(o, r, i, args, true).0, r, before, after, |before|)
    decreases |args| - i
  {
    var entries := o.dynamic[r].entries;
    if i == |args| || !ArgFits(entries, i, args[i], true) {
      hide Inv, Has, Live;
      forall e ensures Live(before, after, |before|, e) == Live(before, after, i, e) {
        LiveStays(before, after, i, |before|, e);
      }
    } else {
      var o' := RegisterArg(o, r, i, args[i], true);
      if args[i].Wildcard? || args[i].ref == entries[i].ref {
        assert after == Rewired(entries, i + 1, args) by { assert entries[i := entries[i]] == entries; }
        forall e ensures Live(before, after, i + 1, e) == Live(before, after, i, e) {}
      } else {
        assert after[i] == entries[i].(ref := args[i].ref);
        HalfwayStep(o, r, before, after, i);
        RegisterAgainKeeps(o, r, i, args[i].ref);
        assert o'.dynamic[r].entries == entries[i := entries[i].(ref := args[i].ref)];
      }
      hide Inv, Has, Live, RegisterArg;
      CallIsLive(o', r, i + 1, args, before, after);
    }
  }

  // ---------------------------------------------------------------- what is live in the end

  /** e is given up by some input from the m-th to before the n-th. */
  ghost predicate GivenUp(before: seq<RegEntry>, after: seq<RegEntry>, m: nat, n: nat, e: RegEntry)
    requires n <= |before| == |after|
  {
    exists i :: m <= i < n && Changed(before, after, i) && before[i] == e
  }

  ghost predicate TakenUp(before: seq<RegEntry>, after: seq<RegEntry>, m: nat, n: nat, e: RegEntry)
    requires n <= |before| == |after|
  {
    exists i :: m <= i < n && Changed(before, after, i) && after[i] == e
  }

  /** What an input gives up and some input has in the end is taken up again by a later input. */
  ghost predicate NothingLost(before: seq<RegEntry>, after: seq<RegEntry>)
    requires |before| == |after|
  {
    forall i :: 0 <= i < |before| && Changed(before, after, i) && before[i].ref != NOT_A_REFNUM && before[i] in after ==>
      TakenUp(before, after, i + 1, |before|, before[i])
  }

  lemma {:induction false} KeptAlive(before: seq<RegEntry>, after: seq<RegEntry>, m: nat, n: nat, e: RegEntry)
    requires m <= n <= |before| == |after| && Live(before, after, m, e) && !GivenUp(before, after, m, n, e)
    ensures Live(before, after, n, e)
  {
    if m < n {
      KeptAlive(before, after, m, n - 1, e);
    }
  }

  lemma {:induction false} KeptDead(before: seq<RegEntry>, after: seq<RegEntry>, m: nat, n: nat, e: RegEntry)
    requires m <= n <= |before| == |after| && !Live(before, after, m, e) && !TakenUp(before, after, m, n, e)
    ensures !Live(before, after, n, e)
  {
    if m < n {
      KeptDead(before, after, m, n - 1, e);
    }
  }

  /** Only what an input has is live. */
  lemma {:induction false} LiveHas(before: seq<RegEntry>, after: seq<RegEntry>, n: nat, e: RegEntry)
    requires n <= |before| == |after| && Live(before, after, n, e)
    ensures exists j :: 0 <= j < |before| && e == if j < n then after[j] else before[j]
  {
    if n == 0 {
      var j :| 0 <= j < |before| && before[j] == e;
    } else if Changed(before, after, n - 1) && e == after[n - 1] {
    } else {
      LiveHas(before, after, n - 1, e);
    }
  }

  /** The last input that gives e up. */
  lemma {:induction false} LastGivenUp(before: seq<RegEntry>, after: seq<RegEntry>, n: nat, e: RegEntry) returns (i: nat)
    requires n <= |before| == |after| && GivenUp(before, after, 0, n, e)
    ensures i < n && Changed(before, after, i) && before[i] == e && !GivenUp(before, after, i + 1, n, e)
  {
    i := n - 1;
    if !(Changed(before, after, i) && before[i] == e) {
      i := LastGivenUp(before, after, n - 1, e);
    }
  }

  /** An input of the end is live unless it has been given up for good. */
  lemma LiveInTheEnd(before: seq<RegEntry>, after: seq<RegEntry>, e: RegEntry)
    requires |before| == |after| && e in after
    ensures Live(before, after, |before|, e)
            <==> forall i :: 0 <= i < |before| && Changed(before, after, i) && before[i] == e ==> TakenUp(before, after, i + 1, |before|, e)
  {
    hide Live;
    var n := |before|;
    if i :| 0 <= i < n && Changed(before, after, i) && before[i] == e && !TakenUp(before, after, i + 1, n, e) {
      StepDead(before, after, i, e);
      KeptDead(before, after, i + 1, n, e);
    } else {
      var m := 0;
      if GivenUp(before, after, 0, n, e) {
        m := LastGivenUp(before, after, n, e);
        m := m + 1;
      }
      if TakenUp(before, after, m, n, e) {
        var j :| m <= j < n && Changed(before, after, j) && after[j] == e;
        StepAlive(before, after, j, e);
        KeptAlive(before, after, j + 1, n, e);
      } else {
        var j :| 0 <= j < n && after[j] == e;
        assert m == 0 && before[j] == e;
        StartAlive(before, after, e);
        KeptAlive(before, after, 0, n, e);
      }
    }
  }

  lemma StepDead(before: seq<RegEntry>, after: seq<RegEntry>, i: nat, e: RegEntry)
    requires i < |before| == |after| && Changed(before, after, i) && before[i] == e
    ensures !Live(before, after, i + 1, e)
  {}

  lemma StepAlive(before: seq<RegEntry>, after: seq<RegEntry>, i: nat, e: RegEntry)
    requires i < |before| == |after| && Changed(before, after, i) && after[i] == e
    ensures Live(before, after, i + 1, e)
  {}

  lemma StartAlive(before: seq<RegEntry>, after: seq<RegEntry>, e: RegEntry)
    requires |before| == |after| && e in before
    ensures Live(before, after, 0, e)
  {}

  /** A whole call keeps registrations and inputs in step exactly when nothing is lost: when each event and
      reference that an input gives up, and that some input has in the end, is taken up again by a later one.
      This can be told from the inputs and the arguments. */
  lemma CallFaithful(o: Oracle, r: nat, args: seq<RegArg>)
    requires Inv(o) && r in o.dynamic && Faithful(o, r)
    ensures var o', entries := Reregister(o, r, args).0, o.dynamic[r].entries;
            var after := InputsAfter(entries, args);
            && o'.regs != [] && r in o'.dynamic && o'.dynamic[r].entries == after
            && (Faithful(o', r) <==> NothingLost(entries, after))
  {
    var entries, o' := o.dynamic[r].entries, Reregister(o, r, args).0;
    var after := InputsAfter(entries, args);
    if |args| == |entries| {
      hide Inv, Has;
      assert Halfway(o, r, entries, after, 0);
      CallIsLive(o, r, 0, args, entries, after);
      assert o'.dynamic[r].entries == after;
      RegisterArgsOnly(o, r, 0, args, true);
      EndFaithful(o', r, entries, after);
    } else {
      hide Has;
      assert NothingLost(entries, after);
    }
  }

  lemma EndFaithful(o: Oracle, r: nat, before: seq<RegEntry>, after: seq<RegEntry>)
    requires |before| == |after| && Halfway(o, r, before, after, |before|) && o.dynamic[r].entries == after
    ensures Faithful(o, r) <==> NothingLost(before, after)
  {
    hide Live, Has, TakenUp;
    var q := o.dynamic[r].qID;
    if NothingLost(before, after) {
      forall z: Reg | z.qID == q
        ensures Has(o.regs[APP_BUCKET], z) <==> z.ref != NOT_A_REFNUM && RegEntry(z.source, z.etype, z.ref) in after
      {
        var e := RegEntry(z.source, z.etype, z.ref);
        if e in after {
          LiveInTheEnd(before, after, e);
        } else if Live(before, after, |before|, e) {
          LiveHas(before, after, |before|, e);
        }
      }
    } else {
      var i :| 0 <= i < |before| && Changed(before, after, i) && before[i].ref != NOT_A_REFNUM && before[i] in after
               && !TakenUp(before, after, i + 1, |before|, before[i]);
      var e := before[i];
      LiveInTheEnd(before, after, e);
      assert !Has(o.regs[APP_BUCKET], Reg(e.source, e.etype, q, e.ref));
    }
  }

  // ---------------------------------------------------------------- a call that loses a registration

  const ENTRY := RegEntry(25, 1000, 7)

  /** Refnum 5 with two inputs for user event 7. */
  ghost function Shared(): Oracle {
    Oracle([Queue([], false, false, None), Queue([], true, false, None)],
           [[RegInfo(25, 1000, [RegQueueID(1, 7)])]], 0, map[5 := DynRegInfo(1, [ENTRY, ENTRY])], [], [])
  }

  lemma OneInput(o: Oracle)
    requires o == Oracle([Queue([], false, false, None), Queue([], true, false, None)], [[]], 0, map[5 := DynRegInfo(1, [])], [], [])
    ensures RegisterFirst(o, 5, 1000, 7)
            == Oracle([Queue([], false, false, None), Queue([], true, false, None)],
                      [[RegInfo(25, 1000, [RegQueueID(1, 7)])]], 0, map[5 := DynRegInfo(1, [ENTRY])], [], [])
  {
    assert Inserted([], Reg(25, 1000, 1, 7)) == [RegInfo(25, 1000, [RegQueueID(1, 7)])];
    assert o.dynamic[5].entries + [ENTRY] == [ENTRY];
    assert RegisterFirst(o, 5, 1000, 7).dynamic == map[5 := DynRegInfo(1, [ENTRY])];
    assert RegisterFirst(o, 5, 1000, 7).regs == [[RegInfo(25, 1000, [RegQueueID(1, 7)])]];
  }

  lemma SecondInput(o: Oracle)
    requires o == Oracle([Queue([], false, false, None), Queue([], true, false, None)],
                         [[RegInfo(25, 1000, [RegQueueID(1, 7)])]], 0, map[5 := DynRegInfo(1, [ENTRY])], [], [])
    ensures RegisterFirst(o, 5, 1000, 7) == Shared()
  {
    var list := [RegInfo(25, 1000, [RegQueueID(1, 7)])];
    assert RegQueueID(1, 7) in list[0].qIDs && Inserted(list, Reg(25, 1000, 1, 7)) == list;
    assert o.dynamic[5].entries + [ENTRY] == [ENTRY, ENTRY];
    assert RegisterFirst(o, 5, 1000, 7).dynamic == map[5 := DynRegInfo(1, [ENTRY, ENTRY])];
  }

  /** Two inputs for the same event and reference share one registration, which re-registering one of them for
      another reference takes away from the other as well.  One registration call leads there. */
  lemma SharedRegistrationLost()
    ensures var o, args := Shared(), [Arg(1000, 8), Wildcard];
            && Reaches(Start(0), [NewRegistration(5, [Arg(1000, 7), Arg(1000, 7)])], o) && Inv(o) && Faithful(o, 5)
            && Reregister(o, 5, args).1 && Reregister(o, 5, args).0.regs != [] && 5 in Reregister(o, 5, args).0.dynamic
            && !Faithful(Reregister(o, 5, args).0, 5)
  {
    hide Inv, Has, Faithful, InputsAfter, NothingLost, Reaches;
    var o, args := Shared(), [Arg(1000, 8), Wildcard];
    SharedReached();
    SharedFaithful();
    CallFaithful(o, 5, args);
    SharedLoses();
    assert RegisterArgs(RegisterAgain(o, 5, 0, 8), 5, 1, args, true) == RegisterArgs(RegisterAgain(o, 5, 0, 8), 5, 2, args, true);
  }

  lemma SharedFaithful()
    ensures Faithful(Shared(), 5)
  {
    assert [ENTRY, ENTRY][0] == ENTRY;
  }

  lemma SharedLoses()
    ensures !NothingLost([ENTRY, ENTRY], InputsAfter([ENTRY, ENTRY], [Arg(1000, 8), Wildcard]))
  {
    var before, after, args := [ENTRY, ENTRY], [RegEntry(25, 1000, 8), ENTRY], [Arg(1000, 8), Wildcard];
    assert before[0 := RegEntry(25, 1000, 8)] == after;
    assert Rewired(after, 2, args) == after && Rewired(after, 1, args) == after;
    assert InputsAfter(before, args) == after;
    assert Changed(before, after, 0) && after[1] == ENTRY && !TakenUp(before, after, 1, 2, ENTRY);
  }

  lemma SharedReached()
    ensures Reaches(Start(0), [NewRegistration(5, [Arg(1000, 7), Arg(1000, 7)])], Shared()) && Inv(Shared())
  {
    var o0, args := Start(0), [Arg(1000, 7), Arg(1000, 7)];
    RegisterNewKeeps(o0, 5, args);
    assert o0 == Oracle([Queue([], false, false, None)], [[]], 0, map[], [], []);
    hide Inv, RegisterFirst;
    var queues := [Queue([], false, false, None), Queue([], true, false, None)];
    var o1 := Oracle(queues, [[]], 0, map[5 := DynRegInfo(1, [])], [], []);
    assert NewQueueID(o0) == 1 && NewQueue(o0, None) == o0.(queues := queues);
    OneInput(o1);
    var o2 := RegisterFirst(o1, 5, 1000, 7);
    SecondInput(o2);
    assert RegisterArgs(Shared(), 5, 2, args, false) == (Shared(), true);
    assert RegisterArgs(o2, 5, 1, args, false) == (Shared(), true);
    assert RegisterNew(o0, 5, args).0 == Shared();
    var all := [NewRegistration(5, args)];
    assert all[0] == NewRegistration(5, args) && all[1..] == [];
    assert Do(o0, all[0]).0 == Shared();
  }
}
