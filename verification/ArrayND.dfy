/** Subsets, insertion and deletion along a dimension of N-dimensional arrays; source/core/Array.cpp, for
    arrays of rank 2 and more and parts of the same rank. */
module ArrayND {
  import opened FlatIndex
  import opened RowShift
  import BoxCopy

  datatype Option<T> = None | Some(value: T)

  // ---------------------------------------------------------------- indices and rows

  /** The address that is r inside slice x of row o, when rows have len slices of the given size. */
  function Spot(o: nat, len: nat, inner: nat, x: nat, r: nat): nat {
    Row(o, len * inner, Row(x, inner, r))
  }

  function InnerPart(i: seq<nat>, dims: seq<nat>, d: nat): nat
    requires d < |i| == |dims|
  {
    Addr(i, Slabs(dims), d)
  }

  /** The address of an index by the row it lies in, rows running along dimension d. */
  lemma RowAt(i: seq<nat>, dims: seq<nat>, d: nat)
    requires InBox(i, dims) && d < |dims|
    ensures InnerPart(i, dims, d) < Prod(dims, 0, d) && OuterPlace(i, dims, d) < Prod(dims, d + 1, |dims|)
    ensures Address(i, dims) == Spot(OuterPlace(i, dims, d), dims[d], Prod(dims, 0, d), i[d], InnerPart(i, dims, d))
  {
    Place(i, dims, d);
    AddrBound(i, dims, d);
  }

  /** Where an index lies does not depend on dimension d. */
  lemma SamePlace(i: seq<nat>, j: seq<nat>, dims: seq<nat>, dims': seq<nat>, d: nat)
    requires |i| == |j| == |dims| == |dims'| && d < |dims|
    requires forall k :: 0 <= k < |dims| && k != d ==> i[k] == j[k] && dims[k] == dims'[k]
    ensures Prod(dims, 0, d) == Prod(dims', 0, d) && Prod(dims, d + 1, |dims|) == Prod(dims', d + 1, |dims|)
    ensures OuterPlace(i, dims, d) == OuterPlace(j, dims', d) && InnerPart(i, dims, d) == InnerPart(j, dims', d)
  {
    ProdSame(dims, dims', 0, d);
    ProdSame(dims, dims', d + 1, |dims|);
    OuterSame(i, j, dims, dims', d, |dims|);
    forall k | 0 <= k < d ensures Slabs(dims)[k] == Slabs(dims')[k] {
      ProdSame(dims, dims', 0, k);
    }
    AddrSame(i, j, Slabs(dims), Slabs(dims'), d);
  }

  lemma {:induction false} AddrInjective(i: seq<nat>, j: seq<nat>, dims: seq<nat>, n: nat)
    requires n <= |i| && n <= |j| && n <= |dims| && forall k :: 0 <= k < n ==> i[k] < dims[k] && j[k] < dims[k]
    requires Addr(i, Slabs(dims), n) == Addr(j, Slabs(dims), n)
    ensures forall k :: 0 <= k < n ==> i[k] == j[k]
    decreases n
  {
    if n > 0 {
      AddrBound(i, dims, n - 1);
      AddrBound(j, dims, n - 1);
      DivisionUnique(i[n - 1], Addr(i, Slabs(dims), n - 1), j[n - 1], Addr(j, Slabs(dims), n - 1), Prod(dims, 0, n - 1));
      AddrInjective(i, j, dims, n - 1);
    }
  }

  lemma AddressInjective(i: seq<nat>, j: seq<nat>, dims: seq<nat>)
    requires InBox(i, dims) && InBox(j, dims) && Address(i, dims) == Address(j, dims)
    ensures i == j
  {
    AddrInjective(i, j, dims, |dims|);
  }

  // ---------------------------------------------------------------- what the row shifts mean for indices

  lemma RowLengths(start: nat, len: nat, gap: nat, inner: nat)
    requires start <= len
    ensures start * inner + gap * inner + (len - start) * inner == (len + gap) * inner
    ensures start * inner + (len - start) * inner == len * inner
  {}

  /** Position x of a row, r elements in. */
  lemma InRow(x: nat, inner: nat, r: nat, start: nat, gap: nat)
    requires r < inner
    ensures Row(x, inner, r) < start * inner <==> x < start
    ensures Row(x, inner, r) < start * inner + gap * inner <==> x < start + gap
    ensures x >= gap ==> Row(x, inner, r) - gap * inner == Row(x - gap, inner, r)
    ensures Row(x + gap, inner, r) == Row(x, inner, r) + gap * inner
  {
    Within(x, start, inner, r);
    Within(x, start + gap, inner, r);
    Distribute(start, gap, inner);
    Distribute(x, gap, inner);
    if x >= gap {
      Distribute(x - gap, gap, inner);
    }
  }

  function Shifted(i: seq<nat>, d: nat, x: nat): seq<nat>
    requires d < |i|
  {
    i[d := x]
  }

  // The shifts, in slices of a given size.

  function OpenedBy(s: seq<int>, q: nat, start: nat, gap: nat, rest: nat, inner: nat): int {
    Opened(s, q, start * inner, gap * inner, rest * inner)
  }

  function ClosedBy(s: seq<int>, q: nat, start: nat, gap: nat, rest: nat, inner: nat): int {
    Closed(s, q, start * inner, gap * inner, rest * inner)
  }

  function TakenBy(s: seq<int>, q: nat, start: nat, gap: nat, rest: nat, inner: nat): int {
    Taken(s, q, start * inner, gap * inner, rest * inner)
  }

  lemma OpenedSpot(s: seq<int>, o: nat, x: nat, r: nat, start: nat, gap: nat, len: nat, inner: nat)
    requires start <= len && x < len + gap && r < inner
    ensures OpenedBy(s, Spot(o, len + gap, inner, x, r), start, gap, len - start, inner)
            == if x < start then Get(s, Spot(o, len, inner, x, r))
               else if x < start + gap then 0 else Get(s, Spot(o, len, inner, x - gap, r))
  {
    hide Opened, Row, Get;
    RowLengths(start, len, gap, inner);
    InRow(x, inner, r, start, gap);
    Within(x, len + gap, inner, r);
    RowIs(x, inner, r);
    OpenedInRow(s, o, Row(x, inner, r), start * inner, gap * inner, (len - start) * inner);
    RowSum(o, len * inner, Row(x, inner, r));
    if x >= gap {
      RowSum(o, len * inner, Row(x - gap, inner, r));
    }
  }

  lemma RowIs(x: nat, inner: nat, r: nat)
    ensures Row(x, inner, r) == x * inner + r
  {}

  lemma RowSum(o: nat, w: nat, m: nat)
    ensures Row(o, w, m) == Row(o, w, 0) + m
  {}

  lemma ClosedSpot(s: seq<int>, o: nat, x: nat, r: nat, start: nat, gap: nat, len: nat, inner: nat)
    requires start <= len && x < len && r < inner
    ensures ClosedBy(s, Spot(o, len, inner, x, r), start, gap, len - start, inner)
            == Get(s, Spot(o, len + gap, inner, if x < start then x else x + gap, r))
  {
    hide Closed, Row, Get;
    RowLengths(start, len, gap, inner);
    InRow(x, inner, r, start, gap);
    Within(x, len, inner, r);
    RowIs(x, inner, r);
    ClosedInRow(s, o, Row(x, inner, r), start * inner, gap * inner, (len - start) * inner);
    RowSum(o, len * inner, Row(x, inner, r));
    RowSum(o, (len + gap) * inner, Row(if x < start then x else x + gap, inner, r));
  }

  lemma TakenSpot(s: seq<int>, o: nat, x: nat, r: nat, start: nat, gap: nat, len: nat, inner: nat)
    requires start <= len && x < gap && r < inner
    ensures TakenBy(s, Spot(o, gap, inner, x, r), start, gap, len - start, inner) == Get(s, Spot(o, len + gap, inner, x + start, r))
  {
    hide Taken, Row, Get;
    RowLengths(start, len, gap, inner);
    InRow(x, inner, r, start, start);
    Within(x, gap, inner, r);
    RowIs(x, inner, r);
    TakenInRow(s, o, Row(x, inner, r), start * inner, gap * inner, (len - start) * inner);
    RowSum(o, gap * inner, Row(x, inner, r));
    RowSum(o, (len + gap) * inner, Row(x + start, inner, r));
  }

  lemma InBoxAt(i: seq<nat>, dims: seq<nat>, d: nat)
    requires InBox(i, dims) && d < |dims|
    ensures |i| == |dims| && i[d] < dims[d]
  {}

  lemma ShiftedIn(i: seq<nat>, dims: seq<nat>, dims': seq<nat>, d: nat, x: nat)
    requires InBox(i, dims) && |dims'| == |dims| && d < |dims| && (forall k :: 0 <= k < |dims| && k != d ==> dims'[k] == dims[k]) && x < dims'[d]
    ensures |i| == |dims| && i[d] < dims[d] && InBox(Shifted(i, d, x), dims') && Shifted(i, d, x)[d] == x
    ensures forall k :: 0 <= k < |dims| && k != d ==> Shifted(i, d, x)[k] == i[k]
  {}

  lemma OpenedIndex(s: seq<int>, dims: seq<nat>, d: nat, start: nat, gap: nat, i: seq<nat>)
    requires d < |dims| && start <= dims[d] && InBox(i, dims[d := dims[d] + gap])
    ensures OpenedBy(s, Address(i, dims[d := dims[d] + gap]), start, gap, dims[d] - start, Prod(dims, 0, d))
            == if i[d] < start then Get(s, Address(i, dims))
               else if i[d] < start + gap then 0 else Get(s, Address(Shifted(i, d, i[d] - gap), dims))
  {
    hide Prod, Addr, Slabs, OuterPlace, InnerPart, OpenedBy, Spot, Get, Address;
    var dims' := dims[d := dims[d] + gap];
    RowAt(i, dims', d);
    SamePlace(i, i, dims, dims', d);
    OpenedSpot(s, OuterPlace(i, dims', d), i[d], InnerPart(i, dims', d), start, gap, dims[d], Prod(dims, 0, d));
    if i[d] < start {
      RowAt(i, dims, d);
    } else if i[d] >= start + gap {
      var j := Shifted(i, d, i[d] - gap);
      RowAt(j, dims, d);
      SamePlace(i, j, dims', dims, d);
    }
  }

  lemma ClosedIndex(s: seq<int>, dims: seq<nat>, d: nat, start: nat, gap: nat, i: seq<nat>)
    requires d < |dims| && start + gap <= dims[d] && InBox(i, dims[d := dims[d] - gap])
    ensures ClosedBy(s, Address(i, dims[d := dims[d] - gap]), start, gap, dims[d] - gap - start, Prod(dims, 0, d))
            == Get(s, Address(if i[d] < start then i else Shifted(i, d, i[d] + gap), dims))
  {
    hide Prod, Addr, Slabs, OuterPlace, InnerPart, ClosedBy, Spot, Get, Address;
    var dims' := dims[d := dims[d] - gap];
    var j := if i[d] < start then i else Shifted(i, d, i[d] + gap);
    RowAt(i, dims', d);
    RowAt(j, dims, d);
    SamePlace(i, j, dims', dims, d);
    ClosedSpot(s, OuterPlace(i, dims', d), i[d], InnerPart(i, dims', d), start, gap, dims[d] - gap, Prod(dims, 0, d));
  }

  lemma TakenIndex(s: seq<int>, dims: seq<nat>, d: nat, start: nat, gap: nat, i: seq<nat>)
    requires d < |dims| && start + gap <= dims[d] && InBox(i, dims[d := gap])
    ensures TakenBy(s, Address(i, dims[d := gap]), start, gap, dims[d] - gap - start, Prod(dims, 0, d))
            == Get(s, Address(Shifted(i, d, i[d] + start), dims))
  {
    hide Prod, Addr, Slabs, OuterPlace, InnerPart, TakenBy, Spot, Get, Address, InBox, Shifted;
    var dims' := dims[d := gap];
    InBoxAt(i, dims', d);
    var j := Shifted(i, d, i[d] + start);
    ShiftedIn(i, dims', dims, d, i[d] + start);
    RowAt(i, dims', d);
    RowAt(j, dims, d);
    SamePlace(i, j, dims', dims, d);
    TakenSpot(s, OuterPlace(i, dims', d), i[d], InnerPart(i, dims', d), start, gap, dims[d] - gap, Prod(dims, 0, d));
  }

  // ---------------------------------------------------------------- what insertion and deletion achieve

  /** What is at index i after inserting b, clipped to fit, at position start of dimension d of a. */
  function InsertedAt(a: seq<int>, dims: seq<nat>, b: seq<int>, subDims: seq<nat>, d: nat, start: nat, i: seq<nat>): int
    requires d < |i| == |dims| == |subDims|
  {
    if i[d] < start then Get(a, Address(i, dims))
    else if i[d] < start + subDims[d] then
      if InBox(Shifted(i, d, i[d] - start), subDims) then Get(b, Address(Shifted(i, d, i[d] - start), subDims)) else 0
    else Get(a, Address(Shifted(i, d, i[d] - subDims[d]), dims))
  }

  ghost predicate IsInsertion(a: seq<int>, dims: seq<nat>, b: seq<int>, subDims: seq<nat>, d: nat, start: nat, r: seq<int>) {
    && d < |dims| == |subDims|
    && var dims' := dims[d := dims[d] + subDims[d]];
       && |r| == Total(dims')
       && forall i :: InBox(i, dims') ==> Get(r, Address(i, dims')) == InsertedAt(a, dims, b, subDims, d, start, i)
  }

  /** Slices start to start + gap of dimension d of a have gone to c, the others to r. */
  ghost predicate IsDeletion(a: seq<int>, dims: seq<nat>, d: nat, start: nat, gap: nat, r: seq<int>, c: seq<int>) {
    && d < |dims| && start + gap <= dims[d]
    && var rest, part := dims[d := dims[d] - gap], dims[d := gap];
       && |r| == Total(rest) && |c| == Total(part)
       && (forall i :: InBox(i, rest) ==>
             Get(r, Address(i, rest)) == Get(a, Address(if i[d] < start then i else Shifted(i, d, i[d] + gap), dims)))
       && (forall i :: InBox(i, part) ==> Get(c, Address(i, part)) == Get(a, Address(Shifted(i, d, i[d] + start), dims)))
  }

  /** Inserting what has been deleted where it was gives the array back. */
  lemma DeleteThenInsert(a: seq<int>, dims: seq<nat>, d: nat, start: nat, gap: nat, r: seq<int>, c: seq<int>, s: seq<int>)
    requires |a| == Total(dims) && IsDeletion(a, dims, d, start, gap, r, c)
    requires IsInsertion(r, dims[d := dims[d] - gap], c, dims[d := gap], d, start, s)
    ensures s == a
  {
    var rest := dims[d := dims[d] - gap];
    assert rest[d := rest[d] + gap] == dims;
    forall q | 0 <= q < |a| ensures s[q] == a[q] {
      var i := IndexAt(q, dims, |dims|);
      EveryAddress(q, dims);
      Rebuilt(a, dims, d, start, gap, r, c, i);
    }
  }

  /** Deleting what has been inserted gives the array back, and the part of the inserted array that fitted. */
  lemma InsertThenDelete(a: seq<int>, dims: seq<nat>, b: seq<int>, subDims: seq<nat>, d: nat, start: nat, s: seq<int>, r: seq<int>, c: seq<int>)
    requires |a| == Total(dims) && d < |dims| == |subDims| && start <= dims[d] && IsInsertion(a, dims, b, subDims, d, start, s)
    requires IsDeletion(s, dims[d := dims[d] + subDims[d]], d, start, subDims[d], r, c)
    ensures r == a
    ensures forall i :: InBox(i, dims[d := subDims[d]]) ==>
              Get(c, Address(i, dims[d := subDims[d]])) == if InBox(i, subDims) then Get(b, Address(i, subDims)) else 0
  {
    hide Address, Total, Get, IsInsertion, IsDeletion;
    OutputBack(a, dims, b, subDims, d, start, s, r, c);
    forall i | InBox(i, dims[d := subDims[d]])
      ensures Get(c, Address(i, dims[d := subDims[d]])) == if InBox(i, subDims) then Get(b, Address(i, subDims)) else 0
    {
      PartBack(a, dims, b, subDims, d, start, s, r, c, i);
    }
  }

  lemma OutputBack(a: seq<int>, dims: seq<nat>, b: seq<int>, subDims: seq<nat>, d: nat, start: nat, s: seq<int>, r: seq<int>, c: seq<int>)
    requires |a| == Total(dims) && d < |dims| == |subDims| && start <= dims[d] && IsInsertion(a, dims, b, subDims, d, start, s)
    requires IsDeletion(s, dims[d := dims[d] + subDims[d]], d, start, subDims[d], r, c)
    ensures r == a
  {
    hide Address, Total, IsInsertion, IsDeletion;
    var dims' := dims[d := dims[d] + subDims[d]];
    assert dims'[d := dims'[d] - subDims[d]] == dims;
    DeletionLength(s, dims', d, start, subDims[d], r, c);
    forall q | 0 <= q < |a| ensures r[q] == a[q] {
      var i := IndexAt(q, dims, |dims|);
      EveryAddress(q, dims);
      Unchanged(a, dims, b, subDims, d, start, s, i);
      KeptFrom(s, dims', d, start, subDims[d], r, c, i);
    }
  }

  lemma DeletionBounds(a: seq<int>, dims: seq<nat>, d: nat, start: nat, gap: nat, r: seq<int>, c: seq<int>)
    requires IsDeletion(a, dims, d, start, gap, r, c)
    ensures d < |dims| && start + gap <= dims[d]
  {}

  lemma DeletionLength(a: seq<int>, dims: seq<nat>, d: nat, start: nat, gap: nat, r: seq<int>, c: seq<int>)
    requires IsDeletion(a, dims, d, start, gap, r, c)
    ensures |r| == Total(dims[d := dims[d] - gap])
  {}

  lemma KeptFrom(a: seq<int>, dims: seq<nat>, d: nat, start: nat, gap: nat, r: seq<int>, c: seq<int>, i: seq<nat>)
    requires IsDeletion(a, dims, d, start, gap, r, c) && InBox(i, dims[d := dims[d] - gap])
    ensures Get(r, Address(i, dims[d := dims[d] - gap])) == Get(a, Address(if i[d] < start then i else Shifted(i, d, i[d] + gap), dims))
  {
    hide Address, Total, Get;
  }

  lemma PartBack(a: seq<int>, dims: seq<nat>, b: seq<int>, subDims: seq<nat>, d: nat, start: nat, s: seq<int>, r: seq<int>, c: seq<int>, i: seq<nat>)
    requires d < |dims| == |subDims| && start <= dims[d] && IsInsertion(a, dims, b, subDims, d, start, s)
    requires IsDeletion(s, dims[d := dims[d] + subDims[d]], d, start, subDims[d], r, c) && InBox(i, dims[d := subDims[d]])
    ensures Get(c, Address(i, dims[d := subDims[d]])) == if InBox(i, subDims) then Get(b, Address(i, subDims)) else 0
  {
    hide Address, Total, Get, IsInsertion, IsDeletion;
    var dims', j := dims[d := dims[d] + subDims[d]], Shifted(i, d, i[d] + start);
    assert dims'[d := subDims[d]] == dims[d := subDims[d]];
    DeletedFrom(s, dims', d, start, subDims[d], r, c, i);
    InsertedThere(a, dims, b, subDims, d, start, s, j);
    assert Shifted(j, d, j[d] - start) == i;
  }

  lemma DeletedFrom(a: seq<int>, dims: seq<nat>, d: nat, start: nat, gap: nat, r: seq<int>, c: seq<int>, i: seq<nat>)
    requires IsDeletion(a, dims, d, start, gap, r, c) && InBox(i, dims[d := gap])
    ensures InBox(Shifted(i, d, i[d] + start), dims)
    ensures Get(c, Address(i, dims[d := gap])) == Get(a, Address(Shifted(i, d, i[d] + start), dims))
  {
    hide Address, Total, Get;
  }

  lemma InsertedThere(a: seq<int>, dims: seq<nat>, b: seq<int>, subDims: seq<nat>, d: nat, start: nat, s: seq<int>, j: seq<nat>)
    requires d < |dims| == |subDims| && IsInsertion(a, dims, b, subDims, d, start, s)
    requires InBox(j, dims[d := dims[d] + subDims[d]]) && start <= j[d] < start + subDims[d]
    ensures Get(s, Address(j, dims[d := dims[d] + subDims[d]]))
            == var i := Shifted(j, d, j[d] - start); if InBox(i, subDims) then Get(b, Address(i, subDims)) else 0
  {
    hide Address, Total, Get;
  }

  lemma Unchanged(a: seq<int>, dims: seq<nat>, b: seq<int>, subDims: seq<nat>, d: nat, start: nat, s: seq<int>, i: seq<nat>)
    requires d < |dims| == |subDims| && IsInsertion(a, dims, b, subDims, d, start, s) && InBox(i, dims)
    ensures var dims' := dims[d := dims[d] + subDims[d]];
            Get(s, Address(if i[d] < start then i else Shifted(i, d, i[d] + subDims[d]), dims')) == Get(a, Address(i, dims))
  {
    hide Address, Total, Get;
    var dims' := dims[d := dims[d] + subDims[d]];
    if i[d] < start {
      assert InBox(i, dims');
    } else {
      var j := Shifted(i, d, i[d] + subDims[d]);
      assert InBox(j, dims') && Shifted(j, d, j[d] - subDims[d]) == i;
    }
  }

  lemma Rebuilt(a: seq<int>, dims: seq<nat>, d: nat, start: nat, gap: nat, r: seq<int>, c: seq<int>, i: seq<nat>)
    requires IsDeletion(a, dims, d, start, gap, r, c) && InBox(i, dims)
    ensures InsertedAt(r, dims[d := dims[d] - gap], c, dims[d := gap], d, start, i) == Get(a, Address(i, dims))
  {
    hide Address, Total, Get, IsDeletion;
    DeletionBounds(a, dims, d, start, gap, r, c);
    if i[d] < start {
      KeptFrom(a, dims, d, start, gap, r, c, i);
    } else if i[d] < start + gap {
      var j := Shifted(i, d, i[d] - start);
      assert Shifted(j, d, j[d] + start) == i;
      DeletedFrom(a, dims, d, start, gap, r, c, j);
    } else {
      var j := Shifted(i, d, i[d] - gap);
      assert Shifted(j, d, j[d] + gap) == i;
      KeptFrom(a, dims, d, start, gap, r, c, j);
    }
  }

  lemma DeletionDone(a: seq<int>, dims: seq<nat>, d: nat, start: nat, gap: nat, r: seq<int>, c: seq<int>)
    requires d < |dims| && start + gap <= dims[d] && |r| == Total(dims[d := dims[d] - gap]) && |c| == Total(dims[d := gap])
    requires forall q :: 0 <= q < |r| ==> r[q] == ClosedBy(a, q, start, gap, dims[d] - gap - start, Prod(dims, 0, d))
    requires forall q :: 0 <= q < |c| ==> c[q] == TakenBy(a, q, start, gap, dims[d] - gap - start, Prod(dims, 0, d))
    ensures IsDeletion(a, dims, d, start, gap, r, c)
  {
    hide Address, ClosedBy, TakenBy, Prod, Total;
    var rest, part := dims[d := dims[d] - gap], dims[d := gap];
    forall i | InBox(i, rest)
      ensures Get(r, Address(i, rest)) == Get(a, Address(if i[d] < start then i else Shifted(i, d, i[d] + gap), dims))
    {
      AddressBound(i, rest);
      ClosedIndex(a, dims, d, start, gap, i);
    }
    forall i | InBox(i, part) ensures Get(c, Address(i, part)) == Get(a, Address(Shifted(i, d, i[d] + start), dims)) {
      AddressBound(i, part);
      TakenIndex(a, dims, d, start, gap, i);
    }
  }

  /** The part of the inserted array that fits. */
  function Clipped(subDims: seq<nat>, dims: seq<nat>, d: nat): (box: seq<nat>)
    requires |subDims| == |dims|
    ensures |box| == |dims|
    ensures forall k :: 0 <= k < |dims| ==> box[k] == if k != d && subDims[k] > dims[k] then dims[k] else subDims[k]
  {
    seq(|dims|, k requires 0 <= k < |dims| => if k != d && subDims[k] > dims[k] then dims[k] else subDims[k])
  }

  lemma {:induction false} ShiftAddr(j: seq<nat>, slabs: seq<nat>, d: nat, x: nat, n: nat)
    requires n <= |j| && n <= |slabs| && d < |j|
    ensures Addr(Shifted(j, d, j[d] + x), slabs, n) == Addr(j, slabs, n) + if d < n then BoxCopy.Pos(0, x, slabs[d]) else 0
    decreases n
  {
    if n > 0 {
      ShiftAddr(j, slabs, d, x, n - 1);
      if d == n - 1 {
        Distribute(j[d], x, slabs[d]);
      }
    }
  }

  /** An index of the box, moved to where it is inserted. */
  lemma BoxIndex(j: seq<nat>, dims: seq<nat>, subDims: seq<nat>, d: nat, start: nat)
    requires d < |dims| == |subDims| && start <= dims[d]
    requires BoxCopy.Inside(j, Clipped(subDims, dims, d), |dims|)
    ensures var dims', i := dims[d := dims[d] + subDims[d]], Shifted(j, d, j[d] + start);
            && InBox(i, dims') && InBox(j, subDims)
            && Address(i, dims') == BoxCopy.Pos(0, start, Slabs(dims')[d]) + Addr(j, Slabs(dims'), |dims|)
  {
    ShiftAddr(j, Slabs(dims[d := dims[d] + subDims[d]]), d, start, |dims|);
  }

  lemma InsertionAt(a: seq<int>, was: seq<int>, gapped: seq<int>, r: seq<int>, dims: seq<nat>, b: seq<int>, subDims: seq<nat>, d: nat,
                    start: nat, i: seq<nat>)
    requires d < |dims| == |subDims| && start <= dims[d] && |a| == Total(dims) <= |was| && was[..|a|] == a
    requires var dims' := dims[d := dims[d] + subDims[d]];
             && |gapped| == Total(dims') && InBox(i, dims')
             && (forall q :: 0 <= q < |gapped| ==> gapped[q] == OpenedBy(was, q, start, subDims[d], dims[d] - start, Prod(dims, 0, d)))
             && BoxCopy.Copied(gapped, r, BoxCopy.Pos(0, start, Slabs(dims')[d]), Slabs(dims'), b, 0, Slabs(subDims),
                               Clipped(subDims, dims, d), |dims|, false)
    ensures Get(r, Address(i, dims[d := dims[d] + subDims[d]])) == InsertedAt(a, dims, b, subDims, d, start, i)
  {
    hide OpenedBy, Prod, Slabs, Addr, Total, Address, BoxCopy.Copied, BoxCopy.Pos, BoxCopy.Hit, Clipped, BoxCopy.Inside;
    var dims', box := dims[d := dims[d] + subDims[d]], Clipped(subDims, dims, d);
    var base, q := BoxCopy.Pos(0, start, Slabs(dims')[d]), Address(i, dims');
    AddressBound(i, dims');
    SlabLengths(dims', subDims);
    if start <= i[d] < start + subDims[d] && InBox(Shifted(i, d, i[d] - start), subDims) {
      var j := Shifted(i, d, i[d] - start);
      InClipped(j, dims, subDims, d, i);
      BoxIndex(j, dims, subDims, d, start);
      assert Shifted(j, d, j[d] + start) == i;
      BoxCopy.CopiedAt(gapped, r, base, Slabs(dims'), b, 0, Slabs(subDims), box, |dims|, false, j);
      AddressIs(j, subDims);
    } else {
      OutsideBox(dims, subDims, d, start, i);
      BoxCopy.CopiedElse(gapped, r, base, Slabs(dims'), b, 0, Slabs(subDims), box, |dims|, false, q);
      OpenedIndex(was, dims, d, start, subDims[d], i);
      OldPart(a, was, dims, subDims, d, start, i);
    }
  }

  lemma SlabLengths(dims: seq<nat>, subDims: seq<nat>)
    ensures |Slabs(dims)| == |dims| && |Slabs(subDims)| == |subDims|
  {}

  lemma AddressIs(i: seq<nat>, dims: seq<nat>)
    requires |i| == |dims|
    ensures Address(i, dims) == Addr(i, Slabs(dims), |dims|)
  {}

  lemma InClipped(j: seq<nat>, dims: seq<nat>, subDims: seq<nat>, d: nat, i: seq<nat>)
    requires |i| == |dims| == |subDims| && d < |dims| && InBox(j, subDims)
    requires forall k :: 0 <= k < |dims| && k != d ==> j[k] == i[k] && i[k] < dims[k]
    ensures |Clipped(subDims, dims, d)| == |dims| && BoxCopy.Inside(j, Clipped(subDims, dims, d), |dims|)
  {}

  /** An index that is not in the inserted box is not hit by the copy. */
  lemma OutsideBox(dims: seq<nat>, subDims: seq<nat>, d: nat, start: nat, i: seq<nat>)
    requires d < |dims| == |subDims| && start <= dims[d] && InBox(i, dims[d := dims[d] + subDims[d]])
    requires !(start <= i[d] < start + subDims[d] && InBox(Shifted(i, d, i[d] - start), subDims))
    ensures var dims' := dims[d := dims[d] + subDims[d]];
            !BoxCopy.Hit(Address(i, dims'), BoxCopy.Pos(0, start, Slabs(dims')[d]), Slabs(dims'), Clipped(subDims, dims, d), |dims|)
  {
    var dims', box := dims[d := dims[d] + subDims[d]], Clipped(subDims, dims, d);
    var base := BoxCopy.Pos(0, start, Slabs(dims')[d]);
    forall j | BoxCopy.Inside(j, box, |dims|) ensures Address(i, dims') != base + Addr(j, Slabs(dims'), |dims|) {
      BoxIndex(j, dims, subDims, d, start);
      var i' := Shifted(j, d, j[d] + start);
      assert Shifted(i', d, i'[d] - start) == j;
      if Address(i, dims') == Address(i', dims') {
        AddressInjective(i, i', dims');
      }
    }
  }

  /** Elements of the old array lie in the first part of the buffer. */
  lemma OldPart(a: seq<int>, was: seq<int>, dims: seq<nat>, subDims: seq<nat>, d: nat, start: nat, i: seq<nat>)
    requires d < |dims| == |subDims| && start <= dims[d] && |a| == Total(dims) <= |was| && was[..|a|] == a
    requires InBox(i, dims[d := dims[d] + subDims[d]])
    ensures i[d] < start ==> Get(was, Address(i, dims)) == Get(a, Address(i, dims))
    ensures i[d] >= start + subDims[d] ==>
              var q := Address(Shifted(i, d, i[d] - subDims[d]), dims); Get(was, q) == Get(a, q)
  {
    if i[d] < start {
      assert InBox(i, dims);
      AddressBound(i, dims);
    } else if i[d] >= start + subDims[d] {
      var j := Shifted(i, d, i[d] - subDims[d]);
      assert InBox(j, dims);
      AddressBound(j, dims);
    }
  }

  lemma InsertionDone(a: seq<int>, was: seq<int>, gapped: seq<int>, r: seq<int>, dims: seq<nat>, b: seq<int>, subDims: seq<nat>, d: nat, start: nat)
    requires d < |dims| == |subDims| && start <= dims[d] && |a| == Total(dims) <= |was| && was[..|a|] == a
    requires var dims' := dims[d := dims[d] + subDims[d]];
             && |gapped| == Total(dims')
             && (forall q :: 0 <= q < |gapped| ==> gapped[q] == OpenedBy(was, q, start, subDims[d], dims[d] - start, Prod(dims, 0, d)))
             && BoxCopy.Copied(gapped, r, BoxCopy.Pos(0, start, Slabs(dims')[d]), Slabs(dims'), b, 0, Slabs(subDims),
                               Clipped(subDims, dims, d), |dims|, false)
    ensures IsInsertion(a, dims, b, subDims, d, start, r)
  {
    hide OpenedBy, Prod, Slabs, Address, InsertedAt, BoxCopy.Delivered, Get;
    var dims' := dims[d := dims[d] + subDims[d]];
    assert |r| == |gapped|;
    forall i | InBox(i, dims') ensures Get(r, Address(i, dims')) == InsertedAt(a, dims, b, subDims, d, start, i) {
      InsertionAt(a, was, gapped, r, dims, b, subDims, d, start, i);
    }
  }

  /** What ArrayInsertSubsetND leaves when it inserts into an array without elements is not an insertion: the
      inserted elements are lost. */
  lemma InsertionIntoNothing()
    ensures !IsInsertion([], [2, 0], [5, 6], [2, 1], 1, 0, [0, 0])
  {
    var i := [0, 0];
    assert [2, 0][1 := 1] == [2, 1] && InBox(i, [2, 1]) && Shifted(i, 1, 0) == i;
    assert Addr(i, Slabs([2, 1]), 1) == 0;
    assert Address(i, [2, 1]) == 0;
  }

  ghost predicate AllZero(s: seq<int>) { forall q :: 0 <= q < |s| ==> s[q] == 0 }

  /** Insertion into an array without elements, which leaves initial values, is right for all inserted elements
      exactly when none of them fits. */
  lemma InsertionIntoNothingExactly(dims: seq<nat>, subDims: seq<nat>, d: nat, start: nat, r: seq<int>)
    requires d < |dims| == |subDims| && start <= dims[d] && Total(dims) == 0
    requires |r| == Total(dims[d := dims[d] + subDims[d]]) && AllZero(r)
    ensures (forall b :: |b| == Total(subDims) ==> IsInsertion([], dims, b, subDims, d, start, r))
            <==> Total(Clipped(subDims, dims, d)) == 0
  {
    if Total(Clipped(subDims, dims, d)) == 0 {
      forall b: seq<int> | |b| == Total(subDims) ensures IsInsertion([], dims, b, subDims, d, start, r) {
        NothingFits(dims, b, subDims, d, start, r);
      }
    } else {
      var b := seq(Total(subDims), _ => 1);
      FirstIsLost(dims, b, subDims, d, start, r);
    }
  }

  lemma NothingFits(dims: seq<nat>, b: seq<int>, subDims: seq<nat>, d: nat, start: nat, r: seq<int>)
    requires d < |dims| == |subDims| && start <= dims[d] && Total(Clipped(subDims, dims, d)) == 0
    requires |r| == Total(dims[d := dims[d] + subDims[d]]) && AllZero(r)
    ensures IsInsertion([], dims, b, subDims, d, start, r)
  {
    hide Address, Slabs;
    var dims' := dims[d := dims[d] + subDims[d]];
    forall i | InBox(i, dims') ensures Get(r, Address(i, dims')) == InsertedAt([], dims, b, subDims, d, start, i) {
      if start <= i[d] < start + subDims[d] && InBox(Shifted(i, d, i[d] - start), subDims) {
        InClipped(Shifted(i, d, i[d] - start), dims, subDims, d, i);
        ProdPositive(Clipped(subDims, dims, d), 0, |dims|);
        assert false;
      }
    }
  }

  lemma FirstIsLost(dims: seq<nat>, b: seq<int>, subDims: seq<nat>, d: nat, start: nat, r: seq<int>)
    requires d < |dims| == |subDims| && start <= dims[d] && Total(Clipped(subDims, dims, d)) > 0
    requires |r| == Total(dims[d := dims[d] + subDims[d]]) && AllZero(r)
    requires |b| == Total(subDims) && forall q :: 0 <= q < |b| ==> b[q] == 1
    ensures !IsInsertion([], dims, b, subDims, d, start, r)
  {
    hide Address, Slabs;
    var dims' := dims[d := dims[d] + subDims[d]];
    ProdPositive(Clipped(subDims, dims, d), 0, |dims|);
    var j: seq<nat> := seq(|dims|, _ => 0);
    var i := Shifted(j, d, start);
    assert forall k :: 0 <= k < |dims| ==> Clipped(subDims, dims, d)[k] > 0;
    assert InBox(j, subDims) && InBox(i, dims') && Shifted(i, d, i[d] - start) == j;
    AddressBound(j, subDims);
    assert InsertedAt([], dims, b, subDims, d, start, i) == 1;
  }
}
