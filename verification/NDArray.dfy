/** The array operations themselves, on arrays that are resized and filled in place; source/core/Array.cpp. */
module NDArray {
  import opened FlatIndex
  import opened ArrayND
  import RowShift
  import BoxCopy

  function Resized(s: seq<int>, n: nat, preserve: bool): (r: seq<int>)
    ensures |r| == n && forall k :: 0 <= k < n ==> r[k] == if preserve && k < |s| then s[k] else 0
  {
    seq(n, k => if preserve && 0 <= k < |s| then s[k] else 0)
  }

  /** A typed array of rank 2 or more; its slab lengths follow from its dimensions. */
  class NDArray {
    var dims: seq<nat>       // fastest first
    var data: array<int>

    ghost predicate Valid()
      reads this
    {
      |dims| >= 2 && data.Length == Total(dims)
    }

    constructor (dims: seq<nat>)
      requires |dims| >= 2
      ensures Valid() && this.dims == dims && fresh(data)
    {
      this.dims := dims;
      data := new int[Total(dims)](_ => 0);
    }

    /** ResizeDimensions keeps the elements that have a place in flat storage, or none. */
    method ResizeDimensions(newDims: seq<nat>, preserve: bool)
      requires Valid() && |newDims| == |dims|
      modifies this
      ensures Valid() && dims == newDims && fresh(data) && data[..] == Resized(old(data[..]), Total(newDims), preserve)
    {
      var was := data[..];
      data := new int[Total(newDims)](k => if preserve && 0 <= k < |was| then was[k] else 0);
      dims := newDims;
    }

    method CopyFrom(other: NDArray)
      requires other.Valid()
      modifies this
      ensures Valid() && dims == other.dims && fresh(data) && data[..] == old(other.data[..])
    {
      var was := other.data[..];
      dims := other.dims;
      data := new int[|was|](k requires 0 <= k < |was| => was[k]);
    }
  }

  /** Different arrays have different storage. */
  predicate Separate(a: NDArray, b: NDArray)
    reads a, b
  {
    a != b ==> a.data != b.data
  }

  // ---------------------------------------------------------------- subset

  function Max(a: int, b: int): int { if a > b then a else b }
  function Min(a: int, b: int): int { if a < b then a else b }

  /** The start and length of a subset along a dimension, coerced to what is there. */
  function Coerced(idx: Option<int>, len: Option<int>, size: nat): (nat, nat) {
    var start := Max(if idx.Some? then idx.value else 0, 0);
    var room := Max(size - start, 0);
    (start, Min(Max(if len.Some? then len.value else room, 0), room))
  }

  /** Arguments are listed slowest dimension first. */
  ghost predicate IsPlan(args: seq<(Option<int>, Option<int>)>, dims: seq<nat>, starts: seq<nat>, lens: seq<nat>) {
    && |args| == |dims| == |starts| == |lens|
    && forall m :: 0 <= m < |dims| ==> PlansAt(args, dims, starts, lens, m)
  }

  ghost predicate PlansAt(args: seq<(Option<int>, Option<int>)>, dims: seq<nat>, starts: seq<nat>, lens: seq<nat>, m: nat)
    requires m < |args| == |dims| == |starts| == |lens|
  {
    var arg := args[|dims| - 1 - m];
    (starts[m], lens[m]) == Coerced(arg.0, arg.1, dims[m])
  }

  /** r is the box of a with the given start and lengths. */
  ghost predicate IsSubset(a: seq<int>, dims: seq<nat>, starts: seq<nat>, lens: seq<nat>, r: seq<int>) {
    && |dims| == |starts| == |lens| && |r| == Total(lens)
    && forall i :: InBox(i, lens) ==>
         InBox(Moved(i, starts), dims) && RowShift.Get(r, Address(i, lens)) == RowShift.Get(a, Address(Moved(i, starts), dims))
  }

  /** The index i, counted from starts. */
  function Moved(i: seq<nat>, starts: seq<nat>): (j: seq<nat>)
    requires |i| == |starts|
    ensures |j| == |i| && forall k :: 0 <= k < |i| ==> j[k] == starts[k] + i[k]
  {
    seq(|i|, k requires 0 <= k < |i| => starts[k] + i[k])
  }

  lemma {:induction false} MovedAddr(i: seq<nat>, starts: seq<nat>, slabs: seq<nat>, n: nat)
    requires |i| == |starts| && n <= |i| && n <= |slabs|
    ensures Addr(Moved(i, starts), slabs, n) == Addr(starts, slabs, n) + Addr(i, slabs, n)
    decreases n
  {
    if n > 0 {
      MovedAddr(i, starts, slabs, n - 1);
      Distribute(starts[n - 1], i[n - 1], slabs[n - 1]);
    }
  }

  lemma SubsetFits(dims: seq<nat>, starts: seq<nat>, lens: seq<nat>)
    requires |dims| == |starts| == |lens| && |dims| >= 2
    requires forall k :: 0 <= k < |dims| ==> starts[k] + lens[k] <= dims[k] && lens[k] > 0
    ensures BoxCopy.Injective(Slabs(lens), lens, |lens|) && BoxCopy.TailsFree(Slabs(lens), lens, |lens|)
    ensures BoxCopy.TailsFit(0, Slabs(lens), lens, |lens|, Total(lens))
    ensures forall i :: BoxCopy.Inside(i, lens, |lens|) ==> Addr(i, Slabs(lens), |lens|) < Total(lens)
    ensures forall i :: BoxCopy.Inside(i, lens, |lens|) ==> Address(starts, dims) + Addr(i, Slabs(dims), |lens|) < Total(dims)
  {
    forall k | 0 <= k < |lens| ensures Slabs(lens)[k] >= 1 && (k + 1 < |lens| ==> lens[k] * Slabs(lens)[k] <= Slabs(lens)[k + 1]) {
      ProdPositive(lens, 0, k);
      MulSwapTwo(lens[k], Prod(lens, 0, k));
    }
    BoxCopy.NestedApart(Slabs(lens), lens, |lens|);
    assert Slabs(lens)[0] == 1 && Slabs(lens)[1] == Prod(lens, 0, 0) * lens[0];
    forall i | BoxCopy.Inside(i, lens, |lens|)
      ensures Addr(i, Slabs(lens), |lens|) < Total(lens) && Address(starts, dims) + Addr(i, Slabs(dims), |lens|) < Total(dims)
    {
      AddressBound(i, lens);
      MovedAddr(i, starts, Slabs(dims), |dims|);
      AddressBound(Moved(i, starts), dims);
    }
  }

  lemma SubsetDone(a: seq<int>, dims: seq<nat>, starts: seq<nat>, lens: seq<nat>, was: seq<int>, r: seq<int>)
    requires |dims| == |starts| == |lens| >= 2 && |a| == Total(dims) && |was| == Total(lens)
    requires forall k :: 0 <= k < |dims| ==> starts[k] + lens[k] <= dims[k]
    requires BoxCopy.Copied(was, r, 0, Slabs(lens), a, Address(starts, dims), Slabs(dims), lens, |lens|, true)
    ensures IsSubset(a, dims, starts, lens, r)
  {
    forall i | InBox(i, lens)
      ensures InBox(Moved(i, starts), dims) && RowShift.Get(r, Address(i, lens)) == RowShift.Get(a, Address(Moved(i, starts), dims))
    {
      assert BoxCopy.Inside(i, lens, |lens|);
      BoxCopy.CopiedAt(was, r, 0, Slabs(lens), a, Address(starts, dims), Slabs(dims), lens, |lens|, true, i);
      MovedAddr(i, starts, Slabs(dims), |dims|);
      AddressBound(i, lens);
    }
  }

  /** An index of the fastest dimensions, all of them or some, that lies in the array. */
  predicate Indexes(index: seq<int>, dims: seq<nat>) {
    |index| <= |dims| && forall k :: 0 <= k < |index| ==> 0 <= index[k] < dims[k]
  }

  ghost function Naturals(index: seq<int>): (i: seq<nat>)
    requires forall k :: 0 <= k < |index| ==> 0 <= index[k]
    ensures i == index
  {
    seq(|index|, k requires 0 <= k < |index| => index[k])
  }

  /** BeginAtND: the address of an index, or nothing when it is outside the array. */
  method BeginAtND(a: NDArray, index: seq<int>) returns (p: Option<nat>)
    requires a.Valid()
    ensures p == if Indexes(index, a.dims) then Some(Addr(Naturals(index), Slabs(a.dims), |index|)) else None
  {
    if |index| > |a.dims| {
      return None;
    }
    hide Addr, Slabs;
    var elt: nat, k := 0, 0;
    ghost var seen: seq<nat> := [];
    NoAddress(Slabs(a.dims));
    while k < |index|
      invariant 0 <= k <= |index| && |seen| == k && seen == index[..k] && Indexes(seen, a.dims)
      invariant k <= |Slabs(a.dims)| == |a.dims| && elt == Addr(seen, Slabs(a.dims), k)
      decreases |index| - k
    {
      var dim := index[k];
      if dim < 0 || dim >= a.dims[k] {
        return None;
      }
      NextAddress(seen, dim, Slabs(a.dims));
      elt := elt + dim * Slabs(a.dims)[k];
      seen := seen + [dim];
      k := k + 1;
    }
    assert seen == index && Naturals(index) == seen;
    return Some(elt);
  }

  lemma NoAddress(slabs: seq<nat>)
    ensures Addr([], slabs, 0) == 0
  {}

  lemma NextAddress(i: seq<nat>, x: nat, slabs: seq<nat>)
    requires |i| < |slabs|
    ensures Addr(i + [x], slabs, |i| + 1) == Addr(i, slabs, |i|) + x * slabs[|i|]
  {
    AddrSame(i + [x], i, slabs, slabs, |i|);
  }

  /** The loop of ArraySubsetND over its arguments.  In place, an offset is an error. */
  method CoerceArgs(args: seq<(Option<int>, Option<int>)>, dims: seq<nat>, inPlace: bool)
    returns (ok: bool, starts: seq<nat>, lens: seq<nat>, empty: bool)
    requires |args| == |dims|
    ensures !inPlace ==> ok
    ensures ok ==> IsPlan(args, dims, starts, lens) && (empty <==> exists k :: 0 <= k < |dims| && lens[k] == 0)
    ensures ok && inPlace ==> forall k :: 0 <= k < |dims| ==> starts[k] == 0
  {
    var rank := |dims|;
    starts, lens, empty := seq(rank, _ => 0), seq(rank, _ => 0), false;
    var i := 0;
    while i < rank
      invariant 0 <= i <= rank && |starts| == |lens| == rank
      invariant forall m :: rank - i <= m < rank ==> PlansAt(args, dims, starts, lens, m)
      invariant empty ==> exists k :: rank - i <= k < rank && lens[k] == 0
      invariant !empty ==> forall k :: rank - i <= k < rank ==> lens[k] != 0
      invariant inPlace ==> forall k :: rank - i <= k < rank ==> starts[k] == 0
    {
      var m := rank - 1 - i;
      var idx := Max(if args[i].0.Some? then args[i].0.value else 0, 0);
      if inPlace && idx != 0 {
        ok := false;
        return;
      }
      var maxLen := Max(dims[m] - idx, 0);
      var len := Min(Max(if args[i].1.Some? then args[i].1.value else maxLen, 0), maxLen);
      ghost var starts0, lens0 := starts, lens;
      lens := lens[m := len];
      starts := starts[m := idx];
      if len == 0 {
        empty := true;
      }
      assert lens[m] == len && PlansAt(args, dims, starts, lens, m);
      forall k | m < k < rank ensures lens[k] == lens0[k] {}
      forall k | m < k < rank ensures PlansAt(args, dims, starts, lens, k) {
        assert PlansAt(args, dims, starts0, lens0, k);
      }
      i := i + 1;
    }
    ok := true;
  }

  /** Along a dimension the subset has the positions asked for that exist: from the index on, which is not below 0
      and 0 when missing, as many as the length says, or all when it is missing. */
  lemma CoercedExactly(idx: Option<int>, len: Option<int>, size: nat, m: int)
    ensures var (start, n) := Coerced(idx, len, size);
            && start == (if idx.Some? && idx.value > 0 then idx.value else 0)
            && (start <= m < start + n <==> start <= m < size && (len.Some? ==> m < start + len.value))
  {}

  lemma PlanFits(args: seq<(Option<int>, Option<int>)>, dims: seq<nat>, starts: seq<nat>, lens: seq<nat>)
    requires IsPlan(args, dims, starts, lens) && !exists k :: 0 <= k < |dims| && lens[k] == 0
    ensures (forall k :: 0 <= k < |dims| ==> starts[k] + lens[k] <= dims[k] && lens[k] > 0) && InBox(starts, dims)
  {
    forall k | 0 <= k < |dims| ensures starts[k] + lens[k] <= dims[k] && lens[k] > 0 {
      assert PlansAt(args, dims, starts, lens, k);
    }
  }

  /** ArraySubsetND.  In place it can only shorten from the start of every dimension, and then keeps no
      elements: the result is all initial values. */
  method ArraySubsetND(arrayOut: NDArray, arrayIn: NDArray, args: seq<(Option<int>, Option<int>)>)
    returns (ok: bool, starts: seq<nat>, lens: seq<nat>)
    requires arrayOut.Valid() && arrayIn.Valid() && Separate(arrayOut, arrayIn) && |arrayOut.dims| == |arrayIn.dims|
    modifies arrayOut, arrayOut.data
    ensures arrayOut.Valid() && (!ok ==> arrayOut.dims == old(arrayOut.dims) && arrayOut.data[..] == old(arrayOut.data[..]))
    ensures |args| != |old(arrayIn.dims)| ==> !ok
    ensures arrayOut != arrayIn && |args| == |old(arrayIn.dims)| ==> ok
    ensures ok ==> IsPlan(args, old(arrayIn.dims), starts, lens) && arrayOut.dims == lens
    ensures ok && arrayOut != arrayIn ==> IsSubset(old(arrayIn.data[..]), old(arrayIn.dims), starts, lens, arrayOut.data[..])
    ensures ok && arrayOut == arrayIn ==> (forall k :: 0 <= k < |starts| ==> starts[k] == 0) && arrayOut.data[..] == Resized([], Total(lens), false)
  {
    hide IsSubset, BoxCopy.Copied, Prod, Slabs, Address, BoxCopy.Injective, BoxCopy.TailsFree, BoxCopy.TailsFit, BoxCopy.Clears, IsPlan;
    if |args| != |arrayOut.dims| {
      return false, [], [];
    }
    var empty;
    ok, starts, lens, empty := CoerceArgs(args, arrayIn.dims, arrayOut == arrayIn);
    if !ok {
      return;
    }
    PlanLengths(args, arrayIn.dims, starts, lens);
    ghost var a, dims := arrayIn.data[..], arrayIn.dims;
    arrayOut.ResizeDimensions(lens, false);
    ghost var was := arrayOut.data[..];
    if !empty && arrayOut != arrayIn {
      PlanFits(args, dims, starts, lens);
      SubsetFits(dims, starts, lens);
      PackedClears(dims, lens);
      var p := BeginAtND(arrayIn, starts);
      assert Naturals(starts) == starts;
      AddressIs(starts, dims);
      BoxCopy.ArrayToArrayCopyHelper(arrayOut.data, 0, Slabs(lens), arrayIn.data, p.value, lens, Slabs(arrayIn.dims), |lens|, false);
      SubsetDone(a, dims, starts, lens, was, arrayOut.data[..]);
    } else if empty {
      NoSubset(a, dims, starts, lens, was);
    } else {
      ResizedNothing(was, a, Total(lens));
    }
  }

  /** Arrays are packed, so a copy to one that is not initialised initialises the rests of its rows. */
  lemma PackedClears(dims: seq<nat>, lens: seq<nat>)
    requires |dims| >= 1 && |lens| >= 1
    ensures |Slabs(dims)| >= 1 && |Slabs(lens)| >= 1 && BoxCopy.Clears(false, Slabs(lens), Slabs(dims))
    ensures !BoxCopy.Clears(true, Slabs(lens), Slabs(dims))
  {}

  lemma PlanLengths(args: seq<(Option<int>, Option<int>)>, dims: seq<nat>, starts: seq<nat>, lens: seq<nat>)
    requires IsPlan(args, dims, starts, lens)
    ensures |args| == |dims| == |starts| == |lens| == |Slabs(lens)| == |Slabs(dims)|
  {}

  lemma ResizedNothing(r: seq<int>, s: seq<int>, n: nat)
    requires r == Resized(s, n, false)
    ensures r == Resized([], n, false)
  {}

  /** In place the result, all initial values, is the subset whatever the array holds exactly when the subset has
      no elements. */
  lemma InPlaceSubsetExactly(args: seq<(Option<int>, Option<int>)>, dims: seq<nat>, starts: seq<nat>, lens: seq<nat>, r: seq<int>)
    requires IsPlan(args, dims, starts, lens) && (forall k :: 0 <= k < |starts| ==> starts[k] == 0) && r == Resized([], Total(lens), false)
    ensures (forall a :: |a| == Total(dims) ==> IsSubset(a, dims, starts, lens, r)) <==> Total(lens) == 0
  {
    ProdPositive(lens, 0, |lens|);
    if Total(lens) == 0 {
      forall a: seq<int> | |a| == Total(dims) ensures IsSubset(a, dims, starts, lens, r) {
        NoSubset(a, dims, starts, lens, r);
      }
    } else {
      PlanFits(args, dims, starts, lens);
      var a := seq(Total(dims), _ => 1);
      var i: seq<nat> := seq(|dims|, _ => 0);
      assert InBox(i, lens) && Moved(i, starts) == i;
      AddressBound(i, dims);
      AddressBound(i, lens);
      assert !IsSubset(a, dims, starts, lens, r);
    }
  }

  /** The first of two rows, taken in place. */
  lemma InPlaceSubsetLoses()
    ensures !IsSubset([5, 6, 7, 8], [2, 2], [0, 0], [2, 1], [0, 0])
  {
    var i: seq<nat> := [0, 0];
    assert Total([2, 1]) == 2 && InBox(i, [2, 1]) && Moved(i, [0, 0]) == i;
    assert Addr(i, Slabs([2, 1]), 1) == 0 && Addr(i, Slabs([2, 2]), 1) == 0;
    assert Address(i, [2, 1]) == 0 && Address(i, [2, 2]) == 0;
  }

  lemma NoSubset(a: seq<int>, dims: seq<nat>, starts: seq<nat>, lens: seq<nat>, r: seq<int>)
    requires |dims| == |starts| == |lens| && |r| == Total(lens) && exists k :: 0 <= k < |lens| && lens[k] == 0
    ensures IsSubset(a, dims, starts, lens, r)
  {}

  // ---------------------------------------------------------------- sizes, slowest dimension first

  function Reversed(dims: seq<nat>): (sizes: seq<nat>)
    ensures |sizes| == |dims| && forall k :: 0 <= k < |dims| ==> sizes[k] == dims[|dims| - 1 - k]
  {
    seq(|dims|, k requires 0 <= k < |dims| => dims[|dims| - 1 - k])
  }

  lemma {:induction false} DigitsProd(dims: seq<nat>, m: nat)
    requires m <= |dims|
    ensures RowShift.Digits(Reversed(dims), m) == Prod(dims, |dims| - m, |dims|)
  {
    if m > 0 {
      DigitsProd(dims, m - 1);
      ProdFront(dims, |dims| - m, |dims|);
      MulSwapTwo(dims[|dims| - m], Prod(dims, |dims| - m + 1, |dims|));
    }
  }

  /** The product of the sizes from lo on. */
  method ProductFrom(sizes: seq<nat>, lo: nat, ghost dims: seq<nat>) returns (p: nat)
    requires sizes == Reversed(dims) && lo <= |dims|
    ensures p == Prod(dims, 0, |dims| - lo)
  {
    p := 1;
    var k := lo;
    while k < |sizes|
      invariant lo <= k <= |sizes| && p == Prod(dims, |dims| - k, |dims| - lo)
    {
      ProdFront(dims, |dims| - k - 1, |dims| - lo);
      MulSwapTwo(sizes[k], p);
      p := p * sizes[k];
      k := k + 1;
    }
  }

  // ---------------------------------------------------------------- insertion

  lemma InsertionFits(dims: seq<nat>, subDims: seq<nat>, d: nat, start: nat)
    requires d < |dims| == |subDims| && start <= dims[d] && Total(dims) > 0
    ensures var dims', box := dims[d := dims[d] + subDims[d]], Clipped(subDims, dims, d);
            && BoxCopy.Injective(Slabs(dims'), box, |dims|)
            && (forall i :: BoxCopy.Inside(i, box, |dims|) ==>
                  BoxCopy.Pos(0, start, Slabs(dims')[d]) + Addr(i, Slabs(dims'), |dims|) < Total(dims'))
            && (forall i :: BoxCopy.Inside(i, box, |dims|) ==> Addr(i, Slabs(subDims), |dims|) < Total(subDims))
  {
    var dims', box := dims[d := dims[d] + subDims[d]], Clipped(subDims, dims, d);
    ProdPositive(dims, 0, |dims|);
    forall k | 0 <= k < |dims| ensures Slabs(dims')[k] >= 1 && (k + 1 < |dims| ==> box[k] * Slabs(dims')[k] <= Slabs(dims')[k + 1]) {
      ProdPositive(dims', 0, k);
      MulSwapTwo(dims'[k], Prod(dims', 0, k));
      MulMono(box[k], dims'[k], Prod(dims', 0, k));
    }
    BoxCopy.NestedApart(Slabs(dims'), box, |dims|);
    forall i | BoxCopy.Inside(i, box, |dims|)
      ensures BoxCopy.Pos(0, start, Slabs(dims')[d]) + Addr(i, Slabs(dims'), |dims|) < Total(dims')
      ensures Addr(i, Slabs(subDims), |dims|) < Total(subDims)
    {
      BoxIndex(i, dims, subDims, d, start);
      AddressBound(Shifted(i, d, i[d] + start), dims');
      AddressBound(i, subDims);
    }
  }

  lemma GapFits(dims: seq<nat>, d: nat, start: nat, gap: nat)
    requires d < |dims| && start <= dims[d] && Total(dims) > 0
    ensures var dims', inner := dims[d := dims[d] + gap], Prod(dims, 0, d);
            && Prod(dims', 0, d) == inner
            && Total(dims') == Row(Prod(dims', d + 1, |dims|), start * inner + gap * inner + (dims[d] - start) * inner, 0)
            && (forall k :: 0 <= k < |dims| ==> dims'[k] > 0)
  {
    var dims' := dims[d := dims[d] + gap];
    ProdSame(dims, dims', 0, d);
    TotalSplit(dims', d);
    RowLengths(start, dims[d], gap, Prod(dims, 0, d));
    ProdPositive(dims, 0, |dims|);
  }

  /** Opens the gap in the resized buffer and copies what fits of the inserted array into it. */
  method InsertPart(data: array<int>, ghost dims: seq<nat>, newDims: seq<nat>, sub: array<int>, subDims: seq<nat>, d: nat, start: nat, box: seq<nat>,
                    ghost a: seq<int>)
    requires data != sub && 2 <= |dims| == |subDims| && d < |dims| && start <= dims[d] && subDims[d] > 0
    requires newDims == dims[d := dims[d] + subDims[d]] && box == Clipped(subDims, dims, d)
    requires data.Length == Total(newDims) && sub.Length == Total(subDims) && |a| == Total(dims) && 0 < |a| <= data.Length && data[..|a|] == a
    modifies data
    ensures IsInsertion(a, dims, sub[..], subDims, d, start, data[..])
  {
    hide IsInsertion, BoxCopy.Copied, Prod, Slabs, BoxCopy.Injective, BoxCopy.Clears, BoxCopy.Pos, Clipped, Total, Row, Reversed, RowShift.Digits, RowShift.Opened;
    ghost var was := data[..];
    GapFits(dims, d, start, subDims[d]);
    OuterSizes(newDims, d);
    var sizes, dimension := Reversed(newDims), |newDims| - 1 - d;
    var inner := ProductFrom(sizes, dimension + 1, newDims);
    var after := if newDims[d] > start + subDims[d] then (newDims[d] - (start + subDims[d])) * inner else 0;
    AfterIs(newDims[d], start + subDims[d], inner);
    var destinationPtr := RowShift.OpenGap(data, sizes, dimension, start * inner, subDims[d] * inner, after, Prod(newDims, d + 1, |newDims|));
    ghost var gapped := data[..];
    Gapped(was, gapped, start, subDims[d], dims[d] - start, Prod(dims, 0, d));
    InsertionFits(dims, subDims, d, start);
    PosIs(start, Slabs(newDims)[d]);
    PackedClears(subDims, newDims);
    BoxCopy.ArrayToArrayCopyHelper(data, start * Slabs(newDims)[d], Slabs(newDims), sub, 0, box, Slabs(subDims), |newDims|, true);
    assert was[..|a|] == a;
    InsertionDone(a, was, gapped, data[..], dims, sub[..], subDims, d, start);
    assert destinationPtr == 0;  // the source stops with an error here otherwise
  }

  lemma PosIs(x: nat, slab: nat)
    ensures BoxCopy.Pos(0, x, slab) == x * slab
  {}

  lemma AfterIs(len: nat, end: nat, inner: nat)
    requires end <= len
    ensures (if len > end then (len - end) * inner else 0) == (len - end) * inner
  {}

  lemma OuterSizes(dims: seq<nat>, d: nat)
    requires d < |dims| && forall k :: 0 <= k < |dims| ==> dims[k] > 0
    ensures |Reversed(dims)| == |dims| == |Slabs(dims)| && RowShift.Digits(Reversed(dims), |dims| - 1 - d) == Prod(dims, d + 1, |dims|)
    ensures forall k :: 0 <= k < |dims| ==> Reversed(dims)[k] > 0
  {
    DigitsProd(dims, |dims| - 1 - d);
  }

  lemma Gapped(was: seq<int>, gapped: seq<int>, start: nat, gap: nat, rest: nat, inner: nat)
    requires forall q :: 0 <= q < |gapped| ==> gapped[q] == RowShift.Opened(was, q, start * inner, gap * inner, rest * inner)
    ensures forall q :: 0 <= q < |gapped| ==> gapped[q] == OpenedBy(was, q, start, gap, rest, inner)
  {}

  /** Where and along which dimension to insert, when the arguments make sense. */
  function InsertPlan(dims: seq<nat>, subDims: seq<nat>, idx: Option<int>, rankIdx: Option<int>): (plan: Option<(nat, nat)>)
    requires |subDims| == |dims|
    ensures plan.Some? ==> plan.value.0 < |dims| && plan.value.1 <= dims[plan.value.0] && subDims[plan.value.0] > 0
  {
    var k := if rankIdx.Some? then rankIdx.value else 0;
    if !(0 <= k < |dims|) then None
    else
      var d := |dims| - 1 - k;
      var start := if idx.Some? then idx.value else dims[d];
      if subDims[d] == 0 || start < 0 || start > dims[d] then None else Some((d, start))
  }

  /** Without an index the subarray goes to the end of the dimension; without a dimension that is the slowest one. */
  lemma InsertsAtEnd(dims: seq<nat>, subDims: seq<nat>)
    requires |dims| == |subDims| >= 1 && subDims[|dims| - 1] > 0
    ensures var plan := InsertPlan(dims, subDims, None, None);
            plan.Some? && plan.value.0 == |dims| - 1 && plan.value.1 == dims[|dims| - 1]
  {}

  /** An insertion is planned exactly when the dimension exists, there is something to insert, and the index lies
      in the dimension or just behind it. */
  lemma PlansExactly(dims: seq<nat>, subDims: seq<nat>, idx: int, rankIdx: int, d: nat, start: nat)
    requires |dims| == |subDims|
    ensures InsertPlan(dims, subDims, Some(idx), Some(rankIdx)) == Some((d, start))
            <==> rankIdx >= 0 && d + rankIdx + 1 == |dims| && start == idx <= dims[d] && subDims[d] > 0
  {}

  /** ArrayInsertSubsetND: arguments that make no sense leave the array as it was.  An array without elements
      gets its new size, but not the inserted elements. */
  method ArrayInsertSubsetND(arrayOut: NDArray, arrayIn: NDArray, idx: Option<int>, rankIdx: Option<int>, subArray: NDArray) returns (ok: bool)
    requires arrayOut.Valid() && arrayIn.Valid() && subArray.Valid() && Separate(arrayOut, arrayIn) && Separate(arrayOut, subArray)
    requires |arrayOut.dims| == |arrayIn.dims| == |subArray.dims|
    requires idx.None? && rankIdx.Some? ==> 0 <= rankIdx.value < |arrayIn.dims|
    modifies arrayOut
    ensures arrayOut.Valid() && ok == (arrayOut != subArray)
    ensures !ok ==> arrayOut.dims == old(arrayOut.dims) && arrayOut.data == old(arrayOut.data)
    ensures var a, dims, subDims := old(arrayIn.data[..]), old(arrayIn.dims), old(subArray.dims);
            var plan := InsertPlan(dims, subDims, idx, rankIdx);
            ok ==>
              if plan.None? then arrayOut.dims == dims && arrayOut.data[..] == a
              else
                var (d, start) := plan.value;
                && arrayOut.dims == dims[d := dims[d] + subDims[d]]
                && if Total(dims) > 0 then IsInsertion(a, dims, old(subArray.data[..]), subDims, d, start, arrayOut.data[..])
                   else arrayOut.data[..] == Resized([], Total(arrayOut.dims), true)
  {
    hide IsInsertion, Total;
    var k := if rankIdx.Some? then rankIdx.value else 0;
    var startIndex := if idx.Some? then idx.value else arrayIn.dims[|arrayIn.dims| - 1 - k];
    if arrayOut == subArray {
      return false;
    }
    ghost var a, dims := arrayIn.data[..], arrayIn.dims;
    if arrayOut != arrayIn {
      arrayOut.CopyFrom(arrayIn);
    }
    ok := true;
    var rank := |arrayOut.dims|;
    if k < 0 || k >= rank {
      return;
    }
    var d := rank - 1 - k;
    var insertedPortionLength := subArray.dims[d];
    if insertedPortionLength <= 0 || startIndex < 0 {
      return;
    }
    var box := Clipped(subArray.dims, arrayOut.dims, d);
    var totalNumberOfElements := ProductFrom(Reversed(arrayOut.dims), 0, arrayOut.dims);
    TotalIs(arrayOut.dims);
    if startIndex > arrayOut.dims[d] {
      return;
    }
    var newLengths := arrayOut.dims[d := arrayOut.dims[d] + insertedPortionLength];
    arrayOut.ResizeDimensions(newLengths, true);
    ghost var was := arrayOut.data[..];
    ResizedKeeps(was, a, dims, d, insertedPortionLength);
    if totalNumberOfElements > 0 {
      InsertPart(arrayOut.data, dims, newLengths, subArray.data, subArray.dims, d, startIndex, box, a);
    }
  }

  lemma TotalIs(dims: seq<nat>)
    ensures Total(dims) == Prod(dims, 0, |dims|)
  {}

  /** Lengthening a dimension keeps the elements at the front of storage. */
  lemma ResizedKeeps(was: seq<int>, a: seq<int>, dims: seq<nat>, d: nat, gap: nat)
    requires d < |dims| && |a| == Total(dims) && was == Resized(a, Total(dims[d := dims[d] + gap]), true)
    ensures |a| <= |was| && was[..|a|] == a
    ensures |a| == 0 ==> was == Resized([], Total(dims[d := dims[d] + gap]), true)
  {
    var dims' := dims[d := dims[d] + gap];
    TotalSplit(dims, d);
    TotalSplit(dims', d);
    ProdSame(dims, dims', 0, d);
    ProdSame(dims, dims', d + 1, |dims|);
    MulMono(dims[d], dims'[d], Prod(dims, 0, d));
    MulMono(dims[d] * Prod(dims, 0, d), dims'[d] * Prod(dims, 0, d), Prod(dims, d + 1, |dims|));
    MulSwapTwo(Prod(dims, d + 1, |dims|), dims[d] * Prod(dims, 0, d));
    MulSwapTwo(Prod(dims, d + 1, |dims|), dims'[d] * Prod(dims, 0, d));
  }

  // ---------------------------------------------------------------- deletion

  /** m is one of the n slices from lo on. */
  predicate Among(m: int, lo: int, n: int) { lo <= m < lo + n }

  /** Of the n slices from first on, those that exist; none when the dimension does not. */
  ghost predicate Requested(dims: seq<nat>, length: Option<int>, offset: Option<int>, dim: Option<int>, d: nat, start: nat, gap: nat) {
    && d < |dims| && start + gap <= dims[d]
    && var k, n := if dim.Some? then dim.value else 0, if length.Some? then length.value else 1;
       if !(0 <= k < |dims|) then d == |dims| - 1 && gap == 0
       else
         && d == |dims| - 1 - k
         && var first := if offset.Some? then offset.value else dims[d] - n;
            forall m :: Among(m, start, gap) <==> Among(m, first, n) && Among(m, 0, dims[d])
  }

  /** The slices asked for. */
  function Slices(rank: nat, length: Option<int>, dim: Option<int>): int {
    if dim.Some? && !(0 <= dim.value < rank) then 0 else if length.Some? then length.value else 1
  }

  /** A request that the code can serve; it can be told before the call. */
  predicate Servable(rank: nat, length: Option<int>, offset: Option<int>, dim: Option<int>) {
    Slices(rank, length, dim) >= 0 && (offset.None? || offset.value + Slices(rank, length, dim) >= 0)
  }

  /** The length, of n slices asked for, that the deleted array gets along a dimension of the given length. */
  function PortionLength(len: nat, n: int, offset: Option<int>): int {
    var first := Min(if offset.Some? then offset.value else len - n, len);
    Min(n, Min(first + n, len) - Max(first, 0))
  }

  /** It is a length exactly when the request does not end before the array starts. */
  lemma PortionExactly(len: nat, n: int, offset: Option<int>)
    ensures PortionLength(len, n, offset) >= 0 <==> n >= 0 && (offset.None? || offset.value + n >= 0)
  {}

  /** Two of three slices, five before the start: the deleted array is to have a length of -3. */
  lemma PortionBelowZero()
    ensures PortionLength(3, 2, Some(-5)) == -3 && !Servable(2, Some(2), Some(-5), Some(0))
  {}

  /** The slices to delete: those of the requested range that exist.  Without a length one slice is deleted,
      without an offset the last ones, without a dimension the slowest one.  portion is the length that the
      deleted array is given; only afterwards a negative one counts as none. */
  method CoerceSlices(dims: seq<nat>, length: Option<int>, offset: Option<int>, dim: Option<int>)
    returns (d: nat, start: nat, gap: nat, portion: int)
    requires |dims| >= 1
    ensures d < |dims| && start + gap <= dims[d] && Requested(dims, length, offset, dim, d, start, gap)
    ensures portion == PortionLength(dims[d], Slices(|dims|, length, dim), offset) && gap == Max(portion, 0)
    ensures portion >= 0 <==> Servable(|dims|, length, offset, dim)
  {
    hide Requested;
    portion := if length.Some? then length.value else 1;
    var dimension := if dim.Some? then dim.value else 0;
    if dimension < 0 || dimension >= |dims| {
      dimension := 0;
      portion := 0;
    }
    d := |dims| - 1 - dimension;
    var len := dims[d];
    var first := if offset.Some? then offset.value else len - portion;
    if first > len {
      first := len;
    }
    var startIndex := if first > 0 then first else 0;
    var endIndex := if first + portion > len then len else first + portion;
    if endIndex - startIndex < portion {
      portion := endIndex - startIndex;
    }
    PortionExactly(len, Slices(|dims|, length, dim), offset);
    start, gap := startIndex, if portion > 0 then portion else 0;
    if portion <= 0 || startIndex < 0 || startIndex > len {
      start := 0;
      gap := 0;
    }
    PortionRequested(dims, length, offset, dim, d, start, gap);
  }

  lemma PortionRequested(dims: seq<nat>, length: Option<int>, offset: Option<int>, dim: Option<int>, d: nat, start: nat, gap: nat)
    requires d < |dims| && d == |dims| - 1 - (if dim.Some? && 0 <= dim.value < |dims| then dim.value else 0)
    requires var n := Slices(|dims|, length, dim);
             && gap == Max(PortionLength(dims[d], n, offset), 0)
             && start == if gap == 0 then 0 else Max(if offset.Some? then offset.value else dims[d] - n, 0)
    ensures Requested(dims, length, offset, dim, d, start, gap)
  {
    var k, n := if dim.Some? then dim.value else 0, if length.Some? then length.value else 1;
    if 0 <= k < |dims| {
      var from := if offset.Some? then offset.value else dims[d] - n;
      forall m ensures Among(m, start, gap) <==> Among(m, from, n) && Among(m, 0, dims[d]) {}
    }
  }

  /** Without arguments the last slice of the slowest dimension is deleted, if there is one. */
  lemma DeletesLast(dims: seq<nat>, d: nat, start: nat, gap: nat)
    requires |dims| >= 1 && Requested(dims, None, None, None, d, start, gap)
    ensures d == |dims| - 1 && gap == Min(1, dims[d]) && (gap == 1 ==> start == dims[d] - 1)
  {
    var len: int := dims[d];
    assert Among(len - 1, start, gap) <==> Among(len - 1, len - 1, 1) && Among(len - 1, 0, len);
    assert gap >= 1 ==> Among(start, start, gap) && Among(start + gap - 1, start, gap);
  }

  lemma DeletionFits(dims: seq<nat>, d: nat, start: nat, gap: nat)
    requires d < |dims| && start + gap <= dims[d]
    ensures var rest, part, inner, outer := dims[d := dims[d] - gap], dims[d := gap], Prod(dims, 0, d), Prod(dims, d + 1, |dims|);
            && Total(dims) == Row(outer, start * inner + gap * inner + (dims[d] - gap - start) * inner, 0)
            && Total(rest) == Row(outer, start * inner + (dims[d] - gap - start) * inner, 0) <= Total(dims)
            && Total(part) == Row(outer, gap * inner, 0)
  {
    hide Prod, Row, Total;
    var rest, part, inner := dims[d := dims[d] - gap], dims[d := gap], Prod(dims, 0, d);
    TotalRow(dims, dims, d);
    TotalRow(rest, dims, d);
    TotalRow(part, dims, d);
    RowLengths(start, dims[d] - gap, gap, inner);
    MulMono(dims[d] - gap, dims[d], inner);
    RowShift.RowOrder(Prod(dims, d + 1, |dims|), (dims[d] - gap) * inner, dims[d] * inner);
  }

  lemma TotalRow(dims: seq<nat>, like: seq<nat>, d: nat)
    requires d < |dims| == |like| && forall k :: 0 <= k < |dims| && k != d ==> dims[k] == like[k]
    ensures Total(dims) == Row(Prod(like, d + 1, |like|), dims[d] * Prod(like, 0, d), 0)
  {
    TotalSplit(dims, d);
    ProdSame(dims, like, 0, d);
    ProdSame(dims, like, d + 1, |dims|);
  }

  /** Splits storage; the output may be the input, and may be longer than needed. */
  method DeletePart(input: array<int>, output: array<int>, deleted: array<int>, dims: seq<nat>, d: nat, start: nat, gap: nat)
    requires d < |dims| && start + gap <= dims[d] && input.Length == Total(dims) > 0 && deleted != input && deleted != output
    requires Total(dims[d := dims[d] - gap]) <= output.Length && deleted.Length == Total(dims[d := gap])
    modifies output, deleted
    ensures Total(dims[d := dims[d] - gap]) <= output.Length
    ensures IsDeletion(old(input[..]), dims, d, start, gap, output[..Total(dims[d := dims[d] - gap])], deleted[..])
  {
    hide IsDeletion, Prod, Slabs, Total, Row, Reversed, RowShift.Digits, RowShift.Closed, RowShift.Taken;
    ghost var a := input[..];
    DeletionFits(dims, d, start, gap);
    PositiveDims(dims);
    OuterSizes(dims, d);
    var sizes, dimension := Reversed(dims), |dims| - 1 - d;
    var inner := ProductFrom(sizes, dimension + 1, dims);
    RowShift.CloseGap(input, output, deleted, sizes, dimension, start * inner, gap * inner, (dims[d] - (start + gap)) * inner,
                      Prod(dims, d + 1, |dims|));
    ghost var n := Total(dims[d := dims[d] - gap]);
    ClosedOff(a, output[..n], deleted[..], start, gap, dims[d] - gap - start, inner);
    DeletionDone(a, dims, d, start, gap, output[..n], deleted[..]);
  }

  lemma PositiveDims(dims: seq<nat>)
    requires Total(dims) > 0
    ensures forall k :: 0 <= k < |dims| ==> dims[k] > 0
  {
    ProdPositive(dims, 0, |dims|);
  }

  lemma ClosedOff(a: seq<int>, r: seq<int>, c: seq<int>, start: nat, gap: nat, rest: nat, inner: nat)
    requires forall q :: 0 <= q < |r| ==> r[q] == RowShift.Closed(a, q, start * inner, gap * inner, rest * inner)
    requires forall q :: 0 <= q < |c| ==> c[q] == RowShift.Taken(a, q, start * inner, gap * inner, rest * inner)
    ensures forall q :: 0 <= q < |r| ==> r[q] == ClosedBy(a, q, start, gap, rest, inner)
    ensures forall q :: 0 <= q < |c| ==> c[q] == TakenBy(a, q, start, gap, rest, inner)
  {}

  /** ArrayDeleteND.  A request for slices before the start of the array, or for a negative number of them, would
      give the deleted array a negative dimension; ok is then false, and what comes of it is left open.  When
      the input has no elements a separate output is left as it was. */
  method ArrayDeleteND(arrayOut: NDArray, arrayIn: NDArray, deletedArray: NDArray, length: Option<int>, offset: Option<int>, dim: Option<int>)
    returns (ok: bool, d: nat, start: nat, gap: nat)
    requires arrayOut.Valid() && arrayIn.Valid() && deletedArray.Valid() && Separate(arrayOut, arrayIn)
    requires |arrayOut.dims| == |arrayIn.dims| == |deletedArray.dims| && deletedArray != arrayIn && deletedArray != arrayOut
    modifies arrayOut, arrayOut.data, deletedArray
    ensures ok ==> arrayOut.Valid() && deletedArray.Valid()
    ensures ok <==> Servable(|old(arrayIn.dims)|, length, offset, dim)
    ensures Requested(old(arrayIn.dims), length, offset, dim, d, start, gap)
    ensures d < |old(arrayIn.dims)| && gap <= old(arrayIn.dims)[d]
    ensures ok ==> (fresh(arrayOut.data) || arrayOut.data == old(arrayOut.data)) && fresh(deletedArray.data) && arrayOut.data != deletedArray.data
    ensures ok ==> deletedArray.dims == old(arrayIn.dims)[d := gap]
    ensures var a, dims := old(arrayIn.data[..]), old(arrayIn.dims);
            ok ==>
              if Total(dims) > 0 then
                && arrayOut.dims == dims[d := dims[d] - gap]
                && IsDeletion(a, dims, d, start, gap, arrayOut.data[..], deletedArray.data[..])
              else
                && deletedArray.data[..] == Resized([], Total(deletedArray.dims), false)
                && if arrayOut == arrayIn then arrayOut.dims == dims[d := dims[d] - gap]
                   else arrayOut.dims == old(arrayOut.dims) && arrayOut.data[..] == old(arrayOut.data[..])
  {
    hide IsDeletion, Total, Requested, Row, Servable;
    var portion;
    d, start, gap, portion := CoerceSlices(arrayIn.dims, length, offset, dim);
    ok := portion >= 0;
    if !ok {
      return;
    }
    ghost var a, dims := arrayIn.data[..], arrayIn.dims;
    var newLengths := arrayIn.dims[d := arrayIn.dims[d] - gap];
    var totalNumberOfElements := ProductFrom(Reversed(arrayIn.dims), 0, arrayIn.dims);
    TotalIs(arrayIn.dims);
    ghost var c := deletedArray.data[..];
    deletedArray.ResizeDimensions(arrayIn.dims[d := portion], false);
    ResizedNothing(deletedArray.data[..], c, Total(deletedArray.dims));
    DeletionFits(dims, d, start, gap);
    if totalNumberOfElements > 0 {
      if arrayIn != arrayOut {
        arrayOut.ResizeDimensions(newLengths, false);
      }
      DeletePart(arrayIn.data, arrayOut.data, deletedArray.data, arrayIn.dims, d, start, gap);
      if arrayIn != arrayOut {
        assert arrayOut.data[..Total(newLengths)] == arrayOut.data[..];
      }
    }
    if arrayIn == arrayOut {
      ghost var r := arrayOut.data[..];
      arrayOut.ResizeDimensions(newLengths, true);
      ResizedShort(arrayOut.data[..], r, Total(newLengths));
    }
  }

  /** When the input has no elements, what a separate output holds is right exactly when it was empty before. */
  lemma DeletionFromNothing(dims: seq<nat>, d: nat, start: nat, gap: nat, r: seq<int>, c: seq<int>)
    requires d < |dims| && start + gap <= dims[d] && Total(dims) == 0 && c == Resized([], Total(dims[d := gap]), false)
    ensures IsDeletion([], dims, d, start, gap, r, c) <==> r == []
  {
    var rest, part := dims[d := dims[d] - gap], dims[d := gap];
    ProdPositive(dims, 0, |dims|);
    var k :| 0 <= k < |dims| && dims[k] == 0;
    assert rest[k] == 0 && part[k] == 0;
    ProdPositive(rest, 0, |dims|);
    ProdPositive(part, 0, |dims|);
    assert forall i :: !InBox(i, rest) && !InBox(i, part);
  }

  /** One of no rows is deleted, and the output keeps the element it had. */
  lemma DeletionLeavesOutput()
    ensures !IsDeletion([], [0, 3], 1, 0, 1, [7], [])
  {
    var dims: seq<nat> := [0, 3];
    assert dims[1 := 2] == [0, 2] && Prod([0, 2], 0, 1) == 0 && Total([0, 2]) == 0;
  }

  lemma ResizedShort(s: seq<int>, r: seq<int>, n: nat)
    requires n <= |r| && s == Resized(r, n, true)
    ensures s == r[..n]
  {}

  // ---------------------------------------------------------------- deletion undone

  /** Deletes slices, in place or to a separate output, and inserts them where they were.  This gives the array
      back unless all slices have been deleted: then the insertion, into an array without elements, loses them. */
  method DeleteAndInsertBack(arrayOut: NDArray, arrayIn: NDArray, deletedArray: NDArray, length: Option<int>, offset: Option<int>, dim: Option<int>)
    returns (ok: bool, d: nat, start: nat, gap: nat)
    requires arrayOut.Valid() && arrayIn.Valid() && deletedArray.Valid() && Separate(arrayOut, arrayIn)
    requires |arrayOut.dims| == |arrayIn.dims| == |deletedArray.dims| && deletedArray != arrayIn && deletedArray != arrayOut
    requires Total(arrayIn.dims) > 0
    modifies arrayOut, arrayOut.data, deletedArray
    ensures ok <==> Servable(|old(arrayIn.dims)|, length, offset, dim)
    ensures Requested(old(arrayIn.dims), length, offset, dim, d, start, gap) && d < |old(arrayIn.dims)|
    ensures var a, dims := old(arrayIn.data[..]), old(arrayIn.dims);
            ok ==>
              && arrayOut.Valid() && arrayOut.dims == dims
              && arrayOut.data[..] == if gap < dims[d] then a else Resized([], Total(dims), true)
  {
    hide IsDeletion, IsInsertion, Total, Requested, Servable;
    ghost var a, dims := arrayIn.data[..], arrayIn.dims;
    ok, d, start, gap := ArrayDeleteND(arrayOut, arrayIn, deletedArray, length, offset, dim);
    if ok {
      ghost var r, c, rest := arrayOut.data[..], deletedArray.data[..], arrayOut.dims;
      RestEmpty(dims, d, gap);
      DeletionBounds(a, dims, d, start, gap, r, c);
      var _ := ArrayInsertSubsetND(arrayOut, arrayOut, Some(start), Some(|arrayOut.dims| - 1 - d), deletedArray);
      assert rest[d := rest[d] + gap] == dims;
      if gap == 0 {
        DeleteNothing(a, dims, d, start, r, c);
      } else if gap < dims[d] {
        DeleteThenInsert(a, dims, d, start, gap, r, c, arrayOut.data[..]);
      }
    }
  }

  lemma RestEmpty(dims: seq<nat>, d: nat, gap: nat)
    requires d < |dims| && gap <= dims[d] && Total(dims) > 0
    ensures Total(dims[d := dims[d] - gap]) > 0 <==> gap < dims[d]
  {
    var rest := dims[d := dims[d] - gap];
    ProdPositive(dims, 0, |dims|);
    ProdPositive(rest, 0, |dims|);
    assert rest[d] == dims[d] - gap && forall k :: 0 <= k < |dims| && k != d ==> rest[k] == dims[k];
  }

  lemma DeleteNothing(a: seq<int>, dims: seq<nat>, d: nat, start: nat, r: seq<int>, c: seq<int>)
    requires |a| == Total(dims) && IsDeletion(a, dims, d, start, 0, r, c)
    ensures r == a
  {
    assert dims[d := dims[d] - 0] == dims;
    forall q | 0 <= q < |a| ensures r[q] == a[q] {
      var i := IndexAt(q, dims, |dims|);
      EveryAddress(q, dims);
      assert Shifted(i, d, i[d] + 0) == i;
    }
  }
}
