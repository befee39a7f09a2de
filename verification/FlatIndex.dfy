/** Elements of an N-dimensional array in flat storage.  Dimension lengths are listed fastest first; the slab
    length of a dimension is how far apart its neighbours lie, in elements. */
module FlatIndex {

  /** dims[lo] * ... * dims[hi - 1] */
  function Prod(dims: seq<nat>, lo: nat, hi: nat): nat
    requires hi <= |dims|
    decreases hi
  {
    if lo >= hi then 1 else Prod(dims, lo, hi - 1) * dims[hi - 1]
  }

  function Total(dims: seq<nat>): nat { Prod(dims, 0, |dims|) }

  /** The slab lengths of a packed array. */
  function Slabs(dims: seq<nat>): (slabs: seq<nat>)
    ensures |slabs| == |dims| && forall k :: 0 <= k < |dims| ==> slabs[k] == Prod(dims, 0, k)
  {
    seq(|dims|, k requires 0 <= k < |dims| => Prod(dims, 0, k))
  }

  /** The dot product of the first n indices and slab lengths. */
  function Addr(i: seq<nat>, slabs: seq<nat>, n: nat): nat
    requires n <= |i| && n <= |slabs|
  {
    if n == 0 then 0 else Addr(i, slabs, n - 1) + i[n - 1] * slabs[n - 1]
  }

  function Address(i: seq<nat>, dims: seq<nat>): nat
    requires |i| == |dims|
  {
    Addr(i, Slabs(dims), |dims|)
  }

  predicate InBox(i: seq<nat>, dims: seq<nat>) {
    |i| == |dims| && forall k :: 0 <= k < |dims| ==> i[k] < dims[k]
  }

  // ---------------------------------------------------------------- products

  lemma {:induction false} ProdFront(dims: seq<nat>, lo: nat, hi: nat)
    requires lo < hi <= |dims|
    ensures Prod(dims, lo, hi) == dims[lo] * Prod(dims, lo + 1, hi)
    decreases hi
  {
    if lo + 1 < hi {
      ProdFront(dims, lo, hi - 1);
      MulSwap(dims[lo], Prod(dims, lo + 1, hi - 1), dims[hi - 1]);
    }
  }

  lemma MulSwap(a: int, b: int, c: int)
    ensures (a * b) * c == a * (b * c)
  {}

  lemma {:induction false} ProdSplit(dims: seq<nat>, lo: nat, mid: nat, hi: nat)
    requires lo <= mid <= hi <= |dims|
    ensures Prod(dims, lo, hi) == Prod(dims, lo, mid) * Prod(dims, mid, hi)
    decreases hi
  {
    if mid < hi {
      ProdSplit(dims, lo, mid, hi - 1);
      MulSwap(Prod(dims, lo, mid), Prod(dims, mid, hi - 1), dims[hi - 1]);
    }
  }

  /** A product does not depend on the other dimensions. */
  lemma {:induction false} ProdSame(dims: seq<nat>, dims': seq<nat>, lo: nat, hi: nat)
    requires hi <= |dims| && hi <= |dims'| && forall k :: lo <= k < hi ==> dims[k] == dims'[k]
    ensures Prod(dims, lo, hi) == Prod(dims', lo, hi)
    decreases hi
  {
    if lo < hi {
      ProdSame(dims, dims', lo, hi - 1);
    }
  }

  lemma {:induction false} ProdPositive(dims: seq<nat>, lo: nat, hi: nat)
    requires hi <= |dims|
    ensures Prod(dims, lo, hi) > 0 <==> forall k :: lo <= k < hi ==> dims[k] > 0
    decreases hi
  {
    if lo < hi {
      ProdPositive(dims, lo, hi - 1);
      MulPositive(Prod(dims, lo, hi - 1), dims[hi - 1]);
    }
  }

  lemma MulPositive(a: nat, b: nat)
    ensures a * b > 0 <==> a > 0 && b > 0
  {}

  // ---------------------------------------------------------------- addresses

  lemma {:induction false} AddrSame(i: seq<nat>, i': seq<nat>, slabs: seq<nat>, slabs': seq<nat>, n: nat)
    requires n <= |i| && n <= |i'| && n <= |slabs| && n <= |slabs'|
    requires forall k :: 0 <= k < n ==> i[k] == i'[k] && slabs[k] == slabs'[k]
    ensures Addr(i, slabs, n) == Addr(i', slabs', n)
    decreases n
  {
    if n > 0 {
      AddrSame(i, i', slabs, slabs', n - 1);
    }
  }

  lemma MulMono(a: nat, b: nat, c: nat)
    requires a <= b
    ensures a * c <= b * c
  {}

  lemma Distribute(a: int, b: int, c: int)
    ensures (a + b) * c == a * c + b * c
  {}

  lemma {:induction false} AddrBound(i: seq<nat>, dims: seq<nat>, n: nat)
    requires n <= |i| && n <= |dims| && forall k :: 0 <= k < n ==> i[k] < dims[k]
    ensures Addr(i, Slabs(dims), n) < Prod(dims, 0, n)
    decreases n
  {
    if n > 0 {
      AddrBound(i, dims, n - 1);
      var slab := Prod(dims, 0, n - 1);
      Distribute(i[n - 1], 1, slab);
      MulMono(i[n - 1] + 1, dims[n - 1], slab);
      MulSwapTwo(dims[n - 1], slab);
    }
  }

  lemma MulSwapTwo(a: int, b: int)
    ensures a * b == b * a
  {}

  /** The number of the outer position of an index: what its dimensions above d come to. */
  function Outer(i: seq<nat>, dims: seq<nat>, d: nat, n: nat): nat
    requires n <= |i| && n <= |dims|
    decreases n
  {
    if n <= d + 1 then 0 else Outer(i, dims, d, n - 1) + i[n - 1] * Prod(dims, d + 1, n - 1)
  }

  lemma {:induction false} OuterBound(i: seq<nat>, dims: seq<nat>, d: nat, n: nat)
    requires d < n <= |i| && n <= |dims| && forall k :: 0 <= k < n ==> i[k] < dims[k]
    ensures Outer(i, dims, d, n) < Prod(dims, d + 1, n)
    decreases n
  {
    if n > d + 1 {
      OuterBound(i, dims, d, n - 1);
      var slab := Prod(dims, d + 1, n - 1);
      Distribute(i[n - 1], 1, slab);
      MulMono(i[n - 1] + 1, dims[n - 1], slab);
      MulSwapTwo(dims[n - 1], slab);
    }
  }

  lemma {:induction false} OuterSame(i: seq<nat>, i': seq<nat>, dims: seq<nat>, dims': seq<nat>, d: nat, n: nat)
    requires n <= |i| && n <= |dims| && n <= |i'| && n <= |dims'|
    requires forall k :: d < k < n ==> i[k] == i'[k] && dims[k] == dims'[k]
    ensures Outer(i, dims, d, n) == Outer(i', dims', d, n)
    decreases n
  {
    if n > d + 1 {
      OuterSame(i, i', dims, dims', d, n - 1);
      ProdSame(dims, dims', d + 1, n - 1);
    }
  }

  /** An address splits at dimension d into an outer position, the index there and an inner position. */
  lemma {:induction false} AddrSplit(i: seq<nat>, dims: seq<nat>, d: nat, n: nat)
    requires d < n <= |i| && n <= |dims|
    ensures Addr(i, Slabs(dims), n) == Addr(i, Slabs(dims), d) + (i[d] + Outer(i, dims, d, n) * dims[d]) * Prod(dims, 0, d)
    decreases n
  {
    var inner := Prod(dims, 0, d);
    if n > d + 1 {
      AddrSplit(i, dims, d, n - 1);
      var slab, x, o := Prod(dims, d + 1, n - 1), i[n - 1], Outer(i, dims, d, n - 1);
      ProdSplit(dims, 0, d + 1, n - 1);
      assert Prod(dims, 0, n - 1) == (inner * dims[d]) * slab;
      SplitStep(inner, dims[d], slab, x, i[d], o);
    }
  }

  lemma SplitStep(inner: nat, len: nat, slab: nat, x: nat, id: nat, o: nat)
    ensures (id + o * len) * inner + x * ((inner * len) * slab) == (id + (o + x * slab) * len) * inner
  {}

  function Quotient(q: nat, w: nat): nat { if w == 0 then 0 else q / w }

  function Remainder(q: nat, w: nat): nat { if w == 0 then q else q % w }

  lemma Euclid(q: nat, w: nat)
    requires w > 0
    ensures q == Quotient(q, w) * w + Remainder(q, w) && Remainder(q, w) < w
  {}

  lemma DivisionUnique(o: nat, m: nat, o': nat, m': nat, w: nat)
    requires m < w && m' < w && o * w + m == o' * w + m'
    ensures o == o' && m == m'
  {
    if o < o' {
      Apart(o, m, o', w);
    } else if o' < o {
      Apart(o', m', o, w);
    }
  }

  /** Rows do not overlap. */
  lemma Apart(o: nat, m: nat, o': nat, w: nat)
    requires m < w && o < o'
    ensures o * w + m < o' * w
  {
    MulMono(o + 1, o', w);
    Distribute(o, 1, w);
  }

  lemma DivMod(o: nat, w: nat, m: nat)
    requires m < w
    ensures Quotient(o * w + m, w) == o && Remainder(o * w + m, w) == m
  {
    hide Quotient, Remainder;
    Euclid(o * w + m, w);
    DivisionUnique(o, m, Quotient(o * w + m, w), Remainder(o * w + m, w), w);
  }

  /** Position m of row o, when rows are w long. */
  function Row(o: nat, w: nat, m: nat): nat { o * w + m }

  /** Where an index lies with respect to dimension d: the outer position, and the position in the row. */
  function OuterPlace(i: seq<nat>, dims: seq<nat>, d: nat): nat
    requires |i| == |dims|
  {
    Outer(i, dims, d, |dims|)
  }

  function InnerPlace(i: seq<nat>, dims: seq<nat>, d: nat): nat
    requires d < |i| == |dims|
  {
    Row(i[d], Prod(dims, 0, d), Addr(i, Slabs(dims), d))
  }

  lemma Place(i: seq<nat>, dims: seq<nat>, d: nat)
    requires InBox(i, dims) && d < |dims|
    ensures OuterPlace(i, dims, d) < Prod(dims, d + 1, |dims|)
    ensures InnerPlace(i, dims, d) < dims[d] * Prod(dims, 0, d)
    ensures Address(i, dims) == Row(OuterPlace(i, dims, d), dims[d] * Prod(dims, 0, d), InnerPlace(i, dims, d))
  {
    AddrBound(i, dims, d);
    OuterBound(i, dims, d, |dims|);
    AddrSplit(i, dims, d, |dims|);
    hide Prod, Addr, Outer, Slabs, Row;
    PlaceSum(i[d], Outer(i, dims, d, |dims|), dims[d], Prod(dims, 0, d), Addr(i, Slabs(dims), d));
  }

  lemma PlaceSum(x: nat, o: nat, len: nat, inner: nat, r: nat)
    requires r < inner && x < len
    ensures r + (x + o * len) * inner == Row(o, len * inner, Row(x, inner, r)) && Row(x, inner, r) < len * inner
  {
    Distribute(x, o * len, inner);
    MulSwap(o, len, inner);
    Within(x, len, inner, r);
  }

  lemma Within(x: nat, len: nat, inner: nat, r: nat)
    requires r < inner
    ensures x < len <==> x * inner + r < len * inner
  {
    if x < len {
      MulMono(x + 1, len, inner);
      Distribute(x, 1, inner);
    } else {
      MulMono(len, x, inner);
    }
  }

  lemma TotalSplit(dims: seq<nat>, d: nat)
    requires d < |dims|
    ensures Total(dims) == Prod(dims, d + 1, |dims|) * (dims[d] * Prod(dims, 0, d))
  {
    ProdSplit(dims, 0, d + 1, |dims|);
    MulSwapTwo(Prod(dims, 0, d), dims[d]);
    MulSwapTwo(Prod(dims, 0, d + 1), Prod(dims, d + 1, |dims|));
  }

  /** The index of the element at address q. */
  function IndexAt(q: nat, dims: seq<nat>, n: nat): (i: seq<nat>)
    requires n <= |dims|
    ensures |i| == n
  {
    if n == 0 then []
    else
      IndexAt(Remainder(q, Prod(dims, 0, n - 1)), dims, n - 1) + [Quotient(q, Prod(dims, 0, n - 1))]
  }

  lemma QuotientBound(q: nat, w: nat, len: nat)
    requires q < w * len
    ensures Quotient(q, w) < len
  {}

  /** Every address below the total is the address of an index. */
  lemma {:induction false} IndexAtAddress(q: nat, dims: seq<nat>, n: nat)
    requires n <= |dims| && q < Prod(dims, 0, n)
    ensures (forall k :: 0 <= k < n ==> IndexAt(q, dims, n)[k] < dims[k]) && Addr(IndexAt(q, dims, n), Slabs(dims), n) == q
    decreases n
  {
    if n > 0 {
      var slab := Prod(dims, 0, n - 1);
      QuotientBound(q, slab, dims[n - 1]);
      MulPositive(slab, dims[n - 1]);
      Euclid(q, slab);
      hide Quotient, Remainder;
      var rest := IndexAt(Remainder(q, slab), dims, n - 1);
      IndexAtAddress(Remainder(q, slab), dims, n - 1);
      AddrSame(IndexAt(q, dims, n), rest, Slabs(dims), Slabs(dims), n - 1);
    }
  }

  lemma EveryAddress(q: nat, dims: seq<nat>)
    requires q < Total(dims)
    ensures InBox(IndexAt(q, dims, |dims|), dims) && Address(IndexAt(q, dims, |dims|), dims) == q
  {
    IndexAtAddress(q, dims, |dims|);
  }

  lemma AddressBound(i: seq<nat>, dims: seq<nat>)
    requires InBox(i, dims)
    ensures Address(i, dims) < Total(dims)
  {
    AddrBound(i, dims, |dims|);
  }
}
