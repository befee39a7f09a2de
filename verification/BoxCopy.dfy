/** The strided copy of source/core/GenericFunctions.cpp, which recurses on the rank.  Sizes are in elements,
    and 0 stands for an element's initial value. */
module BoxCopy {
  import opened FlatIndex

  /** i is an index of the first n dimensions. */
  predicate Inside(i: seq<nat>, dims: seq<nat>, n: nat)
    requires n <= |dims|
  {
    |i| == n && forall k :: 0 <= k < n ==> i[k] < dims[k]
  }

  /** No two indices of the box have the same address. */
  ghost predicate Injective(slabs: seq<nat>, dims: seq<nat>, n: nat)
    requires n <= |dims| && n <= |slabs|
  {
    forall i, j :: Inside(i, dims, n) && Inside(j, dims, n) && Addr(i, slabs, n) == Addr(j, slabs, n) ==> i == j
  }

  /** j is the index at which a row starts. */
  predicate StartsRow(j: seq<nat>, dims: seq<nat>, n: nat)
    requires 1 <= n <= |dims|
  {
    |j| == n && j[0] == 0 && forall k :: 1 <= k < n ==> j[k] < dims[k]
  }

  /** q lies in the rest of a row, behind the elements of the box. */
  ghost predicate InTail(q: int, d: nat, slabs: seq<nat>, dims: seq<nat>, n: nat)
    requires 1 <= n <= |dims| && n <= |slabs|
  {
    |slabs| >= 2 && exists j :: StartsRow(j, dims, n) && d + Addr(j, slabs, n) + dims[0] <= q < d + Addr(j, slabs, n) + slabs[1]
  }

  /** No element of the box lies in the rest of a row. */
  ghost predicate TailsFree(slabs: seq<nat>, dims: seq<nat>, n: nat)
    requires 1 <= n <= |dims| && n <= |slabs|
  {
    forall i :: Inside(i, dims, n) ==> !InTail(Addr(i, slabs, n), 0, slabs, dims, n)
  }

  /** The rests of the rows that are initialised fit into the storage. */
  ghost predicate TailsFit(d: nat, slabs: seq<nat>, dims: seq<nat>, n: nat, length: nat)
    requires 1 <= n <= |dims| && n <= |slabs|
  {
    |slabs| >= 2 && dims[0] < slabs[1] ==> forall j :: StartsRow(j, dims, n) ==> d + Addr(j, slabs, n) + slabs[1] <= length
  }

  /** The rests of rows are initialised when the destination was not and rows are packed on both sides. */
  predicate Clears(preinit: bool, slabs: seq<nat>, srcSlabs: seq<nat>)
    requires |slabs| >= 1 && |srcSlabs| >= 1
  {
    !preinit && slabs[0] == 1 && srcSlabs[0] == 1
  }

  /** Position t of a stride from base. */
  function Pos(base: nat, t: nat, slab: nat): nat { base + t * slab }

  ghost predicate Hit(q: int, d: nat, slabs: seq<nat>, dims: seq<nat>, n: nat)
    requires n <= |dims| && n <= |slabs|
  {
    exists i :: Inside(i, dims, n) && q == d + Addr(i, slabs, n)
  }

  /** The box is there. */
  ghost predicate Delivered(after: seq<int>, d: nat, slabs: seq<nat>, src: seq<int>, s: nat, srcSlabs: seq<nat>, dims: seq<nat>, n: nat)
    requires 1 <= n <= |dims| && n <= |slabs| && n <= |srcSlabs|
  {
    forall i :: Inside(i, dims, n) ==>
      && d + Addr(i, slabs, n) < |after| && s + Addr(i, srcSlabs, n) < |src|
      && after[d + Addr(i, slabs, n)] == src[s + Addr(i, srcSlabs, n)]
  }

  /** Nothing but the box has changed, except that the rests of its rows have been initialised when asked for. */
  ghost predicate Kept(before: seq<int>, after: seq<int>, d: nat, slabs: seq<nat>, dims: seq<nat>, n: nat, clears: bool)
    requires 1 <= n <= |dims| && n <= |slabs|
  {
    && |after| == |before|
    && forall q :: 0 <= q < |before| && !Hit(q, d, slabs, dims, n) ==>
         after[q] == if clears && InTail(q, d, slabs, dims, n) then 0 else before[q]
  }

  ghost predicate Copied(before: seq<int>, after: seq<int>, d: nat, slabs: seq<nat>, src: seq<int>, s: nat, srcSlabs: seq<nat>,
                         dims: seq<nat>, n: nat, clears: bool)
    requires 1 <= n <= |dims| && n <= |slabs| && n <= |srcSlabs|
  {
    Delivered(after, d, slabs, src, s, srcSlabs, dims, n) && Kept(before, after, d, slabs, dims, n, clears)
  }

  /** One more slice along the last dimension. */
  lemma CopiedSlice(b: seq<int>, m: seq<int>, a: seq<int>, d: nat, slabs: seq<nat>, src: seq<int>, s: nat, srcSlabs: seq<nat>,
                    dims: seq<nat>, n: nat, t: nat, clears: bool)
    requires 2 <= n <= |dims| && n <= |slabs| && n <= |srcSlabs| && t < dims[n - 1]
    requires Injective(slabs, dims, n) && (clears ==> TailsFree(slabs, dims, n))
    requires Copied(b, m, d, slabs, src, s, srcSlabs, dims[n - 1 := t], n, clears)
    requires Copied(m, a, Pos(d, t, slabs[n - 1]), slabs, src, Pos(s, t, srcSlabs[n - 1]), srcSlabs, dims, n - 1, clears)
    ensures Copied(b, a, d, slabs, src, s, srcSlabs, dims[n - 1 := t + 1], n, clears)
  {
    hide Copied, Injective, TailsFree, Addr, Pos, Hit, InTail;
    var next := dims[n - 1 := t + 1];
    forall i | Inside(i, next, n)
      ensures d + Addr(i, slabs, n) < |a| && s + Addr(i, srcSlabs, n) < |src| && a[d + Addr(i, slabs, n)] == src[s + Addr(i, srcSlabs, n)]
    {
      IndexIn(i, dims, n, t);
      if i[n - 1] < t {
        OldElement(b, m, a, d, slabs, src, s, srcSlabs, dims, n, t, clears, i);
      } else {
        NewElement(m, a, d, slabs, src, s, srcSlabs, dims, n, t, clears, i);
      }
    }
    forall q | 0 <= q < |b| && !Hit(q, d, slabs, next, n)
      ensures |a| == |b| && a[q] == if clears && InTail(q, d, slabs, next, n) then 0 else b[q]
    {
      Missed(b, m, a, d, slabs, src, s, srcSlabs, dims, n, t, clears, q);
    }
    CopiedLengths(b, m, a, d, slabs, src, s, srcSlabs, dims, n, t, clears);
    assert Copied(b, a, d, slabs, src, s, srcSlabs, next, n, clears) by { CopiedIntro(b, a, d, slabs, src, s, srcSlabs, next, n, clears); }
  }

  lemma CopiedLengths(b: seq<int>, m: seq<int>, a: seq<int>, d: nat, slabs: seq<nat>, src: seq<int>, s: nat, srcSlabs: seq<nat>,
                      dims: seq<nat>, n: nat, t: nat, clears: bool)
    requires 2 <= n <= |dims| && n <= |slabs| && n <= |srcSlabs|
    requires Copied(b, m, d, slabs, src, s, srcSlabs, dims[n - 1 := t], n, clears)
    requires Copied(m, a, Pos(d, t, slabs[n - 1]), slabs, src, Pos(s, t, srcSlabs[n - 1]), srcSlabs, dims, n - 1, clears)
    ensures |a| == |b|
  {}

  lemma CopiedIntro(b: seq<int>, a: seq<int>, d: nat, slabs: seq<nat>, src: seq<int>, s: nat, srcSlabs: seq<nat>, dims: seq<nat>, n: nat, clears: bool)
    requires 1 <= n <= |dims| && n <= |slabs| && n <= |srcSlabs| && |a| == |b|
    requires forall i :: Inside(i, dims, n) ==>
               && d + Addr(i, slabs, n) < |a| && s + Addr(i, srcSlabs, n) < |src|
               && a[d + Addr(i, slabs, n)] == src[s + Addr(i, srcSlabs, n)]
    requires forall q :: 0 <= q < |b| && !Hit(q, d, slabs, dims, n) ==>
               a[q] == if clears && InTail(q, d, slabs, dims, n) then 0 else b[q]
    ensures Copied(b, a, d, slabs, src, s, srcSlabs, dims, n, clears)
  {}

  lemma CopiedAt(b: seq<int>, a: seq<int>, d: nat, slabs: seq<nat>, src: seq<int>, s: nat, srcSlabs: seq<nat>, dims: seq<nat>, n: nat, clears: bool,
                 i: seq<nat>)
    requires 1 <= n <= |dims| && n <= |slabs| && n <= |srcSlabs| && Copied(b, a, d, slabs, src, s, srcSlabs, dims, n, clears)
    requires Inside(i, dims, n)
    ensures d + Addr(i, slabs, n) < |a| && s + Addr(i, srcSlabs, n) < |src|
    ensures a[d + Addr(i, slabs, n)] == src[s + Addr(i, srcSlabs, n)]
  {
    hide Addr, Kept, Inside;
  }

  lemma CopiedElse(b: seq<int>, a: seq<int>, d: nat, slabs: seq<nat>, src: seq<int>, s: nat, srcSlabs: seq<nat>, dims: seq<nat>, n: nat, clears: bool,
                   q: nat)
    requires 1 <= n <= |dims| && n <= |slabs| && n <= |srcSlabs| && Copied(b, a, d, slabs, src, s, srcSlabs, dims, n, clears)
    requires q < |b|
    ensures |a| == |b|
    ensures !Hit(q, d, slabs, dims, n) ==> a[q] == if clears && InTail(q, d, slabs, dims, n) then 0 else b[q]
  {}

  /** Elements of earlier slices stay. */
  lemma OldElement(b: seq<int>, m: seq<int>, a: seq<int>, d: nat, slabs: seq<nat>, src: seq<int>, s: nat, srcSlabs: seq<nat>,
                   dims: seq<nat>, n: nat, t: nat, clears: bool, i: seq<nat>)
    requires 2 <= n <= |dims| && n <= |slabs| && n <= |srcSlabs| && t < dims[n - 1]
    requires Injective(slabs, dims, n) && (clears ==> TailsFree(slabs, dims, n))
    requires Copied(b, m, d, slabs, src, s, srcSlabs, dims[n - 1 := t], n, clears)
    requires Copied(m, a, Pos(d, t, slabs[n - 1]), slabs, src, Pos(s, t, srcSlabs[n - 1]), srcSlabs, dims, n - 1, clears)
    requires Inside(i, dims[n - 1 := t + 1], n) && i[n - 1] < t
    ensures d + Addr(i, slabs, n) < |a| && s + Addr(i, srcSlabs, n) < |src|
    ensures a[d + Addr(i, slabs, n)] == src[s + Addr(i, srcSlabs, n)]
  {
    hide Addr, Injective, TailsFree, Pos, Copied, Inside, Hit, InTail;
    IndexIn(i, dims, n, t);
    CopiedAt(b, m, d, slabs, src, s, srcSlabs, dims[n - 1 := t], n, clears, i);
    var q := d + Addr(i, slabs, n);
    NotInSlice(i, d, slabs, dims, n, t);
    if clears {
      NotInTail(i, d, slabs, dims, n, t);
    }
    CopiedElse(m, a, Pos(d, t, slabs[n - 1]), slabs, src, Pos(s, t, srcSlabs[n - 1]), srcSlabs, dims, n - 1, clears, q);
  }

  /** Elements of other slices are not hit by slice t, since addresses are different. */
  lemma NotInSlice(i: seq<nat>, d: nat, slabs: seq<nat>, dims: seq<nat>, n: nat, t: nat)
    requires 2 <= n <= |dims| && n <= |slabs| && t < dims[n - 1] && Injective(slabs, dims, n)
    requires Inside(i, dims, n) && i[n - 1] != t
    ensures !Hit(d + Addr(i, slabs, n), Pos(d, t, slabs[n - 1]), slabs, dims, n - 1)
  {
    hide Pos, Addr, Hit;
    if Hit(d + Addr(i, slabs, n), Pos(d, t, slabs[n - 1]), slabs, dims, n - 1) {
      var j := SliceIndex(d + Addr(i, slabs, n), d, slabs, dims, n, t);
    }
  }

  /** What hits slice t is an index of the whole box. */
  lemma SliceIndex(q: int, d: nat, slabs: seq<nat>, dims: seq<nat>, n: nat, t: nat) returns (j: seq<nat>)
    requires 2 <= n <= |dims| && n <= |slabs| && t < dims[n - 1] && Hit(q, Pos(d, t, slabs[n - 1]), slabs, dims, n - 1)
    ensures Inside(j, dims, n) && j[n - 1] == t && q == d + Addr(j, slabs, n)
  {
    var i :| Inside(i, dims, n - 1) && q == Pos(d, t, slabs[n - 1]) + Addr(i, slabs, n - 1);
    j := i + [t];
    AddrLast(j, d, slabs, n);
    assert j[..n - 1] == i;
  }

  lemma NotInTail(i: seq<nat>, d: nat, slabs: seq<nat>, dims: seq<nat>, n: nat, t: nat)
    requires 2 <= n <= |dims| && n <= |slabs| && t < dims[n - 1] && TailsFree(slabs, dims, n) && Inside(i, dims, n)
    ensures !InTail(d + Addr(i, slabs, n), Pos(d, t, slabs[n - 1]), slabs, dims, n - 1)
  {
    TailOfSlice(d + Addr(i, slabs, n), d, slabs, dims, n, t);
    TailMoves(Addr(i, slabs, n), d, slabs, dims, n);
  }

  lemma TailMoves(q: int, d: nat, slabs: seq<nat>, dims: seq<nat>, n: nat)
    requires 1 <= n <= |dims| && n <= |slabs|
    ensures InTail(d + q, d, slabs, dims, n) <==> InTail(q, 0, slabs, dims, n)
  {
    hide Addr, StartsRow;
  }

  /** The rest of a row of slice t is one of the whole box. */
  lemma TailOfSlice(q: int, d: nat, slabs: seq<nat>, dims: seq<nat>, n: nat, t: nat)
    requires 2 <= n <= |dims| && n <= |slabs| && t < dims[n - 1]
    ensures InTail(q, Pos(d, t, slabs[n - 1]), slabs, dims, n - 1) ==> InTail(q, d, slabs, dims, n)
  {
    hide Addr, Pos;
    var base := Pos(d, t, slabs[n - 1]);
    if InTail(q, base, slabs, dims, n - 1) {
      var j :| StartsRow(j, dims, n - 1) && base + Addr(j, slabs, n - 1) + dims[0] <= q < base + Addr(j, slabs, n - 1) + slabs[1];
      AddrLast(j + [t], d, slabs, n);
      assert (j + [t])[..n - 1] == j && StartsRow(j + [t], dims, n);
    }
  }

  lemma IndexIn(i: seq<nat>, dims: seq<nat>, n: nat, t: nat)
    requires 1 <= n <= |dims| && t < dims[n - 1] && Inside(i, dims[n - 1 := t + 1], n)
    ensures |i| == n && Inside(i, dims, n) && Inside(i[..n - 1], dims, n - 1)
    ensures if i[n - 1] < t then Inside(i, dims[n - 1 := t], n) else i[n - 1] == t
  {}

  lemma AddrLast(i: seq<nat>, base: nat, slabs: seq<nat>, n: nat)
    requires 1 <= n == |i| && n <= |slabs|
    ensures base + Addr(i, slabs, n) == Pos(base, i[n - 1], slabs[n - 1]) + Addr(i[..n - 1], slabs, n - 1)
  {
    AddrSame(i, i[..n - 1], slabs, slabs, n - 1);
  }

  lemma NewElement(m: seq<int>, a: seq<int>, d: nat, slabs: seq<nat>, src: seq<int>, s: nat, srcSlabs: seq<nat>,
                   dims: seq<nat>, n: nat, t: nat, clears: bool, i: seq<nat>)
    requires 2 <= n <= |dims| && n <= |slabs| && n <= |srcSlabs| && t < dims[n - 1]
    requires Copied(m, a, Pos(d, t, slabs[n - 1]), slabs, src, Pos(s, t, srcSlabs[n - 1]), srcSlabs, dims, n - 1, clears)
    requires Inside(i, dims[n - 1 := t + 1], n) && i[n - 1] >= t
    ensures d + Addr(i, slabs, n) < |a| && s + Addr(i, srcSlabs, n) < |src|
    ensures a[d + Addr(i, slabs, n)] == src[s + Addr(i, srcSlabs, n)]
  {
    hide Addr, Pos, Copied, Inside, Hit, InTail;
    IndexIn(i, dims, n, t);
    AddrLast(i, d, slabs, n);
    AddrLast(i, s, srcSlabs, n);
    CopiedAt(m, a, Pos(d, t, slabs[n - 1]), slabs, src, Pos(s, t, srcSlabs[n - 1]), srcSlabs, dims, n - 1, clears, i[..n - 1]);
  }

  lemma HitBefore(q: int, d: nat, slabs: seq<nat>, dims: seq<nat>, n: nat, t: nat)
    requires 1 <= n <= |dims| && n <= |slabs|
    ensures Hit(q, d, slabs, dims[n - 1 := t], n) ==> Hit(q, d, slabs, dims[n - 1 := t + 1], n)
  {}

  lemma HitInSlice(q: int, d: nat, slabs: seq<nat>, dims: seq<nat>, n: nat, t: nat)
    requires 2 <= n <= |dims| && n <= |slabs| && t < dims[n - 1]
    ensures Hit(q, Pos(d, t, slabs[n - 1]), slabs, dims, n - 1) ==> Hit(q, d, slabs, dims[n - 1 := t + 1], n)
  {
    if Hit(q, Pos(d, t, slabs[n - 1]), slabs, dims, n - 1) {
      var j := SliceIndex(q, d, slabs, dims, n, t);
      assert Inside(j, dims[n - 1 := t + 1], n);
    }
  }

  /** The rests of rows up to slice t are those up to the slice before, and those of slice t. */
  lemma TailSteps(q: int, d: nat, slabs: seq<nat>, dims: seq<nat>, n: nat, t: nat)
    requires 2 <= n <= |dims| && n <= |slabs| && t < dims[n - 1]
    ensures InTail(q, d, slabs, dims[n - 1 := t + 1], n)
            <==> InTail(q, d, slabs, dims[n - 1 := t], n) || InTail(q, Pos(d, t, slabs[n - 1]), slabs, dims, n - 1)
  {
    hide Addr, Pos;
    var base, next := Pos(d, t, slabs[n - 1]), dims[n - 1 := t + 1];
    if InTail(q, d, slabs, next, n) {
      var j :| StartsRow(j, next, n) && d + Addr(j, slabs, n) + dims[0] <= q < d + Addr(j, slabs, n) + slabs[1];
      if j[n - 1] < t {
        assert StartsRow(j, dims[n - 1 := t], n);
      } else {
        AddrLast(j, d, slabs, n);
        assert StartsRow(j[..n - 1], dims, n - 1);
      }
    }
    if InTail(q, d, slabs, dims[n - 1 := t], n) {
      var j :| StartsRow(j, dims[n - 1 := t], n) && d + Addr(j, slabs, n) + dims[0] <= q < d + Addr(j, slabs, n) + slabs[1];
      assert StartsRow(j, next, n);
    }
    TailOfSlice(q, d, slabs, next, n, t);
    SameTail(q, base, slabs, dims, next, n - 1);
  }

  lemma SameTail(q: int, d: nat, slabs: seq<nat>, dims: seq<nat>, dims': seq<nat>, n: nat)
    requires 1 <= n <= |dims| == |dims'| && n <= |slabs| && forall k :: 0 <= k < n ==> dims[k] == dims'[k]
    ensures InTail(q, d, slabs, dims, n) <==> InTail(q, d, slabs, dims', n)
  {
    assert forall j :: StartsRow(j, dims, n) <==> StartsRow(j, dims', n);
  }

  /** What the new slice does not hit stays, but for the rests of its rows. */
  lemma Missed(b: seq<int>, m: seq<int>, a: seq<int>, d: nat, slabs: seq<nat>, src: seq<int>, s: nat, srcSlabs: seq<nat>,
               dims: seq<nat>, n: nat, t: nat, clears: bool, q: nat)
    requires 2 <= n <= |dims| && n <= |slabs| && n <= |srcSlabs| && t < dims[n - 1]
    requires Copied(b, m, d, slabs, src, s, srcSlabs, dims[n - 1 := t], n, clears)
    requires Copied(m, a, Pos(d, t, slabs[n - 1]), slabs, src, Pos(s, t, srcSlabs[n - 1]), srcSlabs, dims, n - 1, clears)
    requires q < |b| && !Hit(q, d, slabs, dims[n - 1 := t + 1], n)
    ensures |a| == |b| && a[q] == if clears && InTail(q, d, slabs, dims[n - 1 := t + 1], n) then 0 else b[q]
  {
    hide Addr, Pos, Hit, Inside, InTail, Copied;
    TailSteps(q, d, slabs, dims, n, t);
    HitBefore(q, d, slabs, dims, n, t);
    HitInSlice(q, d, slabs, dims, n, t);
    CopiedElse(b, m, d, slabs, src, s, srcSlabs, dims[n - 1 := t], n, clears, q);
    CopiedElse(m, a, Pos(d, t, slabs[n - 1]), slabs, src, Pos(s, t, srcSlabs[n - 1]), srcSlabs, dims, n - 1, clears, q);
  }

  lemma CopiedNothing(b: seq<int>, d: nat, slabs: seq<nat>, src: seq<int>, s: nat, srcSlabs: seq<nat>, dims: seq<nat>, n: nat, clears: bool)
    requires 2 <= n <= |dims| && n <= |slabs| && n <= |srcSlabs| && dims[n - 1] == 0
    ensures Copied(b, b, d, slabs, src, s, srcSlabs, dims, n, clears)
  {}

  /** Copying one row. */
  lemma CopiedRow(b: seq<int>, a: seq<int>, d: nat, slabs: seq<nat>, src: seq<int>, s: nat, srcSlabs: seq<nat>, dims: seq<nat>, clears: bool)
    requires |dims| >= 1 && |slabs| >= 2 && |srcSlabs| >= 1 && |a| == |b|
    requires forall x :: 0 <= x < dims[0] ==>
               && Pos(d, x, slabs[0]) < |a| && Pos(s, x, srcSlabs[0]) < |src|
               && a[Pos(d, x, slabs[0])] == src[Pos(s, x, srcSlabs[0])]
    requires forall q :: 0 <= q < |b| && (forall x :: 0 <= x < dims[0] ==> q != Pos(d, x, slabs[0])) ==>
               a[q] == if clears && d + dims[0] <= q < d + slabs[1] then 0 else b[q]
    ensures Copied(b, a, d, slabs, src, s, srcSlabs, dims, 1, clears)
  {
    hide Addr, Pos, Copied, Hit, InTail;
    forall i | Inside(i, dims, 1)
      ensures d + Addr(i, slabs, 1) < |a| && s + Addr(i, srcSlabs, 1) < |src| && a[d + Addr(i, slabs, 1)] == src[s + Addr(i, srcSlabs, 1)]
    {
      RowAddr(i, d, slabs);
      RowAddr(i, s, srcSlabs);
    }
    forall q | 0 <= q < |b| && !Hit(q, d, slabs, dims, 1) ensures a[q] == if clears && InTail(q, d, slabs, dims, 1) then 0 else b[q] {
      RowTail(q, d, slabs, dims);
      forall x | 0 <= x < dims[0] ensures q != Pos(d, x, slabs[0]) {
        HitInRow(x, d, slabs, dims);
      }
    }
    CopiedIntro(b, a, d, slabs, src, s, srcSlabs, dims, 1, clears);
  }

  lemma RowTail(q: int, d: nat, slabs: seq<nat>, dims: seq<nat>)
    requires |dims| >= 1 && |slabs| >= 2
    ensures InTail(q, d, slabs, dims, 1) <==> d + dims[0] <= q < d + slabs[1]
  {
    var j: seq<nat> := [0];
    assert StartsRow(j, dims, 1) && Addr(j, slabs, 1) == 0;
    assert forall j: seq<nat> :: StartsRow(j, dims, 1) ==> Addr(j, slabs, 1) == 0;
  }

  lemma HitInRow(x: nat, d: nat, slabs: seq<nat>, dims: seq<nat>)
    requires |dims| >= 1 && |slabs| >= 2 && x < dims[0]
    ensures Hit(Pos(d, x, slabs[0]), d, slabs, dims, 1)
  {
    RowAddr([x], d, slabs);
    assert Inside([x], dims, 1);
  }

  lemma RowAddr(i: seq<nat>, base: nat, slabs: seq<nat>)
    requires |slabs| >= 1 && |i| >= 1
    ensures base + Addr(i, slabs, 1) == Pos(base, i[0], slabs[0])
  {}

  // ---------------------------------------------------------------- layouts of arrays

  /** Slices fit between neighbours, as in every array: packed, or with room to grow. */
  ghost predicate Nested(slabs: seq<nat>, dims: seq<nat>, n: nat)
    requires n <= |dims| && n <= |slabs|
  {
    && (forall k :: 0 <= k < n ==> slabs[k] >= 1)
    && (forall k :: 0 <= k < n && k + 1 < |slabs| ==> dims[k] * slabs[k] <= slabs[k + 1])
  }

  /** An element lies before the next slice. */
  lemma {:induction false} InReach(i: seq<nat>, slabs: seq<nat>, dims: seq<nat>, n: nat)
    requires 1 <= n <= |dims| && n <= |slabs| && Nested(slabs, dims, n) && Inside(i, dims, n)
    ensures Addr(i, slabs, n) < (i[n - 1] + 1) * slabs[n - 1]
    ensures n < |slabs| ==> (i[n - 1] + 1) * slabs[n - 1] <= slabs[n]
    decreases n
  {
    var x, slab := i[n - 1], slabs[n - 1];
    if n > 1 {
      InReach(i[..n - 1], slabs, dims, n - 1);
      AddrSame(i, i[..n - 1], slabs, slabs, n - 1);
    }
    Distribute(x, 1, slab);
    MulMono(x + 1, dims[n - 1], slab);
  }

  /** Indices are ordered by address as they are by their last dimension. */
  lemma LastDecides(i: seq<nat>, j: seq<nat>, slabs: seq<nat>, dims: seq<nat>, n: nat)
    requires 1 <= n <= |dims| && n <= |slabs| && Nested(slabs, dims, n) && Inside(i, dims, n) && |j| == n && i[n - 1] < j[n - 1]
    ensures Addr(i, slabs, n) < Addr(j, slabs, n)
  {
    InReach(i, slabs, dims, n);
    MulMono(i[n - 1] + 1, j[n - 1], slabs[n - 1]);
  }

  lemma {:induction false} NestedIndex(i: seq<nat>, j: seq<nat>, slabs: seq<nat>, dims: seq<nat>, n: nat)
    requires n <= |dims| && n <= |slabs| && Nested(slabs, dims, n) && Inside(i, dims, n) && Inside(j, dims, n)
    requires Addr(i, slabs, n) == Addr(j, slabs, n)
    ensures i == j
    decreases n
  {
    if n > 0 {
      if i[n - 1] < j[n - 1] {
        LastDecides(i, j, slabs, dims, n);
      } else if j[n - 1] < i[n - 1] {
        LastDecides(j, i, slabs, dims, n);
      } else {
        AddrLast(i, 0, slabs, n);
        AddrLast(j, 0, slabs, n);
        NestedIndex(i[..n - 1], j[..n - 1], slabs, dims, n - 1);
        assert i == i[..n - 1] + [i[n - 1]] && j == j[..n - 1] + [j[n - 1]];
      }
    }
  }

  /** A whole row lies before the next slice. */
  lemma {:induction false} RowReach(j: seq<nat>, slabs: seq<nat>, dims: seq<nat>, n: nat)
    requires 2 <= n <= |dims| && n <= |slabs| && Nested(slabs, dims, n) && StartsRow(j, dims, n)
    ensures Addr(j, slabs, n) + slabs[1] <= (j[n - 1] + 1) * slabs[n - 1]
    decreases n
  {
    var x, slab := j[n - 1], slabs[n - 1];
    AddrLast(j, 0, slabs, n);
    Distribute(x, 1, slab);
    if n > 2 {
      RowReach(j[..n - 1], slabs, dims, n - 1);
      MulMono(j[n - 2] + 1, dims[n - 2], slabs[n - 2]);
    }
  }

  lemma {:induction false} NestedTails(i: seq<nat>, j: seq<nat>, slabs: seq<nat>, dims: seq<nat>, n: nat)
    requires 1 <= n <= |dims| && n <= |slabs| && |slabs| >= 2 && Nested(slabs, dims, n) && slabs[0] == 1
    requires Inside(i, dims, n) && StartsRow(j, dims, n)
    ensures Addr(i, slabs, n) < Addr(j, slabs, n) + dims[0] || Addr(j, slabs, n) + slabs[1] <= Addr(i, slabs, n)
    decreases n
  {
    if n > 1 {
      AddrLast(i, 0, slabs, n);
      AddrLast(j, 0, slabs, n);
      if i[n - 1] < j[n - 1] {
        LastDecides(i, j, slabs, dims, n);
      } else if i[n - 1] > j[n - 1] {
        RowReach(j, slabs, dims, n);
        MulMono(j[n - 1] + 1, i[n - 1], slabs[n - 1]);
      } else {
        NestedTails(i[..n - 1], j[..n - 1], slabs, dims, n - 1);
      }
    }
  }

  /** The layout of an array is fit to be copied into. */
  lemma NestedApart(slabs: seq<nat>, dims: seq<nat>, n: nat)
    requires 1 <= n <= |dims| && n <= |slabs| && Nested(slabs, dims, n)
    ensures Injective(slabs, dims, n)
    ensures slabs[0] == 1 ==> TailsFree(slabs, dims, n)
  {
    hide Nested, Addr;
    forall i, j | Inside(i, dims, n) && Inside(j, dims, n) && Addr(i, slabs, n) == Addr(j, slabs, n) ensures i == j {
      NestedIndex(i, j, slabs, dims, n);
    }
    if slabs[0] == 1 && |slabs| >= 2 {
      forall i, j | Inside(i, dims, n) && StartsRow(j, dims, n)
        ensures Addr(i, slabs, n) < Addr(j, slabs, n) + dims[0] || Addr(j, slabs, n) + slabs[1] <= Addr(i, slabs, n)
      {
        NestedTails(i, j, slabs, dims, n);
      }
    }
  }

  /** Slabs need not grow with the dimension: a transposed layout will do. */
  lemma TransposedApart(rows: nat, columns: nat)
    ensures Injective([columns, 1], [rows, columns], 2)
  {
    var slabs, dims := [columns, 1], [rows, columns];
    forall i, j | Inside(i, dims, 2) && Inside(j, dims, 2) && Addr(i, slabs, 2) == Addr(j, slabs, 2) ensures i == j {
      TwoIndices(i, columns);
      TwoIndices(j, columns);
      DivisionUnique(i[0], i[1], j[0], j[1], columns);
      assert i == [i[0], i[1]] && j == [j[0], j[1]];
    }
  }

  lemma TwoIndices(i: seq<nat>, columns: nat)
    requires |i| == 2
    ensures Addr(i, [columns, 1], 2) == i[0] * columns + i[1]
  {
    AddrLast(i, 0, [columns, 1], 2);
  }

  // ---------------------------------------------------------------- the copy

  /** Copies a box of the first n dimensions from src[s..] to dest[d..]; the top-level call has n >= 2. */
  method ArrayToArrayCopyHelper(dest: array<int>, d: nat, destSlabs: seq<nat>, src: array<int>, s: nat, dims: seq<nat>, srcSlabs: seq<nat>,
                                n: nat, preinit: bool)
    requires dest != src && 1 <= n <= |dims| && n <= |srcSlabs| && n <= |destSlabs| && |destSlabs| >= 2
    requires Injective(destSlabs, dims, n)
    requires Clears(preinit, destSlabs, srcSlabs) ==> TailsFree(destSlabs, dims, n) && TailsFit(d, destSlabs, dims, n, dest.Length)
    requires forall i :: Inside(i, dims, n) ==> d + Addr(i, destSlabs, n) < dest.Length
    requires forall i :: Inside(i, dims, n) ==> s + Addr(i, srcSlabs, n) < src.Length
    modifies dest
    ensures Copied(old(dest[..]), dest[..], d, destSlabs, src[..], s, srcSlabs, dims, n, Clears(preinit, destSlabs, srcSlabs))
    decreases n
  {
    if n == 1 {
      CopyRow(dest, d, destSlabs, src, s, dims, srcSlabs, preinit);
    } else {
      ghost var clears := Clears(preinit, destSlabs, srcSlabs);
      CopiedNothing(dest[..], d, destSlabs, src[..], s, srcSlabs, dims[n - 1 := 0], n, clears);
      assert dims[n - 1 := dims[n - 1]] == dims;
      var t, pd, ps := 0, d, s;
      while t < dims[n - 1]
        invariant 0 <= t <= dims[n - 1] && pd == Pos(d, t, destSlabs[n - 1]) && ps == Pos(s, t, srcSlabs[n - 1])
        invariant Copied(old(dest[..]), dest[..], d, destSlabs, src[..], s, srcSlabs, dims[n - 1 := t], n, clears)
        decreases dims[n - 1] - t
      {
        hide Copied, Injective, TailsFree, TailsFit, Addr, Pos, Inside, Clears;
        var m := n - 1;
        SliceApart(destSlabs, dims, m, n, t);
        if clears {
          SliceFits(d, destSlabs, dims, m, n, t, dest.Length);
        }
        SliceInside(d, destSlabs, dims, m, n, t, dest.Length);
        SliceInside(s, srcSlabs, dims, m, n, t, src.Length);
        ghost var before := dest[..];
        ArrayToArrayCopyHelper(dest, pd, destSlabs, src, ps, dims, srcSlabs, m, preinit);
        CopiedSlice(old(dest[..]), before, dest[..], d, destSlabs, src[..], s, srcSlabs, dims, n, t, clears);
        NextPos(d, t, destSlabs[n - 1]);
        NextPos(s, t, srcSlabs[n - 1]);
        pd := pd + destSlabs[n - 1];
        ps := ps + srcSlabs[n - 1];
        t := t + 1;
      }
    }
  }

  lemma NextPos(base: nat, t: nat, slab: nat)
    ensures Pos(base, t + 1, slab) == Pos(base, t, slab) + slab
  {}

  lemma SliceApart(slabs: seq<nat>, dims: seq<nat>, m: nat, n: nat, t: nat)
    requires 2 <= n <= |dims| && n <= |slabs| && n == m + 1 && t < dims[m] && Injective(slabs, dims, n)
    ensures Injective(slabs, dims, m)
  {
    hide Addr;
    forall i, j | Inside(i, dims, m) && Inside(j, dims, m) && Addr(i, slabs, m) == Addr(j, slabs, m) ensures i == j {
      AddrLast(i + [t], 0, slabs, n);
      AddrLast(j + [t], 0, slabs, n);
      assert (i + [t])[..m] == i && (j + [t])[..m] == j && Inside(i + [t], dims, n) && Inside(j + [t], dims, n);
    }
  }

  lemma SliceFits(d: nat, slabs: seq<nat>, dims: seq<nat>, m: nat, n: nat, t: nat, length: nat)
    requires 2 <= n <= |dims| && n <= |slabs| && n == m + 1 && t < dims[m]
    requires TailsFree(slabs, dims, n) && TailsFit(d, slabs, dims, n, length)
    ensures TailsFree(slabs, dims, m) && TailsFit(Pos(d, t, slabs[m]), slabs, dims, m, length)
  {
    hide Addr, Pos, InTail;
    forall i | Inside(i, dims, m) ensures !InTail(Addr(i, slabs, m), 0, slabs, dims, m) {
      AddrLast(i + [t], 0, slabs, n);
      assert (i + [t])[..m] == i && Inside(i + [t], dims, n);
      NotInTail(i + [t], 0, slabs, dims, n, t);
      TailMoves(Addr(i, slabs, m), Pos(0, t, slabs[m]), slabs, dims, m);
    }
    forall j | StartsRow(j, dims, m) ensures dims[0] < slabs[1] ==> Pos(d, t, slabs[m]) + Addr(j, slabs, m) + slabs[1] <= length {
      AddrLast(j + [t], d, slabs, n);
      assert (j + [t])[..m] == j && StartsRow(j + [t], dims, n);
    }
  }

  lemma SliceInside(base: nat, slabs: seq<nat>, dims: seq<nat>, m: nat, n: nat, t: nat, length: nat)
    requires 2 <= n <= |dims| && n <= |slabs| && n == m + 1 && t < dims[m]
    requires forall i :: Inside(i, dims, n) ==> base + Addr(i, slabs, n) < length
    ensures forall i :: Inside(i, dims, m) ==> Pos(base, t, slabs[m]) + Addr(i, slabs, m) < length
  {
    forall i | Inside(i, dims, m) ensures Pos(base, t, slabs[m]) + Addr(i, slabs, m) < length {
      AddrLast(i + [t], base, slabs, n);
      assert (i + [t])[..m] == i && Inside(i + [t], dims, n);
    }
  }

  /** The case of rank 1: a block when both sides are packed, else element by element. */
  method CopyRow(dest: array<int>, d: nat, destSlabs: seq<nat>, src: array<int>, s: nat, dims: seq<nat>, srcSlabs: seq<nat>, preinit: bool)
    requires dest != src && |dims| >= 1 && |srcSlabs| >= 1 && |destSlabs| >= 2
    requires Injective(destSlabs, dims, 1) && (Clears(preinit, destSlabs, srcSlabs) ==> TailsFit(d, destSlabs, dims, 1, dest.Length))
    requires forall i :: Inside(i, dims, 1) ==> d + Addr(i, destSlabs, 1) < dest.Length
    requires forall i :: Inside(i, dims, 1) ==> s + Addr(i, srcSlabs, 1) < src.Length
    modifies dest
    ensures Copied(old(dest[..]), dest[..], d, destSlabs, src[..], s, srcSlabs, dims, 1, Clears(preinit, destSlabs, srcSlabs))
  {
    RowInside(d, destSlabs, dims, dest.Length);
    RowInside(s, srcSlabs, dims, src.Length);
    if destSlabs[0] == 1 && srcSlabs[0] == 1 {
      if !preinit && dims[0] < destSlabs[1] {
        RowFits(d, destSlabs, dims, dest.Length);
      }
      CopyBlock(dest, d, destSlabs, src, s, srcSlabs, dims, preinit);
    } else {
      if dims[0] >= 2 {
        RowStride(destSlabs, dims);
      }
      hide Addr, Pos, Injective, Copied;
      CopyStrided(dest, d, destSlabs[0], src, s, srcSlabs[0], dims[0]);
      CopiedRow(old(dest[..]), dest[..], d, destSlabs, src[..], s, srcSlabs, dims, false);
    }
  }

  lemma RowStride(slabs: seq<nat>, dims: seq<nat>)
    requires |dims| >= 1 && |slabs| >= 1 && Injective(slabs, dims, 1) && dims[0] >= 2
    ensures slabs[0] >= 1
  {
    var i, j: seq<nat> := [0], [1];
    assert i[0] != j[0] && Inside(i, dims, 1) && Inside(j, dims, 1);
    RowAddr(i, 0, slabs);
    RowAddr(j, 0, slabs);
  }

  lemma RowFits(d: nat, slabs: seq<nat>, dims: seq<nat>, length: nat)
    requires |dims| >= 1 && |slabs| >= 2 && TailsFit(d, slabs, dims, 1, length) && dims[0] < slabs[1]
    ensures d + slabs[1] <= length
  {
    assert StartsRow([0], dims, 1);
  }

  method CopyBlock(dest: array<int>, d: nat, destSlabs: seq<nat>, src: array<int>, s: nat, srcSlabs: seq<nat>, dims: seq<nat>, preinit: bool)
    requires dest != src && |dims| >= 1 && |destSlabs| >= 2 && |srcSlabs| >= 1 && destSlabs[0] == 1 && srcSlabs[0] == 1
    requires !preinit && dims[0] < destSlabs[1] ==> d + destSlabs[1] <= dest.Length
    requires dims[0] == 0 || (d + dims[0] <= dest.Length && s + dims[0] <= src.Length)
    modifies dest
    ensures Copied(old(dest[..]), dest[..], d, destSlabs, src[..], s, srcSlabs, dims, 1, !preinit)
  {
    var len := dims[0];
    forall x | 0 <= x < len {
      dest[d + x] := src[s + x];
    }
    if !preinit && len < destSlabs[1] {
      forall x | len <= x < destSlabs[1] {
        dest[d + x] := 0;
      }
    }
    assert len > 0 ==> dest[d..d + len] == src[s..s + len];
    PackedRow(old(dest[..]), dest[..], d, destSlabs, src[..], s, srcSlabs, dims, !preinit);
  }

  method CopyStrided(dest: array<int>, d: nat, slab: nat, src: array<int>, s: nat, srcSlab: nat, len: nat)
    requires dest != src && (len >= 2 ==> slab >= 1)
    requires forall x :: 0 <= x < len ==> Pos(d, x, slab) < dest.Length && Pos(s, x, srcSlab) < src.Length
    modifies dest
    ensures forall x :: 0 <= x < len ==> dest[Pos(d, x, slab)] == src[Pos(s, x, srcSlab)]
    ensures forall q :: 0 <= q < dest.Length && (forall x :: 0 <= x < len ==> q != Pos(d, x, slab)) ==> dest[q] == old(dest[q])
  {
    var x, pTemp, pSource := 0, d, s;
    while x < len
      invariant 0 <= x <= len && pTemp == Pos(d, x, slab) && pSource == Pos(s, x, srcSlab)
      invariant forall y :: 0 <= y < x ==> dest[Pos(d, y, slab)] == src[Pos(s, y, srcSlab)]
      invariant forall q :: 0 <= q < dest.Length && (forall y :: 0 <= y < x ==> q != Pos(d, y, slab)) ==> dest[q] == old(dest[q])
    {
      hide Pos;
      forall y | 0 <= y < x ensures Pos(d, y, slab) != pTemp {
        Strides(d, y, x, slab);
      }
      dest[pTemp] := src[pSource];
      NextPos(d, x, slab);
      NextPos(s, x, srcSlab);
      pTemp := pTemp + slab;
      pSource := pSource + srcSlab;
      x := x + 1;
    }
  }

  lemma Strides(base: nat, y: nat, x: nat, slab: nat)
    requires y < x && slab >= 1
    ensures Pos(base, y, slab) < Pos(base, x, slab)
  {}

  lemma RowInside(base: nat, slabs: seq<nat>, dims: seq<nat>, length: nat)
    requires |dims| >= 1 && |slabs| >= 1 && forall i :: Inside(i, dims, 1) ==> base + Addr(i, slabs, 1) < length
    ensures forall x :: 0 <= x < dims[0] ==> Pos(base, x, slabs[0]) < length
    ensures slabs[0] == 1 ==> dims[0] == 0 || base + dims[0] <= length
  {
    forall x | 0 <= x < dims[0] ensures Pos(base, x, slabs[0]) < length {
      assert Inside([x], dims, 1);
      RowAddr([x], base, slabs);
    }
    if dims[0] > 0 {
      assert Pos(base, dims[0] - 1, slabs[0]) < length;
    }
  }

  lemma PosOne(base: nat, x: nat)
    ensures Pos(base, x, 1) == base + x
  {}

  lemma PackedRow(b: seq<int>, a: seq<int>, d: nat, slabs: seq<nat>, src: seq<int>, s: nat, srcSlabs: seq<nat>, dims: seq<nat>, clears: bool)
    requires |dims| >= 1 && |slabs| >= 2 && |srcSlabs| >= 1 && |a| == |b| && slabs[0] == 1 && srcSlabs[0] == 1
    requires dims[0] == 0 || (d + dims[0] <= |a| && s + dims[0] <= |src|)
    requires dims[0] > 0 ==> a[d..d + dims[0]] == src[s..s + dims[0]]
    requires forall q :: 0 <= q < |b| && !(d <= q < d + dims[0]) ==>
               a[q] == if clears && d + dims[0] <= q < d + slabs[1] then 0 else b[q]
    ensures Copied(b, a, d, slabs, src, s, srcSlabs, dims, 1, clears)
  {
    hide Pos, Copied;
    forall x | 0 <= x < dims[0]
      ensures Pos(d, x, slabs[0]) < |a| && Pos(s, x, srcSlabs[0]) < |src| && a[Pos(d, x, slabs[0])] == src[Pos(s, x, srcSlabs[0])]
    {
      PosOne(d, x);
      PosOne(s, x);
      assert a[d..d + dims[0]][x] == src[s..s + dims[0]][x];
    }
    forall q | 0 <= q < |b| && (forall x :: 0 <= x < dims[0] ==> q != Pos(d, x, slabs[0]))
      ensures a[q] == if clears && d + dims[0] <= q < d + slabs[1] then 0 else b[q]
    {
      if d <= q {
        PosOne(d, q - d);
      }
    }
    CopiedRow(b, a, d, slabs, src, s, srcSlabs, dims, clears);
  }
}
