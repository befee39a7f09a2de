/** Moving the rows of an array apart to insert along a dimension, and together to delete; see ArrayInsertSubsetND
    and ArrayDeleteND in source/core/Array.cpp.  Along a dimension an array is a list of rows of equal length;
    inserting lengthens each, deleting shortens each.  The loops keep an odometer of the outer dimensions. */
module RowShift {
  import opened FlatIndex

  /** Element k of s, or an initial value. */
  function Get(s: seq<int>, k: nat): int { if k < |s| then s[k] else 0 }

  /** Element q after every row has been lengthened by a gap of zeros behind its first elements. */
  function Opened(s: seq<int>, q: nat, before: nat, gap: nat, after: nat): int {
    var o, m := Quotient(q, before + gap + after), Remainder(q, before + gap + after);
    if m < before then Get(s, Row(o, before + after, m))
    else if m < before + gap then 0
    else Get(s, Row(o, before + after, m - gap))
  }

  /** Element q after a part of every row has been taken out. */
  function Closed(s: seq<int>, q: nat, before: nat, gap: nat, after: nat): int {
    var o, m := Quotient(q, before + after), Remainder(q, before + after);
    Get(s, Row(o, before + gap + after, if m < before then m else m + gap))
  }

  /** Element q of the parts taken out. */
  function Taken(s: seq<int>, q: nat, before: nat, gap: nat, after: nat): int {
    Get(s, Row(Quotient(q, gap), before + gap + after, before + Remainder(q, gap)))
  }

  // ---------------------------------------------------------------- odometers, slowest dimension first

  function Digits(sizes: seq<nat>, n: nat): nat
    requires n <= |sizes|
  {
    if n == 0 then 1 else Digits(sizes, n - 1) * sizes[n - 1]
  }

  function Reading(index: seq<nat>, sizes: seq<nat>, n: nat): nat
    requires n <= |index| && n <= |sizes|
  {
    if n == 0 then 0 else Reading(index, sizes, n - 1) * sizes[n - 1] + index[n - 1]
  }

  predicate InRange(index: seq<nat>, sizes: seq<nat>, n: nat) {
    n <= |index| && n <= |sizes| && forall k :: 0 <= k < n ==> index[k] < sizes[k]
  }

  lemma {:induction false} ReadingSame(index: seq<nat>, index': seq<nat>, sizes: seq<nat>, n: nat)
    requires n <= |index| && n <= |index'| && n <= |sizes| && forall k :: 0 <= k < n ==> index[k] == index'[k]
    ensures Reading(index, sizes, n) == Reading(index', sizes, n)
  {
    if n > 0 {
      ReadingSame(index, index', sizes, n - 1);
    }
  }

  lemma {:induction false} ReadingBound(index: seq<nat>, sizes: seq<nat>, n: nat)
    requires InRange(index, sizes, n)
    ensures Reading(index, sizes, n) < Digits(sizes, n)
  {
    if n > 0 {
      ReadingBound(index, sizes, n - 1);
      Apart(Reading(index, sizes, n - 1), index[n - 1], Digits(sizes, n - 1), sizes[n - 1]);
    }
  }

  /** The odometer one back, and whether there was something left to count. */
  function Back(index: seq<nat>, sizes: seq<nat>, n: nat): (seq<nat>, bool)
    requires n <= |index| && n <= |sizes| && forall k :: 0 <= k < n ==> sizes[k] > 0
    decreases n
  {
    if n == 0 then (index, false)
    else if index[n - 1] > 0 then (index[n - 1 := index[n - 1] - 1], true)
    else Back(index[n - 1 := sizes[n - 1] - 1], sizes, n - 1)
  }

  /** The odometer one on, and whether it has not come round. */
  function Forth(index: seq<nat>, sizes: seq<nat>, n: nat): (seq<nat>, bool)
    requires n <= |index| && n <= |sizes|
    decreases n
  {
    if n == 0 then (index, false)
    else if index[n - 1] + 1 < sizes[n - 1] then (index[n - 1 := index[n - 1] + 1], true)
    else Forth(index[n - 1 := 0], sizes, n - 1)
  }

  lemma Borrow(v: nat, size: nat)
    requires size > 0
    ensures (v * size > 0 <==> v > 0) && (v - 1) * size + (size - 1) == v * size - 1
  {}

  lemma ReadingStep(index: seq<nat>, sizes: seq<nat>, n: nat)
    requires 0 < n <= |index| && n <= |sizes|
    ensures Reading(index, sizes, n) == Reading(index, sizes, n - 1) * sizes[n - 1] + index[n - 1]
  {}

  lemma {:induction false} BackCounts(index: seq<nat>, sizes: seq<nat>, n: nat)
    requires InRange(index, sizes, n)
    ensures var (index', more) := Back(index, sizes, n);
            && |index'| == |index| && InRange(index', sizes, n) && (forall k :: n <= k < |index| ==> index'[k] == index[k])
            && (more <==> Reading(index, sizes, n) > 0)
            && (more ==> Reading(index', sizes, n) == Reading(index, sizes, n) - 1)
    decreases n, 1
  {
    hide Reading;
    if n == 0 {
      ReadingNone(index, sizes);
    } else if index[n - 1] > 0 {
      var index1 := index[n - 1 := index[n - 1] - 1];
      ReadingSame(index, index1, sizes, n - 1);
      ReadingStep(index, sizes, n);
      ReadingStep(index1, sizes, n);
      Borrow(Reading(index, sizes, n - 1), sizes[n - 1]);
    } else {
      BackBorrows(index, sizes, n);
    }
  }

  lemma ReadingNone(index: seq<nat>, sizes: seq<nat>)
    ensures Reading(index, sizes, 0) == 0
  {}

  lemma {:induction false} BackBorrows(index: seq<nat>, sizes: seq<nat>, n: nat)
    requires n > 0 && InRange(index, sizes, n) && index[n - 1] == 0
    ensures var (index', more) := Back(index, sizes, n);
            && |index'| == |index| && InRange(index', sizes, n) && (forall k :: n <= k < |index| ==> index'[k] == index[k])
            && (more <==> Reading(index, sizes, n) > 0)
            && (more ==> Reading(index', sizes, n) == Reading(index, sizes, n) - 1)
    decreases n, 0
  {
    hide Reading;
    var size := sizes[n - 1];
    var index1 := index[n - 1 := size - 1];
    BackCounts(index1, sizes, n - 1);
    ReadingSame(index, index1, sizes, n - 1);
    var (index', more) := Back(index1, sizes, n - 1);
    ReadingStep(index, sizes, n);
    ReadingStep(index', sizes, n);
    Borrow(Reading(index, sizes, n - 1), size);
  }

  lemma {:induction false} ForthCounts(index: seq<nat>, sizes: seq<nat>, n: nat)
    requires InRange(index, sizes, n)
    ensures var (index', more) := Forth(index, sizes, n);
            && |index'| == |index| && InRange(index', sizes, n) && (forall k :: n <= k < |index| ==> index'[k] == index[k])
            && (more <==> Reading(index, sizes, n) + 1 < Digits(sizes, n))
            && (more ==> Reading(index', sizes, n) == Reading(index, sizes, n) + 1)
    decreases n
  {
    if n > 0 {
      var size, v := sizes[n - 1], Reading(index, sizes, n - 1);
      ReadingBound(index, sizes, n - 1);
      if index[n - 1] + 1 < size {
        ReadingSame(index, index[n - 1 := index[n - 1] + 1], sizes, n - 1);
        Apart(v, index[n - 1] + 1, Digits(sizes, n - 1), size);
      } else {
        var index1 := index[n - 1 := 0];
        ForthCounts(index1, sizes, n - 1);
        ReadingSame(index, index1, sizes, n - 1);
        Distribute(v, 1, size);
        if v + 1 < Digits(sizes, n - 1) {
          Apart(v + 1, 0, Digits(sizes, n - 1), size);
        }
      }
    }
  }

  /** The end of the insertion loop: while (--c >= 0 && index[c]-- == 0) index[c] = size - 1. */
  method StepBack(index: seq<nat>, sizes: seq<nat>, n: nat) returns (index': seq<nat>, more: bool)
    requires InRange(index, sizes, n)
    ensures (index', more) == Back(index, sizes, n)
  {
    index' := index;
    var c := n;
    while c > 0 && index'[c - 1] == 0
      invariant 0 <= c <= n && |index'| == |index| && Back(index', sizes, c) == Back(index, sizes, n)
    {
      c := c - 1;
      index' := index'[c := sizes[c] - 1];
    }
    more := c > 0;
    if more {
      index' := index'[c - 1 := index'[c - 1] - 1];
    }
  }

  /** The end of the deletion loop: while (--c >= 0 && ++index[c] >= size) index[c] = 0. */
  method StepForth(index: seq<nat>, sizes: seq<nat>, n: nat) returns (index': seq<nat>, more: bool)
    requires InRange(index, sizes, n)
    ensures (index', more) == Forth(index, sizes, n)
  {
    index' := index;
    var c := n;
    while c > 0 && index'[c - 1] + 1 >= sizes[c - 1]
      invariant 0 <= c <= n && |index'| == |index| && Forth(index', sizes, c) == Forth(index, sizes, n)
    {
      c := c - 1;
      index' := index'[c := 0];
    }
    more := c > 0;
    if more {
      index' := index'[c - 1 := index'[c - 1] + 1];
    }
  }

  // ---------------------------------------------------------------- blocks of memory

  function Moved(dest: seq<int>, d: nat, src: seq<int>, s: nat, n: nat): (r: seq<int>)
    ensures |r| == |dest|
    ensures forall k :: 0 <= k < |dest| ==> r[k] == if d <= k < d + n then Get(src, s + (k - d)) else dest[k]
  {
    seq(|dest|, k requires 0 <= k < |dest| => if d <= k < d + n then Get(src, s + (k - d)) else dest[k])
  }

  function Cleared(dest: seq<int>, d: nat, n: nat): (r: seq<int>)
    ensures |r| == |dest| && forall k :: 0 <= k < |dest| ==> r[k] == if d <= k < d + n then 0 else dest[k]
  {
    seq(|dest|, k requires 0 <= k < |dest| => if d <= k < d + n then 0 else dest[k])
  }

  /** memmove: the blocks may overlap. */
  method MoveBlock(dest: array<int>, d: nat, src: array<int>, s: nat, n: nat)
    requires d + n <= dest.Length && s + n <= src.Length
    modifies dest
    ensures dest[..] == Moved(old(dest[..]), d, old(src[..]), s, n)
  {
    forall k | 0 <= k < n {
      dest[d + k] := src[s + k];
    }
  }

  /** memset to zero. */
  method ClearBlock(dest: array<int>, d: nat, n: nat)
    requires d + n <= dest.Length
    modifies dest
    ensures dest[..] == Cleared(old(dest[..]), d, n)
  {
    forall k | 0 <= k < n {
      dest[d + k] := 0;
    }
  }

  // ---------------------------------------------------------------- insertion

  /** Position m of a lengthened row, when the old row starts at s. */
  function OpenedRow(orig: seq<int>, s: nat, m: nat, before: nat, gap: nat): int {
    if m < before then Get(orig, s + m) else if m < before + gap then 0 else Get(orig, s + m - gap)
  }

  /** Moves one row to where it belongs, from its end.  It is not behind its new place, so nothing that is
      still to be read is overwritten. */
  method OpenRow(buf: array<int>, destinationPtr: nat, sourcePtr: nat, before: nat, gap: nat, after: nat) returns (d: nat, s: nat)
    requires before + gap + after <= destinationPtr <= buf.Length && before + after <= sourcePtr
    requires sourcePtr - (before + after) <= destinationPtr - (before + gap + after)
    modifies buf
    ensures d == destinationPtr - (before + gap + after) && s == sourcePtr - (before + after)
    ensures forall q :: 0 <= q < buf.Length ==>
              buf[..][q] == if d <= q < destinationPtr then OpenedRow(old(buf[..]), s, q - d, before, gap) else old(buf[..])[q]
  {
    hide Moved, Cleared, OpenedRow, Get;
    ghost var was := buf[..];
    d, s := destinationPtr, sourcePtr;
    if after > 0 {
      d, s := d - after, s - after;
      MoveBlock(buf, d, buf, s, after);
    }
    ghost var moved := buf[..];
    d := d - gap;
    ClearBlock(buf, d, gap);
    ghost var cleared := buf[..];
    if before > 0 {
      d, s := d - before, s - before;
      MoveBlock(buf, d, buf, s, before);
    }
    RowMoves(was, moved, cleared, buf[..], d, s, before, gap, after);
  }

  lemma RowMoves(was: seq<int>, moved: seq<int>, cleared: seq<int>, now: seq<int>, d: nat, s: nat, before: nat, gap: nat, after: nat)
    requires s <= d && d + before + gap + after <= |was|
    requires moved == if after > 0 then Moved(was, d + before + gap, was, s + before, after) else was
    requires cleared == Cleared(moved, d + before, gap)
    requires now == if before > 0 then Moved(cleared, d, cleared, s, before) else cleared
    ensures |now| == |was|
    ensures forall q :: 0 <= q < |was| ==>
              now[q] == if d <= q < d + before + gap + after then OpenedRow(was, s, q - d, before, gap) else was[q]
  {}

  lemma OpenedInRow(orig: seq<int>, o: nat, m: nat, before: nat, gap: nat, after: nat)
    requires m < before + gap + after
    ensures Opened(orig, Row(o, before + gap + after, m), before, gap, after) == OpenedRow(orig, Row(o, before + after, 0), m, before, gap)
  {
    DivMod(o, before + gap + after, m);
  }

  lemma RowDown(o: nat, w: nat, m: nat)
    requires o > 0
    ensures Row(o, w, 0) == Row(o - 1, w, 0) + w && Row(o - 1, w, m) == Row(o - 1, w, 0) + m
  {}

  lemma RowOrder(o: nat, w: nat, w': nat)
    requires w <= w'
    ensures Row(o, w, 0) <= Row(o, w', 0)
  {}

  /** Opens a gap in every row of the buffer, whose first elements are the old rows.  The pointers end where
      the array starts. */
  method OpenGap(buf: array<int>, sizes: seq<nat>, n: nat, before: nat, gap: nat, after: nat, ghost outer: nat) returns (destinationPtr: nat)
    requires n <= |sizes| && outer == Digits(sizes, n) && (forall k :: 0 <= k < n ==> sizes[k] > 0)
    requires buf.Length == Row(outer, before + gap + after, 0)
    modifies buf
    ensures destinationPtr == 0
    ensures forall q :: 0 <= q < buf.Length ==> buf[q] == Opened(old(buf[..]), q, before, gap, after)
  {
    hide Row, Opened, OpenedRow;
    var index := seq(n, k requires 0 <= k < n => sizes[k] - 1);
    FullReading(index, sizes, n);
    var total := 1;
    var i := 0;
    while i < n
      invariant 0 <= i <= n && total == Digits(sizes, i)
    {
      total := total * sizes[i];
      i := i + 1;
    }
    destinationPtr := buf.Length;
    var sourcePtr := total * (before + after);
    RowZero(outer, before + after);
    ghost var o: nat := outer;
    ghost var was := buf[..];
    var more := true;
    while more
      invariant o <= outer && destinationPtr == Row(o, before + gap + after, 0) <= buf.Length && sourcePtr == Row(o, before + after, 0)
      invariant if more then o > 0 && InRange(index, sizes, n) && Reading(index, sizes, n) == o - 1 else o == 0
      invariant forall q :: 0 <= q < buf.Length ==> buf[q] == if q < destinationPtr then was[q] else Opened(was, q, before, gap, after)
      decreases more, o
    {
      RowDown(o, before + gap + after, 0);
      RowDown(o, before + after, 0);
      RowOrder(o - 1, before + after, before + gap + after);
      ghost var mid := buf[..];
      destinationPtr, sourcePtr := OpenRow(buf, destinationPtr, sourcePtr, before, gap, after);
      RowDone(was, mid, buf[..], o - 1, destinationPtr, sourcePtr, before, gap, after);
      BackCounts(index, sizes, n);
      index, more := StepBack(index, sizes, n);
      o := o - 1;
    }
    RowZero(0, before + gap + after);
  }

  lemma RowZero(o: nat, w: nat)
    ensures Row(o, w, 0) == o * w && Row(0, w, 0) == 0
  {}

  lemma {:induction false} FullReading(index: seq<nat>, sizes: seq<nat>, n: nat)
    requires n <= |index| && n <= |sizes| && forall k :: 0 <= k < n ==> sizes[k] > 0 && index[k] == sizes[k] - 1
    ensures Reading(index, sizes, n) == Digits(sizes, n) - 1
  {
    if n > 0 {
      FullReading(index, sizes, n - 1);
      Distribute(Reading(index, sizes, n - 1), 1, sizes[n - 1]);
    }
  }

  /** After row o has been moved, everything from it on is in place. */
  lemma RowDone(was: seq<int>, mid: seq<int>, now: seq<int>, o: nat, d: nat, s: nat, before: nat, gap: nat, after: nat)
    requires |was| == |mid| == |now| && d == Row(o, before + gap + after, 0) && s == Row(o, before + after, 0) <= d
    requires d + before + gap + after <= |was|
    requires forall q :: 0 <= q < |was| ==>
               mid[q] == if q < d + before + gap + after then was[q] else Opened(was, q, before, gap, after)
    requires forall q :: 0 <= q < |was| ==>
               now[q] == if d <= q < d + before + gap + after then OpenedRow(mid, s, q - d, before, gap) else mid[q]
    ensures forall q :: 0 <= q < |was| ==> now[q] == if q < d then was[q] else Opened(was, q, before, gap, after)
  {
    hide Row, Opened, OpenedRow;
    forall q | d <= q < d + before + gap + after ensures now[q] == Opened(was, q, before, gap, after) {
      RowDown(o + 1, before + gap + after, q - d);
      OpenedInRow(was, o, q - d, before, gap, after);
      OpenedSame(was, mid, s, q - d, before, gap, after);
    }
  }

  /** What is read for a row has not been overwritten. */
  lemma OpenedSame(was: seq<int>, mid: seq<int>, s: nat, m: nat, before: nat, gap: nat, after: nat)
    requires |was| == |mid| && m < before + gap + after && s + before + after <= |was|
    requires forall q :: 0 <= q < s + before + after ==> mid[q] == was[q]
    ensures OpenedRow(mid, s, m, before, gap) == OpenedRow(was, s, m, before, gap)
  {}

  // ---------------------------------------------------------------- deletion

  /** Copies n elements and advances both pointers. */
  method CopySubArray(src: array<int>, s: nat, dest: array<int>, d: nat, n: nat) returns (s': nat, d': nat)
    requires d + n <= dest.Length && s + n <= src.Length
    modifies dest
    ensures s' == s + n && d' == d + n
    ensures dest[..] == if n > 0 then Moved(old(dest[..]), d, old(src[..]), s, n) else old(dest[..])
  {
    if n > 0 {
      MoveBlock(dest, d, src, s, n);
    }
    s', d' := s + n, d + n;
  }

  /** One row of the input goes to the output and to the deleted part.  The output may be the input. */
  method CloseRow(input: array<int>, ip: nat, output: array<int>, op: nat, deleted: array<int>, dp: nat, before: nat, gap: nat, after: nat)
    returns (ip': nat, op': nat, dp': nat)
    requires deleted != input && deleted != output && ip + before + gap + after <= input.Length
    requires op + before + after <= output.Length && dp + gap <= deleted.Length && (input == output ==> op <= ip)
    modifies output, deleted
    ensures ip' == ip + before + gap + after && op' == op + before + after && dp' == dp + gap
    ensures forall q :: 0 <= q < output.Length ==>
              output[..][q] == if op <= q < op' then ClosedRow(old(input[..]), ip, q - op, before, gap) else old(output[..])[q]
    ensures forall q :: 0 <= q < deleted.Length ==>
              deleted[..][q] == if dp <= q < dp' then Get(old(input[..]), ip + before + (q - dp)) else old(deleted[..])[q]
  {
    hide Moved, ClosedRow, Get;
    ghost var was, kept, taken := input[..], output[..], deleted[..];
    ip', op' := CopySubArray(input, ip, output, op, before);
    ghost var was1, kept1 := input[..], output[..];
    StillUnread(was, was1, kept, ip, op, before, input == output);
    ip', dp' := CopySubArray(input, ip', deleted, dp, gap);
    assert input[..] == was1 && output[..] == kept1;
    ip', op' := CopySubArray(input, ip', output, op', after);
    RowParts(was, was1, kept, kept1, output[..], ip, op, before, gap, after);
    RowDeleted(was, was1, taken, deleted[..], ip, dp, before, gap);
  }

  /** What is behind the part copied has not been overwritten. */
  lemma StillUnread(was: seq<int>, was1: seq<int>, kept: seq<int>, ip: nat, op: nat, before: nat, same: bool)
    requires ip + before <= |was|
    requires if same then op <= ip && kept == was && was1 == (if before > 0 then Moved(kept, op, was, ip, before) else kept) else was1 == was
    ensures |was1| == |was| && forall k :: ip + before <= k < |was| ==> was1[k] == was[k]
  {}

  lemma RowParts(was: seq<int>, was1: seq<int>, kept: seq<int>, kept1: seq<int>, now: seq<int>, ip: nat, op: nat, before: nat, gap: nat, after: nat)
    requires op + before + after <= |kept| && ip + before + gap + after <= |was| == |was1|
    requires forall k :: ip + before <= k < |was| ==> was1[k] == was[k]
    requires kept1 == if before > 0 then Moved(kept, op, was, ip, before) else kept
    requires now == if after > 0 then Moved(kept1, op + before, was1, ip + before + gap, after) else kept1
    ensures |now| == |kept|
    ensures forall q :: 0 <= q < |now| ==> now[q] == if op <= q < op + before + after then ClosedRow(was, ip, q - op, before, gap) else kept[q]
  {}

  lemma RowDeleted(was: seq<int>, was1: seq<int>, taken: seq<int>, now: seq<int>, ip: nat, dp: nat, before: nat, gap: nat)
    requires dp + gap <= |taken| && ip + before + gap <= |was| == |was1|
    requires forall k :: ip + before <= k < |was| ==> was1[k] == was[k]
    requires now == if gap > 0 then Moved(taken, dp, was1, ip + before, gap) else taken
    ensures |now| == |taken|
    ensures forall q :: 0 <= q < |now| ==> now[q] == if dp <= q < dp + gap then Get(was, ip + before + (q - dp)) else taken[q]
  {}

  /** Position m of a shortened row, when the old row starts at s. */
  function ClosedRow(orig: seq<int>, s: nat, m: nat, before: nat, gap: nat): int {
    Get(orig, s + if m < before then m else m + gap)
  }

  lemma ClosedInRow(orig: seq<int>, o: nat, m: nat, before: nat, gap: nat, after: nat)
    requires m < before + after
    ensures Closed(orig, Row(o, before + after, 0) + m, before, gap, after) == ClosedRow(orig, Row(o, before + gap + after, 0), m, before, gap)
  {
    DivMod(o, before + after, m);
  }

  lemma TakenInRow(orig: seq<int>, o: nat, m: nat, before: nat, gap: nat, after: nat)
    requires m < gap
    ensures Taken(orig, Row(o, gap, 0) + m, before, gap, after) == Get(orig, Row(o, before + gap + after, 0) + before + m)
  {
    DivMod(o, gap, m);
  }

  /** Takes a part out of every row of the input, into the deleted array; the rest goes to the output, which may
      be the input. */
  method CloseGap(input: array<int>, output: array<int>, deleted: array<int>, sizes: seq<nat>, n: nat, before: nat, gap: nat, after: nat,
                  ghost outer: nat)
    requires n <= |sizes| && outer == Digits(sizes, n) && (forall k :: 0 <= k < n ==> sizes[k] > 0)
    requires deleted != input && deleted != output && input.Length == Row(outer, before + gap + after, 0)
    requires Row(outer, before + after, 0) <= output.Length && Row(outer, gap, 0) <= deleted.Length
    modifies output, deleted
    ensures forall q :: 0 <= q < Row(outer, before + after, 0) ==> output[q] == Closed(old(input[..]), q, before, gap, after)
    ensures forall q :: 0 <= q < Row(outer, gap, 0) ==> deleted[q] == Taken(old(input[..]), q, before, gap, after)
  {
    hide Row, Closed, Taken, ClosedRow, Get;
    var index := seq(n, _ => 0);
    ZeroReading(index, sizes, n);
    var ip, op, dp := 0, 0, 0;
    RowZero(0, before + gap + after);
    RowZero(0, before + after);
    RowZero(0, gap);
    ghost var o: nat := 0;
    ghost var was := input[..];
    var more := true;
    while more
      invariant o <= outer && ip == Row(o, before + gap + after, 0) && op == Row(o, before + after, 0) && dp == Row(o, gap, 0)
      invariant if more then o < outer && InRange(index, sizes, n) && Reading(index, sizes, n) == o else o == outer
      invariant forall q :: ip <= q < input.Length ==> input[q] == was[q]
      invariant forall q :: 0 <= q < op && q < output.Length ==> output[q] == Closed(was, q, before, gap, after)
      invariant forall q :: 0 <= q < dp && q < deleted.Length ==> deleted[q] == Taken(was, q, before, gap, after)
      decreases more, outer - o
    {
      NextRow(o, outer, before + gap + after);
      NextRow(o, outer, before + after);
      NextRow(o, outer, gap);
      RowOrder(o, before + after, before + gap + after);
      ghost var mid, kept, taken := input[..], output[..], deleted[..];
      ip, op, dp := CloseRow(input, ip, output, op, deleted, dp, before, gap, after);
      RowClosed(was, mid, kept, output[..], o, before, gap, after);
      RowTaken(was, mid, taken, deleted[..], o, before, gap, after);
      ForthCounts(index, sizes, n);
      index, more := StepForth(index, sizes, n);
      o := o + 1;
    }
  }

  lemma NextRow(o: nat, outer: nat, w: nat)
    requires o < outer
    ensures Row(o + 1, w, 0) == Row(o, w, 0) + w && Row(o + 1, w, 0) <= Row(outer, w, 0)
  {}

  lemma {:induction false} ZeroReading(index: seq<nat>, sizes: seq<nat>, n: nat)
    requires n <= |index| && n <= |sizes| && forall k :: 0 <= k < n ==> sizes[k] > 0 && index[k] == 0
    ensures Reading(index, sizes, n) == 0 && Digits(sizes, n) > 0
  {
    if n > 0 {
      ZeroReading(index, sizes, n - 1);
      MulPositive(Digits(sizes, n - 1), sizes[n - 1]);
    }
  }

  lemma RowClosed(was: seq<int>, mid: seq<int>, kept: seq<int>, now: seq<int>, o: nat, before: nat, gap: nat, after: nat)
    requires |was| == |mid| && |kept| == |now| && Row(o, before + gap + after, 0) + before + gap + after <= |was|
    requires forall q :: Row(o, before + gap + after, 0) <= q < |was| ==> mid[q] == was[q]
    requires var d := Row(o, before + after, 0);
             && (forall q :: 0 <= q < d && q < |kept| ==> kept[q] == Closed(was, q, before, gap, after))
             && (forall q :: 0 <= q < |now| ==>
                   now[q] == if d <= q < d + before + after then ClosedRow(mid, Row(o, before + gap + after, 0), q - d, before, gap) else kept[q])
    ensures forall q :: 0 <= q < Row(o, before + after, 0) + before + after && q < |now| ==> now[q] == Closed(was, q, before, gap, after)
  {
    hide Row, Closed;
    var d := Row(o, before + after, 0);
    forall q | d <= q < d + before + after && q < |now| ensures now[q] == Closed(was, q, before, gap, after) {
      ClosedInRow(was, o, q - d, before, gap, after);
    }
  }

  lemma RowTaken(was: seq<int>, mid: seq<int>, kept: seq<int>, now: seq<int>, o: nat, before: nat, gap: nat, after: nat)
    requires |was| == |mid| && |kept| == |now| && Row(o, before + gap + after, 0) + before + gap + after <= |was|
    requires forall q :: Row(o, before + gap + after, 0) <= q < |was| ==> mid[q] == was[q]
    requires var d := Row(o, gap, 0);
             && (forall q :: 0 <= q < d && q < |kept| ==> kept[q] == Taken(was, q, before, gap, after))
             && (forall q :: 0 <= q < |now| ==>
                   now[q] == if d <= q < d + gap then Get(mid, Row(o, before + gap + after, 0) + before + (q - d)) else kept[q])
    ensures forall q :: 0 <= q < Row(o, gap, 0) + gap && q < |now| ==> now[q] == Taken(was, q, before, gap, after)
  {
    hide Row, Taken;
    var d := Row(o, gap, 0);
    forall q | d <= q < d + gap && q < |now| ensures now[q] == Taken(was, q, before, gap, after) {
      TakenInRow(was, o, q - d, before, gap, after);
    }
  }
}
