/** Comparison of aggregates in source/core/GenericFunctions.cpp: snippets of instructions whose operands are
    set, moved and swapped in place, and accumulators that run them. */
module AggregateCompare {
  import opened AggregateOrder

  /** An operand: null, the offset of a cluster field, or the address of a value in a block of memory. */
  datatype Ptr = Null | Offset(field: nat) | At(block: seq<Value>, index: nat)

  /** An instruction and its snippet.  Instructions lie one after the other in program memory, each before its
      snippet; id is the place of its operands. */
  datatype Code = LeafOp(id: nat) | VectorOp(id: nat, element: Code) | ClusterOp(id: nat, fields: seq<Code>)

  function End(code: Code): nat
    decreases code
  {
    match code
    case LeafOp(id) => id + 1
    case VectorOp(_, element) => End(element)
    case ClusterOp(id, fields) => EndAll(fields, id + 1)
  }

  function EndAll(codes: seq<Code>, lo: nat): nat
    decreases codes
  {
    if codes == [] then lo else EndAll(codes[1..], End(codes[0]))
  }

  predicate Laid(code: Code)
    decreases code
  {
    match code
    case LeafOp(_) => true
    case VectorOp(id, element) => element.id == id + 1 && Laid(element)
    case ClusterOp(id, fields) => fields != [] && LaidAll(fields, id + 1)
  }

  predicate LaidAll(codes: seq<Code>, lo: nat)
    decreases codes
  {
    codes != [] ==> codes[0].id == lo && Laid(codes[0]) && LaidAll(codes[1..], End(codes[0]))
  }

  /** The instruction compares values of the type of x. */
  ghost predicate Fits(code: Code, x: Value)
    decreases code
  {
    match code
    case LeafOp(_) => x.Leaf?
    case VectorOp(_, element) => x.Arr? && forall i :: 0 <= i < |x.elements| ==> Fits(element, x.elements[i])
    case ClusterOp(_, fields) => x.Clu? && |x.fields| == |fields| && forall j :: 0 <= j < |fields| ==> Fits(fields[j], x.fields[j])
  }

  /** Between runs the operands in a cluster's snippet are the offsets of its fields. */
  ghost predicate Ready(code: Code, p0: seq<Ptr>, p1: seq<Ptr>)
    decreases code
  {
    match code
    case LeafOp(_) => true
    case VectorOp(_, element) => Ready(element, p0, p1)
    case ClusterOp(_, fields) =>
      forall j :: 0 <= j < |fields| ==> Ready(fields[j], p0, p1) && OffsetAt(p0, fields[j].id, j) && OffsetAt(p1, fields[j].id, j)
  }

  predicate OffsetAt(p: seq<Ptr>, id: nat, j: nat) { id < |p| && p[id] == Offset(j) }

  predicate Operand(p: seq<Ptr>, id: nat, x: Value) {
    id < |p| && p[id].At? && p[id].index < |p[id].block| && p[id].block[p[id].index] == x
  }

  /** p' is p except in [lo, hi). */
  ghost predicate Outside(p: seq<Ptr>, p': seq<Ptr>, lo: nat, hi: nat) {
    |p'| == |p| && forall i :: 0 <= i < |p| && !(lo <= i < hi) ==> p'[i] == p[i]
  }

  // ---------------------------------------------------------------- layout

  lemma {:induction false} EndAfter(code: Code)
    requires Laid(code)
    ensures code.id < End(code)
    decreases code
  {
    match code
    case LeafOp(_) =>
    case VectorOp(_, element) => EndAfter(element);
    case ClusterOp(id, fields) => EndAllAfter(fields, id + 1);
  }

  lemma {:induction false} EndAllAfter(codes: seq<Code>, lo: nat)
    requires LaidAll(codes, lo)
    ensures lo <= EndAll(codes, lo)
    decreases codes
  {
    if codes != [] {
      EndAfter(codes[0]);
      EndAllAfter(codes[1..], End(codes[0]));
    }
  }

  /** The instructions of a snippet do not overlap. */
  lemma {:induction false} Apart(codes: seq<Code>, lo: nat, j: nat)
    requires LaidAll(codes, lo) && j < |codes|
    ensures Laid(codes[j]) && lo <= codes[j].id < End(codes[j]) <= EndAll(codes, lo)
    ensures forall k :: j < k < |codes| ==> End(codes[j]) <= codes[k].id
    decreases j
  {
    if j == 0 {
      EndAfter(codes[0]);
      EndAllAfter(codes[1..], End(codes[0]));
      forall k | 0 < k < |codes| ensures End(codes[0]) <= codes[k].id {
        ComesAfter(codes[1..], End(codes[0]), k - 1);
      }
    } else {
      Apart(codes[1..], End(codes[0]), j - 1);
      EndAfter(codes[0]);
      forall k | j < k < |codes| ensures End(codes[j]) <= codes[k].id {
        assert codes[k] == codes[1..][k - 1];
      }
    }
  }

  lemma {:induction false} ComesAfter(codes: seq<Code>, lo: nat, j: nat)
    requires LaidAll(codes, lo) && j < |codes|
    ensures lo <= codes[j].id
    decreases j
  {
    if j > 0 {
      EndAfter(codes[0]);
      ComesAfter(codes[1..], End(codes[0]), j - 1);
    }
  }

  /** Whether a snippet is ready depends on its own operands only. */
  lemma {:induction false} ReadyFrame(code: Code, p0: seq<Ptr>, p1: seq<Ptr>, p0': seq<Ptr>, p1': seq<Ptr>)
    requires Laid(code) && Ready(code, p0, p1) && |p0'| == |p0| && |p1'| == |p1|
    requires forall i :: code.id < i < End(code) && i < |p0| ==> p0'[i] == p0[i]
    requires forall i :: code.id < i < End(code) && i < |p1| ==> p1'[i] == p1[i]
    ensures Ready(code, p0', p1')
    decreases code
  {
    match code
    case LeafOp(_) =>
    case VectorOp(_, element) => ReadyFrame(element, p0, p1, p0', p1');
    case ClusterOp(id, fields) =>
      forall j | 0 <= j < |fields|
        ensures Ready(fields[j], p0', p1') && OffsetAt(p0', fields[j].id, j) && OffsetAt(p1', fields[j].id, j)
      {
        Apart(fields, id + 1, j);
        ReadyFrame(fields[j], p0, p1, p0', p1');
      }
  }

  // ---------------------------------------------------------------- running

  ghost predicate AllReady(codes: seq<Code>, p0: seq<Ptr>, p1: seq<Ptr>) {
    forall j :: 0 <= j < |codes| ==> Ready(codes[j], p0, p1)
  }

  /** p' is p outside a snippet, and in the operands of its instructions. */
  ghost predicate Restored(codes: seq<Code>, lo: nat, p: seq<Ptr>, p': seq<Ptr>) {
    Outside(p, p', lo, EndAll(codes, lo)) && forall j :: 0 <= j < |codes| && codes[j].id < |p| ==> p'[codes[j].id] == p[codes[j].id]
  }

  ghost predicate OperandsAre(codes: seq<Code>, p: seq<Ptr>, xs: seq<Value>) {
    |xs| == |codes| && forall j :: 0 <= j < |codes| ==> Operand(p, codes[j].id, xs[j]) && Fits(codes[j], xs[j])
  }

  ghost predicate Aimed(codes: seq<Code>, p2: seq<bool>) {
    forall j :: 0 <= j < |codes| ==> codes[j].id < |p2| && p2[codes[j].id]
  }

  ghost predicate StillAimed(p2: seq<bool>, p2': seq<bool>) {
    |p2'| == |p2| && forall i :: 0 <= i < |p2| && p2[i] ==> p2'[i]
  }

  /** One instruction of a snippet has run. */
  lemma OneRan(codes: seq<Code>, lo: nat, j: nat, p0: seq<Ptr>, p1: seq<Ptr>, p0': seq<Ptr>, p1': seq<Ptr>)
    requires LaidAll(codes, lo) && j < |codes| && EndAll(codes, lo) <= |p0| == |p1| && AllReady(codes, p0, p1)
    requires Outside(p0, p0', codes[j].id + 1, End(codes[j])) && Outside(p1, p1', codes[j].id + 1, End(codes[j]))
    requires Ready(codes[j], p0', p1')
    ensures AllReady(codes, p0', p1') && Restored(codes, lo, p0, p0') && Restored(codes, lo, p1, p1')
  {
    Apart(codes, lo, j);
    forall k | 0 <= k < |codes|
      ensures Ready(codes[k], p0', p1') && codes[k].id < |p0|
      ensures p0'[codes[k].id] == p0[codes[k].id] && p1'[codes[k].id] == p1[codes[k].id]
    {
      if k != j {
        Apart(codes, lo, k);
        ReadyFrame(codes[k], p0, p1, p0', p1');
      }
    }
  }

  lemma RestoredTwice(codes: seq<Code>, lo: nat, p: seq<Ptr>, p': seq<Ptr>, p'': seq<Ptr>)
    requires Restored(codes, lo, p, p') && Restored(codes, lo, p', p'')
    ensures Restored(codes, lo, p, p'')
  {}

  lemma OperandsKept(codes: seq<Code>, lo: nat, p: seq<Ptr>, p': seq<Ptr>, xs: seq<Value>)
    requires OperandsAre(codes, p, xs) && Restored(codes, lo, p, p')
    ensures OperandsAre(codes, p', xs)
  {}

  /** Base address plus offset, and back. */
  function Add(p: Ptr, base: Ptr): Ptr {
    if p.Offset? && base.At? && base.index < |base.block| && base.block[base.index].Clu?
    then At(base.block[base.index].fields, p.field) else p
  }

  function Subtract(p: Ptr): Ptr {
    if p.At? then Offset(p.index) else p
  }

  class Comparison {
    var p0: seq<Ptr>       // _p0 of every instruction
    var p1: seq<Ptr>       // _p1
    var p2: seq<bool>      // whether _p2 points at the boolean destination
    var dest: bool         // the boolean destination

    ghost predicate Fit(hi: nat)
      reads this
    {
      hi <= |p0| == |p1| == |p2|
    }

    ghost predicate SnippetReady(codes: seq<Code>, lo: nat)
      reads this
    {
      codes != [] && LaidAll(codes, lo) && Fit(EndAll(codes, lo)) && AllReady(codes, p0, p1) && Aimed(codes, p2)
    }

    /** Calls the function of an instruction; x and y are what its operands address. */
    method Run(code: Code, op: Op, ghost x: Value, ghost y: Value)
      requires Laid(code) && Fit(End(code)) && Ready(code, p0, p1) && Fits(code, x) && Fits(code, y)
      requires Operand(p0, code.id, x) && Operand(p1, code.id, y) && code.id < |p2| && p2[code.id]
      modifies this
      ensures dest == Means(op, x, y)
      ensures dest == Holds(op, Compare(x, y)) && Fit(End(code)) && Ready(code, p0, p1) && StillAimed(old(p2), p2)
      ensures Outside(old(p0), p0, code.id + 1, End(code)) && Outside(old(p1), p1, code.id + 1, End(code))
      decreases End(code) - code.id, 1
    {
      hide Means;
      EndAfter(code);
      OperatorsMean(op, x, y);
      match code
      case LeafOp(id) =>
        dest := Compares(op, p0[id].block[p0[id].index], p1[id].block[p1[id].index]);
      case VectorOp(_, _) =>
        VectorVectorBinaryAccumulatorOp(code, op, x, y);
      case ClusterOp(_, _) =>
        ClusterAggBinaryOp(code, op, x, y);
    }

    /** A scalar comparison. */
    static function Compares(op: Op, x: Value, y: Value): bool
      requires x.Leaf? && y.Leaf?
    {
      match op
      case EQ => x.n == y.n
      case NE => x.n != y.n
      case LT => x.n < y.n
      case GT => x.n > y.n
      case LE => x.n <= y.n
      case GE => x.n >= y.n
    }

    /** Runs an instruction with its operands commuted, and puts them back. */
    method RunCommuted(code: Code, op: Op, ghost x: Value, ghost y: Value)
      requires Laid(code) && Fit(End(code)) && Ready(code, p0, p1) && Fits(code, x) && Fits(code, y)
      requires Operand(p0, code.id, x) && Operand(p1, code.id, y) && code.id < |p2| && p2[code.id]
      modifies this
      ensures dest == Holds(op, Compare(y, x)) && Fit(End(code)) && Ready(code, p0, p1) && StillAimed(old(p2), p2)
      ensures Outside(old(p0), p0, code.id + 1, End(code)) && Outside(old(p1), p1, code.id + 1, End(code))
      decreases End(code) - code.id, 2
    {
      ghost var q0, q1 := p0, p1;
      var temp := p0[code.id];
      p0 := p0[code.id := p1[code.id]];
      p1 := p1[code.id := temp];
      ReadyFrame(code, q0, q1, p0, p1);
      Run(code, op, y, x);
      ghost var r0, r1 := p0, p1;
      p1 := p1[code.id := p0[code.id]];
      p0 := p0[code.id := temp];
      ReadyFrame(code, r0, r1, p0, p1);
    }

    /** Runs the j-th instruction of a snippet, with its operands as they are or commuted. */
    method RunOne(codes: seq<Code>, j: nat, op: Op, commuted: bool, ghost lo: nat, ghost xs: seq<Value>, ghost ys: seq<Value>)
      requires j < |codes| && SnippetReady(codes, lo) && OperandsAre(codes, p0, xs) && OperandsAre(codes, p1, ys)
      modifies this
      ensures SnippetReady(codes, lo) && Restored(codes, lo, old(p0), p0) && Restored(codes, lo, old(p1), p1) && StillAimed(old(p2), p2)
      ensures OperandsAre(codes, p0, xs) && OperandsAre(codes, p1, ys)
      ensures dest == Holds(op, if commuted then Compare(ys[j], xs[j]) else Compare(xs[j], ys[j]))
      decreases EndAll(codes, lo) - lo, 3
    {
      hide Laid, LaidAll, Ready, Fits, Compare, End, EndAll;
      Apart(codes, lo, j);
      ghost var q0, q1 := p0, p1;
      if commuted {
        RunCommuted(codes[j], op, xs[j], ys[j]);
      } else {
        Run(codes[j], op, xs[j], ys[j]);
      }
      OneRan(codes, lo, j, q0, q1, p0, p1);
      OperandsKept(codes, lo, q0, p0, xs);
      OperandsKept(codes, lo, q1, p1, ys);
    }

    /** The loop of IsEQAccumulator and IsNEAccumulator: runs the snippet until a result is stop. */
    method RunWhile(codes: seq<Code>, op: Op, stop: bool, ghost lo: nat, ghost xs: seq<Value>, ghost ys: seq<Value>) returns (go: bool)
      requires SnippetReady(codes, lo) && OperandsAre(codes, p0, xs) && OperandsAre(codes, p1, ys)
      requires (op == EQ && !stop) || (op == NE && stop)
      modifies this
      ensures SnippetReady(codes, lo) && Restored(codes, lo, old(p0), p0) && Restored(codes, lo, old(p1), p1) && StillAimed(old(p2), p2)
      ensures dest == Holds(op, CompareAll(xs, ys)) && (go <==> CompareAll(xs, ys) == 0)
      decreases EndAll(codes, lo) - lo, 4
    {
      hide LaidAll, AllReady, Aimed, Compare, CompareAll, EndAll;
      var j := 0;
      while j < |codes|
        invariant 0 <= j <= |codes| && SnippetReady(codes, lo) && StillAimed(old(p2), p2)
        invariant OperandsAre(codes, p0, xs) && OperandsAre(codes, p1, ys)
        invariant Restored(codes, lo, old(p0), p0) && Restored(codes, lo, old(p1), p1)
        invariant xs[..j] == ys[..j] && (j > 0 ==> dest == !stop)
        decreases |codes| - j
      {
        ghost var q0, q1 := p0, p1;
        RunOne(codes, j, op, false, lo, xs, ys);
        RestoredTwice(codes, lo, old(p0), q0, p0);
        RestoredTwice(codes, lo, old(p1), q1, p1);
        CompareBasics(xs[j], ys[j]);
        if dest == stop {
          FirstDifference(xs, ys, j);
          return false;
        }
        j := j + 1;
      }
      FirstDifference(xs, ys, j);
      go := true;
    }

    /** The loop of the other four accumulators: runs each instruction of the snippet, then commuted, until
        one of the results is stop. */
    method RunBothWays(codes: seq<Code>, op: Op, stop: bool, ghost lo: nat, ghost xs: seq<Value>, ghost ys: seq<Value>) returns (go: bool)
      requires SnippetReady(codes, lo) && OperandsAre(codes, p0, xs) && OperandsAre(codes, p1, ys)
      requires if stop then op == LT || op == GT else op == LE || op == GE
      modifies this
      ensures SnippetReady(codes, lo) && Restored(codes, lo, old(p0), p0) && Restored(codes, lo, old(p1), p1) && StillAimed(old(p2), p2)
      ensures dest == Holds(op, CompareAll(xs, ys)) && (go <==> CompareAll(xs, ys) == 0)
      decreases EndAll(codes, lo) - lo, 4
    {
      hide LaidAll, AllReady, Aimed, Compare, CompareAll, EndAll, Restored, OperandsAre;
      RestoredSame(codes, lo, p0);
      RestoredSame(codes, lo, p1);
      assert |xs| == |codes| == |ys| by { SameLength(codes, xs, ys); }
      var j := 0;
      while j < |codes|
        invariant 0 <= j <= |codes| && SnippetReady(codes, lo) && StillAimed(old(p2), p2)
        invariant OperandsAre(codes, p0, xs) && OperandsAre(codes, p1, ys)
        invariant Restored(codes, lo, old(p0), p0) && Restored(codes, lo, old(p1), p1)
        invariant xs[..j] == ys[..j] && (j > 0 ==> dest == !stop)
        decreases |codes| - j
      {
        ghost var q0, q1 := p0, p1;
        RunOne(codes, j, op, false, lo, xs, ys);
        RestoredTwice(codes, lo, old(p0), q0, p0);
        RestoredTwice(codes, lo, old(p1), q1, p1);
        CompareBasics(xs[j], ys[j]);
        CompareBasics(ys[j], xs[j]);
        if dest == stop {
          FirstDifference(xs, ys, j);
          return false;
        }
        q0, q1 := p0, p1;
        RunOne(codes, j, op, true, lo, xs, ys);
        RestoredTwice(codes, lo, old(p0), q0, p0);
        RestoredTwice(codes, lo, old(p1), q1, p1);
        if dest == stop {
          dest := !stop;  // flip the result
          FirstDifference(xs, ys, j);
          return false;
        }
        j := j + 1;
      }
      FirstDifference(xs, ys, j);
      go := true;
    }

    lemma SameLength(codes: seq<Code>, xs: seq<Value>, ys: seq<Value>)
      requires OperandsAre(codes, p0, xs) && OperandsAre(codes, p1, ys)
      ensures |xs| == |codes| == |ys|
    {}

    static lemma RestoredSame(codes: seq<Code>, lo: nat, p: seq<Ptr>)
      ensures Restored(codes, lo, p, p)
    {}

    /** An array that has run out is passed as null. */
    predicate NullOperand(codes: seq<Code>)
      requires codes != []
      reads this
    {
      codes[0].id < |p0| == |p1| && (p0[codes[0].id].Null? || p1[codes[0].id].Null?)
    }

    ghost predicate Comparable(codes: seq<Code>, lo: nat, xs: seq<Value>, ys: seq<Value>)
      reads this
    {
      SnippetReady(codes, lo) && (NullOperand(codes) || (OperandsAre(codes, p0, xs) && OperandsAre(codes, p1, ys)))
    }

    /** How the operands of a snippet compare: null comes first. */
    ghost function Outcome(codes: seq<Code>, lo: nat, xs: seq<Value>, ys: seq<Value>): int
      requires Comparable(codes, lo, xs, ys)
      reads this
    {
      if !NullOperand(codes) then CompareAll(xs, ys)
      else if !p0[codes[0].id].Null? then 1 else if !p1[codes[0].id].Null? then -1 else 0
    }

    method IsEQAccumulator(codes: seq<Code>, ghost lo: nat, ghost xs: seq<Value>, ghost ys: seq<Value>) returns (go: bool)
      requires Comparable(codes, lo, xs, ys)
      modifies this
      ensures SnippetReady(codes, lo) && Restored(codes, lo, old(p0), p0) && Restored(codes, lo, old(p1), p1) && StillAimed(old(p2), p2)
      ensures dest == Holds(EQ, old(Outcome(codes, lo, xs, ys))) && (old(!NullOperand(codes)) ==> (go <==> CompareAll(xs, ys) == 0))
      decreases EndAll(codes, lo) - lo, 5
    {
      FirstFits(codes, lo);
      var binop := codes[0].id;
      if p0[binop].Null? || p1[binop].Null? {
        dest := p0[binop].Null? == p1[binop].Null?;
        go := true;
      } else {
        hide LaidAll, EndAll, CompareAll;
        go := RunWhile(codes, EQ, false, lo, xs, ys);
      }
    }

    method IsNEAccumulator(codes: seq<Code>, ghost lo: nat, ghost xs: seq<Value>, ghost ys: seq<Value>) returns (go: bool)
      requires Comparable(codes, lo, xs, ys)
      modifies this
      ensures SnippetReady(codes, lo) && Restored(codes, lo, old(p0), p0) && Restored(codes, lo, old(p1), p1) && StillAimed(old(p2), p2)
      ensures dest == Holds(NE, old(Outcome(codes, lo, xs, ys))) && (old(!NullOperand(codes)) ==> (go <==> CompareAll(xs, ys) == 0))
      decreases EndAll(codes, lo) - lo, 5
    {
      FirstFits(codes, lo);
      var binop := codes[0].id;
      if p0[binop].Null? || p1[binop].Null? {
        dest := p0[binop].Null? != p1[binop].Null?;
        go := true;
      } else {
        hide LaidAll, EndAll, CompareAll;
        go := RunWhile(codes, NE, true, lo, xs, ys);
      }
    }

    method IsLTAccumulator(codes: seq<Code>, ghost lo: nat, ghost xs: seq<Value>, ghost ys: seq<Value>) returns (go: bool)
      requires Comparable(codes, lo, xs, ys)
      modifies this
      ensures SnippetReady(codes, lo) && Restored(codes, lo, old(p0), p0) && Restored(codes, lo, old(p1), p1) && StillAimed(old(p2), p2)
      ensures dest == Holds(LT, old(Outcome(codes, lo, xs, ys))) && (old(!NullOperand(codes)) ==> (go <==> CompareAll(xs, ys) == 0))
      decreases EndAll(codes, lo) - lo, 5
    {
      FirstFits(codes, lo);
      var binop := codes[0].id;
      if p1[binop].Null? {
        dest, go := false, false;
      } else if p0[binop].Null? {
        dest, go := true, false;
      } else {
        hide LaidAll, EndAll, CompareAll;
        go := RunBothWays(codes, LT, true, lo, xs, ys);
      }
    }

    method IsGTAccumulator(codes: seq<Code>, ghost lo: nat, ghost xs: seq<Value>, ghost ys: seq<Value>) returns (go: bool)
      requires Comparable(codes, lo, xs, ys)
      modifies this
      ensures SnippetReady(codes, lo) && Restored(codes, lo, old(p0), p0) && Restored(codes, lo, old(p1), p1) && StillAimed(old(p2), p2)
      ensures dest == Holds(GT, old(Outcome(codes, lo, xs, ys))) && (old(!NullOperand(codes)) ==> (go <==> CompareAll(xs, ys) == 0))
      decreases EndAll(codes, lo) - lo, 5
    {
      FirstFits(codes, lo);
      var binop := codes[0].id;
      if p0[binop].Null? {
        dest, go := false, false;
      } else if p1[binop].Null? {
        dest, go := true, false;
      } else {
        hide LaidAll, EndAll, CompareAll;
        go := RunBothWays(codes, GT, true, lo, xs, ys);
      }
    }

    method IsLEAccumulator(codes: seq<Code>, ghost lo: nat, ghost xs: seq<Value>, ghost ys: seq<Value>) returns (go: bool)
      requires Comparable(codes, lo, xs, ys)
      modifies this
      ensures SnippetReady(codes, lo) && Restored(codes, lo, old(p0), p0) && Restored(codes, lo, old(p1), p1) && StillAimed(old(p2), p2)
      ensures dest == Holds(LE, old(Outcome(codes, lo, xs, ys))) && (old(!NullOperand(codes)) ==> (go <==> CompareAll(xs, ys) == 0))
      decreases EndAll(codes, lo) - lo, 5
    {
      FirstFits(codes, lo);
      var binop := codes[0].id;
      if p0[binop].Null? {
        dest, go := true, false;
      } else if p1[binop].Null? {
        dest, go := false, false;
      } else {
        hide LaidAll, EndAll, CompareAll;
        go := RunBothWays(codes, LE, false, lo, xs, ys);
      }
    }

    method IsGEAccumulator(codes: seq<Code>, ghost lo: nat, ghost xs: seq<Value>, ghost ys: seq<Value>) returns (go: bool)
      requires Comparable(codes, lo, xs, ys)
      modifies this
      ensures SnippetReady(codes, lo) && Restored(codes, lo, old(p0), p0) && Restored(codes, lo, old(p1), p1) && StillAimed(old(p2), p2)
      ensures dest == Holds(GE, old(Outcome(codes, lo, xs, ys))) && (old(!NullOperand(codes)) ==> (go <==> CompareAll(xs, ys) == 0))
      decreases EndAll(codes, lo) - lo, 5
    {
      FirstFits(codes, lo);
      var binop := codes[0].id;
      if p1[binop].Null? {
        dest, go := true, false;
      } else if p0[binop].Null? {
        dest, go := false, false;
      } else {
        hide LaidAll, EndAll, CompareAll;
        go := RunBothWays(codes, GE, false, lo, xs, ys);
      }
    }

    lemma FirstFits(codes: seq<Code>, lo: nat)
      requires SnippetReady(codes, lo)
      ensures codes[0].id < |p0| == |p1|
    {}

    /** The accumulator of an instruction. */
    method Accumulate(codes: seq<Code>, op: Op, ghost lo: nat, ghost xs: seq<Value>, ghost ys: seq<Value>) returns (go: bool)
      requires Comparable(codes, lo, xs, ys)
      modifies this
      ensures SnippetReady(codes, lo) && Restored(codes, lo, old(p0), p0) && Restored(codes, lo, old(p1), p1) && StillAimed(old(p2), p2)
      ensures dest == Holds(op, old(Outcome(codes, lo, xs, ys))) && (old(!NullOperand(codes)) ==> (go <==> CompareAll(xs, ys) == 0))
      decreases EndAll(codes, lo) - lo, 6
    {
      hide LaidAll, EndAll, CompareAll, AllReady, Restored, OperandsAre;
      match op
      case EQ => go := IsEQAccumulator(codes, lo, xs, ys);
      case NE => go := IsNEAccumulator(codes, lo, xs, ys);
      case LT => go := IsLTAccumulator(codes, lo, xs, ys);
      case GT => go := IsGTAccumulator(codes, lo, xs, ys);
      case LE => go := IsLEAccumulator(codes, lo, xs, ys);
      case GE => go := IsGEAccumulator(codes, lo, xs, ys);
    }

    /** Sets the operands of one instruction of a snippet. */
    method SetOperands(codes: seq<Code>, j: nat, a: Ptr, b: Ptr, ghost lo: nat)
      requires j < |codes| && LaidAll(codes, lo) && Fit(EndAll(codes, lo)) && AllReady(codes, p0, p1)
      modifies this`p0, this`p1
      ensures Fit(EndAll(codes, lo)) && AllReady(codes, p0, p1) && lo <= codes[j].id < EndAll(codes, lo)
      ensures p0 == old(p0)[codes[j].id := a] && p1 == old(p1)[codes[j].id := b]
      ensures forall k :: 0 <= k < |codes| && k != j ==> codes[k].id < |p0| && codes[k].id != codes[j].id
    {
      Apart(codes, lo, j);
      ghost var q0, q1 := p0, p1;
      p0 := p0[codes[j].id := a];
      p1 := p1[codes[j].id := b];
      forall k | 0 <= k < |codes| ensures Ready(codes[k], p0, p1) && (k != j ==> codes[k].id < |p0| && codes[k].id != codes[j].id) {
        Apart(codes, lo, k);
        ReadyFrame(codes[k], q0, q1, p0, p1);
      }
    }

    /** Adds the addresses of the clusters to the operands of a snippet, and aims it at the destination. */
    method MoveOperands(codes: seq<Code>, sx: Ptr, sy: Ptr, ghost lo: nat, ghost xs: seq<Value>, ghost ys: seq<Value>)
      requires LaidAll(codes, lo) && Fit(EndAll(codes, lo)) && AllReady(codes, p0, p1)
      requires forall j :: 0 <= j < |codes| ==> OffsetAt(p0, codes[j].id, j) && OffsetAt(p1, codes[j].id, j)
      requires forall k :: Add(Offset(k), sx) == At(xs, k) && Add(Offset(k), sy) == At(ys, k)
      modifies this`p0, this`p1, this`p2
      ensures Fit(EndAll(codes, lo)) && AllReady(codes, p0, p1) && Aimed(codes, p2) && StillAimed(old(p2), p2)
      ensures Outside(old(p0), p0, lo, EndAll(codes, lo)) && Outside(old(p1), p1, lo, EndAll(codes, lo))
      ensures forall j :: 0 <= j < |codes| ==> p0[codes[j].id] == At(xs, j) && p1[codes[j].id] == At(ys, j)
    {
      hide LaidAll, EndAll, AllReady, Add;
      var j := 0;
      while j < |codes|
        invariant 0 <= j <= |codes| && Fit(EndAll(codes, lo)) && AllReady(codes, p0, p1) && StillAimed(old(p2), p2)
        invariant Outside(old(p0), p0, lo, EndAll(codes, lo)) && Outside(old(p1), p1, lo, EndAll(codes, lo))
        invariant forall k :: 0 <= k < j ==> codes[k].id < |p0| && p0[codes[k].id] == At(xs, k) && p1[codes[k].id] == At(ys, k) && p2[codes[k].id]
        invariant forall k :: j <= k < |codes| ==> OffsetAt(p0, codes[k].id, k) && OffsetAt(p1, codes[k].id, k)
        decreases |codes| - j
      {
        SetOperands(codes, j, Add(p0[codes[j].id], sx), Add(p1[codes[j].id], sy), lo);
        p2 := p2[codes[j].id := true];
        j := j + 1;
      }
    }

    /** Takes the addresses away again. */
    method MoveBack(codes: seq<Code>, ghost lo: nat, ghost xs: seq<Value>, ghost ys: seq<Value>)
      requires LaidAll(codes, lo) && Fit(EndAll(codes, lo)) && AllReady(codes, p0, p1)
      requires forall j :: 0 <= j < |codes| ==> codes[j].id < |p0| && p0[codes[j].id] == At(xs, j) && p1[codes[j].id] == At(ys, j)
      modifies this`p0, this`p1
      ensures Fit(EndAll(codes, lo)) && AllReady(codes, p0, p1)
      ensures Outside(old(p0), p0, lo, EndAll(codes, lo)) && Outside(old(p1), p1, lo, EndAll(codes, lo))
      ensures forall j :: 0 <= j < |codes| ==> OffsetAt(p0, codes[j].id, j) && OffsetAt(p1, codes[j].id, j)
    {
      hide LaidAll, EndAll, AllReady;
      var j := 0;
      while j < |codes|
        invariant 0 <= j <= |codes| && Fit(EndAll(codes, lo)) && AllReady(codes, p0, p1)
        invariant Outside(old(p0), p0, lo, EndAll(codes, lo)) && Outside(old(p1), p1, lo, EndAll(codes, lo))
        invariant forall k :: 0 <= k < j ==> OffsetAt(p0, codes[k].id, k) && OffsetAt(p1, codes[k].id, k)
        invariant forall k :: j <= k < |codes| ==> codes[k].id < |p0| && p0[codes[k].id] == At(xs, k) && p1[codes[k].id] == At(ys, k)
        decreases |codes| - j
      {
        SetOperands(codes, j, Subtract(p0[codes[j].id]), Subtract(p1[codes[j].id]), lo);
        j := j + 1;
      }
    }

    /** Compares two clusters: the operands of the snippet are moved to the clusters, and back afterwards. */
    method ClusterAggBinaryOp(code: Code, op: Op, ghost x: Value, ghost y: Value)
      requires code.ClusterOp? && Laid(code) && Fit(End(code)) && Ready(code, p0, p1) && Fits(code, x) && Fits(code, y)
      requires Operand(p0, code.id, x) && Operand(p1, code.id, y)
      modifies this
      ensures dest == Means(op, x, y)
      ensures dest == Holds(op, Compare(x, y)) && Fit(End(code)) && Ready(code, p0, p1) && StillAimed(old(p2), p2)
      ensures Outside(old(p0), p0, code.id + 1, End(code)) && Outside(old(p1), p1, code.id + 1, End(code))
      decreases End(code) - code.id, 0
    {
      hide Means;
      OperatorsMean(op, x, y);
      var codes := code.fields;
      ghost var lo, xs, ys := code.id + 1, x.fields, y.fields;
      MoveOperands(codes, p0[code.id], p1[code.id], lo, xs, ys);
      EndAllAfter(codes, lo);
      FirstFits(codes, lo);
      AtFields(codes, lo, p0, xs);
      AtFields(codes, lo, p1, ys);
      ghost var q0, q1 := p0, p1;
      var _ := Accumulate(codes, op, lo, xs, ys);
      StillAt(codes, lo, q0, p0, xs);
      StillAt(codes, lo, q1, p1, ys);
      MoveBack(codes, lo, xs, ys);
    }

    static lemma AtFields(codes: seq<Code>, lo: nat, p: seq<Ptr>, xs: seq<Value>)
      requires LaidAll(codes, lo) && EndAll(codes, lo) <= |p| && |xs| == |codes| && forall j :: 0 <= j < |codes| ==> Fits(codes[j], xs[j])
      requires forall j :: 0 <= j < |codes| ==> codes[j].id < |p| && p[codes[j].id] == At(xs, j)
      ensures OperandsAre(codes, p, xs)
    {}

    static lemma StillAt(codes: seq<Code>, lo: nat, p: seq<Ptr>, p': seq<Ptr>, xs: seq<Value>)
      requires Restored(codes, lo, p, p')
      requires forall j :: 0 <= j < |codes| ==> codes[j].id < |p| && p[codes[j].id] == At(xs, j)
      ensures forall j :: 0 <= j < |codes| ==> codes[j].id < |p'| && p'[codes[j].id] == At(xs, j)
    {}

    /** The loop over the elements that both arrays have; decided when they differ in one of them. */
    method CompareElements(code: Code, op: Op, minLength: nat, ghost x: Value, ghost y: Value) returns (decided: bool)
      requires code.VectorOp? && Fits(code, x) && Fits(code, y) && x.Arr? && y.Arr? && SnippetReady([code.element], code.element.id)
      requires minLength <= |x.elements| && minLength <= |y.elements| && code.element.id < |p0|
      requires p0[code.element.id] == At(x.elements, 0) && p1[code.element.id] == At(y.elements, 0)
      modifies this
      ensures var e, a, b := code.element, x.elements, y.elements;
              && SnippetReady([e], e.id) && e.id < |p0| && StillAimed(old(p2), p2)
              && Outside(old(p0), p0, e.id, EndAll([e], e.id)) && Outside(old(p1), p1, e.id, EndAll([e], e.id))
              && if decided then dest == Holds(op, CompareAll(a, b))
                 else && p0[e.id] == At(a, minLength) && p1[e.id] == At(b, minLength)
                      && a[..minLength] == b[..minLength] && (minLength > 0 ==> dest == Holds(op, 0))
      decreases EndAll([code.element], code.element.id) - code.element.id, 7
    {
      hide Ready, Laid, Compare, CompareAll, End, EndAll, Fits;
      var e := code.element;
      ghost var a, b := x.elements, y.elements;
      var i := 0;
      while i < minLength
        invariant 0 <= i <= minLength && SnippetReady([e], e.id) && e.id < |p0| && StillAimed(old(p2), p2)
        invariant Outside(old(p0), p0, e.id, EndAll([e], e.id)) && Outside(old(p1), p1, e.id, EndAll([e], e.id))
        invariant p0[e.id] == At(a, i) && p1[e.id] == At(b, i)
        invariant a[..i] == b[..i] && (i > 0 ==> dest == Holds(op, 0))
        decreases minLength - i
      {
        ElementOperands(code, x, p0, i);
        ElementOperands(code, y, p1, i);
        var go := Accumulate([e], op, e.id, [a[i]], [b[i]]);
        OnePair(a[i], b[i]);
        CompareBasics(a[i], b[i]);
        if !go {
          FirstDifference(a, b, i);
          return true;
        }
        assert [e][0].id == e.id;
        NextElement(e);
        i := i + 1;
      }
      decided := false;
    }

    /** Moves the operands to the next elements. */
    method NextElement(e: Code)
      requires SnippetReady([e], e.id) && e.id < |p0| && p0[e.id].At? && p1[e.id].At?
      modifies this`p0, this`p1, this`p2
      ensures SnippetReady([e], e.id) && e.id < |p0| && StillAimed(old(p2), p2) && e.id < EndAll([e], e.id)
      ensures p0 == old(p0)[e.id := old(p0)[e.id].(index := old(p0)[e.id].index + 1)]
      ensures p1 == old(p1)[e.id := old(p1)[e.id].(index := old(p1)[e.id].index + 1)]
    {
      OneCode(e);
      assert Ready([e][0], p0, p1) && Laid([e][0]);
      AimElement(e, p0[e.id].(index := p0[e.id].index + 1), p1[e.id].(index := p1[e.id].index + 1));
    }

    /** Compares two arrays, element by element; the one that runs out first comes first. */
    method VectorVectorBinaryAccumulatorOp(code: Code, op: Op, ghost x: Value, ghost y: Value)
      requires code.VectorOp? && Laid(code) && Fit(End(code)) && Ready(code, p0, p1) && Fits(code, x) && Fits(code, y)
      requires Operand(p0, code.id, x) && Operand(p1, code.id, y)
      modifies this
      ensures dest == Means(op, x, y)
      ensures dest == Holds(op, Compare(x, y)) && Fit(End(code)) && Ready(code, p0, p1) && StillAimed(old(p2), p2)
      ensures Outside(old(p0), p0, code.id + 1, End(code)) && Outside(old(p1), p1, code.id + 1, End(code))
      decreases End(code) - code.id, 0
    {
      var e, a, b := code.element, p0[code.id].block[p0[code.id].index].elements, p1[code.id].block[p1[code.id].index].elements;
      OneCode(e);
      BothArrays(x, y);
      assert e.id == code.id + 1 && End(e) == End(code);
      OperatorsMean(op, x, y);
      hide Means, Compare, CompareAll, End, EndAll, Fits, AllReady, Restored;
      AimElement(e, At(a, 0), At(b, 0));
      if |a| == 0 && |b| == 0 {
        CompareEmpty(a, b);
        PassNull(e, op, true, true);
      } else {
        var minLength := if |a| < |b| then |a| else |b|;
        var decided := CompareElements(code, op, minLength, x, y);
        if !decided {
          FirstDifference(a, b, minLength);
          if |a| != |b| {
            PassNull(e, op, |a| < |b|, |b| < |a|);
          }
        }
      }
      ReadyElement(code);
    }

    static lemma CompareEmpty(a: seq<Value>, b: seq<Value>)
      requires a == [] && b == []
      ensures CompareAll(a, b) == 0
    {}

    /** Runs the accumulator with null for an array that has run out, or for both when both are empty. */
    method PassNull(e: Code, op: Op, first: bool, second: bool)
      requires SnippetReady([e], e.id) && e.id < |p0| && p0[e.id].At? && p1[e.id].At? && (first || second)
      modifies this
      ensures SnippetReady([e], e.id) && StillAimed(old(p2), p2)
      ensures Outside(old(p0), p0, e.id, EndAll([e], e.id)) && Outside(old(p1), p1, e.id, EndAll([e], e.id))
      ensures dest == Holds(op, if first && second then 0 else if first then -1 else 1)
      decreases EndAll([e], e.id) - e.id, 7
    {
      OneCode(e);
      assert Ready([e][0], p0, p1) && Laid([e][0]);
      hide Laid, Ready, EndAll, End, CompareAll;
      AimElement(e, if first then Null else p0[e.id], if second then Null else p1[e.id]);
      var _ := Accumulate([e], op, e.id, [], []);
    }

    static lemma OnePair(x: Value, y: Value)
      ensures CompareAll([x], [y]) == Compare(x, y)
    {}

    static lemma BothArrays(x: Value, y: Value)
      requires x.Arr? && y.Arr?
      ensures Compare(x, y) == CompareAll(x.elements, y.elements)
    {}

    static lemma OneCode(e: Code)
      ensures EndAll([e], e.id) == End(e) && (Laid(e) ==> LaidAll([e], e.id) && e.id < End(e))
    {
      if Laid(e) {
        EndAfter(e);
      }
      assert [e][1..] == [];
    }

    static lemma ElementOperands(code: Code, x: Value, p: seq<Ptr>, i: nat)
      requires code.VectorOp? && Fits(code, x) && i < |x.elements| && code.element.id < |p| && p[code.element.id] == At(x.elements, i)
      ensures OperandsAre([code.element], p, [x.elements[i]])
    {}

    lemma ReadyElement(code: Code)
      requires code.VectorOp? && Laid(code)
      requires SnippetReady([code.element], code.element.id)
      ensures Ready(code, p0, p1) && Fit(End(code)) && code.element.id == code.id + 1 && End(code.element) == End(code)
    {
      OneCode(code.element);
      assert Ready([code.element][0], p0, p1);
    }

    /** Sets the operands of the instruction for elements. */
    method AimElement(e: Code, a: Ptr, b: Ptr)
      requires Laid(e) && Fit(End(e)) && Ready(e, p0, p1)
      modifies this`p0, this`p1, this`p2
      ensures SnippetReady([e], e.id) && e.id < |p0| && StillAimed(old(p2), p2)
      ensures p0 == old(p0)[e.id := a] && p1 == old(p1)[e.id := b]
    {
      OneCode(e);
      SetOperands([e], 0, a, b, e.id);
      p2 := p2[e.id := true];
    }
  }
}
