/** The order that comparing arrays and clusters as aggregates is meant to give: lexicographic, through any
    nesting of one-dimensional arrays and clusters. */
module AggregateOrder {

  /** Leaves stand for scalars of any totally ordered type. */
  datatype Value = Leaf(n: int) | Arr(elements: seq<Value>) | Clu(fields: seq<Value>)

  datatype Op = EQ | NE | LT | GT | LE | GE

  /** Whether the operator holds between values that compare as c does with 0. */
  predicate Holds(op: Op, c: int) {
    match op
    case EQ => c == 0
    case NE => c != 0
    case LT => c < 0
    case GT => c > 0
    case LE => c <= 0
    case GE => c >= 0
  }

  function Kind(x: Value): int {
    match x
    case Leaf(_) => 0
    case Arr(_) => 1
    case Clu(_) => 2
  }

  /** Negative, zero or positive.  Values of different types, which the source never compares, are ordered by
      their kind, so that the order is total. */
  function Compare(x: Value, y: Value): int
    decreases x
  {
    match (x, y)
    case (Leaf(m), Leaf(n)) => m - n
    case (Arr(a), Arr(b)) => CompareAll(a, b)
    case (Clu(a), Clu(b)) => CompareAll(a, b)
    case _ => Kind(x) - Kind(y)
  }

  function CompareAll(a: seq<Value>, b: seq<Value>): int
    decreases a
  {
    if a == [] then (if b == [] then 0 else -1)
    else if b == [] then 1
    else
      var c := Compare(a[0], b[0]);
      if c != 0 then c else CompareAll(a[1..], b[1..])
  }

  // ---------------------------------------------------------------- a total order

  /** Equal means the same value; swapping the operands swaps the order. */
  lemma {:induction false} CompareBasics(x: Value, y: Value)
    ensures (Compare(x, y) == 0 <==> x == y) && (Compare(y, x) == 0 <==> x == y)
    ensures Compare(x, y) < 0 <==> Compare(y, x) > 0
    decreases x
  {
    match (x, y)
    case (Arr(a), Arr(b)) => CompareAllBasics(a, b);
    case (Clu(a), Clu(b)) => CompareAllBasics(a, b);
    case _ =>
  }

  lemma {:induction false} CompareAllBasics(a: seq<Value>, b: seq<Value>)
    ensures (CompareAll(a, b) == 0 <==> a == b) && (CompareAll(b, a) == 0 <==> a == b)
    ensures CompareAll(a, b) < 0 <==> CompareAll(b, a) > 0
    decreases a
  {
    if a != [] && b != [] {
      CompareBasics(a[0], b[0]);
      CompareAllBasics(a[1..], b[1..]);
      assert a == [a[0]] + a[1..] && b == [b[0]] + b[1..];
    }
  }

  lemma {:induction false} CompareTransitive(x: Value, y: Value, z: Value)
    requires Compare(x, y) <= 0 && Compare(y, z) <= 0
    ensures Compare(x, z) <= 0 && (Compare(x, y) < 0 || Compare(y, z) < 0 ==> Compare(x, z) < 0)
    decreases x
  {
    match (x, y, z)
    case (Arr(a), Arr(b), Arr(c)) => CompareAllTransitive(a, b, c);
    case (Clu(a), Clu(b), Clu(c)) => CompareAllTransitive(a, b, c);
    case _ =>
  }

  lemma {:induction false} CompareAllTransitive(a: seq<Value>, b: seq<Value>, c: seq<Value>)
    requires CompareAll(a, b) <= 0 && CompareAll(b, c) <= 0
    ensures CompareAll(a, c) <= 0 && (CompareAll(a, b) < 0 || CompareAll(b, c) < 0 ==> CompareAll(a, c) < 0)
    decreases a
  {
    if a != [] && b != [] && c != [] {
      CompareTransitive(a[0], b[0], c[0]);
      CompareBasics(a[0], b[0]);
      CompareBasics(b[0], c[0]);
      if a[0] == b[0] && b[0] == c[0] {
        CompareAllTransitive(a[1..], b[1..], c[1..]);
      }
    }
  }

  /** Exactly one of LT, EQ and GT holds; LE is not GT, GE is not LT, NE is not EQ; EQ is structural. */
  lemma Trichotomy(x: Value, y: Value)
    ensures var c := Compare(x, y);
            && (Holds(EQ, c) <==> x == y) && (Holds(NE, c) <==> !Holds(EQ, c))
            && (Holds(LE, c) <==> !Holds(GT, c)) && (Holds(GE, c) <==> !Holds(LT, c))
            && (Holds(LT, c) || Holds(EQ, c) || Holds(GT, c)) && !(Holds(LT, c) && Holds(EQ, c))
            && !(Holds(EQ, c) && Holds(GT, c)) && !(Holds(LT, c) && Holds(GT, c))
            && (Holds(LT, c) <==> Holds(GT, Compare(y, x))) && (Holds(LE, c) <==> Holds(GE, Compare(y, x)))
  {
    CompareBasics(x, y);
    CompareBasics(y, x);
  }

  lemma LessTransitive(x: Value, y: Value, z: Value)
    requires Holds(LT, Compare(x, y)) && Holds(LT, Compare(y, z))
    ensures Holds(LT, Compare(x, z))
  {
    CompareTransitive(x, y, z);
  }

  // ---------------------------------------------------------------- lexicographic

  /** The first k values agree and the next pair decides. */
  lemma {:induction false} FirstDifference(a: seq<Value>, b: seq<Value>, k: nat)
    requires k <= |a| && k <= |b| && a[..k] == b[..k]
    requires (k == |a| || k == |b|) || Compare(a[k], b[k]) != 0
    ensures CompareAll(a, b) == if k < |a| && k < |b| then Compare(a[k], b[k]) else if |a| < |b| then -1 else if |a| > |b| then 1 else 0
    decreases k
  {
    if k > 0 {
      assert a[0] == a[..k][0] == b[..k][0] == b[0];
      assert a[1..][..k - 1] == a[..k][1..] && b[1..][..k - 1] == b[..k][1..];
      CompareBasics(a[0], b[0]);
      FirstDifference(a[1..], b[1..], k - 1);
    }
  }

  /** Lists are in order exactly when they agree up to a position where the left one ends or is smaller. */
  lemma {:induction false} Lexicographic(a: seq<Value>, b: seq<Value>)
    ensures CompareAll(a, b) < 0 <==>
              exists k :: 0 <= k <= |a| && k < |b| && a[..k] == b[..k] && (k == |a| || Compare(a[k], b[k]) < 0)
  {
    var k := Agreement(a, b);
    FirstDifference(a, b, k);
    if j :| 0 <= j <= |a| && j < |b| && a[..j] == b[..j] && (j == |a| || Compare(a[j], b[j]) < 0) {
      FirstDifference(a, b, j);
    }
  }

  ghost function Agreement(a: seq<Value>, b: seq<Value>): (k: nat)
    ensures k <= |a| && k <= |b| && a[..k] == b[..k] && ((k == |a| || k == |b|) || Compare(a[k], b[k]) != 0)
    decreases |a|
  {
    if a == [] || b == [] then 0
    else
      CompareBasics(a[0], b[0]);
      if Compare(a[0], b[0]) != 0 then 0
      else
        var k := Agreement(a[1..], b[1..]) + 1;
        assert a[..k] == [a[0]] + a[1..][..k - 1] && b[..k] == [b[0]] + b[1..][..k - 1];
        k
  }

  // ---------------------------------------------------------------- the order in its own terms

  /** x comes before y: a smaller number; or a list that agrees with the other up to a position where it ends, or
      has a part that comes before the other's. */
  ghost predicate Precedes(x: Value, y: Value)
    decreases x
  {
    match (x, y)
    case (Leaf(m), Leaf(n)) => m < n
    case (Arr(a), Arr(b)) => ListPrecedes(a, b)
    case (Clu(a), Clu(b)) => ListPrecedes(a, b)
    case _ => Kind(x) < Kind(y)
  }

  ghost predicate ListPrecedes(a: seq<Value>, b: seq<Value>)
    decreases a
  {
    exists k :: 0 <= k <= |a| && k < |b| && a[..k] == b[..k] && (k == |a| || Precedes(a[k], b[k]))
  }

  /** What a comparison of x with y should give. */
  ghost predicate Means(op: Op, x: Value, y: Value) {
    match op
    case EQ => x == y
    case NE => x != y
    case LT => Precedes(x, y)
    case GT => Precedes(y, x)
    case LE => x == y || Precedes(x, y)
    case GE => x == y || Precedes(y, x)
  }

  lemma {:induction false} LessPrecedes(x: Value, y: Value)
    ensures Compare(x, y) < 0 <==> Precedes(x, y)
    decreases x
  {
    match (x, y)
    case (Arr(a), Arr(b)) => LessListPrecedes(a, b);
    case (Clu(a), Clu(b)) => LessListPrecedes(a, b);
    case _ =>
  }

  lemma {:induction false} LessListPrecedes(a: seq<Value>, b: seq<Value>)
    ensures CompareAll(a, b) < 0 <==> ListPrecedes(a, b)
    decreases a
  {
    Lexicographic(a, b);
    forall k | 0 <= k < |a| && k < |b| ensures Compare(a[k], b[k]) < 0 <==> Precedes(a[k], b[k]) {
      LessPrecedes(a[k], b[k]);
    }
  }

  /** The six operators on arrays and clusters of any nesting. */
  lemma OperatorsMean(op: Op, x: Value, y: Value)
    ensures Holds(op, Compare(x, y)) <==> Means(op, x, y)
  {
    Trichotomy(x, y);
    LessPrecedes(x, y);
    LessPrecedes(y, x);
  }

  /** Numbers as an array. */
  function Numbers(ns: seq<int>): (x: Value)
    ensures x.Arr? && |x.elements| == |ns| && forall k :: 0 <= k < |ns| ==> x.elements[k] == Leaf(ns[k])
  {
    Arr(seq(|ns|, k requires 0 <= k < |ns| => Leaf(ns[k])))
  }

  /** The list ms ends, or has the smaller number, where it first differs from ns. */
  ghost predicate NumbersPrecede(ms: seq<int>, ns: seq<int>) {
    exists k :: 0 <= k <= |ms| && k < |ns| && ms[..k] == ns[..k] && (k == |ms| || ms[k] < ns[k])
  }

  /** The six operators on arrays of numbers. */
  lemma NumbersMean(op: Op, ms: seq<int>, ns: seq<int>)
    ensures Holds(op, Compare(Numbers(ms), Numbers(ns))) <==>
              match op
              case EQ => ms == ns
              case NE => ms != ns
              case LT => NumbersPrecede(ms, ns)
              case GT => NumbersPrecede(ns, ms)
              case LE => ms == ns || NumbersPrecede(ms, ns)
              case GE => ms == ns || NumbersPrecede(ns, ms)
  {
    OperatorsMean(op, Numbers(ms), Numbers(ns));
    SameNumbers(ms, ns);
    PrecedingNumbers(ms, ns);
    PrecedingNumbers(ns, ms);
  }

  lemma SameNumbers(ms: seq<int>, ns: seq<int>)
    ensures Numbers(ms) == Numbers(ns) <==> ms == ns
  {
    var a, b := Numbers(ms).elements, Numbers(ns).elements;
    if a == b {
      assert forall k :: 0 <= k < |ms| ==> a[k] == Leaf(ms[k]) && b[k] == Leaf(ns[k]);
    }
  }

  lemma PrecedingNumbers(ms: seq<int>, ns: seq<int>)
    ensures Precedes(Numbers(ms), Numbers(ns)) <==> NumbersPrecede(ms, ns)
  {
    var x, y := Numbers(ms), Numbers(ns);
    var a, b := x.elements, y.elements;
    forall k | 0 <= k <= |ms| && k <= |ns| ensures a[..k] == b[..k] <==> ms[..k] == ns[..k] {
      SamePrefix(ms, ns, k);
    }
    forall k | 0 <= k < |ms| && k < |ns| ensures Precedes(a[k], b[k]) <==> ms[k] < ns[k] {
      assert a[k] == Leaf(ms[k]) && b[k] == Leaf(ns[k]);
    }
    assert Precedes(x, y) <==> ListPrecedes(a, b);
    if ListPrecedes(a, b) {
      var k :| 0 <= k <= |a| && k < |b| && a[..k] == b[..k] && (k == |a| || Precedes(a[k], b[k]));
      assert ms[..k] == ns[..k] && (k == |ms| || ms[k] < ns[k]);
    }
    if NumbersPrecede(ms, ns) {
      var k :| 0 <= k <= |ms| && k < |ns| && ms[..k] == ns[..k] && (k == |ms| || ms[k] < ns[k]);
      assert a[..k] == b[..k] && (k == |a| || Precedes(a[k], b[k]));
    }
  }

  lemma SamePrefix(ms: seq<int>, ns: seq<int>, k: nat)
    requires k <= |ms| && k <= |ns|
    ensures Numbers(ms).elements[..k] == Numbers(ns).elements[..k] <==> ms[..k] == ns[..k]
  {
    var a, b := Numbers(ms).elements, Numbers(ns).elements;
    if a[..k] == b[..k] {
      forall j | 0 <= j < k ensures ms[j] == ns[j] {
        assert a[..k][j] == b[..k][j] && a[j] == Leaf(ms[j]) && b[j] == Leaf(ns[j]);
      }
    }
    if ms[..k] == ns[..k] {
      forall j | 0 <= j < k ensures a[j] == b[j] {
        assert ms[..k][j] == ns[..k][j];
      }
    }
  }

  /** 3 comes before 5, and a list before those that continue it. */
  lemma ThreeBeforeFive()
    ensures Holds(LT, Compare(Numbers([3]), Numbers([5]))) && !Holds(LT, Compare(Numbers([5]), Numbers([3])))
    ensures Holds(LT, Compare(Numbers([3]), Numbers([3, 1]))) && Holds(GE, Compare(Numbers([5]), Numbers([3, 9])))
  {
    assert [3][..1] == [3, 1][..1] == [3];
    assert NumbersPrecede([3], [5]) && NumbersPrecede([3, 9], [5]) by { assert [3][..0] == [5][..0] == [3, 9][..0]; }
    NumbersMean(LT, [3], [5]);
    NumbersMean(GT, [5], [3]);
    NumbersMean(LT, [3], [3, 1]);
    NumbersMean(GE, [5], [3, 9]);
    Trichotomy(Numbers([5]), Numbers([3]));
  }
}
