/** Interleaving and decimating one-dimensional arrays; source/core/Array.cpp. */
module Interleave {
  import opened FlatIndex

  /** The length that all inputs have at least. */
  ghost predicate IsShortest(inputs: seq<seq<int>>, length: nat) {
    && (forall k :: 0 <= k < |inputs| ==> length <= |inputs[k]|)
    && exists k :: 0 <= k < |inputs| && length == |inputs[k]|
  }

  /** Element i of input k is element i * n + k of the output. */
  ghost predicate IsInterleaved(inputs: seq<seq<int>>, length: nat, out: seq<int>) {
    && IsShortest(inputs, length) && |out| == Row(length, |inputs|, 0)
    && forall i, k :: 0 <= i < length && 0 <= k < |inputs| ==> Row(i, |inputs|, k) < |out| && out[Row(i, |inputs|, k)] == inputs[k][i]
  }

  ghost predicate IsDecimated(input: seq<int>, outputs: seq<seq<int>>) {
    && outputs != []
    && forall k :: 0 <= k < |outputs| ==>
         && |outputs[k]| == |input| / |outputs|
         && forall i :: 0 <= i < |outputs[k]| ==> Row(i, |outputs|, k) < |input| && outputs[k][i] == input[Row(i, |outputs|, k)]
  }

  lemma RowBound(i: nat, n: nat, k: nat, length: nat)
    requires i < length && k < n
    ensures Row(i, n, k) < Row(length, n, 0)
  {
    Apart(i, k, length, n);
  }

  lemma RowFits(i: nat, n: nat, k: nat, total: nat)
    requires n > 0 && k < n && i < total / n
    ensures Row(i, n, k) < total
  {
    Apart(i, k, total / n, n);
    assert total == (total / n) * n + total % n;
  }

  /** Decimating what has been interleaved gives the inputs back, as far as they were used. */
  lemma DecimateInterleaved(inputs: seq<seq<int>>, length: nat, out: seq<int>, outputs: seq<seq<int>>)
    requires IsInterleaved(inputs, length, out) && IsDecimated(out, outputs) && |outputs| == |inputs|
    ensures forall k :: 0 <= k < |inputs| ==> outputs[k] == inputs[k][..length]
  {
    var n := |inputs|;
    DivMod(length, n, 0);
    assert |out| / n == length;
    hide Row;
    forall k | 0 <= k < n ensures outputs[k] == inputs[k][..length] {
      forall i | 0 <= i < length ensures outputs[k][i] == inputs[k][i] {}
    }
  }

  /** Interleaving what has been decimated gives the input back when it divides evenly. */
  lemma InterleaveDecimated(input: seq<int>, outputs: seq<seq<int>>, length: nat, out: seq<int>)
    requires IsDecimated(input, outputs) && IsInterleaved(outputs, length, out) && |input| % |outputs| == 0
    ensures out == input
  {
    var n := |outputs|;
    assert length == |input| / n;
    assert |input| == length * n && Row(length, n, 0) == length * n;
    forall q | 0 <= q < |input| ensures out[q] == input[q] {
      Euclid(q, n);
      MulSwapTwo(n, length);
      QuotientBound(q, n, length);
      hide Quotient, Remainder;
      assert q == Row(Quotient(q, n), n, Remainder(q, n));
    }
  }

  ghost function Contents(arrays: seq<array<int>>): (s: seq<seq<int>>)
    reads arrays
    ensures |s| == |arrays| && forall k :: 0 <= k < |arrays| ==> s[k] == arrays[k][..]
  {
    seq(|arrays|, k requires 0 <= k < |arrays| reads arrays => arrays[k][..])
  }

  /** ArrayInterleave */
  method ArrayInterleave(inputs: seq<array<int>>) returns (out: array<int>, ghost length: nat)
    requires inputs != []
    ensures fresh(out) && IsInterleaved(Contents(inputs), length, out[..])
  {
    hide Row;
    var len := inputs[0].Length;
    var k := 0;
    while k < |inputs|
      invariant 0 <= k <= |inputs|
      invariant forall j :: 0 <= j < k ==> len <= inputs[j].Length
      invariant exists j :: 0 <= j < |inputs| && len == inputs[j].Length
    {
      if len > inputs[k].Length {
        len := inputs[k].Length;
      }
      k := k + 1;
    }
    length := len;
    var n := |inputs|;
    RowIs(len, n);
    out := new int[len * n](_ => 0);
    var i := 0;
    while i < len
      invariant 0 <= i <= len
      invariant forall j, m :: 0 <= j < i && 0 <= m < n ==> Row(j, n, m) < out.Length && out[Row(j, n, m)] == inputs[m][j]
    {
      k := 0;
      while k < n
        invariant 0 <= k <= n
        invariant forall j, m :: 0 <= j < i && 0 <= m < n ==> Row(j, n, m) < out.Length && out[Row(j, n, m)] == inputs[m][j]
        invariant forall m :: 0 <= m < k ==> Row(i, n, m) < out.Length && out[Row(i, n, m)] == inputs[m][i]
      {
        RowBound(i, n, k, len);
        OthersElsewhere(i, n, k);
        RowAt(i, n, k);
        out[i * n + k] := inputs[k][i];
        k := k + 1;
      }
      i := i + 1;
    }
  }

  lemma RowIs(o: nat, w: nat)
    ensures Row(o, w, 0) == o * w
  {}

  lemma RowAt(o: nat, w: nat, m: nat)
    ensures Row(o, w, m) == o * w + m
  {}

  lemma OthersElsewhere(i: nat, n: nat, k: nat)
    requires k < n
    ensures forall j: nat, m: nat :: m < n && Row(j, n, m) == Row(i, n, k) ==> j == i && m == k
  {
    forall j: nat, m: nat | m < n && Row(j, n, m) == Row(i, n, k) ensures j == i && m == k {
      DivisionUnique(j, m, i, k, n);
    }
  }

  /** ArrayDecimate into n arrays. */
  method ArrayDecimate(input: array<int>, n: nat) returns (outputs: seq<array<int>>)
    requires n >= 1
    ensures |outputs| == n && (forall k :: 0 <= k < n ==> fresh(outputs[k])) && IsDecimated(input[..], Contents(outputs))
  {
    hide Row;
    outputs := [];
    var outLength := input.Length / n;
    while |outputs| < n
      invariant |outputs| <= n && forall k :: 0 <= k < |outputs| ==> fresh(outputs[k])
      invariant forall k :: 0 <= k < |outputs| ==> OnePart(input[..], n, k, outputs[k][..])
    {
      var part := DecimateOne(input, n, |outputs|, outLength);
      outputs := outputs + [part];
    }
    forall k | 0 <= k < n
      ensures |Contents(outputs)[k]| == input.Length / n
      ensures forall i :: 0 <= i < |Contents(outputs)[k]| ==>
                Row(i, n, k) < input.Length && Contents(outputs)[k][i] == input[..][Row(i, n, k)]
    {
      assert OnePart(input[..], n, k, outputs[k][..]);
    }
  }

  ghost predicate OnePart(input: seq<int>, n: nat, k: nat, out: seq<int>)
    requires n >= 1
  {
    |out| == |input| / n && forall i :: 0 <= i < |out| ==> Row(i, n, k) < |input| && out[i] == input[Row(i, n, k)]
  }

  method DecimateOne(input: array<int>, n: nat, k: nat, outLength: nat) returns (part: array<int>)
    requires k < n && outLength == input.Length / n
    ensures fresh(part) && OnePart(input[..], n, k, part[..])
  {
    hide Row;
    part := new int[outLength](_ => 0);
    var i := 0;
    while i < outLength
      invariant 0 <= i <= outLength
      invariant forall j :: 0 <= j < i ==> Row(j, n, k) < input.Length && part[j] == input[Row(j, n, k)]
    {
      RowFits(i, n, k, input.Length);
      RowAt(i, n, k);
      part[i] := input[i * n + k];
      i := i + 1;
    }
  }
}
