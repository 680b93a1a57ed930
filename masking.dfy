/** Boolean masking of the flattened (batch x S x S) grid, as `t[has_object_map]`
    and `t[~has_object_map]` do in yolo_loss.py: the rows whose flag is set, in
    their original order. */
module Masking {

  /** Number of set flags. */
  function Count(m: seq<bool>): (n: nat)
    ensures n <= |m|
  {
    if m == [] then 0 else (if m[0] then 1 else 0) + Count(m[1..])
  }

  /** The rows of `xs` whose flag in `m` is set, in order. */
  function Mask<T>(xs: seq<T>, m: seq<bool>): (r: seq<T>)
    requires |xs| == |m|
    ensures |r| == Count(m)
  {
    if xs == [] then []
    else (if m[0] then [xs[0]] else []) + Mask(xs[1..], m[1..])
  }

  /** The complement of a mask (`~has_object_map`). */
  function Complement(m: seq<bool>): (r: seq<bool>)
    ensures |r| == |m|
    ensures forall i :: 0 <= i < |m| ==> r[i] == !m[i]
  {
    seq(|m|, i requires 0 <= i < |m| => !m[i])
  }

  /** The grid position of the k-th selected row: a set flag with exactly k
      set flags before it. */
  function MaskIndex(m: seq<bool>, k: nat): (i: nat)
    requires k < Count(m)
    ensures i < |m| && m[i]
    ensures Count(m[..i]) == k
  {
    if m[0] && k == 0 then
      assert m[..0] == [];
      0
    else
      var j := MaskIndex(m[1..], if m[0] then k - 1 else k);
      assert m[..j + 1][1..] == m[1..][..j];
      j + 1
  }

  /** Masking keeps rows paired: row k of every masked sequence comes from
      the same grid position, so two sequences masked by one flag vector
      stay aligned row for row. */
  lemma {:induction false} MaskAt<T>(xs: seq<T>, m: seq<bool>, k: nat)
    requires |xs| == |m| && k < Count(m)
    ensures Mask(xs, m)[k] == xs[MaskIndex(m, k)]
  {
    if m[0] && k == 0 {
    } else {
      MaskAt(xs[1..], m[1..], if m[0] then k - 1 else k);
    }
  }

  /** Masking keeps the order of the rows: later selected rows come from later
      grid positions. */
  lemma {:induction false} MaskIndexIncreasing(m: seq<bool>, k1: nat, k2: nat)
    requires k1 < k2 < Count(m)
    ensures MaskIndex(m, k1) < MaskIndex(m, k2)
  {
    var i1, i2 := MaskIndex(m, k1), MaskIndex(m, k2);
    if i2 <= i1 {
      CountPrefixMonotone(m, i2, i1);
      assert false;
    }
  }

  /** A longer prefix holds at least as many set flags. */
  lemma {:induction false} CountPrefixMonotone(m: seq<bool>, a: nat, b: nat)
    requires a <= b <= |m|
    ensures Count(m[..a]) <= Count(m[..b])
  {
    if a > 0 {
      assert m[..a][1..] == m[1..][..a - 1];
      assert m[..b][1..] == m[1..][..b - 1];
      CountPrefixMonotone(m[1..], a - 1, b - 1);
    }
  }

  /** Every set flag is the position of some selected row. */
  lemma {:induction false} MaskIndexCovers(m: seq<bool>, i: nat)
    requires i < |m| && m[i]
    ensures Count(m[..i]) < Count(m)
    ensures MaskIndex(m, Count(m[..i])) == i
  {
    if i == 0 {
      assert m[..0] == [];
    } else {
      assert m[..i][1..] == m[1..][..i - 1];
      MaskIndexCovers(m[1..], i - 1);
    }
  }

  /** A flag vector and its complement split the rows into two disjoint
      parts that together hold every row exactly once. */
  lemma {:induction false} MaskPartition<T>(xs: seq<T>, m: seq<bool>)
    requires |xs| == |m|
    ensures Count(m) + Count(Complement(m)) == |m|
    ensures multiset(Mask(xs, m)) + multiset(Mask(xs, Complement(m))) == multiset(xs)
  {
    if xs != [] {
      assert Complement(m)[1..] == Complement(m[1..]);
      MaskPartition(xs[1..], m[1..]);
      assert xs == [xs[0]] + xs[1..];
    }
  }

  /** The masked rows depend only on the rows whose flag is set. */
  lemma {:induction false} MaskCongruent<T>(xs: seq<T>, ys: seq<T>, m: seq<bool>)
    requires |xs| == |m| && |ys| == |m|
    requires forall i :: 0 <= i < |m| && m[i] ==> xs[i] == ys[i]
    ensures Mask(xs, m) == Mask(ys, m)
  {
    if xs != [] {
      MaskCongruent(xs[1..], ys[1..], m[1..]);
    }
  }

  /** With no flag set nothing is selected. */
  lemma {:induction false} MaskNone<T>(xs: seq<T>, m: seq<bool>)
    requires |xs| == |m|
    requires forall i :: 0 <= i < |m| ==> !m[i]
    ensures Mask(xs, m) == []
  {
    if xs != [] {
      MaskNone(xs[1..], m[1..]);
    }
  }
}
