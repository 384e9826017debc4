/** Weighted sums over a sequence.  A state machine keeps one record per thread in a
    sequence; "the number of threads in phase P" and "the tokens held by all threads"
    are sums of a per-thread weight, and one step changes one record. */
module Sums {

  function Sum<T>(xs: seq<T>, w: T -> int): int {
    if xs == [] then 0 else w(xs[0]) + Sum(xs[1..], w)
  }

  /** Changing one record moves the sum by the change of that record's weight. */
  lemma {:induction false} SumUpdate<T>(xs: seq<T>, i: nat, v: T, w: T -> int)
    requires i < |xs|
    ensures Sum(xs[i := v], w) == Sum(xs, w) - w(xs[i]) + w(v)
  {
    if i == 0 {
      assert xs[0 := v][1..] == xs[1..];
    } else {
      SumUpdate(xs[1..], i - 1, v, w);
      assert xs[i := v][1..] == xs[1..][i - 1 := v];
    }
  }

  lemma {:induction false} SumOfSplit<T>(xs: seq<T>, w: T -> int, u: T -> int, v: T -> int)
    requires forall i :: 0 <= i < |xs| ==> w(xs[i]) == u(xs[i]) + v(xs[i])
    ensures Sum(xs, w) == Sum(xs, u) + Sum(xs, v)
  {
    if xs != [] {
      SumOfSplit(xs[1..], w, u, v);
    }
  }

  lemma {:induction false} SumMonotone<T>(xs: seq<T>, v: T -> int, w: T -> int)
    requires forall i :: 0 <= i < |xs| ==> v(xs[i]) <= w(xs[i])
    ensures Sum(xs, v) <= Sum(xs, w)
  {
    if xs != [] {
      SumMonotone(xs[1..], v, w);
    }
  }

  lemma {:induction false} SumBounds<T>(xs: seq<T>, lo: int, hi: int, w: T -> int)
    requires forall i :: 0 <= i < |xs| ==> lo <= w(xs[i]) <= hi
    ensures lo * |xs| <= Sum(xs, w) <= hi * |xs|
  {
    if xs != [] {
      SumBounds(xs[1..], lo, hi, w);
    }
  }

  /** A sum of non-negative weights is at least any one of them. */
  lemma {:induction false} SumAtLeast<T>(xs: seq<T>, i: nat, w: T -> int)
    requires i < |xs|
    requires forall k :: 0 <= k < |xs| ==> 0 <= w(xs[k])
    ensures w(xs[i]) <= Sum(xs, w)
  {
    if i == 0 {
      SumNonNegative(xs[1..], w);
    } else {
      SumAtLeast(xs[1..], i - 1, w);
    }
  }

  lemma {:induction false} SumNonNegative<T>(xs: seq<T>, w: T -> int)
    requires forall k :: 0 <= k < |xs| ==> 0 <= w(xs[k])
    ensures 0 <= Sum(xs, w)
  {
    if xs != [] {
      SumNonNegative(xs[1..], w);
    }
  }

  /** ... and at least any two of them together. */
  lemma {:induction false} SumAtLeastTwo<T>(xs: seq<T>, i: nat, j: nat, w: T -> int)
    requires i < j < |xs|
    requires forall k :: 0 <= k < |xs| ==> 0 <= w(xs[k])
    ensures w(xs[i]) + w(xs[j]) <= Sum(xs, w)
  {
    if i == 0 {
      SumAtLeast(xs[1..], j - 1, w);
    } else {
      SumAtLeastTwo(xs[1..], i - 1, j - 1, w);
    }
  }

  /** A positive sum has a positive summand. */
  lemma {:induction false} SumWitness<T>(xs: seq<T>, w: T -> int) returns (i: nat)
    requires 0 < Sum(xs, w)
    ensures i < |xs| && 0 < w(xs[i])
  {
    if 0 < w(xs[0]) {
      i := 0;
    } else {
      i := SumWitness(xs[1..], w);
      i := i + 1;
    }
  }
}
