/** Sums of finite sequences of counters. */
module Sums {

  function Sum(xs: seq<int>): (n: int) {
    if xs == [] then 0 else Sum(xs[..|xs| - 1]) + xs[|xs| - 1]
  }

  lemma SumNone(xs: seq<int>)
    ensures Sum(xs[..0]) == 0
  {
  }

  lemma SumAppend(xs: seq<int>, x: int)
    ensures Sum(xs + [x]) == Sum(xs) + x
  {
    assert (xs + [x])[..|xs|] == xs;
  }

  lemma {:induction false} SumUpdate(xs: seq<int>, i: nat, x: int)
    requires i < |xs|
    ensures Sum(xs[i := x]) + xs[i] == Sum(xs) + x
    decreases |xs|
  {
    var n := |xs| - 1;
    if i == n {
      assert xs[i := x][..n] == xs[..n];
    } else {
      SumUpdate(xs[..n], i, x);
      assert xs[i := x][..n] == xs[..n][i := x];
    }
  }

  lemma {:induction false} SumMonotone(xs: seq<int>, ys: seq<int>)
    requires |xs| <= |ys| && forall i :: 0 <= i < |xs| ==> xs[i] <= ys[i]
    requires forall i :: |xs| <= i < |ys| ==> 0 <= ys[i]
    ensures Sum(xs) <= Sum(ys)
    decreases |ys|
  {
    if |xs| < |ys| {
      SumMonotone(xs, ys[..|ys| - 1]);
    } else if xs != [] {
      SumMonotone(xs[..|xs| - 1], ys[..|ys| - 1]);
    }
  }

  /** A sum of sums, element by element. */
  lemma {:induction false} SumPointwise(xs: seq<int>, ys: seq<int>, zs: seq<int>)
    requires |xs| == |ys| == |zs| && forall i :: 0 <= i < |xs| ==> xs[i] == ys[i] + zs[i]
    ensures Sum(xs) == Sum(ys) + Sum(zs)
  {
    if xs == [] {
    } else {
      var n := |xs| - 1;
      SumPointwise(xs[..n], ys[..n], zs[..n]);
    }
  }

  lemma SumTake(xs: seq<int>, i: nat)
    requires i < |xs|
    ensures Sum(xs[..i + 1]) == Sum(xs[..i]) + xs[i]
  {
    assert xs[..i + 1][..i] == xs[..i];
  }

  lemma {:induction false} SumZero(xs: seq<int>)
    requires forall i :: 0 <= i < |xs| ==> xs[i] == 0
    ensures Sum(xs) == 0
  {
    if xs == [] {
    } else {
      SumZero(xs[..|xs| - 1]);
    }
  }

  lemma {:induction false} SumNonNegative(xs: seq<int>)
    requires forall i :: 0 <= i < |xs| ==> 0 <= xs[i]
    ensures 0 <= Sum(xs)
  {
    if xs == [] {
    } else {
      SumNonNegative(xs[..|xs| - 1]);
    }
  }
}
