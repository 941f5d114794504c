/** Sums of an integer function over a sequence. */
module Sums {

  function Sum<T>(f: T -> int, xs: seq<T>): int {
    if xs == [] then 0 else Sum(f, xs[..|xs| - 1]) + f(xs[|xs| - 1])
  }

  lemma {:induction false} SumUpdate<T>(f: T -> int, xs: seq<T>, i: int, t: T)
    requires 0 <= i < |xs|
    ensures Sum(f, xs[i := t]) == Sum(f, xs) - f(xs[i]) + f(t)
  {
    var n := |xs| - 1;
    if i == n {
      assert xs[i := t][..n] == xs[..n];
    } else {
      SumUpdate(f, xs[..n], i, t);
      assert xs[i := t][..n] == xs[..n][i := t];
    }
  }

  lemma {:induction false} SumSame<T>(f: T -> int, xs: seq<T>, ys: seq<T>)
    requires |xs| == |ys| && forall i :: 0 <= i < |xs| ==> f(ys[i]) == f(xs[i])
    ensures Sum(f, ys) == Sum(f, xs)
  {
    if xs != [] { SumSame(f, xs[..|xs| - 1], ys[..|ys| - 1]); }
  }

  lemma {:induction false} SumZero<T>(f: T -> int, xs: seq<T>)
    requires forall i :: 0 <= i < |xs| ==> f(xs[i]) == 0
    ensures Sum(f, xs) == 0
  {
    if xs != [] { SumZero(f, xs[..|xs| - 1]); }
  }

  lemma {:induction false} SumAtLeast<T(!new)>(f: T -> int, xs: seq<T>, i: int)
    requires forall t :: f(t) >= 0
    ensures Sum(f, xs) >= 0
    ensures 0 <= i < |xs| ==> Sum(f, xs) >= f(xs[i])
  {
    if xs != [] { SumAtLeast(f, xs[..|xs| - 1], i); }
  }

  /** A positive sum has a positive term. */
  lemma {:induction false} SumPositive<T>(f: T -> int, xs: seq<T>) returns (i: int)
    requires Sum(f, xs) > 0
    ensures 0 <= i < |xs| && f(xs[i]) > 0
  {
    var n := |xs| - 1;
    if f(xs[n]) > 0 { i := n; } else { i := SumPositive(f, xs[..n]); }
  }
}
