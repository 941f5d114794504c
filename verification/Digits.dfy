/** Numbers as digits in a base, least significant first. */
module Digits {

  // ---- powers ----

  function Pow(b: nat, n: nat): (p: nat)
    ensures b > 0 ==> p > 0
  {
    if n == 0 then 1 else
      var q := Pow(b, n - 1);
      MulPositive(b, q);
      b * q
  }

  lemma MulPositive(a: nat, b: nat)
    ensures a * b >= 0 && (a > 0 && b > 0 ==> a * b > 0)
  {
  }

  lemma {:induction false} PowAdd(b: nat, m: nat, n: nat)
    ensures Pow(b, m + n) == Pow(b, m) * Pow(b, n)
  {
    if m > 0 {
      PowAdd(b, m - 1, n);
      Regroup(b, Pow(b, m - 1), Pow(b, n));
    }
  }

  lemma {:induction false} PowPow(b: nat, m: nat, n: nat)
    ensures Pow(Pow(b, m), n) == Pow(b, m * n)
  {
    if n > 0 {
      PowPow(b, m, n - 1);
      assert m + m * (n - 1) == m * n;
      PowAdd(b, m, m * (n - 1));
    }
  }

  lemma {:induction false} PowMonotone(b: nat, m: nat, n: nat)
    requires b > 0 && m <= n
    ensures Pow(b, m) <= Pow(b, n)
  {
    PowAdd(b, m, n - m);
    MulAtLeast(Pow(b, m), Pow(b, n - m));
  }

  lemma Regroup(a: int, b: int, c: int)
    ensures a * (b * c) == (a * b) * c
  {
  }

  lemma Shuffle(a: int, b: int, c: int)
    ensures a * (b * c) == b * (a * c)
  {
    Regroup(a, b, c);
    Regroup(b, a, c);
  }

  lemma Distribute(a: int, b: int, c: int)
    ensures a * (b + c) == a * b + a * c
  {
  }

  lemma MulAtLeast(a: nat, b: nat)
    requires b > 0
    ensures a <= a * b
  {
  }

  lemma MulMonotone(a: int, b: int, c: nat)
    requires a <= b
    ensures a * c <= b * c
  {
  }

  lemma DivideLess(x: nat, p: int)
    requires p > 0
    ensures 0 <= x / p <= x
  {
    var (q, r) := (x / p, x % p);
    assert x == q * p + r;
    if q < 0 { MulMonotone(q, -1, p); }
    if q > 0 { MulMonotone(1, p, q); }
  }

  /** Quotient and remainder are determined by what they add up to. */
  lemma DivModUnique(x: int, m: int, q: int, r: int)
    requires 0 < m && x == q * m + r && 0 <= r < m
    ensures x / m == q && x % m == r
  {
    var d := x / m - q;
    assert x % m == x - (x / m) * m;
    assert (x / m) * m == q * m + d * m;
    assert r - x % m == d * m;
    if d > 0 { MulMonotone(1, d, m); }
    if d < 0 { MulMonotone(d, -1, m); }
  }

  /** Two numbers below `m` that differ by a multiple of it are the same. */
  lemma ModUnique(x: int, m: int, q: int, v: int)
    requires 0 < m && v == x + q * m && 0 <= v < m
    ensures v == x % m
  {
    assert x == (-q) * m + v;
    DivModUnique(x, m, -q, v);
  }

  // ---- values ----

  ghost predicate AreDigits(b: nat, s: seq<int>) {
    forall i :: 0 <= i < |s| ==> 0 <= s[i] < b
  }

  ghost function Value(b: nat, s: seq<int>): int {
    if s == [] then 0 else Value(b, s[..|s| - 1]) + s[|s| - 1] * Pow(b, |s| - 1)
  }

  lemma ValueStep(b: nat, s: seq<int>, i: int)
    requires 0 <= i < |s|
    ensures Value(b, s[..i + 1]) == Value(b, s[..i]) + s[i] * Pow(b, i)
  {
    assert s[..i + 1][..i] == s[..i];
  }

  lemma {:induction false} ValueBound(b: nat, s: seq<int>)
    requires b > 0 && AreDigits(b, s)
    ensures 0 <= Value(b, s) < Pow(b, |s|)
  {
    if s != [] {
      var n := |s| - 1;
      ValueBound(b, s[..n]);
      MulMonotone(s[n], b - 1, Pow(b, n));
      MulMonotone(0, s[n], Pow(b, n));
      assert (b - 1) * Pow(b, n) + Pow(b, n) == b * Pow(b, n);
    }
  }

  lemma {:induction false} ValueUpdate(b: nat, s: seq<int>, i: int, x: int)
    requires 0 <= i < |s|
    ensures Value(b, s[i := x]) == Value(b, s) + (x - s[i]) * Pow(b, i)
  {
    var n := |s| - 1;
    if i == n {
      assert s[i := x][..n] == s[..n];
      assert x * Pow(b, i) == s[i] * Pow(b, i) + (x - s[i]) * Pow(b, i);
    } else {
      ValueUpdate(b, s[..n], i, x);
      assert s[i := x][..n] == s[..n][i := x];
    }
  }

  /** The low digits and the high ones. */
  lemma {:induction false} ValueSplit(b: nat, s: seq<int>, k: int)
    requires 0 <= k <= |s|
    ensures Value(b, s) == Value(b, s[..k]) + Pow(b, k) * Value(b, s[k..])
  {
    if k == |s| {
      assert s[..k] == s && s[k..] == [];
    } else {
      hide Pow;
      var n := |s| - 1;
      ValueSplit(b, s[..n], k);
      assert s[..n][..k] == s[..k] && s[..n][k..] == s[k..n];
      assert s[k..][..n - k] == s[k..n];
      PowAdd(b, k, n - k);
      assert Value(b, s[k..]) == Value(b, s[k..n]) + s[n] * Pow(b, n - k);
      Shuffle(s[n], Pow(b, k), Pow(b, n - k));
      Distribute(Pow(b, k), Value(b, s[k..n]), s[n] * Pow(b, n - k));
    }
  }

  lemma {:induction false} ValueZero(b: nat, s: seq<int>)
    requires forall i :: 0 <= i < |s| ==> s[i] == 0
    ensures Value(b, s) == 0
  {
    if s != [] { ValueZero(b, s[..|s| - 1]); }
  }

  /** The highest digit that differs decides. */
  lemma ValueCompare(b: nat, s: seq<int>, t: seq<int>, i: int)
    requires b > 0 && AreDigits(b, s) && AreDigits(b, t) && |s| == |t|
    requires 0 <= i < |s| && s[i] < t[i] && s[i + 1..] == t[i + 1..]
    ensures Value(b, s) < Value(b, t)
  {
    ValueSplit(b, s, i + 1);
    ValueSplit(b, t, i + 1);
    ValueStep(b, s, i);
    ValueStep(b, t, i);
    ValueBound(b, s[..i]);
    ValueBound(b, t[..i]);
    MulMonotone(s[i] + 1, t[i], Pow(b, i));
    assert (s[i] + 1) * Pow(b, i) == s[i] * Pow(b, i) + Pow(b, i);
  }
}
