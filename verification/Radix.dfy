/** Changing the base of a number in a digit buffer. */
module Radix {
  import opened Digits

  /** The digits of a number, least significant first and without a leading zero. */
  function ToDigits(b: nat, n: nat): (s: seq<int>)
    requires b >= 2
  {
    if n == 0 then [] else [n % b] + ToDigits(b, n / b)
  }

  ghost predicate Canonical(b: nat, s: seq<int>) {
    AreDigits(b, s) && (s != [] ==> s[|s| - 1] != 0)
  }

  lemma ValueEmpty(b: nat)
    ensures Value(b, []) == 0
  {
  }

  lemma ValueCons(b: nat, d: int, r: seq<int>)
    ensures Value(b, [d] + r) == d + b * Value(b, r)
  {
    ValueSplit(b, [d] + r, 1);
    assert ([d] + r)[..1] == [d] && ([d] + r)[1..] == r;
    assert [d][..0] == [] && Pow(b, 0) == 1 && Pow(b, 1) == b * Pow(b, 0);
    assert Value(b, [d]) == Value(b, []) + d * Pow(b, 0);
  }

  lemma {:induction false} ToDigitsCanonical(b: nat, n: nat)
    requires b >= 2
    ensures Canonical(b, ToDigits(b, n)) && Value(b, ToDigits(b, n)) == n
  {
    hide Value, Pow, ToDigits, Canonical;
    ValueEmpty(b);
    ToDigitsStep(b, n);
    if n == 0 {
      CanonicalEmpty(b);
    } else {
      DivMonotone(b, 0, n);
      ToDigitsCanonical(b, n / b);
      var (d, r) := (n % b, ToDigits(b, n / b));
      DivParts(b, n);
      ValueCons(b, d, r);
      CanonicalCons(b, d, r);
    }
  }

  lemma CanonicalEmpty(b: nat)
    ensures Canonical(b, [])
  {
  }

  lemma CanonicalCons(b: nat, d: int, r: seq<int>)
    requires Canonical(b, r) && 0 <= d < b && (r == [] ==> d != 0)
    ensures Canonical(b, [d] + r)
  {
  }

  /** A number has only one such sequence of digits. */
  lemma {:induction false} CanonicalUnique(b: nat, s: seq<int>)
    requires b >= 2 && Canonical(b, s)
    ensures Value(b, s) >= 0 && s == ToDigits(b, Value(b, s))
    decreases |s|
  {
    hide Value, Pow, ToDigits;
    ValueBound(b, s);
    ValueEmpty(b);
    ToDigitsStep(b, Value(b, s));
    if s != [] {
      var (d, r) := (s[0], s[1..]);
      ValueCons(b, d, r);
      assert s == [d] + r;
      CanonicalUnique(b, r);
      DivModUnique(Value(b, s), b, Value(b, r), d);
      TopDigit(b, s);
    }
  }

  lemma ToDigitsStep(b: nat, n: nat)
    requires b >= 2
    ensures n / b >= 0 && ToDigits(b, n) == if n == 0 then [] else [n % b] + ToDigits(b, n / b)
  {
    DivMonotone(b, 0, n);
  }

  lemma TopDigit(b: nat, s: seq<int>)
    requires b >= 2 && Canonical(b, s) && s != []
    ensures Value(b, s) >= Pow(b, |s| - 1)
  {
    var n := |s| - 1;
    ValueBound(b, s[..n]);
    MulMonotone(1, s[n], Pow(b, n));
  }

  // ---- most significant digit first ----

  function BigEndian(b: nat, s: seq<int>): int {
    if s == [] then 0 else BigEndian(b, s[..|s| - 1]) * b + s[|s| - 1]
  }

  lemma {:induction false} BigEndianBound(b: nat, s: seq<int>)
    requires b > 0 && AreDigits(b, s)
    ensures 0 <= BigEndian(b, s) < Pow(b, |s|)
  {
    if s != [] {
      hide Pow;
      var n := |s| - 1;
      BigEndianBound(b, s[..n]);
      PowStep(b, n);
      NextBound(b, BigEndian(b, s[..n]), s[n], Pow(b, n));
    }
  }

  lemma NextBound(b: int, v: int, d: int, p: int)
    requires 0 <= v < p && 0 <= d < b
    ensures 0 <= v * b + d < b * p
  {
    MulMonotone(v + 1, p, b);
    MulMonotone(0, v, b);
    Distribute(b, v, 1);
  }

  function Reverse<T>(s: seq<T>): (r: seq<T>)
    ensures |r| == |s| && forall i :: 0 <= i < |s| ==> r[i] == s[|s| - 1 - i]
  {
    if s == [] then [] else [s[|s| - 1]] + Reverse(s[..|s| - 1])
  }

  lemma ReverseTwice<T>(s: seq<T>)
    ensures Reverse(Reverse(s)) == s
  {
  }

  lemma {:induction false} BigEndianReverse(b: nat, s: seq<int>)
    ensures BigEndian(b, s) == Value(b, Reverse(s))
  {
    hide Value, Pow;
    ValueEmpty(b);
    if s != [] {
      var n := |s| - 1;
      BigEndianReverse(b, s[..n]);
      var (d, r) := (s[n], Reverse(s[..n]));
      ValueCons(b, d, r);
    }
  }

  /** Big-endian digits that start with a non-zero one are those of their number. */
  lemma BigEndianDigits(b: nat, s: seq<int>)
    requires b >= 2 && AreDigits(b, s) && (s != [] ==> s[0] != 0)
    ensures BigEndian(b, s) >= 0 && Reverse(ToDigits(b, BigEndian(b, s))) == s
  {
    BigEndianReverse(b, s);
    CanonicalUnique(b, Reverse(s));
    ReverseTwice(s);
  }

  /** And the digits of a number, most significant first, have its value. */
  lemma DigitsBigEndian(b: nat, n: nat)
    requires b >= 2
    ensures var s := Reverse(ToDigits(b, n)); AreDigits(b, s) && BigEndian(b, s) == n && (s != [] ==> s[0] != 0)
  {
    ToDigitsCanonical(b, n);
    BigEndianReverse(b, Reverse(ToDigits(b, n)));
    ReverseTwice(ToDigits(b, n));
  }

  lemma {:induction false} DigitsMonotone(b: nat, m: nat, n: nat)
    requires b >= 2 && m <= n
    ensures |ToDigits(b, m)| <= |ToDigits(b, n)|
    decreases n
  {
    if m > 0 {
      DivMonotone(b, m, n);
      DigitsMonotone(b, m / b, n / b);
    }
  }

  lemma DivMonotone(b: nat, m: nat, n: nat)
    requires b >= 2 && m <= n
    ensures 0 <= m / b <= n / b && (n > 0 ==> n / b < n)
  {
    DivParts(b, m);
    DivParts(b, n);
    QuotientOrder(b, m / b, m % b, n / b, n % b);
  }

  lemma QuotientOrder(b: int, q: int, r: int, p: int, t: int)
    requires b >= 2 && 0 <= r < b && 0 <= t < b && q >= 0 && p >= 0 && q * b + r <= p * b + t
    ensures q <= p && (p * b + t > 0 ==> p < p * b + t)
  {
    if q > p { MulMonotone(p + 1, q, b); }
    MulMonotone(2, b, p);
  }

  lemma DivParts(b: nat, m: nat)
    requires b >= 2
    ensures m == (m / b) * b + m % b && 0 <= m % b < b && m / b >= 0
  {
    if m / b < 0 { MulMonotone(m / b, -1, b); }
  }

  // ---- the buffer ----

  /** The buffer holds a number below `length`, and zeros above. */
  ghost predicate Holding(b: nat, buf: seq<int>, length: int, n: int) {
    && b >= 2 && 0 <= length <= |buf| && n >= 0 && buf[..length] == ToDigits(b, n)
    && forall i :: length <= i < |buf| ==> buf[i] == 0
  }

  /** The first `i` digits have been multiplied and added to. */
  ghost predicate MulAdding(b: nat, was: seq<int>, buf: seq<int>, length: int, f: int, c: int, i: int, carry: int) {
    && b >= 2 && f > 0 && 0 <= i <= |buf| == |was| && 0 <= length <= |was| && carry >= 0
    && AreDigits(b, buf) && Canonical(b, was[..length]) && buf[i..] == was[i..]
    && (forall j :: length <= j < |was| ==> was[j] == 0)
    && Value(b, buf[..i]) + carry * Pow(b, i) == f * Value(b, was[..i]) + c
    && (i > 0 && carry == 0 && i >= length ==> buf[i - 1] != 0)
  }

  lemma MulAddStart(b: nat, buf: seq<int>, length: int, n: int, f: int, c: int)
    requires Holding(b, buf, length, n) && f > 0 && c >= 0
    ensures MulAdding(b, buf, buf, length, f, c, 0, c)
  {
    ToDigitsCanonical(b, n);
    forall i | 0 <= i < |buf| ensures 0 <= buf[i] < b { if i < length { assert buf[..length][i] == buf[i]; } }
    assert Pow(b, 0) == 1;
  }

  lemma MulAddStep(b: nat, was: seq<int>, buf: seq<int>, length: int, f: int, c: int, i: int, carry: int, n: int)
    requires MulAdding(b, was, buf, length, f, c, i, carry) && i < |buf| && (carry != 0 || i < length)
    requires n == carry + f * buf[i]
    ensures MulAdding(b, was, buf[i := n % b], length, f, c, i + 1, n / b)
  {
    hide Value, Pow;
    var bs := buf[i := n % b];
    assert buf[i] == buf[i..][0] == was[i..][0] == was[i];
    assert bs[..i] == buf[..i] && bs[i + 1..] == buf[i + 1..] == buf[i..][1..] == was[i..][1..] == was[i + 1..];
    ValueStep(b, bs, i);
    ValueStep(b, was, i);
    MulPositive(f, buf[i]);
    MulAddArithmetic(Value(b, buf[..i]), carry, Value(b, was[..i]), c, f, was[i], n, Pow(b, i), b);
    PowStep(b, i);
    NewTop(b, was, length, f, i, carry, n);
  }

  lemma PowStep(b: nat, i: nat)
    ensures Pow(b, i + 1) == b * Pow(b, i)
  {
  }

  lemma MulAddArithmetic(v: int, carry: int, w: int, c: int, f: int, d: int, n: int, p: int, b: int)
    requires v + carry * p == f * w + c && n == carry + f * d && b > 0
    ensures (v + (n % b) * p) + (n / b) * (b * p) == f * (w + d * p) + c
  {
    Regroup(n / b, b, p);
    Distribute(p, n % b, (n / b) * b);
    Distribute(p, carry, f * d);
    Distribute(f, w, d * p);
    Regroup(f, d, p);
  }

  /** The last digit written is not zero. */
  lemma NewTop(b: nat, was: seq<int>, length: int, f: int, i: int, carry: int, n: int)
    requires b >= 2 && f > 0 && 0 <= i < |was| && 0 <= length <= |was| && carry >= 0 && Canonical(b, was[..length])
    requires forall j :: length <= j < |was| ==> was[j] == 0
    requires n == carry + f * was[i] && n >= 0 && (carry != 0 || i < length)
    ensures n / b >= 0 && 0 <= n % b < b
    ensures n / b == 0 && i + 1 >= length ==> n % b != 0
  {
    DivMonotone(b, 0, n);
    assert n == (n / b) * b + n % b;
    if i == length - 1 {
      assert was[i] == was[..length][length - 1];
      MulMonotone(1, was[i], f);
    }
  }

  /** A buffer large enough for the result has no carry left, and holds it. */
  lemma MulAddEnd(b: nat, was: seq<int>, buf: seq<int>, length: int, n: int, f: int, c: int, i: int, carry: int)
    requires MulAdding(b, was, buf, length, f, c, i, carry) && Holding(b, was, length, n)
    requires (carry == 0 && i >= length) || i == |buf|
    requires f * n + c < Pow(b, |buf|)
    ensures carry == 0 && i >= length && f * n + c >= 0 && Holding(b, buf, i, f * n + c)
  {
    hide Value, Pow, ToDigits;
    ToDigitsCanonical(b, n);
    HighZeros(b, was, i, length);
    ValueBound(b, buf[..i]);
    if carry > 0 { MulMonotone(1, carry, Pow(b, i)); }
    CanonicalUnique(b, buf[..i]);
    forall j | i <= j < |buf| ensures buf[j] == 0 { assert buf[j] == buf[i..][j - i] == was[i..][j - i] == was[j]; }
  }

  lemma HighZeros(b: nat, s: seq<int>, i: int, length: int)
    requires 0 <= length <= i <= |s| && forall j :: length <= j < |s| ==> s[j] == 0
    ensures Value(b, s[..i]) == Value(b, s[..length])
  {
    ValueSplit(b, s[..i], length);
    assert s[..i][..length] == s[..length];
    ValueZero(b, s[..i][length..]);
  }

  /** Multiplies the number in a buffer and adds to it. */
  method MulAdd(buf: array<int>, length: nat, b: nat, f: int, c: int, ghost n: int) returns (newLength: nat)
    requires Holding(b, buf[..], length, n) && f > 0 && c >= 0 && f * n + c < Pow(b, buf.Length)
    modifies buf
    ensures Holding(b, buf[..], newLength, f * n + c) && newLength >= length
  {
    hide Holding, MulAdding, Pow;
    HoldingParts(b, buf[..], length, n);
    ghost var was := buf[..];
    MulAddStart(b, was, length, n, f, c);
    var carry := c;
    var i := 0;
    while (carry != 0 || i < length) && i != buf.Length
      invariant 0 <= i <= buf.Length && MulAdding(b, was, buf[..], length, f, c, i, carry)
    {
      MulAddStep(b, was, buf[..], length, f, c, i, carry, carry + f * buf[i]);
      carry := carry + f * buf[i];
      buf[i] := carry % b;
      carry := carry / b;
      i := i + 1;
    }
    MulAddEnd(b, was, buf[..], length, n, f, c, i, carry);
    assert carry == 0;
    newLength := i;
  }

  lemma HoldingParts(b: nat, buf: seq<int>, length: int, n: int)
    requires Holding(b, buf, length, n)
    ensures b >= 2 && 0 <= length <= |buf| && n >= 0
  {
  }
}
