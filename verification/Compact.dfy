/** The compact format of targets, on numbers. */
module Compact {
  import opened Digits
  import opened Limbs

  const SIGN := 0x80_0000

  function Size(c: uint32): int { c / 0x100_0000 }

  function Word(c: uint32): int { c % SIGN }

  predicate SignBit(c: uint32) { c / SIGN % 2 == 1 }

  function Byte(n: nat): (p: nat)
    ensures p > 0
  {
    Pow2(8 * n)
  }

  /** The number a code stands for, sign aside: no bound on its size. */
  function Exact(c: uint32): nat {
    if Size(c) <= 3 then DivideLess(Word(c), Byte(3 - Size(c))); Word(c) / Byte(3 - Size(c))
    else MulPositive(Word(c), Byte(Size(c) - 3)); Word(c) * Byte(Size(c) - 3)
  }

  lemma Bytes()
    ensures Byte(0) == 1 && Byte(1) == 256 && Byte(2) == 0x1_0000 && Byte(3) == 0x100_0000
  {
    Pow2At32();
    Pow2Add(16, 8);
    assert Pow2(0) == 1;
  }

  lemma ByteAdd(m: nat, n: nat)
    ensures Byte(m + n) == Byte(m) * Byte(n)
  {
    Pow2Add(8 * m, 8 * n);
  }

  /**
   One byte for the size n, one bit for the sign and 23 for the word m: the number is
   m * 256^(n - 3), rounded down.
   */
  lemma ExactMeaning(n: nat, sign: bool, m: nat)
    requires n < 256 && m < 0x80_0000
    ensures var c := n * 0x100_0000 + (if sign then 0x80_0000 else 0) + m;
            && SignBit(c) == sign
            && (n >= 3 ==> Exact(c) == m * Pow2(8 * (n - 3)))
            && (n < 3 ==> Exact(c) * Pow2(8 * (3 - n)) <= m < (Exact(c) + 1) * Pow2(8 * (3 - n)))
  {
    hide Pow2, Size, Word, SignBit;
    var c: uint32 := n * 0x100_0000 + (if sign then 0x80_0000 else 0) + m;
    CodeSplits(n, sign, m);
    Bytes();
    if n == 3 { assert m / Byte(0) == m == m * Byte(0); }
    if n < 3 { DivideBounds(m, Byte(3 - n)); }
  }

  lemma CodeSplits(n: nat, sign: bool, m: nat)
    requires n < 256 && m < 0x80_0000
    ensures var c := n * 0x100_0000 + (if sign then 0x80_0000 else 0) + m;
            Size(c) == n && Word(c) == m && SignBit(c) == sign
  {
  }

  lemma DivideBounds(x: nat, p: int)
    requires p > 0
    ensures x / p * p <= x < (x / p + 1) * p
  {
    assert x == x / p * p + x % p;
    Distribute(p, x / p, 1);
  }

  /** The code of the easiest target of the main network. */
  lemma KnownTarget()
    ensures Exact(0x1d00ffff) == 0xffff * Pow2(208) && !SignBit(0x1d00ffff)
  {
    hide Pow2;
    ExactMeaning(0x1d, false, 0xffff);
  }

  // ---- overflow ----

  /** The word of a code after it has been shifted down. */
  function Shown(c: uint32): int { if Size(c) <= 3 then Word(c) / Byte(3 - Size(c)) else Word(c) }

  predicate OverflowFlag(c: uint32) {
    var (w, n) := (Shown(c), Size(c));
    w != 0 && (n > 34 || (w > 0xff && n > 33) || (w > 0xffff && n > 32))
  }

  /** The flag is set exactly if the number does not fit in 256 bits. */
  lemma OverflowExactly(c: uint32)
    ensures OverflowFlag(c) <==> Exact(c) >= Byte(32)
  {
    hide Byte;
    Bytes();
    var (w, n) := (Word(c), Size(c));
    if n <= 3 {
      DivideLess(w, Byte(3 - n));
      ByteAdd(3, 29);
      MulAtLeast(0x100_0000, Byte(29));
    } else {
      var e := n - 3;
      if e >= 32 {
        ByteAdd(32, e - 32);
        MulAtLeast(Byte(32), Byte(e - 32));
        if w > 0 { MulMonotone(1, w, Byte(e)); }
      } else if e == 31 {
        ByteAdd(1, 31);
        MulThreshold(w, Byte(31), 256);
      } else if e == 30 {
        ByteAdd(2, 30);
        MulThreshold(w, Byte(30), 0x1_0000);
      } else {
        ByteAdd(e, 3);
        ByteAdd(e + 3, 32 - (e + 3));
        MulAtLeast(Byte(e + 3), Byte(32 - (e + 3)));
        MulThreshold(w, Byte(e), 0x100_0000);
      }
    }
  }

  lemma MulThreshold(w: int, p: int, t: int)
    requires p > 0
    ensures w * p >= t * p <==> w >= t
  {
    if w >= t { MulMonotone(t, w, p); } else { MulMonotone(w + 1, t, p); Distribute(p, w, 1); }
  }

  // ---- encoding ----

  /** How many bytes a number takes. */
  function ByteCount(x: nat): nat { if x == 0 then 0 else 1 + ByteCount(x / 256) }

  lemma {:induction false} ByteCountBounds(x: nat)
    ensures x < Byte(ByteCount(x))
    ensures x > 0 ==> ByteCount(x) >= 1 && Byte(ByteCount(x) - 1) <= x
  {
    hide Byte;
    Bytes();
    if x > 0 {
      var n := ByteCount(x / 256);
      ByteCountBounds(x / 256);
      ByteAdd(1, n);
      if n > 0 { ByteAdd(1, n - 1); }
    }
  }

  lemma ByteCountUnique(x: nat, n: nat)
    requires x < Byte(n) && (n > 0 ==> Byte(n - 1) <= x)
    ensures ByteCount(x) == n
  {
    hide Byte;
    ByteCountBounds(x);
    var m := ByteCount(x);
    Bytes();
    if n < m { ByteMonotone(n, m - 1); }
    if m < n { ByteMonotone(m, n - 1); }
  }

  lemma ByteMonotone(m: nat, n: nat)
    requires m <= n
    ensures Byte(m) <= Byte(n)
  {
    PowMonotone(2, 8 * m, 8 * n);
  }

  /** The leading three bytes. */
  function Leading(x: nat): nat {
    var n := ByteCount(x);
    if n <= 3 then MulPositive(x, Byte(3 - n)); x * Byte(3 - n) else DivideLess(x, Byte(n - 3)); x / Byte(n - 3)
  }

  /** They leave room for the sign, or one of them is given up. */
  function Mantissa(x: nat): nat { if Leading(x) >= SIGN then Leading(x) / 256 else Leading(x) }

  function Exponent(x: nat): nat { ByteCount(x) + if Leading(x) >= SIGN then 1 else 0 }

  lemma LeadingFits(x: nat)
    ensures Leading(x) < 0x100_0000
    ensures ByteCount(x) >= 3 ==> 0x1_0000 <= Leading(x)
  {
    hide Byte, ByteCount;
    Bytes();
    ByteCountBounds(x);
    ZeroCount();
    var n := ByteCount(x);
    if n >= 3 {
      ByteAdd(3, n - 3);
      ByteAdd(2, n - 3);
      var u := Byte(n - 3);
      assert Leading(x) == x / u;
      DivideThreshold(x, u, 0x100_0000);
      DivideThreshold(x, u, 0x1_0000);
    } else if n > 0 {
      ByteAdd(n, 3 - n);
      MulMonotone(x + 1, Byte(n), Byte(3 - n));
      Distribute(Byte(3 - n), x, 1);
    }
  }

  lemma DivideThreshold(x: int, u: int, t: int)
    requires u > 0
    ensures x / u >= t <==> x >= t * u
  {
    assert x == (x / u) * u + x % u;
    if x / u >= t { MulMonotone(t, x / u, u); } else { MulMonotone(x / u + 1, t, u); Distribute(u, x / u, 1); }
  }

  lemma MantissaFits(x: nat)
    ensures Mantissa(x) < SIGN
  {
    LeadingFits(x);
  }

  function Code(x: nat, negative: bool): uint32
    requires Exponent(x) < 256
  {
    MantissaFits(x);
    Exponent(x) * 0x100_0000 + Mantissa(x) + if negative && Mantissa(x) != 0 then SIGN else 0
  }

  lemma CodeParts(x: nat, negative: bool)
    requires Exponent(x) < 256
    ensures Mantissa(x) < SIGN
    ensures Size(Code(x, negative)) == Exponent(x) && Word(Code(x, negative)) == Mantissa(x)
    ensures SignBit(Code(x, negative)) <==> negative && Mantissa(x) != 0
  {
    hide Mantissa, Exponent;
    MantissaFits(x);
  }

  /** The exponent of a number of at most 254 bytes fits. */
  lemma ExponentFits(x: nat, n: nat)
    requires x < Byte(n)
    ensures Exponent(x) <= n + 1
  {
    ByteCountBounds(x);
    if ByteCount(x) > n { ByteMonotone(n, ByteCount(x) - 1); }
  }

  /** What is left of a number: its leading digits in some unit. */
  lemma Rounded(x: nat)
    requires Exponent(x) < 256
    ensures ByteCount(x) < 3 ==> Exact(Code(x, false)) == x
    ensures ByteCount(x) >= 3 && Leading(x) < SIGN ==> Exact(Code(x, false)) == Leading(x) * Byte(ByteCount(x) - 3)
    ensures ByteCount(x) >= 3 && Leading(x) >= SIGN ==>
            Exact(Code(x, false)) == Leading(x) / 256 * Byte(ByteCount(x) - 2)
  {
    hide Byte, Code, ByteCount;
    Bytes();
    CodeParts(x, false);
    ByteCountBounds(x);
    if ByteCount(x) < 3 { RoundedSmall(x); }
  }

  /** Numbers of one or two bytes lose nothing. */
  lemma RoundedSmall(x: nat)
    requires ByteCount(x) < 3
    ensures Exponent(x) <= 3 && Mantissa(x) / Byte(3 - Exponent(x)) == x
  {
    hide Byte, ByteCount;
    Bytes();
    ByteCountBounds(x);
    ZeroCount();
    var n := ByteCount(x);
    assert Leading(x) == x * Byte(3 - n);
    if x == 0 {
    } else if n == 1 {
      assert Leading(x) == x * 0x1_0000;
    } else {
      assert Leading(x) == x * 256;
    }
  }

  lemma ZeroCount()
    ensures ByteCount(0) == 0
  {
  }

  /** Decoding an encoded number gives at most that number, off by less than one part in 2^15. */
  lemma CompactRounds(x: nat)
    requires Exponent(x) < 256
    ensures 0 <= Exact(Code(x, false)) <= x
    ensures (x - Exact(Code(x, false))) * 0x8000 <= x
  {
    hide Byte, Exact, Code;
    Rounded(x);
    LeadingFits(x);
    Bytes();
    var n := ByteCount(x);
    if n >= 3 {
      var (l, u) := (Leading(x), Byte(n - 3));
      assert l == x / u;
      if l < SIGN {
        Truncated(x, u, 0x1_0000);
      } else {
        ByteAdd(1, n - 3);
        Cascade(x, u);
        Truncated(x, Byte(n - 2), 0x8000);
      }
    }
  }

  lemma Truncated(x: nat, u: int, t: nat)
    requires u > 0 && x / u >= t >= 0x8000
    ensures 0 <= x / u * u <= x && (x - x / u * u) * 0x8000 <= x
  {
    assert x == (x / u) * u + x % u;
    MulMonotone(0x8000, x / u, u);
  }

  /** Dividing twice. */
  lemma Cascade(x: nat, u: int)
    requires u > 0
    ensures x / u / 256 == x / (256 * u)
  {
    var l := x / u;
    var (q, r) := (l / 256, l % 256);
    assert x == l * u + x % u;
    assert l * u == q * (256 * u) + r * u by { Distribute(u, 256 * q, r); Regroup(q, 256, u); }
    MulMonotone(r, 255, u);
    MulMonotone(0, r, u);
    DivModUnique(x, 256 * u, q, r * u + x % u);
  }

  /** Encoding the decoded number gives the same code back. */
  lemma CompactStable(x: nat)
    requires Exponent(x) < 256
    ensures Exact(Code(x, false)) >= 0
    ensures Exponent(Exact(Code(x, false))) == Exponent(x) && Mantissa(Exact(Code(x, false))) == Mantissa(x)
    ensures Code(Exact(Code(x, false)), false) == Code(x, false)
  {
    hide Byte, Exact, ByteCount, Leading;
    Rounded(x);
    LeadingFits(x);
    Bytes();
    var (n, l, y) := (ByteCount(x), Leading(x), Exact(Code(x, false)));
    if n >= 3 {
      var u := Byte(n - 3);
      if l < SIGN {
        LeadingKept(y, n, l, u);
      } else {
        var m := l / 256;
        ByteAdd(1, n - 3);
        Regroup(m, 256, u);
        LeadingKept(y, n, m * 256, u);
      }
    }
  }

  /** A number that consists of its three leading bytes. */
  lemma LeadingKept(y: nat, n: nat, l: nat, u: nat)
    requires n >= 3 && u == Byte(n - 3) && 0x1_0000 <= l < 0x100_0000 && y == l * u
    ensures ByteCount(y) == n && Leading(y) == l
  {
    hide Byte, ByteCount;
    Bytes();
    ByteAdd(2, n - 3);
    ByteAdd(3, n - 3);
    MulMonotone(0x1_0000, l, u);
    MulMonotone(l, 0xff_ffff, u);
    assert u > 0 by { BytePositive(n - 3); }
    ByteCountUnique(y, n);
    DivModUnique(y, u, l, 0);
  }

  lemma BytePositive(n: nat)
    ensures Byte(n) > 0
  {
  }
}
