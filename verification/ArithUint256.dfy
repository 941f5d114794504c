/** 256-bit numbers: the compact format in place, and the work of a block. */
module ArithUint256 {
  import opened Digits
  import opened Limbs
  import opened LimbLoops
  import opened BaseUint
  import opened Compact

  lemma Width()
    ensures Modulus(8) == Byte(32)
  {
    LimbPow(8);
  }

  /** Reads a code; the value is exact unless it overflows, and the flags say so. */
  method SetCompact(a: Uint, c: uint32) returns (negative: bool, overflow: bool)
    requires a.pn.Length == 8
    modifies a.pn
    ensures overflow <==> Exact(c) >= Byte(32)
    ensures negative <==> Exact(c) != 0 && SignBit(c)
    ensures a.Val() == Exact(c) % Byte(32) && (!overflow ==> a.Val() == Exact(c))
  {
    hide Number, Modulus, Byte, Pow2;
    Width();
    var size := c / 0x100_0000;
    var word: uint32 := c % SIGN;
    OverflowExactly(c);
    ExactParts(c);
    if size <= 3 {
      DivideLess(word, Byte(3 - size));
      word := word / Byte(3 - size);
      a.Set64(word);
    } else {
      a.Set64(word);
      BytePow2(size - 3);
      a.ShiftLeft(8 * (size - 3));
    }
    negative := word != 0 && c / SIGN % 2 == 1;
    overflow := word != 0 && (size > 34 || (word > 0xff && size > 33) || (word > 0xffff && size > 32));
    if !overflow { SmallResidue(Exact(c), Byte(32)); }
  }

  lemma BytePow2(n: nat)
    ensures Byte(n) == Pow2(8 * n)
  {
  }

  lemma ExactParts(c: uint32)
    ensures Exact(c) >= 0 && (Exact(c) != 0 <==> Shown(c) != 0)
    ensures Size(c) <= 3 ==> Exact(c) < SIGN < Byte(32) && Exact(c) % Byte(32) == Exact(c)
  {
    hide Byte;
    if Size(c) <= 3 {
      DivideLess(Word(c), Byte(3 - Size(c)));
      Bytes();
      ByteMonotone(3, 32);
      SmallResidue(Exact(c), Byte(32));
    } else {
      MulPositive(Word(c), Byte(Size(c) - 3));
    }
  }

  /** The number of bytes, from the number of bits. */
  lemma BytesFromBits(x: nat, n: nat)
    requires IsBits(x, n)
    ensures (n + 7) / 8 == ByteCount(x)
  {
    var m := (n + 7) / 8;
    if x > 0 {
      PowMonotone(2, n, 8 * m);
      PowMonotone(2, 8 * (m - 1), n - 1);
      ByteCountUnique(x, m);
    }
  }

  method GetCompact(a: Uint, negative: bool) returns (c: uint32)
    requires a.pn.Length == 8
    ensures Exponent(a.Val()) < 256 && c == Code(a.Val(), negative)
  {
    hide Number, Modulus, Byte, Code, IsBits, ByteCount, Leading;
    ghost var x := a.Val();
    NumberFits(a.pn[..]);
    Width();
    ExponentFits(x, 32);
    LeadingFits(x);
    var bits := a.Bits();
    BytesFromBits(x, bits);
    var size := (bits + 7) / 8;
    var mantissa := LeadingBytes(a, size);
    if mantissa / SIGN % 2 == 1 {
      mantissa := mantissa / 256;
      size := size + 1;
    }
    assert mantissa < SIGN && size < 256;
    c := Assemble(mantissa, size, negative);
    CodeValue(x, negative);
  }

  /** The three leading bytes of a number, of which the size in bytes is known. */
  method LeadingBytes(a: Uint, size: nat) returns (m: uint32)
    requires a.pn.Length == 8 && size == ByteCount(a.Val())
    ensures m == Leading(a.Val())
  {
    hide Number, Modulus, Byte, Pow2, ByteCount, Leading;
    ghost var x := a.Val();
    if size <= 3 {
      LeadingSmall(x);
      var low := a.GetLow64();
      m := (low * Pow2(8 * (3 - size))) % B;
    } else {
      LeadingLarge(x);
      var bn := new Uint.Copy(a);
      bn.ShiftRight(8 * (size - 3));
      var low := bn.GetLow64();
      m := low % B;
    }
  }

  lemma LeadingSmall(x: nat)
    requires ByteCount(x) <= 3
    ensures x % (B * B) == x && (x * Pow2(8 * (3 - ByteCount(x)))) % B == Leading(x)
  {
    hide Byte, Pow2, ByteCount, Leading;
    LeadingFits(x);
    LeadingParts(x);
    ByteCountBounds(x);
    ByteMonotone(ByteCount(x), 3);
    Bytes();
    SmallResidue(x, B * B);
    BytePow2(3 - ByteCount(x));
    SmallResidue(Leading(x), B);
  }

  lemma LeadingLarge(x: nat)
    requires ByteCount(x) > 3
    ensures var l := x / Pow2(8 * (ByteCount(x) - 3)); l % (B * B) % B == Leading(x)
  {
    hide Byte, Pow2, ByteCount, Leading;
    LeadingFits(x);
    LeadingParts(x);
    BytePow2(ByteCount(x) - 3);
    SmallResidue(Leading(x), B * B);
    SmallResidue(Leading(x), B);
  }

  lemma LeadingParts(x: nat)
    ensures ByteCount(x) <= 3 ==> Leading(x) == x * Byte(3 - ByteCount(x))
    ensures ByteCount(x) > 3 ==> Leading(x) == x / Byte(ByteCount(x) - 3)
  {
  }

  /** Mantissa, size and sign put together with bitwise or. */
  method Assemble(mantissa: uint32, size: nat, negative: bool) returns (c: uint32)
    requires mantissa < SIGN && size < 256
    ensures c == size * 0x100_0000 + mantissa + if negative && mantissa != 0 then SIGN else 0
  {
    hide Or, Pow2;
    Pow2At23();
    DivModUnique(size * 0x100_0000, 0x100_0000, size, 0);
    OrAdds(mantissa, size * 0x100_0000, 24);
    c := Or(mantissa, size * 0x100_0000);
    if negative && c % SIGN != 0 {
      SignOr(mantissa, size);
      c := Or(c, SIGN);
    }
  }

  lemma Pow2At23()
    ensures Pow2(23) == SIGN && Pow2(24) == 0x100_0000
  {
    Pow2At32();
    Pow2Add(16, 8);
    assert Pow2(24) == 2 * Pow2(23);
  }

  /** The sign bit lies between the mantissa and the size. */
  lemma SignOr(mantissa: uint32, size: nat)
    requires mantissa < SIGN && size < 256
    ensures Or(size * 0x100_0000 + mantissa, SIGN) == size * 0x100_0000 + mantissa + SIGN
  {
    hide Pow2;
    Pow2At23();
    OrParts(2 * size, mantissa, 1, 0, 23);
    OrZero(mantissa);
    OrOne(size);
  }

  /** Bitwise or works on the high and the low bits apart. */
  lemma {:induction false} OrParts(h: nat, l: nat, i: nat, m: nat, k: nat)
    requires l < Pow2(k) && m < Pow2(k)
    ensures h * Pow2(k) + l >= 0 && i * Pow2(k) + m >= 0
    ensures BitOr(h * Pow2(k) + l, i * Pow2(k) + m) == BitOr(h, i) * Pow2(k) + BitOr(l, m)
  {
    hide BitOr, Pow2;
    Pow2Double(k);
    MulPositive(h, Pow2(k));
    MulPositive(i, Pow2(k));
    if k == 0 {
      OrZero(0);
    } else {
      var p := Pow2(k - 1);
      OrParts(h, l / 2, i, m / 2, k - 1);
      Shuffle(h, 2, p);
      Shuffle(i, 2, p);
      Shuffle(BitOr(h, i), 2, p);
      OrUnfold(l, m);
      OrDouble(h * p + l / 2, l % 2, i * p + m / 2, m % 2);
    }
  }

  lemma OrUnfold(x: nat, y: nat)
    ensures BitOr(x, y) == (if x % 2 == 1 || y % 2 == 1 then 1 else 0) + 2 * BitOr(x / 2, y / 2)
  {
  }

  lemma OrDouble(x: nat, b: nat, y: nat, c: nat)
    requires b < 2 && c < 2
    ensures BitOr(2 * x + b, 2 * y + c) == (if b == 1 || c == 1 then 1 else 0) + 2 * BitOr(x, y)
  {
    OrUnfold(2 * x + b, 2 * y + c);
  }

  lemma OrOne(n: nat)
    ensures BitOr(2 * n, 1) == 2 * n + 1
  {
    OrZero(n);
  }

  lemma CodeValue(x: nat, negative: bool)
    requires Exponent(x) < 256
    ensures Code(x, negative) ==
            Exponent(x) * 0x100_0000 + Mantissa(x) + if negative && Mantissa(x) != 0 then SIGN else 0
  {
  }

  // ---- work ----

  /** The work of a target: the expected number of hashes. */
  ghost function Work(target: nat): int { Byte(32) / (target + 1) }

  /** 2^256 over the target plus one, rounded down: the expected number of hashes for a block. */
  lemma WorkExactly(t: nat)
    ensures Work(t) * (t + 1) <= Pow2(256) < (Work(t) + 1) * (t + 1)
  {
    hide Pow2;
    DivideBounds(Byte(32), t + 1);
  }

  /** A smaller target is never less work. */
  lemma WorkAntitone(s: nat, t: nat)
    requires s <= t
    ensures Work(s) >= Work(t) >= 0
  {
    hide Byte;
    var (m, w) := (Byte(32), Work(t));
    assert m == w * (t + 1) + m % (t + 1);
    DivideThreshold(m, t + 1, 0);
    Distribute(w, s + 1, t - s);
    MulPositive(w, t - s);
    DivideThreshold(m, s + 1, w);
  }

  /** The formula of the code, which never leaves 256 bits. */
  lemma WorkFormula(t: nat)
    requires 1 <= t < Byte(32) - 1
    ensures (Byte(32) - 1 - t) / (t + 1) + 1 == Work(t) < Byte(32)
  {
    hide Byte;
    var (m, d) := (Byte(32), t + 1);
    WorkParts(m, d, m / d, m % d);
  }

  lemma WorkParts(m: int, d: int, q: int, r: int)
    requires 2 <= d < m && m == q * d + r && 0 <= r < d
    ensures (m - d) / d + 1 == q < m
  {
    Distribute(d, q, -1);
    DivModUnique(m - d, d, q - 1, r);
    if q >= m { MulMonotone(m, q, d); MulMonotone(2, d, m); }
  }

  /** A target that a code can name is never the largest number. */
  lemma TargetBelow(c: uint32)
    requires Exact(c) < Byte(32)
    ensures Exact(c) < Byte(32) - 1
  {
    hide Byte;
    Bytes();
    ByteMonotone(3, 32);
    if Size(c) <= 3 {
      DivideLess(Word(c), Byte(3 - Size(c)));
    } else {
      var e := Size(c) - 3;
      ByteAdd(1, e - 1);
      ByteAdd(1, 31);
      Shuffle(Word(c), 256, Byte(e - 1));
    }
  }

  /** The work of a block is zero for a target that is no target, and 2^256 / (target + 1) otherwise. */
  method GetBlockProof(nBits: uint32) returns (work: Uint)
    ensures fresh(work) && fresh(work.pn) && work.pn.Length == 8
    ensures work.Val() ==
            if SignBit(nBits) || Exact(nBits) >= Byte(32) || Exact(nBits) == 0 then 0 else Work(Exact(nBits))
  {
    hide Number, Modulus, Byte, Exact, Work, SignBit;
    var target := new Uint.Zero(8);
    var negative, overflow := SetCompact(target, nBits);
    var zero := target.EqualTo64(0);
    if negative || overflow || zero {
      ExactParts(nBits);
      work := new Uint.Zero(8);
      return;
    }
    ghost var t := target.Val();
    TargetBelow(nBits);
    WorkFormula(t);
    Width();
    work := target.Complement();
    var one := new Uint.Zero(8);
    one.Set64(1);
    SmallResidue(t + 1, Byte(32));
    target.Add(one);
    var ok := work.Divide(target);
    SmallResidue(Work(t), Byte(32));
    work.Add(one);
  }
}
