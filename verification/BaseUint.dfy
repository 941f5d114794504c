/** Unsigned integers of any number of limbs, computed on in place. */
module BaseUint {
  import opened Digits
  import opened Limbs
  import opened LimbLoops

  class Uint {
    const pn: array<uint32>

    ghost function Val(): (v: int)
      reads pn
      ensures v >= 0
    {
      NumberFits(pn[..]);
      Number(pn[..])
    }

    constructor Zero(width: nat)
      ensures fresh(pn) && pn.Length == width && Val() == 0
    {
      pn := new uint32[width](_ => 0);
      new;
      ValueZero(B, pn[..]);
    }

    constructor Copy(b: Uint)
      ensures fresh(pn) && pn[..] == b.pn[..]
    {
      pn := new uint32[b.pn.Length](i requires 0 <= i < b.pn.Length reads b.pn => b.pn[i]);
    }

    /** Addition modulo the width; the argument may be the receiver. */
    method Add(b: Uint)
      requires b.pn.Length == pn.Length
      modifies pn
      ensures Val() == (old(Val()) + old(b.Val())) % Modulus(pn.Length)
    {
      hide Adding, Number, Modulus;
      ghost var xs: seq<int>, ys: seq<int> := pn[..], b.pn[..];
      AddStart(xs, ys);
      var carry: uint64 := 0;
      var i := 0;
      while i < pn.Length
        invariant 0 <= i <= pn.Length && carry <= 1 && pn[i..] == xs[i..] && b.pn[i..] == ys[i..]
        invariant Adding(pn[..], xs, ys, i, carry)
      {
        assert pn[i] == xs[i] && b.pn[i] == ys[i];
        var n: uint64 := carry + pn[i] + b.pn[i];
        AddStep(pn[..], xs, ys, i, carry, n);
        pn[i] := n % B;
        carry := n / B;
        i := i + 1;
      }
      AddEnd(pn[..], xs, ys, carry);
    }

    method Zeroize()
      modifies pn
      ensures Val() == 0 && forall i :: 0 <= i < pn.Length ==> pn[i] == 0
    {
      var i := 0;
      while i < pn.Length
        invariant 0 <= i <= pn.Length && forall j :: 0 <= j < i ==> pn[j] == 0
      {
        pn[i] := 0;
        i := i + 1;
      }
      NumberZero(pn[..]);
    }

    /** Assigning a 64-bit number. */
    method Set64(b: uint64)
      requires pn.Length >= 2
      modifies pn
      ensures Val() == b
    {
      hide Number, Modulus;
      pn[0] := b % B;
      pn[1] := b / B;
      var i := 2;
      while i < pn.Length
        invariant 2 <= i <= pn.Length && pn[0] == b % B && pn[1] == b / B && forall j :: 2 <= j < i ==> pn[j] == 0
      {
        pn[i] := 0;
        i := i + 1;
      }
      LowLimbs(pn[..]);
      NumberZero(pn[..][2..]);
    }

    /** The low 64 bits. */
    method GetLow64() returns (n: uint64)
      requires pn.Length >= 2
      ensures n == Val() % (B * B)
    {
      hide Number, Modulus;
      LowLimbs(pn[..]);
      HighOr(pn[0], pn[1]);
      n := BitOr(pn[0], pn[1] * B);
      ghost var (lo, hi) := (pn[0] + pn[1] * B, Number(pn[..][2..]));
      DivModUnique(Val(), B * B, hi, lo);
    }

    method Increment()
      modifies pn
      ensures Val() == (old(Val()) + 1) % Modulus(pn.Length)
    {
      hide Incrementing, Number, Modulus;
      ghost var xs: seq<int> := pn[..];
      IncrementStart(xs);
      var i := 0;
      while i < pn.Length
        invariant 0 <= i <= pn.Length && Incrementing(pn[..], xs, i)
      {
        IncrementStep(pn[..], xs, i);
        pn[i] := (pn[i] + 1) % B;
        if pn[i] != 0 {
          IncrementEnd(pn[..], xs);
          return;
        }
        i := i + 1;
      }
      IncrementEnd(pn[..], xs);
    }

    method Decrement()
      modifies pn
      ensures Val() == (old(Val()) - 1) % Modulus(pn.Length)
    {
      hide Decrementing, Number, Modulus;
      ghost var xs: seq<int> := pn[..];
      DecrementStart(xs);
      var i := 0;
      while i < pn.Length
        invariant 0 <= i <= pn.Length && Decrementing(pn[..], xs, i)
      {
        DecrementStep(pn[..], xs, i);
        pn[i] := (pn[i] + (B - 1)) % B;
        if pn[i] != B - 1 {
          DecrementEnd(pn[..], xs);
          return;
        }
        i := i + 1;
      }
      DecrementEnd(pn[..], xs);
    }

    method Complement() returns (ret: Uint)
      ensures fresh(ret) && fresh(ret.pn) && ret.pn.Length == pn.Length
      ensures ret.Val() == Modulus(pn.Length) - 1 - Val()
    {
      hide Number, Modulus;
      ret := new Uint.Zero(pn.Length);
      var i := 0;
      while i < pn.Length
        invariant 0 <= i <= pn.Length && forall j :: 0 <= j < i ==> ret.pn[j] == B - 1 - pn[j]
      {
        ret.pn[i] := B - 1 - pn[i];
        i := i + 1;
      }
      ComplementValue(ret.pn[..], pn[..]);
    }

    /** Two's complement. */
    method Negate() returns (ret: Uint)
      ensures fresh(ret) && fresh(ret.pn) && ret.pn.Length == pn.Length
      ensures ret.Val() == (-Val()) % Modulus(pn.Length)
    {
      hide Number, Modulus;
      ret := Complement();
      ret.Increment();
      NumberFits(pn[..]);
      NegativeResidue(Val(), Modulus(pn.Length));
    }

    method Subtract(b: Uint)
      requires b.pn.Length == pn.Length
      modifies pn
      ensures Val() == (old(Val()) - old(b.Val())) % Modulus(pn.Length)
    {
      hide Number, Modulus;
      NumberFits(pn[..]);
      NegativeAdds(Val(), b.Val(), Modulus(pn.Length));
      var n := b.Negate();
      Add(n);
    }

    method MultiplySmall(f: uint32)
      modifies pn
      ensures Val() == (f * old(Val())) % Modulus(pn.Length)
    {
      hide Scaling, Number, Modulus;
      ghost var xs: seq<int> := pn[..];
      ScaleStart(xs, f);
      var carry: uint64 := 0;
      var i := 0;
      while i < pn.Length
        invariant 0 <= i <= pn.Length && carry < B && pn[i..] == xs[i..]
        invariant Scaling(pn[..], xs, f, i, carry)
      {
        assert pn[i] == xs[i];
        ProductFits(f, pn[i], carry, 0);
        var n: uint64 := carry + (f as uint64) * pn[i];
        ScaleStep(pn[..], xs, f, i, carry, n);
        pn[i] := n % B;
        carry := n / B;
        i := i + 1;
      }
      ScaleEnd(pn[..], xs, f, carry);
    }

    /** Adds a limb times `b`, moved up by `j` limbs; what does not fit is lost. */
    method AddRow(f: uint32, b: Uint, j: nat) returns (ghost carry: int)
      requires b.pn.Length == pn.Length && j <= pn.Length && b.pn != pn
      modifies pn
      ensures Multiplying(pn[..], old(Val()), f, b.pn[..], pn.Length - j, j, carry)
    {
      hide Multiplying, Number, Modulus;
      ghost var v := Val();
      RowStart(pn[..], f, b.pn[..], j);
      var c: uint64 := 0;
      var i := 0;
      while i + j < pn.Length
        invariant 0 <= i <= pn.Length - j && c < B
        invariant Multiplying(pn[..], v, f, b.pn[..], i, j, c)
      {
        ProductFits(f, b.pn[i], c, pn[i + j]);
        var n: uint64 := c + pn[i + j] + (f as uint64) * b.pn[i];
        MultiplyStep(pn[..], v, f, b.pn[..], i, j, c, n);
        pn[i + j] := n % B;
        c := n / B;
        i := i + 1;
      }
      carry := c;
    }

    method Multiply(b: Uint)
      requires b.pn.Length == pn.Length
      modifies pn
      ensures Val() == (old(Val()) * old(b.Val())) % Modulus(pn.Length)
    {
      hide Multiplied, Multiplying, Number, Modulus;
      var a := new Uint.Zero(pn.Length);
      ghost var q := 0;
      ProductStart(a.pn[..], pn[..], b.pn[..]);
      var j := 0;
      while j < pn.Length
        invariant 0 <= j <= pn.Length && pn[..] == old(pn[..]) && b.pn[..] == old(b.pn[..])
        invariant Multiplied(a.pn[..], pn[..], b.pn[..], j, q)
      {
        ghost var v := a.Val();
        ProductParts(a.pn[..], pn[..], b.pn[..], j, q);
        ghost var carry := a.AddRow(pn[j], b, j);
        MultiplyRow(a.pn[..], v, pn[..], b.pn[..], j, carry, q);
        q := q - carry - pn[j] * Number(b.pn[..][pn.Length - j..]);
        j := j + 1;
      }
      MultiplyEnd(a.pn[..], pn[..], b.pn[..], q);
      Assign(a);
    }

    method Assign(b: Uint)
      requires b.pn.Length == pn.Length
      modifies pn
      ensures pn[..] == old(b.pn[..])
    {
      var i := 0;
      while i < pn.Length
        invariant 0 <= i <= pn.Length && pn[..i] == old(b.pn[..i]) && (b.pn != pn ==> b.pn[..] == old(b.pn[..]))
        invariant b.pn == pn ==> pn[..] == old(pn[..])
      {
        pn[i] := b.pn[i];
        i := i + 1;
      }
    }

    method ShiftLeft(shift: nat)
      modifies pn
      ensures Val() == (old(Val()) * Pow2(shift)) % Modulus(pn.Length)
    {
      hide ShiftingLeft, Number, Modulus, Left, Right, Or;
      var a := new Uint.Copy(this);
      Zeroize();
      var (k, s) := (shift / 32, shift % 32);
      LeftStart(pn[..], a.pn[..], k, s);
      ghost var q := 0;
      var i := 0;
      while i < pn.Length
        invariant 0 <= i <= pn.Length && a.pn[..] == old(pn[..])
        invariant ShiftingLeft(pn[..], a.pn[..], i, k, s, q)
      {
        q := LeftStep(pn[..], a.pn[..], i, k, s, q);
        if i + k + 1 < pn.Length && s != 0 {
          pn[i + k + 1] := Or(pn[i + k + 1], Right(a.pn[i], 32 - s));
        }
        if i + k < pn.Length {
          pn[i + k] := Or(pn[i + k], Left(a.pn[i], s));
        }
        i := i + 1;
      }
      LeftEnd(pn[..], a.pn[..], k, s, q);
    }

    method ShiftRight(shift: nat)
      modifies pn
      ensures Val() == old(Val()) / Pow2(shift)
    {
      hide ShiftingRight, Number, Modulus, Left, Right, Or;
      var a := new Uint.Copy(this);
      Zeroize();
      var (k, s) := (shift / 32, shift % 32);
      RightStart(pn[..], a.pn[..], k, s);
      ghost var r := 0;
      var i := 0;
      while i < pn.Length
        invariant 0 <= i <= pn.Length && a.pn[..] == old(pn[..])
        invariant ShiftingRight(pn[..], a.pn[..], i, k, s, r)
      {
        r := RightStep(pn[..], a.pn[..], i, k, s, r);
        if i - k - 1 >= 0 && s != 0 {
          pn[i - k - 1] := Or(pn[i - k - 1], Left(a.pn[i], 32 - s));
        }
        if i - k >= 0 {
          pn[i - k] := Or(pn[i - k], Right(a.pn[i], s));
        }
        i := i + 1;
      }
      RightEnd(pn[..], a.pn[..], k, s, r);
    }

    method CompareTo(b: Uint) returns (c: int)
      requires b.pn.Length == pn.Length
      ensures c == if Val() < b.Val() then -1 else if Val() > b.Val() then 1 else 0
    {
      var i := pn.Length;
      while i > 0
        invariant 0 <= i <= pn.Length && pn[..][i..] == b.pn[..][i..]
      {
        i := i - 1;
        if pn[i] < b.pn[i] {
          ValueCompare(B, pn[..], b.pn[..], i);
          return -1;
        }
        if pn[i] > b.pn[i] {
          ValueCompare(B, b.pn[..], pn[..], i);
          return 1;
        }
      }
      assert pn[..] == pn[..][0..] == b.pn[..][0..] == b.pn[..];
      return 0;
    }

    method EqualTo64(b: uint64) returns (same: bool)
      requires pn.Length >= 2
      ensures same <==> Val() == b
    {
      hide Number, Modulus;
      LowLimbs(pn[..]);
      var i := pn.Length - 1;
      while i >= 2
        invariant 1 <= i < pn.Length && forall j :: i < j < pn.Length ==> pn[j] == 0
      {
        if pn[i] != 0 {
          HighNonZero(pn[..], i);
          return false;
        }
        i := i - 1;
      }
      NumberZero(pn[..][2..]);
      if pn[1] != b / B { return false; }
      if pn[0] != b % B { return false; }
      return true;
    }

    method SetBit(t: nat)
      requires t < 32 * pn.Length && Val() % Pow2(t + 1) == 0
      modifies pn
      ensures Val() == old(Val()) + Pow2(t)
    {
      hide Number, Or, Pow2;
      SetBitAdds(pn[..], t);
      pn[t / 32] := Or(pn[t / 32], Pow2(t % 32));
    }

    /**
     Division by shifting and subtracting. It fails for a zero divisor, and leaves
     zero behind; otherwise it is exact.
     */
    method Divide(b: Uint) returns (ok: bool)
      requires b.pn.Length == pn.Length
      modifies pn
      ensures ok <==> old(b.Val()) != 0
      ensures Val() == if ok then old(Val()) / old(b.Val()) else 0
    {
      hide Number, Modulus, Pow2, IsBits, Dividing;
      var div := new Uint.Copy(b);
      var num := new Uint.Copy(this);
      ghost var (n, d) := (num.Val(), div.Val());
      NumberFits(num.pn[..]);
      NumberFits(div.pn[..]);
      Zeroize();
      var numBits := num.Bits();
      var divBits := div.Bits();
      BitsZero(d, divBits);
      if divBits == 0 { return false; }
      if divBits > numBits {
        FewerBits(n, d, numBits, divBits);
        return true;
      }
      var shift := numBits - divBits;
      DivideStart(n, d, numBits, divBits);
      ModulusBits(pn.Length, numBits);
      SmallResidue(d * Pow2(shift), Modulus(pn.Length));
      div.ShiftLeft(shift);
      while shift >= 0
        invariant -1 <= shift < 32 * pn.Length
        invariant Dividing(n, d, Val(), num.Val(), shift)
        invariant shift >= 0 ==> div.Val() == d * Pow2(shift)
      {
        shift := DivideTurn(num, div, shift, n, d);
      }
      DivideEnd(n, d, Val(), num.Val());
      return true;
    }

    /** One turn of the division loop. */
    method DivideTurn(num: Uint, div: Uint, shift: nat, ghost n: int, ghost d: int) returns (next: int)
      requires num.pn.Length == pn.Length == div.pn.Length && pn != num.pn && pn != div.pn && num.pn != div.pn
      requires shift < 32 * pn.Length && d > 0
      requires Dividing(n, d, Val(), num.Val(), shift) && div.Val() == d * Pow2(shift)
      modifies pn, num.pn, div.pn
      ensures next == shift - 1 && Dividing(n, d, Val(), num.Val(), next)
      ensures next >= 0 ==> div.Val() == d * Pow2(next)
    {
      hide Number, Modulus, Pow2, Dividing;
      DivideStep(n, d, Val(), num.Val(), shift);
      var c := num.CompareTo(div);
      if c >= 0 {
        NumberFits(num.pn[..]);
        NumberFits(div.pn[..]);
        SmallResidue(num.Val() - div.Val(), Modulus(pn.Length));
        num.Subtract(div);
        QuotientLow(n, d, Val(), old(num.Val()), shift);
        SetBit(shift);
      }
      if shift > 0 { DivisorStep(d, shift); }
      div.ShiftRight(1);
      next := shift - 1;
    }

    /** The position of the highest bit set plus one, or zero. */
    method Bits() returns (n: nat)
      ensures IsBits(Val(), n) && n <= 32 * pn.Length
    {
      hide IsBits, Number, Modulus, Pow2;
      var pos := pn.Length;
      while pos > 0
        invariant 0 <= pos <= pn.Length && forall j :: pos <= j < pn.Length ==> pn[j] == 0
      {
        pos := pos - 1;
        if pn[pos] != 0 {
          var x := pn[pos];
          Pow2At32();
          var nbits := 31;
          while nbits > 0
            invariant 0 <= nbits <= 31 && x < Pow2(nbits + 1)
          {
            TopBit(x, nbits);
            if x / Pow2(nbits) % 2 == 1 {
              BitsOf(pn[..], pos, nbits + 1);
              return 32 * pos + nbits + 1;
            }
            nbits := nbits - 1;
          }
          Pow2Small();
          BitsOf(pn[..], pos, 1);
          return 32 * pos + 1;
        }
      }
      NumberZero(pn[..]);
      NoBits();
      return 0;
    }
  }

  lemma LowLimbs(s: seq<uint32>)
    requires |s| >= 2
    ensures Number(s) == s[0] + s[1] * B + B * B * Number(s[2..])
  {
    hide Number, Modulus;
    NumberSplit(s, 2);
    NumberStep(s, 1);
    NumberStep(s, 0);
    ModulusOne();
    NumberZero(s[..0]);
  }

  lemma HighOr(x: uint32, y: uint32)
    ensures BitOr(x, y * B) == x + y * B < B * B
  {
    Pow2At32();
    DivModUnique(y * B, B, y, 0);
    OrDisjoint(x, y * B, 32);
  }

  lemma NegativeResidue(x: int, m: int)
    requires 0 <= x < m
    ensures (m - 1 - x + 1) % m == (-x) % m
  {
    if x == 0 { DivModUnique(m, m, 1, 0); DivModUnique(0, m, 0, 0); }
    else { DivModUnique(m - x, m, 0, m - x); DivModUnique(-x, m, -1, m - x); }
  }

  lemma RowStart(zs: seq<uint32>, f: int, ys: seq<int>, j: nat)
    requires |zs| == |ys| && j <= |zs|
    ensures Multiplying(zs, Number(zs), f, ys, 0, j, 0)
  {
    assert ys[..0] == [] && Number([]) == 0;
    assert f * (0 * Modulus(j)) == 0;
  }

  lemma ProductStart(zs: seq<uint32>, xs: seq<int>, ys: seq<int>)
    requires |zs| == |xs| == |ys| && Number(zs) == 0
    ensures Multiplied(zs, xs, ys, 0, 0)
  {
    assert xs[..0] == [] && Number([]) == 0;
  }

  lemma ProductParts(zs: seq<uint32>, xs: seq<int>, ys: seq<int>, j: int, q: int)
    requires Multiplied(zs, xs, ys, j, q)
    ensures Number(zs) == Number(xs[..j]) * Number(ys) + q * Modulus(|zs|)
  {
  }

  lemma HighNonZero(s: seq<uint32>, i: int)
    requires 2 <= i < |s| && s[i] != 0
    ensures Number(s) >= B * B
  {
    hide Number, Modulus;
    LowLimbs(s);
    var hs := s[2..];
    assert hs[i - 2] == s[i];
    NumberSplit(hs, i - 2 + 1);
    NumberStep(hs, i - 2);
    NumberFits(hs[..i - 2]);
    NumberFits(hs[i - 2 + 1..]);
    ModulusGrows(0, i - 2);
    ModulusGrows(0, i - 2 + 1);
    ModulusOne();
    MulAtLeast(s[i], Modulus(i - 2));
    MulPositive(Modulus(i - 2 + 1), Number(hs[i - 2 + 1..]));
  }

  lemma Pow2Small()
    ensures Pow2(0) == 1 && Pow2(1) == 2
  {
  }

  lemma NoBits()
    ensures IsBits(0, 0)
  {
  }

  lemma BitsZero(d: int, n: int)
    requires d >= 0 && IsBits(d, n)
    ensures n == 0 <==> d == 0
  {
  }

  lemma FewerBits(n: int, d: int, numBits: nat, divBits: nat)
    requires n >= 0 && d > 0 && IsBits(n, numBits) && IsBits(d, divBits) && divBits > numBits
    ensures n / d == 0
  {
    if n > 0 { PowMonotone(2, numBits, divBits - 1); }
    DivModUnique(n, d, 0, n);
  }

  lemma ModulusBits(width: nat, n: nat)
    requires n <= 32 * width
    ensures Pow2(n) <= Modulus(width)
  {
    LimbPow(width);
    PowMonotone(2, n, 32 * width);
  }

  lemma SmallResidue(x: int, m: int)
    requires 0 <= x < m
    ensures x % m == x
  {
    DivModUnique(x, m, 0, x);
  }

  lemma QuotientLow(n: int, d: int, q: int, r: int, shift: nat)
    requires Dividing(n, d, q, r, shift)
    ensures q % Pow2(shift + 1) == 0
  {
  }
}
