/** Arithmetic of single limbs: what one turn of each limb loop does to the values. */
module Limbs {
  import opened Digits

  const B := 0x1_0000_0000

  type uint32 = x: int | 0 <= x < B

  type uint64 = x: int | 0 <= x < 0x1_0000_0000_0000_0000

  function Pow2(n: nat): (p: nat)
    ensures p > 0
  {
    Pow(2, n)
  }

  lemma Pow2Add(m: nat, n: nat)
    ensures Pow2(m + n) == Pow2(m) * Pow2(n)
  {
    PowAdd(2, m, n);
  }

  lemma Pow2Double(k: nat)
    ensures if k == 0 then Pow2(k) == 1 else Pow2(k) == 2 * Pow2(k - 1)
  {
  }

  lemma LimbPow(j: nat)
    ensures Pow(B, j) == Pow2(32 * j)
  {
    assert Pow2(32) == B by { Pow2At32(); }
    PowPow(2, 32, j);
  }

  lemma Pow2At32()
    ensures Pow2(8) == 256 && Pow2(16) == 65536 && Pow2(32) == B
  {
    assert Pow(2, 4) == 16;
    PowAdd(2, 4, 4);
    PowAdd(2, 8, 8);
    PowAdd(2, 16, 16);
  }

  /** A carry out of one limb. */
  lemma CarryStep(v: int, w: int, carry: int, n: int, d: int, p: int)
    requires v + carry * p == w && n == carry + d
    ensures (v + (n % B) * p) + (n / B) * (B * p) == w + d * p
  {
    Regroup(n / B, B, p);
    assert n == n % B + (n / B) * B;
    Distribute(p, n % B, (n / B) * B);
    Distribute(p, carry, d);
  }

  /** A limb times a limb plus two limbs fits in 64 bits. */
  lemma ProductFits(x: uint32, y: uint32, c: uint32, d: uint32)
    ensures 0 <= x * y + c + d < B * B
  {
    MulMonotone(0, x, y);
    MulMonotone(x, B - 1, y);
  }

  // ---- bits ----

  /** Bitwise or. */
  function BitOr(x: nat, y: nat): (z: nat)
    decreases x + y
  {
    if x == 0 && y == 0 then 0
    else (if x % 2 == 1 || y % 2 == 1 then 1 else 0) + 2 * BitOr(x / 2, y / 2)
  }

  /** Numbers with no bits in common add up. */
  lemma {:induction false} OrDisjoint(x: nat, y: nat, k: nat)
    requires x < Pow2(k) && y % Pow2(k) == 0
    ensures BitOr(x, y) == x + y == BitOr(y, x)
    decreases k
  {
    if k == 0 {
      OrZero(y);
    } else {
      var q := y / Pow2(k);
      assert y == q * Pow2(k);
      Regroup(q, 2, Pow2(k - 1));
      Shuffle(q, 2, Pow2(k - 1));
      assert y == 2 * (q * Pow2(k - 1));
      assert y / 2 == q * Pow2(k - 1) && y % 2 == 0;
      DivModUnique(y / 2, Pow2(k - 1), q, 0);
      OrDisjoint(x / 2, y / 2, k - 1);
    }
  }

  lemma {:induction false} OrZero(y: nat)
    ensures BitOr(0, y) == y == BitOr(y, 0)
  {
    if y > 0 { OrZero(y / 2); }
  }

  /** The two halves of a limb shifted left. */
  lemma ShiftedHalves(x: uint32, s: nat)
    requires s <= 32
    ensures Pow2(s) * Pow2(32 - s) == B
    ensures x * Pow2(s) == (x * Pow2(s)) % B + (x / Pow2(32 - s)) * B
    ensures 0 <= x / Pow2(32 - s) < Pow2(s) && ((x * Pow2(s)) % B) % Pow2(s) == 0
    ensures 0 <= (x * Pow2(s)) % B < B
  {
    PowAdd(2, s, 32 - s);
    Pow2At32();
    Halves(x, Pow2(s), Pow2(32 - s));
  }

  lemma Halves(x: uint32, h: nat, l: nat)
    requires h > 0 && l > 0 && h * l == B
    ensures x * h == (x * h) % B + (x / l) * B
    ensures 0 <= x / l < h && ((x * h) % B) % h == 0
  {
    var (q, r) := (x / l, x % l);
    Cut(x, h, l, q, r);
    DivModUnique(x * h, B, q, r * h);
    DivModUnique(r * h, h, r, 0);
    if q >= h { MulMonotone(h, q, l); }
  }

  lemma Cut(x: int, h: nat, l: nat, q: int, r: int)
    requires h * l == B && x == q * l + r && 0 <= r < l
    ensures x * h == q * B + r * h && 0 <= r * h < B
  {
    Distribute(h, q * l, r);
    Shuffle(h, q, l);
    MulMonotone(r + 1, l, h);
    Distribute(h, r, 1);
    MulMonotone(0, r, h);
  }

  lemma {:induction false} OrFits(x: nat, y: nat, k: nat)
    requires x < Pow2(k) && y < Pow2(k)
    ensures BitOr(x, y) < Pow2(k)
    decreases k
  {
    if k > 0 { OrFits(x / 2, y / 2, k - 1); }
  }

  function Or(x: uint32, y: uint32): uint32 {
    Pow2At32();
    OrFits(x, y, 32);
    BitOr(x, y)
  }

  function Left(x: uint32, s: nat): uint32 { (x * Pow2(s)) % B }

  function Right(x: uint32, s: nat): uint32 {
    DivideLess(x, Pow2(s));
    x / Pow2(s)
  }
}
