/**
 The field of 1024 elements, as polynomials over GF(2) in an element e with
 e^10 = e^9 + e^5 + e^2 + 1, ten bits each.
 */
module Gf1024 {
  import opened Digits
  import Sets

  // ---- bits ----

  function Plus(x: bv16, y: bv16): bv16 { x ^ y }

  /** Times e. */
  function ByE(x: bv16): bv16 { (x << 1) ^ (if x & 512 != 0 then 1573 else 0) }

  function Left(x: bv16): bv16 { x << 1 }

  predicate Top(x: bv16) { x & 512 != 0 }

  function Half(x: bv16): bv16 { x >> 1 }

  predicate Odd(x: bv16) { x & 1 != 0 }

  function Part(odd: bool, y: bv16): bv16 { if odd then y else 0 }

  lemma HalfLess(x: bv16)
    ensures x != 0 ==> Half(x) < x
  {
  }

  lemma PlusRegroup(x: bv16, y: bv16, z: bv16)
    ensures Plus(Plus(x, y), z) == Plus(x, Plus(y, z))
  {
  }

  lemma PlusSwap(x: bv16, y: bv16)
    ensures Plus(x, y) == Plus(y, x)
  {
  }

  lemma PlusSame(x: bv16)
    ensures Plus(x, x) == 0 && Plus(x, 0) == x == Plus(0, x)
  {
  }

  lemma PlusZero(x: bv16, y: bv16)
    ensures Plus(x, y) == 0 <==> x == y
  {
    hide Plus;
    PlusSame(x);
    PlusSame(y);
    PlusRegroup(x, y, y);
  }

  lemma PlusPairs(a: bv16, b: bv16, c: bv16, d: bv16)
    ensures Plus(Plus(a, b), Plus(c, d)) == Plus(Plus(a, c), Plus(b, d))
  {
    hide Plus;
    PlusRegroup(a, b, Plus(c, d));
    PlusRegroup(b, c, d);
    PlusRegroup(c, b, d);
    PlusSwap(b, c);
    PlusRegroup(a, c, Plus(b, d));
  }

  lemma BitsPlus(x: bv16, y: bv16)
    ensures Half(Plus(x, y)) == Plus(Half(x), Half(y))
    ensures Odd(Plus(x, y)) <==> Odd(x) != Odd(y)
  {
  }

  lemma LeftPlus(x: bv16, y: bv16)
    ensures Left(Plus(x, y)) == Plus(Left(x), Left(y))
    ensures Top(Plus(x, y)) <==> Top(x) != Top(y)
  {
  }

  lemma PartPlus(a: bool, b: bool, x: bv16, y: bv16)
    ensures Part(a != b, x) == Plus(Part(a, x), Part(b, x))
    ensures Part(a, Plus(x, y)) == Plus(Part(a, x), Part(a, y))
  {
    hide Plus;
    PlusSame(x);
    PlusSame(0);
  }

  lemma ByEPlus(x: bv16, y: bv16)
    ensures ByE(Plus(x, y)) == Plus(ByE(x), ByE(y))
  {
    hide Plus, Left, Top, Part, ByE;
    ByEParts(x);
    ByEParts(y);
    ByEParts(Plus(x, y));
    LeftPlus(x, y);
    var c: bv16 := 1573;
    PartPlus(Top(x), Top(y), c, c);
    PlusPairs(Left(x), Part(Top(x), c), Left(y), Part(Top(y), c));
  }

  lemma ByEParts(x: bv16)
    ensures ByE(x) == Plus(Left(x), Part(Top(x), 1573))
  {
  }

  lemma PlusFits(x: bv16, y: bv16)
    requires x < 1024 && y < 1024
    ensures Plus(x, y) < 1024
  {
  }

  lemma ByEFits(x: bv16)
    requires x < 1024
    ensures ByE(x) < 1024
  {
  }

  lemma HalfFits(x: bv16)
    requires x < 1024
    ensures Half(x) < 512
  {
  }

  /** The lowest bit and the rest. */
  lemma Split(x: bv16)
    requires x < 1024
    ensures x == Plus(Part(Odd(x), 1), ByE(Half(x)))
  {
  }

  lemma ByELow(x: bv16)
    requires x < 512
    ensures Half(ByE(x)) == x && !Odd(ByE(x))
  {
  }

  lemma ByEHigh(x: bv16)
    requires 512 <= x < 1024
    ensures (x & 511) < 512 && x == Plus(x & 511, 512) && ByE(x) == Plus(ByE(x & 511), 549)
  {
  }

  // ---- the product ----

  function Mul(x: bv16, y: bv16): bv16
    decreases x
  {
    if x == 0 then 0 else
      HalfLess(x);
      Row(x, y, Mul(Half(x), y))
  }

  /** One row of the long multiplication: e * r, and y as well when x is odd. */
  function Row(x: bv16, y: bv16, r: bv16): bv16 {
    if Odd(x) then Plus(y, ByE(r)) else ByE(r)
  }

  lemma MulUnfold(x: bv16, y: bv16)
    ensures Mul(x, y) == Plus(Part(Odd(x), y), ByE(Mul(Half(x), y)))
  {
    hide Row, Plus, ByE, Part, Half, Odd;
    RowSplits(x, y, Mul(Half(x), y));
    RowZero(y);
  }

  lemma RowZero(y: bv16)
    ensures Half(0) == 0 && Row(0, y, 0) == 0
  {
  }

  lemma RowSplits(x: bv16, y: bv16, r: bv16)
    ensures Row(x, y, r) == Plus(Part(Odd(x), y), ByE(r))
  {
    hide ByE, Odd, Plus;
    PlusSame(ByE(r));
  }

  lemma {:induction false} MulFits(x: bv16, y: bv16)
    requires y < 1024
    ensures Mul(x, y) < 1024
    decreases x
  {
    hide Plus, ByE, Half;
    MulUnfold(x, y);
    if x != 0 {
      HalfLess(x);
      MulFits(Half(x), y);
      ByEFits(Mul(Half(x), y));
      PlusFits(Part(Odd(x), y), ByE(Mul(Half(x), y)));
    }
  }

  /** The product distributes over the sum, on the left. */
  lemma {:induction false} MulPlusLeft(x: bv16, w: bv16, y: bv16)
    ensures Mul(Plus(x, w), y) == Plus(Mul(x, y), Mul(w, y))
    decreases x
  {
    hide Plus, ByE, Half, Odd, Part, Mul;
    if x == 0 {
      PlusSame(w);
      PlusSame(Mul(w, y));
      MulZero(y);
    } else {
      HalfLess(x);
      MulPlusLeft(Half(x), Half(w), y);
      BitsPlus(x, w);
      MulUnfold(Plus(x, w), y);
      MulUnfold(x, y);
      MulUnfold(w, y);
      PartPlus(Odd(x), Odd(w), y, y);
      ByEPlus(Mul(Half(x), y), Mul(Half(w), y));
      PlusPairs(Part(Odd(x), y), ByE(Mul(Half(x), y)), Part(Odd(w), y), ByE(Mul(Half(w), y)));
    }
  }

  lemma MulZero(y: bv16)
    ensures Mul(0, y) == 0
  {
  }

  lemma {:induction false} MulPlusRight(x: bv16, y: bv16, z: bv16)
    ensures Mul(x, Plus(y, z)) == Plus(Mul(x, y), Mul(x, z))
    decreases x
  {
    hide Plus, ByE, Half, Odd, Part, Mul;
    if x == 0 {
      MulZero(Plus(y, z));
      MulZero(y);
      MulZero(z);
      PlusSame(0);
    } else {
      HalfLess(x);
      MulPlusRight(Half(x), y, z);
      MulUnfold(x, Plus(y, z));
      MulUnfold(x, y);
      MulUnfold(x, z);
      PartPlus(Odd(x), Odd(x), y, z);
      ByEPlus(Mul(Half(x), y), Mul(Half(x), z));
      PlusPairs(Part(Odd(x), y), ByE(Mul(Half(x), y)), Part(Odd(x), z), ByE(Mul(Half(x), z)));
    }
  }

  lemma {:induction false} MulByERight(x: bv16, y: bv16)
    ensures Mul(x, ByE(y)) == ByE(Mul(x, y))
    decreases x
  {
    hide Plus, ByE, Half, Odd, Part, Mul;
    ByEZero();
    if x == 0 {
      MulZero(y);
      MulZero(ByE(y));
    } else {
      HalfLess(x);
      MulByERight(Half(x), y);
      MulUnfold(x, y);
      MulUnfold(x, ByE(y));
      ByEPlus(Part(Odd(x), y), ByE(Mul(Half(x), y)));
      PartByE(Odd(x), y);
    }
  }

  lemma ByEZero()
    ensures ByE(0) == 0
  {
  }

  lemma PartByE(a: bool, y: bv16)
    ensures Part(a, ByE(y)) == ByE(Part(a, y))
  {
  }

  lemma MulOne(y: bv16)
    ensures Mul(1, y) == y
  {
    hide Mul, ByE;
    MulUnfold(1, y);
    MulZero(y);
    ByEZero();
    PlusSame(y);
  }

  lemma {:induction false} OneMul(x: bv16)
    requires x < 1024
    ensures Mul(x, 1) == x
    decreases x
  {
    hide Plus, ByE, Half, Odd, Part, Mul;
    if x == 0 {
      MulZero(1);
    } else {
      HalfLess(x);
      HalfFits(x);
      OneMul(Half(x));
      MulUnfold(x, 1);
      Split(x);
    }
  }

  /** The product with the lowest bit and the rest of the second factor. */
  lemma MulSplit(x: bv16, y: bv16)
    requires x < 1024 && y < 1024
    ensures Mul(x, y) == Plus(Part(Odd(y), x), ByE(Mul(x, Half(y))))
  {
    hide Plus, ByE, Half, Odd, Mul;
    Split(y);
    MulPlusRight(x, Part(Odd(y), 1), ByE(Half(y)));
    MulByERight(x, Half(y));
    OneMul(x);
    MulNothing(x);
  }

  lemma {:induction false} MulNothing(x: bv16)
    ensures Mul(x, 0) == 0
    decreases x
  {
    hide Mul, Plus, ByE, Half;
    MulUnfold(x, 0);
    ByEZero();
    PlusSame(0);
    HalfLess(x);
    if x != 0 { MulNothing(Half(x)); } else { MulZero(0); }
  }

  /** The polynomial of e vanishes. */
  lemma {:induction false} Minimal(y: bv16)
    requires y < 1024
    ensures Mul(549, y) == ByE(Mul(512, y))
    decreases y
  {
    hide Plus, ByE, Half, Odd, Mul;
    if y == 0 {
      MulNothing(549);
      MulNothing(512);
      ByEZero();
    } else {
      HalfLess(y);
      HalfFits(y);
      Minimal(Half(y));
      MulSplit(549, y);
      MulSplit(512, y);
      ByEPlus(Part(Odd(y), 512), ByE(Mul(512, Half(y))));
      ByEOf512();
      ByEZero();
    }
  }

  lemma ByEOf512()
    ensures ByE(512) == 549
  {
  }

  lemma MulByELeft(x: bv16, y: bv16)
    requires x < 1024 && y < 1024
    ensures Mul(ByE(x), y) == ByE(Mul(x, y))
  {
    hide Plus, ByE, Half, Odd, Mul;
    if x < 512 {
      MulByELow(x, y);
    } else {
      ByEHigh(x);
      var w := x & 511;
      MulByELow(w, y);
      MulPlusLeft(w, 512, y);
      MulPlusLeft(ByE(w), 549, y);
      ByEPlus(Mul(w, y), Mul(512, y));
      Minimal(y);
    }
  }

  lemma MulByELow(x: bv16, y: bv16)
    requires x < 512
    ensures Mul(ByE(x), y) == ByE(Mul(x, y))
  {
    hide Plus, ByE, Half, Odd, Mul;
    ByELow(x);
    MulUnfold(ByE(x), y);
    PlusSame(ByE(Mul(x, y)));
  }

  // ---- the laws of a commutative ring ----

  lemma {:induction false} MulSwap(x: bv16, y: bv16)
    requires x < 1024 && y < 1024
    ensures Mul(x, y) == Mul(y, x)
    decreases x
  {
    hide Plus, ByE, Half, Odd, Mul;
    if x == 0 {
      MulZero(y);
      MulNothing(y);
    } else {
      HalfLess(x);
      HalfFits(x);
      MulSwap(Half(x), y);
      MulUnfold(x, y);
      MulSplit(y, x);
    }
  }

  lemma {:induction false} MulRegroup(x: bv16, y: bv16, z: bv16)
    requires x < 1024 && y < 1024 && z < 1024
    ensures Mul(Mul(x, y), z) == Mul(x, Mul(y, z))
    decreases x
  {
    hide Plus, ByE, Half, Odd, Mul;
    if x == 0 {
      MulZero(y);
      MulZero(z);
      MulZero(Mul(y, z));
    } else {
      HalfLess(x);
      HalfFits(x);
      MulFits(Half(x), y);
      MulRegroup(Half(x), y, z);
      MulUnfold(x, y);
      MulUnfold(x, Mul(y, z));
      MulPlusLeft(Part(Odd(x), y), ByE(Mul(Half(x), y)), z);
      MulByELeft(Mul(Half(x), y), z);
      MulZero(z);
    }
  }

  // ---- powers ----

  function Power(x: bv16, n: nat): bv16 { if n == 0 then 1 else Mul(x, Power(x, n - 1)) }

  lemma {:induction false} PowerFits(x: bv16, n: nat)
    requires x < 1024
    ensures Power(x, n) < 1024
  {
    hide Mul;
    if n > 0 {
      PowerFits(x, n - 1);
      MulFits(x, Power(x, n - 1));
    }
  }

  lemma {:induction false} PowerAdd(x: bv16, m: nat, n: nat)
    requires x < 1024
    ensures Power(x, m + n) == Mul(Power(x, m), Power(x, n))
  {
    hide Mul;
    if m == 0 {
      MulOne(Power(x, n));
    } else {
      PowerAdd(x, m - 1, n);
      PowerFits(x, m - 1);
      PowerFits(x, n);
      MulRegroup(x, Power(x, m - 1), Power(x, n));
    }
  }

  /** The power of a product. */
  lemma {:induction false} PowerMul(x: bv16, y: bv16, n: nat)
    requires x < 1024 && y < 1024
    ensures Power(Mul(x, y), n) == Mul(Power(x, n), Power(y, n))
  {
    hide Mul;
    if n == 0 {
      MulOne(1);
    } else {
      PowerMul(x, y, n - 1);
      PowerFits(x, n - 1);
      PowerFits(y, n - 1);
      MulPairs(x, y, Power(x, n - 1), Power(y, n - 1));
    }
  }

  lemma MulPairs(a: bv16, b: bv16, c: bv16, d: bv16)
    requires a < 1024 && b < 1024 && c < 1024 && d < 1024
    ensures Mul(Mul(a, b), Mul(c, d)) == Mul(Mul(a, c), Mul(b, d))
  {
    hide Mul;
    MulFits(c, d);
    MulFits(b, d);
    MulRegroup(a, b, Mul(c, d));
    MulRegroup(b, c, d);
    MulSwap(b, c);
    MulRegroup(c, b, d);
    MulRegroup(a, c, Mul(b, d));
  }

  const E: bv16 := 2

  /** A power of e from two others and their product. */
  lemma PowerStep(m: nat, a: bv16, n: nat, b: bv16, c: bv16)
    requires Power(E, m) == a && Power(E, n) == b && Mul(a, b) == c
    ensures Power(E, m + n) == c
  {
    hide Mul, Power;
    PowerAdd(E, m, n);
  }

  lemma PowerOne()
    ensures Power(E, 1) == E
  {
    OneMul(E);
    assert Power(E, 0) == 1;
  }

  // Some powers of e, by repeated doubling; each product is evaluated bit by bit.

  lemma Product2()
    ensures Mul(2, 2) == 4
  {
  }

  lemma Product4()
    ensures Mul(4, 4) == 16
  {
  }

  lemma Product8()
    ensures Mul(16, 16) == 256
  {
  }

  lemma Product16()
    ensures Mul(256, 256) == 41
  {
  }

  lemma Product32()
    ensures Mul(41, 41) == 612
  {
  }

  lemma Doublings()
    ensures Power(E, 1) == 2
    ensures Power(E, 2) == 4 && Power(E, 4) == 16 && Power(E, 8) == 256 && Power(E, 16) == 41 && Power(E, 32) == 612
  {
    PowerOne();
    hide Mul, Power;
    Product2();
    PowerStep(1, 2, 1, 2, 4);
    Product4();
    PowerStep(2, 4, 2, 4, 16);
    Product8();
    PowerStep(4, 16, 4, 16, 256);
    Product16();
    PowerStep(8, 256, 8, 256, 41);
    Product32();
    PowerStep(16, 41, 16, 41, 612);
  }

  lemma Product64()
    ensures Mul(612, 612) == 106
  {
  }

  lemma Product128()
    ensures Mul(106, 106) == 154
  {
  }

  lemma Product256()
    ensures Mul(154, 154) == 199
  {
  }

  lemma MoreDoublings()
    ensures Power(E, 1) == 2
    ensures Power(E, 64) == 106 && Power(E, 128) == 154 && Power(E, 256) == 199
  {
    hide Mul, Power;
    Doublings();
    Product64();
    PowerStep(32, 612, 32, 612, 106);
    Product128();
    PowerStep(64, 106, 64, 106, 154);
    Product256();
    PowerStep(128, 154, 128, 154, 199);
  }

  lemma Product33()
    ensures Mul(2, 612) == 749
  {
  }

  lemma Product80()
    ensures Mul(41, 106) == 560
  {
  }

  lemma Product88()
    ensures Mul(256, 560) == 378
  {
  }

  lemma Product92()
    ensures Mul(16, 378) == 894
  {
  }

  lemma Product93()
    ensures Mul(2, 894) == 217
  {
  }

  lemma PowersTo93()
    ensures Power(E, 1) == 2
    ensures Power(E, 33) == 749 && Power(E, 93) == 217
  {
    hide Mul, Power;
    Doublings();
    MoreDoublings();
    Product33();
    PowerStep(1, 2, 32, 612, 749);
    Product80();
    PowerStep(16, 41, 64, 106, 560);
    Product88();
    PowerStep(8, 256, 80, 560, 378);
    Product92();
    PowerStep(4, 16, 88, 378, 894);
    Product93();
    PowerStep(1, 2, 92, 894, 217);
  }

  lemma Product320()
    ensures Mul(106, 199) == 271
  {
  }

  lemma Product336()
    ensures Mul(41, 271) == 299
  {
  }

  lemma Product340()
    ensures Mul(16, 299) == 75
  {
  }

  lemma Product341()
    ensures Mul(2, 75) == 150
  {
  }

  lemma Product682()
    ensures Mul(150, 150) == 151
  {
  }

  lemma Product1023()
    ensures Mul(150, 151) == 1
  {
  }

  lemma PowersTo1023()
    ensures Power(E, 1) == 2
    ensures Power(E, 341) == 150 && Power(E, 1023) == 1
  {
    hide Mul, Power;
    Doublings();
    MoreDoublings();
    Product320();
    PowerStep(64, 106, 256, 199, 271);
    Product336();
    PowerStep(16, 41, 320, 271, 299);
    Product340();
    PowerStep(4, 16, 336, 299, 75);
    Product341();
    PowerStep(1, 2, 340, 75, 150);
    Product682();
    PowerStep(341, 150, 341, 150, 151);
    Product1023();
    PowerStep(341, 150, 682, 151, 1);
  }

  // ---- the order of e ----

  /** Euclid's algorithm on two exponents of one power: it is the power of a common divisor. */
  lemma {:induction false} CommonDivisor(a: nat, b: nat) returns (g: nat, i: nat, j: nat)
    requires a > 0 && Power(E, a) == 1 == Power(E, b)
    ensures 0 < g <= a && Power(E, g) == 1 && a == g * i && b == g * j
    decreases a + b
  {
    hide Mul, Power;
    if b == 0 {
      g, i, j := a, 1, 0;
    } else if b < a {
      PowerLess(a, b);
      g, i, j := CommonDivisor(a - b, b);
      Distribute(g, i, j);
      i := i + j;
    } else {
      PowerLess(b, a);
      g, i, j := CommonDivisor(a, b - a);
      Distribute(g, i, j);
      j := i + j;
    }
  }

  lemma PowerLess(a: nat, b: nat)
    requires b <= a && Power(E, b) == 1
    ensures Power(E, a - b) == Power(E, a)
  {
    hide Mul, Power;
    PowerAdd(E, b, a - b);
    MulOne(Power(E, a - b));
  }

  lemma {:induction false} PowerTimes(g: nat, k: nat)
    requires Power(E, g) == 1
    ensures Power(E, k * g) == 1
  {
    if k > 0 {
      PowerTimes(g, k - 1);
      assert (k - 1) * g + g == k * g;
      PowerLess(k * g, g);
    }
  }

  /** A proper divisor of 1023 = 3 * 11 * 31 divides 341, 93 or 33. */
  lemma ProperDivisor(g: nat, j: nat) returns (k: nat)
    requires g * j == 1023 && g < 1023
    ensures k * g == 341 || k * g == 93 || k * g == 33
  {
    if g < 32 {
      assert g == 1 || g == 3 || g == 11 || g == 31 by { SmallDivisor(g, j); }
      k := if g == 1 then 33 else if g == 3 then 11 else 3;
    } else {
      if j >= 32 { MulMonotone(32, g, j); }
      assert j == 3 || j == 11 || j == 31 by { SmallDivisor(j, g); }
      k := 1;
    }
  }

  lemma SmallDivisor(g: nat, j: nat)
    requires g * j == 1023 && g < 32
    ensures g == 1 || g == 3 || g == 11 || g == 31
  {
    DivModUnique(1023, g, j, 0);
  }

  /** The powers of e below the 1023rd are different from 1. */
  lemma OrderOfE(d: nat)
    requires 0 < d < 1023
    ensures Power(E, d) != 1
  {
    hide Mul, Power;
    if Power(E, d) == 1 {
      PowersTo1023();
      PowersTo93();
      var g, i, j := CommonDivisor(d, 1023);
      var k := ProperDivisor(g, j);
      PowerTimes(g, k);
      assert false;
    }
  }

  lemma PowerInverse(k: nat)
    requires k <= 1023
    ensures Mul(Power(E, 1023 - k), Power(E, k)) == 1
  {
    hide Mul, Power;
    PowersTo1023();
    PowerAdd(E, 1023 - k, k);
  }

  lemma PowersDiffer(i: nat, j: nat)
    requires i < j < 1023
    ensures Power(E, i) != Power(E, j)
  {
    hide Mul, Power;
    var r := Power(E, 1023 - i);
    PowerAdd(E, i, j - i);
    PowerInverse(i);
    PowerFits(E, 1023 - i);
    PowerFits(E, i);
    PowerFits(E, j - i);
    MulRegroup(r, Power(E, i), Power(E, j - i));
    MulOne(Power(E, j - i));
    OrderOfE(j - i);
  }

  lemma PowerNotZero(i: nat)
    requires i < 1023
    ensures Power(E, i) != 0
  {
    hide Mul, Power;
    PowerInverse(i);
    MulNothing(Power(E, 1023 - i));
  }

  // ---- every element but zero is a power of e ----

  function Narrow(i: nat): bv16
    requires i < 0x1_0000
  {
    i as bv16
  }

  ghost function Below(n: nat): set<bv16>
    requires n <= 1024
  {
    if n == 0 then {} else Below(n - 1) + {Narrow(n - 1)}
  }

  lemma {:induction false} BelowSize(n: nat)
    requires n <= 1024
    ensures |Below(n)| <= n && forall i: nat :: i < n ==> Narrow(i) in Below(n)
  {
    hide Narrow;
    if n > 0 { BelowSize(n - 1); }
  }

  lemma InBelow(x: bv16)
    requires x < 1024
    ensures x in Below(1024)
  {
    hide Below;
    BelowSize(1024);
    NarrowBack(x);
  }

  lemma NarrowBack(x: bv16)
    requires x < 1024
    ensures x as int < 1024 && Narrow(x as int) == x
  {
  }

  ghost function Powers(n: nat): set<bv16> {
    if n == 0 then {0} else Powers(n - 1) + {Power(E, n - 1)}
  }

  ghost predicate IsPower(n: nat, x: bv16) { exists i: nat :: i < n && x == Power(E, i) }

  lemma {:induction false} PowersSize(n: nat)
    requires n <= 1023
    ensures |Powers(n)| == n + 1 && forall x <- Powers(n) :: x < 1024 && (x == 0 || IsPower(n, x))
  {
    hide Power;
    if n > 0 {
      var p := Power(E, n - 1);
      PowersSize(n - 1);
      PowerNotZero(n - 1);
      PowerFits(E, n - 1);
      forall i: nat | i < n - 1 ensures Power(E, i) != p { PowersDiffer(i, n - 1); }
      assert IsPower(n, p);
      assert forall x: bv16 :: IsPower(n - 1, x) ==> IsPower(n, x);
    }
  }

  /** The 1023 powers of e and zero leave no element out. */
  lemma Logarithm(x: bv16) returns (k: nat)
    requires 0 != x < 1024
    ensures k < 1023 && x == Power(E, k)
  {
    hide Power, Powers, Below;
    PowersSize(1023);
    BelowSize(1024);
    InBelow(x);
    if x !in Powers(1023) {
      forall y <- Powers(1023) ensures y in Below(1024) { InBelow(y); }
      Sets.SubsetSize(Powers(1023), Below(1024) - {x});
      assert false;
    }
    k :| k < 1023 && x == Power(E, k);
  }

  /** There are no divisors of zero. */
  lemma NoDivisors(x: bv16, y: bv16)
    requires x < 1024 && y < 1024 && Mul(x, y) == 0
    ensures x == 0 || y == 0
  {
    hide Mul, Power;
    if x != 0 {
      var k := Logarithm(x);
      var r := Power(E, 1023 - k);
      PowerInverse(k);
      PowerFits(E, 1023 - k);
      MulRegroup(r, x, y);
      MulOne(y);
      MulNothing(r);
    }
  }

  // ---- sums of few terms that vanish ----

  lemma SameSums(a: bv16, b: bv16, c: bv16, d: bv16, z: bv16)
    requires Plus(Plus(a, b), z) == 0 == Plus(Plus(c, d), z)
    ensures Plus(a, c) == Plus(b, d)
  {
    hide Plus;
    PlusZero(Plus(a, b), z);
    PlusZero(Plus(c, d), z);
    PlusPairs(a, b, c, d);
    PlusSame(z);
    PlusZero(Plus(a, c), Plus(b, d));
  }

  /** What two different factors multiply alike is zero. */
  lemma SameMultiples(u: bv16, w: bv16, t: bv16)
    requires u < 1024 && w < 1024 && t < 1024 && u != w && Mul(u, t) == Mul(w, t)
    ensures t == 0
  {
    hide Plus, Mul;
    MulPlusLeft(u, w, t);
    PlusZero(Mul(u, t), Mul(w, t));
    PlusFits(u, w);
    PlusZero(u, w);
    NoDivisors(Plus(u, w), t);
  }

  lemma TwoTerms(p: bv16, z: bv16, u: bv16)
    requires p < 1024 && u < 1024 && u != 1
    requires Plus(p, z) == 0 == Plus(Mul(u, p), z)
    ensures p == 0 == z
  {
    hide Plus, Mul;
    PlusZero(p, z);
    PlusZero(Mul(u, p), z);
    MulOne(p);
    SameMultiples(u, 1, p);
    PlusSame(z);
  }

  /** The determinant of three consecutive powers of three different factors, one of them 1. */
  lemma ThreeTerms(p: bv16, q: bv16, z: bv16, u: bv16, w: bv16)
    requires p < 1024 && q < 1024 && u < 1024 && w < 1024 && u != 1 && w != 1 && u != w
    requires Plus(Plus(p, q), z) == 0 == Plus(Plus(Mul(u, p), Mul(w, q)), z)
    requires Plus(Plus(Mul(u, Mul(u, p)), Mul(w, Mul(w, q))), z) == 0
    ensures p == q == z == 0
  {
    hide Plus, Mul;
    FirstOfThree(p, q, z, u, w);
    MulNothing(u);
    PlusSame(q);
    PlusSame(Mul(w, q));
    TwoTerms(q, z, w);
  }

  lemma FirstOfThree(p: bv16, q: bv16, z: bv16, u: bv16, w: bv16)
    requires p < 1024 && q < 1024 && u < 1024 && w < 1024 && u != 1 && w != 1 && u != w
    requires Plus(Plus(p, q), z) == 0 == Plus(Plus(Mul(u, p), Mul(w, q)), z)
    requires Plus(Plus(Mul(u, Mul(u, p)), Mul(w, Mul(w, q))), z) == 0
    ensures p == 0
  {
    hide Plus, Mul;
    var (up, wq) := (Mul(u, p), Mul(w, q));
    var t := Plus(p, up);
    SameSums(p, q, up, wq, z);
    SameSums(up, wq, Mul(u, up), Mul(w, wq), z);
    MulPlusRight(u, p, up);
    MulPlusRight(w, q, wq);
    MulFits(u, p);
    PlusFits(p, up);
    SameMultiples(u, w, t);
    PlusZero(p, up);
    MulOne(p);
    SameMultiples(u, 1, p);
  }
}
