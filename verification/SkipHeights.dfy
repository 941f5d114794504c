/** The heights that skip pointers lead back to, and how many steps a walk along them takes. */
module SkipHeights {
  import opened Basics
  import Digits
  import opened Limbs

  /** Bitwise and. */
  function BitAnd(x: nat, y: nat): nat {
    if x == 0 || y == 0 then 0
    else (if x % 2 == 1 && y % 2 == 1 then 1 else 0) + 2 * BitAnd(x / 2, y / 2)
  }

  /** Turns the lowest one bit into a zero. */
  function InvertLowestOne(n: nat): nat { if n == 0 then 0 else BitAnd(n, n - 1) }

  lemma {:induction false} AndSelf(n: nat)
    ensures BitAnd(n, n) == n
  {
    if n > 0 { AndSelf(n / 2); }
  }

  /** It takes away the largest power of two that divides the number. */
  lemma {:induction false} InvertLowestOneMeaning(k: nat, m: nat)
    ensures InvertLowestOne(Pow2(k) * (2 * m + 1)) == Pow2(k) * (2 * m)
    decreases k
  {
    hide InvertLowestOne, BitAnd, Pow2;
    Pow2Double(k);
    if k == 0 {
      InvertOdd(m);
    } else {
      var p := Pow2(k - 1);
      InvertLowestOneMeaning(k - 1, m);
      Digits.MulPositive(p, 2 * m + 1);
      Digits.Regroup(2, p, 2 * m + 1);
      Digits.Regroup(2, p, 2 * m);
      InvertDouble(p * (2 * m + 1));
    }
  }

  lemma InvertOdd(m: nat)
    ensures InvertLowestOne(2 * m + 1) == 2 * m
  {
    AndSelf(m);
    assert (2 * m + 1) / 2 == m && (2 * m) / 2 == m;
  }

  lemma InvertDouble(n: nat)
    requires n > 0
    ensures InvertLowestOne(2 * n) == 2 * InvertLowestOne(n)
  {
    assert 2 * n / 2 == n && (2 * n - 1) / 2 == n - 1;
  }

  /** Every positive number is a power of two times an odd number. */
  lemma {:induction false} OddPart(n: nat) returns (k: nat, m: nat)
    requires n > 0
    ensures n == Pow2(k) * (2 * m + 1)
  {
    if n % 2 == 1 {
      k, m := 0, n / 2;
      assert Pow2(0) == 1;
    } else {
      k, m := OddPart(n / 2);
      Digits.Regroup(2, Pow2(k), 2 * m + 1);
      k := k + 1;
    }
  }

  lemma InvertLess(n: nat)
    ensures n > 0 ==> InvertLowestOne(n) < n
  {
    if n > 0 {
      var k, m := OddPart(n);
      InvertLowestOneMeaning(k, m);
      Digits.Distribute(Pow2(k), 2 * m, 1);
    }
  }

  /** The height a block's skip pointer leads back to. */
  function GetSkipHeight(height: nat): (h: nat)
    ensures height > 0 ==> h < height
  {
    if height < 2 then 0
    else
      InvertLess(height);
      InvertLess(height - 1);
      InvertLess(InvertLowestOne(height - 1));
      if height % 2 == 1 then InvertLowestOne(InvertLowestOne(height - 1)) + 1 else InvertLowestOne(height)
  }

  /** From an even height back by its lowest one bit; from an odd one, one above the height two such steps below. */
  lemma SkipHeightMeaning(k: nat, m: nat, height: nat)
    requires height == Pow2(k) * (2 * m + 1)
    ensures k > 0 ==> GetSkipHeight(height) == Pow2(k) * (2 * m)
    ensures k > 0 ==> GetSkipHeight(height + 1) == InvertLowestOne(Pow2(k) * (2 * m)) + 1
  {
    hide InvertLowestOne, Pow2;
    InvertLowestOneMeaning(k, m);
    Pow2Double(k);
    if k > 0 {
      Digits.Regroup(2, Pow2(k - 1), 2 * m + 1);
      Digits.MulPositive(Pow2(k - 1), 2 * m + 1);
    }
  }

  // ---- one step of the walk ----

  /** Whether a walk down to a height follows the skip pointer: not if its predecessor's is better. */
  predicate TakesSkip(h: nat, height: nat)
    requires h > 0
  {
    var (skip, prev) := (GetSkipHeight(h), GetSkipHeight(h - 1));
    skip == height || (skip > height && !(prev < skip - 2 && prev >= height))
  }

  function NextHeight(h: nat, height: nat): (n: nat)
    requires h > height
    ensures height <= n < h
  {
    if TakesSkip(h, height) then GetSkipHeight(h) else h - 1
  }

  /** The steps of a walk from one height down to another. */
  function Steps(h: nat, height: nat): nat
    requires h >= height
    decreases h
  {
    if h == height then 0 else 1 + Steps(NextHeight(h, height), height)
  }

  // ---- bits ----

  /** The number of one bits. */
  function Ones(n: nat): nat { if n == 0 then 0 else n % 2 + Ones(n / 2) }

  lemma {:induction false} InvertOnes(n: nat)
    requires n > 0
    ensures Ones(InvertLowestOne(n)) == Ones(n) - 1
    ensures n % 2 == 0 ==> InvertLowestOne(n) % 2 == 0
  {
    hide InvertLowestOne;
    if n % 2 == 1 {
      InvertOdd(n / 2);
    } else {
      InvertOnes(n / 2);
      InvertDouble(n / 2);
    }
  }

  lemma {:induction false} OnesBound(n: nat, k: nat)
    requires n < Pow2(k)
    ensures Ones(n) <= k
    ensures n % 2 == 0 && k > 0 ==> Ones(n) <= k - 1
  {
    if k > 0 { OnesBound(n / 2, k - 1); }
  }

  lemma OnesEight(m: nat, r: nat)
    requires r < 8
    ensures Ones(8 * m + r) == Ones(m) + Ones(r)
  {
    hide Ones;
    var (x, y, z) := (r % 2, r / 2 % 2, r / 4);
    OnesDouble(m, z);
    OnesDouble(2 * m + z, y);
    OnesDouble(4 * m + 2 * z + y, x);
    OnesZero();
    OnesDouble(0, z);
    OnesDouble(z, y);
    OnesDouble(2 * z + y, x);
  }

  lemma OnesZero()
    ensures Ones(0) == 0
  {
  }

  lemma OneBit()
    ensures Ones(2) == 1 && Ones(4) == 1
  {
  }

  lemma OnesDouble(n: nat, b: nat)
    requires b < 2
    ensures Ones(2 * n + b) == Ones(n) + b
  {
    assert (2 * n + b) / 2 == n;
  }

  lemma {:induction false} OnesFull(k: nat)
    ensures Ones(Pow2(k) - 1) == k
  {
    hide Pow2, Ones;
    Pow2Double(k);
    if k == 0 {
      OnesZero();
    } else {
      OnesFull(k - 1);
      OnesDouble(Pow2(k - 1) - 1, 1);
    }
  }

  /** The lowest one bit of a number by its last three bits. */
  lemma InvertEight(m: nat)
    ensures InvertLowestOne(8 * m + 2) == 8 * m && InvertLowestOne(8 * m + 4) == 8 * m
    ensures InvertLowestOne(8 * m + 6) == 8 * m + 4
    ensures m > 0 ==> InvertLowestOne(8 * m) == 8 * InvertLowestOne(m) <= 8 * m - 8
  {
    hide InvertLowestOne;
    InvertDouble(4 * m + 1);
    InvertOdd(2 * m);
    InvertDouble(4 * m + 2);
    InvertDouble(2 * m + 1);
    InvertOdd(m);
    InvertDouble(4 * m + 3);
    InvertOdd(2 * m + 1);
    if m > 0 {
      InvertDouble(4 * m);
      InvertDouble(2 * m);
      InvertDouble(m);
      InvertLess(m);
    }
  }

  /** A part above the lowest one bit stays as it is. */
  lemma {:induction false} InvertHigh(c: nat, j: nat, a: nat)
    requires 0 < a < Pow2(j)
    ensures InvertLowestOne(c * Pow2(j) + a) == c * Pow2(j) + InvertLowestOne(a)
  {
    hide InvertLowestOne;
    Digits.MulPositive(c, Pow2(j));
    var p := Pow2(j - 1);
    assert c * Pow2(j) == 2 * (c * p);
    Digits.MulPositive(c, p);
    if a % 2 == 1 {
      InvertOdd(a / 2);
      InvertOdd(c * p + a / 2);
    } else {
      InvertHigh(c, j - 1, a / 2);
      InvertDouble(a / 2);
      InvertDouble(c * p + a / 2);
    }
  }

  // ---- from the upper half of a block of heights to the lower ----

  function Bottom(c: nat, j: nat): nat { Digits.MulPositive(2 * c, Pow2(j)); 2 * c * Pow2(j) }

  function Middle(c: nat, j: nat): nat { Bottom(c, j) + Pow2(j) }

  lemma MiddleEven(c: nat, j: nat)
    requires j > 0
    ensures Middle(c, j) % 2 == 0 && Bottom(c, j) % 2 == 0 && Middle(c, j) >= 2
  {
    hide Pow2;
    Pow2Double(j);
    Digits.Regroup(2, c, Pow2(j));
  }

  lemma SkipMiddle(c: nat, j: nat)
    requires j > 0
    ensures GetSkipHeight(Middle(c, j)) == InvertLowestOne(Middle(c, j)) == Bottom(c, j)
  {
    hide Pow2, InvertLowestOne;
    MiddleEven(c, j);
    InvertLowestOneMeaning(j, c);
    Digits.Distribute(Pow2(j), 2 * c, 1);
  }

  lemma MiddleAdds(c: nat, j: nat, a: nat)
    requires 0 < a < Pow2(j)
    ensures InvertLowestOne(Middle(c, j) + a) == Middle(c, j) + InvertLowestOne(a)
  {
    hide Pow2, InvertLowestOne;
    InvertHigh(2 * c + 1, j, a);
    Digits.Distribute(Pow2(j), 2 * c, 1);
  }

  lemma SkipEven(c: nat, j: nat, a: nat)
    requires j > 0 && a % 2 == 0 && 0 < a < Pow2(j)
    ensures GetSkipHeight(Middle(c, j) + a) == Middle(c, j) + InvertLowestOne(a)
  {
    hide Pow2, InvertLowestOne, Middle;
    MiddleEven(c, j);
    MiddleAdds(c, j, a);
  }

  lemma SkipOdd(c: nat, j: nat, a: nat)
    requires j > 0 && a % 2 == 0 && a < Pow2(j)
    ensures GetSkipHeight(Middle(c, j) + a + 1) ==
            1 + if a == 0 then InvertLowestOne(Bottom(c, j))
                else if InvertLowestOne(a) == 0 then Bottom(c, j)
                else Middle(c, j) + InvertLowestOne(InvertLowestOne(a))
  {
    hide Pow2, InvertLowestOne, Middle, Bottom;
    MiddleEven(c, j);
    SkipMiddle(c, j);
    if a > 0 {
      MiddleAdds(c, j, a);
      InvertLess(a);
      if InvertLowestOne(a) > 0 { MiddleAdds(c, j, InvertLowestOne(a)); }
    }
  }

  /** From an odd height the skip pointer is followed unless it leads too far. */
  lemma OddSkips(c: nat, j: nat, a: nat, height: nat)
    requires j > 0 && a % 2 == 0 && a < Pow2(j) && height < Middle(c, j)
    ensures var h := Middle(c, j) + a + 1;
            NextHeight(h, height) == if GetSkipHeight(h) >= height then GetSkipHeight(h) else Middle(c, j) + a
  {
    hide Pow2, InvertLowestOne, Middle, Bottom, GetSkipHeight;
    SkipOdd(c, j, a);
    SkipMiddle(c, j);
    InvertLess(Bottom(c, j));
    BottomLess(c, j);
    InvertZero();
    if a > 0 {
      SkipEven(c, j, a);
      InvertLess(a);
      InvertLess(InvertLowestOne(a));
    }
  }

  lemma BottomLess(c: nat, j: nat)
    requires j > 0
    ensures Bottom(c, j) + 1 < Middle(c, j)
  {
    Pow2Double(j);
  }

  lemma InvertZero()
    ensures InvertLowestOne(0) == 0
  {
  }

  /** From the odd heights of the lower half, a walk down to `height` takes at most `s` steps. */
  ghost predicate LowerHalf(c: nat, j: nat, height: nat, s: nat) {
    && j > 0 && Bottom(c, j) <= height < Middle(c, j)
    && forall h :: height <= h < Middle(c, j) && (h % 2 == 1 || h == height) ==> Steps(h, height) <= s
  }

  /** Skip pointers of odd heights lead to odd heights. */
  lemma SkipStaysOdd(h: nat)
    requires h % 2 == 1 && h >= 3
    ensures GetSkipHeight(h) % 2 == 1
  {
    hide InvertLowestOne;
    InvertEven(h - 1);
    InvertEven(InvertLowestOne(h - 1));
  }

  lemma InvertEven(n: nat)
    requires n % 2 == 0
    ensures InvertLowestOne(n) % 2 == 0
  {
    if n == 0 { InvertZero(); } else { InvertOnes(n); }
  }

  lemma StepTo(h: nat, height: nat, n: nat)
    requires h > height && n == NextHeight(h, height)
    ensures Steps(h, height) == 1 + Steps(n, height)
  {
  }

  lemma StepsNext(h: nat, height: nat)
    requires h > height
    ensures var (skip, prev) := (GetSkipHeight(h), GetSkipHeight(h - 1));
            if skip == height || (skip > height && !(prev < skip - 2 && prev >= height))
            then skip >= height && Steps(h, height) == 1 + Steps(skip, height)
            else Steps(h, height) == 1 + Steps(h - 1, height)
  {
    hide GetSkipHeight;
  }

  /** From the middle the walk goes on to the height below, an odd one. */
  lemma FromMiddle(c: nat, j: nat, height: nat, s: nat)
    requires LowerHalf(c, j, height, s)
    ensures Steps(Middle(c, j), height) <= s + 1
  {
    hide Pow2, Middle, Bottom, GetSkipHeight, Steps;
    MiddleEven(c, j);
    SkipMiddle(c, j);
    StepTo(Middle(c, j), height, NextHeight(Middle(c, j), height));
  }

  /** A height with one bit above the middle is two steps from the lower half. */
  lemma FromBit(c: nat, j: nat, a: nat, height: nat, s: nat)
    requires LowerHalf(c, j, height, s) && a % 2 == 0 && 0 < a < Pow2(j) && InvertLowestOne(a) == 0
    ensures Steps(Middle(c, j) + a, height) <= s + 2
  {
    hide Pow2, Middle, Bottom, GetSkipHeight, Steps, InvertLowestOne;
    var m := Middle(c, j);
    MiddleEven(c, j);
    SkipEven(c, j, a);
    FromMiddle(c, j, height, s);
    OddSkips(c, j, a - 2, height);
    StepTo(m + a, height, NextHeight(m + a, height));
    if !TakesSkip(m + a, height) {
      SkipStaysOdd(m + a - 1);
      StepTo(m + a - 1, height, GetSkipHeight(m + a - 1));
    }
  }

  /** From an odd height every step takes two bits away. */
  lemma {:induction false} FromOdd(c: nat, j: nat, a: nat, height: nat, s: nat)
    requires LowerHalf(c, j, height, s) && a % 2 == 0 && a < Pow2(j)
    ensures Steps(Middle(c, j) + a + 1, height) <= s + 2 + (Ones(a) + 1) / 2
    decreases a
  {
    hide Pow2, Middle, Bottom, GetSkipHeight, Steps, InvertLowestOne, Ones;
    var h := Middle(c, j) + a + 1;
    MiddleEven(c, j);
    OddSkips(c, j, a, height);
    SkipOdd(c, j, a);
    SkipStaysOdd(h);
    StepTo(h, height, NextHeight(h, height));
    BottomLess(c, j);
    InvertLess(Bottom(c, j));
    InvertZero();
    if a == 0 {
      FromMiddle(c, j, height, s);
    } else {
      var b := InvertLowestOne(a);
      InvertOnes(a);
      InvertLess(a);
      if b == 0 {
        FromBit(c, j, a, height, s);
      } else {
        InvertOnes(b);
        InvertLess(b);
        FromOdd(c, j, InvertLowestOne(b), height, s);
      }
    }
  }

  /** From a multiple of eight above the middle the predecessor's skip pointer is never better. */
  lemma EightSkips(c: nat, j: nat, m: nat, height: nat)
    requires j > 0 && 0 < 8 * m < Pow2(j) && height < Middle(c, j)
    ensures NextHeight(Middle(c, j) + 8 * m, height) == Middle(c, j) + 8 * InvertLowestOne(m)
  {
    hide Pow2, Middle, Bottom, GetSkipHeight, InvertLowestOne;
    SkipEven(c, j, 8 * m);
    SkipOdd(c, j, 8 * m - 2);
    InvertEight(m);
    InvertEight(m - 1);
  }

  /** So it drops bit after bit. */
  lemma {:induction false} FromEight(c: nat, j: nat, m: nat, height: nat, s: nat)
    requires LowerHalf(c, j, height, s) && 8 * m < Pow2(j)
    ensures Steps(Middle(c, j) + 8 * m, height) <= s + 1 + Ones(m)
    decreases m
  {
    hide Pow2, Middle, Bottom, GetSkipHeight, Steps, InvertLowestOne, Ones;
    if m == 0 {
      FromMiddle(c, j, height, s);
    } else {
      var h := Middle(c, j) + 8 * m;
      EightSkips(c, j, m, height);
      StepTo(h, height, NextHeight(h, height));
      InvertOnes(m);
      InvertLess(m);
      FromEight(c, j, InvertLowestOne(m), height, s);
    }
  }

  /** From other even heights with enough bits, the predecessor's skip pointer is better. */
  lemma EvenTurns(c: nat, j: nat, a: nat, height: nat)
    requires j > 0 && a % 2 == 0 && a % 8 != 0 && a < Pow2(j) && height < Middle(c, j)
    requires InvertLowestOne(a) > 0 && InvertLowestOne(InvertLowestOne(a)) > 0
    ensures !TakesSkip(Middle(c, j) + a, height)
  {
    hide Pow2, Middle, Bottom, GetSkipHeight, InvertLowestOne;
    var m := a / 8;
    SkipEven(c, j, a);
    SkipOdd(c, j, a - 2);
    InvertEight(m);
    InvertZero();
    assert a == 8 * m + 2 || a == 8 * m + 4 || a == 8 * m + 6;
    InvertLess(InvertLowestOne(8 * m));
  }

  lemma FromEven(c: nat, j: nat, a: nat, height: nat, s: nat)
    requires LowerHalf(c, j, height, s) && a % 2 == 0 && a % 8 != 0 && a < Pow2(j)
    ensures Steps(Middle(c, j) + a, height) <= s + 3 + (j - 1) / 2
  {
    hide Pow2, Middle, Bottom, GetSkipHeight, Steps, InvertLowestOne, Ones;
    var h := Middle(c, j) + a;
    var b := InvertLowestOne(a);
    SkipEven(c, j, a);
    StepTo(h, height, NextHeight(h, height));
    if TakesSkip(h, height) {
      InvertEven(a);
      InvertLess(a);
      if b == 0 {
        FromBit(c, j, a, height, s);
      } else {
        if InvertLowestOne(b) > 0 { EvenTurns(c, j, a, height); }
        FromBit(c, j, b, height, s);
      }
    } else {
      FromOdd(c, j, a - 2, height, s);
      FewerOnes(a, j);
    }
  }

  lemma FewerOnes(a: nat, j: nat)
    requires a % 2 == 0 && a % 8 != 0 && a < Pow2(j)
    ensures j >= 2 && Ones(a - 2) <= j - 2
  {
    hide Ones, Pow2;
    var (m, r) := (a / 8, a % 8);
    SmallPowers(j);
    OnesEight(m, r - 2);
    OnesZero();
    OneBit();
    if j >= 3 { OnesBound(m, j - 3); }
  }

  lemma SmallPowers(j: nat)
    ensures Pow2(0) == 1 && Pow2(1) == 2 && Pow2(2) == 4
    ensures j >= 3 ==> Pow2(j) == 8 * Pow2(j - 3)
  {
    hide Pow2;
    Pow2Double(0);
    Pow2Double(1);
    Pow2Double(2);
    if j >= 3 {
      Pow2Double(j);
      Pow2Double(j - 1);
      Pow2Double(j - 2);
    }
  }

  // ---- the longest walks ----

  /** The longest walk from an odd height, within 2^k heights. */
  function OddWalk(k: nat): nat {
    if k <= 2 then k else if k == 3 then 4 else OddWalk(k - 1) + 2 + (k - 1) / 2
  }

  /** The longest walk from any height. */
  function LongestWalk(k: nat): nat {
    if k < 2 then k else OddWalk(k - 1) + Max(k - 3, 3 + (k - 2) / 2)
  }

  lemma WalksGrow(k: nat)
    requires k > 0
    ensures OddWalk(k - 1) <= OddWalk(k) <= LongestWalk(k) && LongestWalk(k - 1) <= LongestWalk(k)
  {
  }

  /** Crossing from the upper half of 2^(j + 1) heights into the lower. */
  lemma Crossing(c: nat, j: nat, h: nat, height: nat, s: nat)
    requires LowerHalf(c, j, height, s) && Middle(c, j) <= h < Middle(c, j) + Pow2(j)
    ensures h % 2 == 1 ==> Steps(h, height) <= s + 2 + j / 2
    ensures Steps(h, height) <= s + Max(j - 2, 3 + (j - 1) / 2)
  {
    hide Pow2, Middle, Bottom, GetSkipHeight, Steps, InvertLowestOne, Ones;
    var a := h - Middle(c, j);
    MiddleEven(c, j);
    if a % 2 == 1 {
      FromOdd(c, j, a - 1, height, s);
      OnesBound(a - 1, j);
    } else if a % 8 == 0 {
      FromEight(c, j, a / 8, height, s);
      SmallPowers(j);
      OnesZero();
      if j >= 3 { OnesBound(a / 8, j - 3); }
    } else {
      FromEven(c, j, a, height, s);
    }
  }

  lemma {:induction false} OddInBlock(c: nat, k: nat, h: nat, height: nat)
    requires c * Pow2(k) <= height <= h < c * Pow2(k) + Pow2(k) && h % 2 == 1
    ensures Steps(h, height) <= OddWalk(k)
    decreases k
  {
    hide Pow2, Steps, Middle, Bottom, OddWalk;
    Pow2Double(k);
    if h == height {
      StepsNone(h);
    } else {
      var j := k - 1;
      BlockHalves(c, k);
      WalksGrow(k);
      if h < Middle(c, j) {
        OddInBlock(2 * c, j, h, height);
      } else if height >= Middle(c, j) {
        OddInBlock(2 * c + 1, j, h, height);
      } else if j == 0 {
        Pow2Double(0);
        OneStep(h, height);
        OddWalkStep(k);
      } else {
        forall n | height <= n < Middle(c, j) && (n % 2 == 1 || n == height)
          ensures Steps(n, height) <= OddWalk(j)
        {
          if n == height { StepsNone(n); } else { OddInBlock(2 * c, j, n, height); }
        }
        OddWalkStep(k);
        if j == 1 {
          AmongFour(c, h, height);
        } else if j == 2 {
          AmongEight(c, h, height);
        } else {
          Crossing(c, j, h, height, OddWalk(j));
        }
      }
    }
  }

  lemma OddWalkStep(k: nat)
    ensures OddWalk(1) == 1 && OddWalk(2) == 2 && OddWalk(3) == 4
    ensures k > 3 ==> OddWalk(k) == OddWalk(k - 1) + 2 + (k - 1) / 2
  {
  }

  lemma AmongFour(c: nat, h: nat, height: nat)
    requires Bottom(c, 1) <= height < Middle(c, 1) <= h < Middle(c, 1) + Pow2(1) && h % 2 == 1
    ensures Steps(h, height) <= 2
  {
    hide Pow2, Middle, Bottom, GetSkipHeight, Steps, InvertLowestOne;
    SmallPowers(1);
    MiddleIs(c, 1);
    MiddleEven(c, 1);
    var (b, m) := (Bottom(c, 1), Middle(c, 1));
    StepsNone(height);
    if height == b {
      OneStep(b + 1, b);
      OddSkips(c, 1, 0, height);
      SkipOdd(c, 1, 0);
      InvertLess(b);
      InvertZero();
      SkipMiddle(c, 1);
      StepTo(h, height, NextHeight(h, height));
      StepTo(m, height, NextHeight(m, height));
    } else {
      FromOdd(c, 1, 0, height, 0);
      OnesZero();
    }
  }

  lemma AmongEight(c: nat, h: nat, height: nat)
    requires Bottom(c, 2) <= height < Middle(c, 2) <= h < Middle(c, 2) + Pow2(2) && h % 2 == 1
    requires forall n :: height <= n < Middle(c, 2) && (n % 2 == 1 || n == height) ==> Steps(n, height) <= 2
    ensures Steps(h, height) <= 4
  {
    hide Pow2, Middle, Bottom, GetSkipHeight, Steps, InvertLowestOne;
    SmallPowers(2);
    MiddleIs(c, 2);
    MiddleEven(c, 2);
    var (b, m) := (Bottom(c, 2), Middle(c, 2));
    OnesZero();
    OneBit();
    InvertEight(0);
    if h == m + 1 {
      FromOdd(c, 2, 0, height, 2);
    } else if height >= b + 2 {
      StepsNone(height);
      if height == b + 2 { OneStep(b + 3, height); }
      FromOdd(c, 2, 2, height, 1);
    } else {
      OddSkips(c, 2, 2, height);
      SkipOdd(c, 2, 2);
      StepTo(h, height, NextHeight(h, height));
    }
  }

  lemma MiddleIs(c: nat, j: nat)
    ensures Middle(c, j) == Bottom(c, j) + Pow2(j)
  {
  }

  lemma {:induction false} StepsInBlock(c: nat, k: nat, h: nat, height: nat)
    requires c * Pow2(k) <= height <= h < c * Pow2(k) + Pow2(k)
    ensures Steps(h, height) <= LongestWalk(k)
    decreases k
  {
    hide Pow2, Steps, Middle, Bottom, OddWalk;
    Pow2Double(k);
    if h == height {
      StepsNone(h);
    } else {
      var j := k - 1;
      BlockHalves(c, k);
      WalksGrow(k);
      if h < Middle(c, j) {
        StepsInBlock(2 * c, j, h, height);
      } else if height >= Middle(c, j) {
        StepsInBlock(2 * c + 1, j, h, height);
      } else if j == 0 {
        Pow2Double(0);
        OneStep(h, height);
      } else {
        forall n | height <= n < Middle(c, j) && (n % 2 == 1 || n == height)
          ensures Steps(n, height) <= OddWalk(j)
        {
          if n == height { StepsNone(n); } else { OddInBlock(2 * c, j, n, height); }
        }
        Crossing(c, j, h, height, OddWalk(j));
      }
    }
  }

  lemma StepsNone(h: nat)
    ensures Steps(h, h) == 0
  {
  }

  lemma OneStep(h: nat, height: nat)
    requires h == height + 1
    ensures Steps(h, height) == 1
  {
  }

  lemma BlockHalves(c: nat, k: nat)
    requires k > 0
    ensures var j := k - 1;
            && c * Pow2(k) == Bottom(c, j) == 2 * c * Pow2(j) && Middle(c, j) == (2 * c + 1) * Pow2(j)
            && c * Pow2(k) + Pow2(k) == Middle(c, j) + Pow2(j)
  {
    hide Pow2;
    Pow2Double(k);
    Digits.Shuffle(c, 2, Pow2(k - 1));
    Digits.Regroup(2, c, Pow2(k - 1));
    Digits.Distribute(Pow2(k - 1), 2 * c, 1);
  }

  /** From a height of k bits, no ancestor is further away than the longest walk. */
  lemma StepsBound(h: nat, height: nat, k: nat)
    requires height <= h < Pow2(k)
    ensures Steps(h, height) <= LongestWalk(k)
  {
    StepsInBlock(0, k, h, height);
  }

  // ---- they are that long ----

  lemma MiddleOfAll(j: nat)
    ensures Bottom(0, j) == 0 && Middle(0, j) == Pow2(j)
  {
  }

  lemma MiddleExactly(j: nat)
    requires j >= 2
    ensures Pow2(j) >= 4 && Steps(Pow2(j), 2) == 1 + Steps(Pow2(j) - 1, 2)
  {
    hide Pow2, GetSkipHeight, Steps;
    AtLeastFour(j);
    MiddleOfAll(j);
    SkipMiddle(0, j);
    StepTo(Pow2(j), 2, NextHeight(Pow2(j), 2));
  }

  lemma {:induction false} AtLeastFour(j: nat)
    requires j >= 2
    ensures Pow2(j) >= 4
  {
    if j > 2 { AtLeastFour(j - 1); } else { SmallPowers(2); }
  }

  lemma BitExactly(j: nat, a: nat)
    requires j >= 2 && a % 2 == 0 && 0 < a < Pow2(j) && InvertLowestOne(a) == 0
    ensures Pow2(j) >= 4 && Steps(Pow2(j) + a, 2) == 2 + Steps(Pow2(j) - 1, 2)
  {
    hide Pow2, GetSkipHeight, Steps, InvertLowestOne;
    MiddleExactly(j);
    MiddleOfAll(j);
    SkipEven(0, j, a);
    SkipOdd(0, j, a - 2);
    InvertZero();
    StepTo(Pow2(j) + a, 2, NextHeight(Pow2(j) + a, 2));
  }

  lemma {:induction false} OddExactly(j: nat, a: nat)
    requires j >= 2 && a % 2 == 0 && a < Pow2(j)
    ensures Pow2(j) >= 4 && Steps(Pow2(j) + a + 1, 2) == Steps(Pow2(j) - 1, 2) + 2 + (Ones(a) + 1) / 2
    decreases a
  {
    hide Pow2, GetSkipHeight, Steps, InvertLowestOne, Ones;
    var h := Pow2(j) + a + 1;
    MiddleExactly(j);
    MiddleOfAll(j);
    OddSkips(0, j, a, 2);
    SkipOdd(0, j, a);
    StepTo(h, 2, NextHeight(h, 2));
    InvertZero();
    if a == 0 {
      OnesZero();
    } else {
      var b := InvertLowestOne(a);
      InvertOnes(a);
      InvertLess(a);
      if b == 0 {
        OnesZero();
        BitExactly(j, a);
      } else {
        InvertOnes(b);
        InvertLess(b);
        OddExactly(j, InvertLowestOne(b));
      }
    }
  }

  lemma {:induction false} EightExactly(j: nat, m: nat)
    requires j >= 2 && 8 * m < Pow2(j)
    ensures Pow2(j) >= 4 && Steps(Pow2(j) + 8 * m, 2) == Steps(Pow2(j) - 1, 2) + 1 + Ones(m)
    decreases m
  {
    hide Pow2, GetSkipHeight, Steps, InvertLowestOne, Ones;
    MiddleExactly(j);
    if m == 0 {
      OnesZero();
    } else {
      MiddleOfAll(j);
      EightSkips(0, j, m, 2);
      StepTo(Pow2(j) + 8 * m, 2, NextHeight(Pow2(j) + 8 * m, 2));
      InvertOnes(m);
      InvertLess(m);
      EightExactly(j, InvertLowestOne(m));
    }
  }

  /** From all ones down to 2 is the longest walk from an odd height. */
  lemma {:induction false} OddAttained(k: nat)
    requires k >= 3
    ensures Pow2(k) >= 4 && Steps(Pow2(k) - 1, 2) == OddWalk(k)
  {
    hide Pow2, Steps, Ones;
    var j := k - 1;
    AtLeastFour(k);
    AtLeastFour(j);
    Pow2Double(k);
    Pow2Double(j);
    OddExactly(j, Pow2(j) - 2);
    OnesFull(j - 1);
    OnesDouble(Pow2(j - 1) - 1, 0);
    if k == 3 {
      SmallPowers(2);
      OneStep(3, 2);
    } else {
      OddAttained(j);
    }
  }

  /** From nine bits on, the walk from 2^k - 8 down to 2 is as long as any. */
  lemma LongestAttained(k: nat)
    requires k >= 9
    ensures Pow2(k) >= 10 && Steps(Pow2(k) - 8, 2) == LongestWalk(k)
  {
    hide Pow2, Steps, Ones, OddWalk;
    var j := k - 1;
    Pow2Double(k);
    SmallPowers(j);
    AtLeastFour(j - 3);
    EightExactly(j, Pow2(j - 3) - 1);
    OnesFull(j - 3);
    OddAttained(j);
  }

  function Area(k: nat): nat { k * (k + 6) }

  lemma AreaStep(k: nat)
    ensures Area(3) == 27 && Area(k + 1) == Area(k) + 2 * k + 7
  {
  }

  lemma {:induction false} OddWalkClosed(k: nat)
    requires k >= 3
    ensures 4 * OddWalk(k) == Area(k) - (if k % 2 == 0 then 12 else 11)
  {
    hide OddWalk, Area;
    OddWalkStep(k);
    AreaStep(k - 1);
    if k > 3 { OddWalkClosed(k - 1); }
  }

  /** In closed form, about a quarter of the square of the number of bits. */
  lemma LongestWalkClosed(k: nat)
    requires k >= 9
    ensures LongestWalk(k) == ((k - 1) * (k + 5) - 11) / 4 + k - 3
  {
    hide OddWalk;
    OddWalkClosed(k - 1);
  }

  /** Within 2^18 blocks a walk takes at most 110 steps, and one takes that many. */
  lemma AtMost110(h: nat, height: nat)
    requires height <= h < Pow2(18)
    ensures Steps(h, height) <= 110
    ensures Pow2(18) >= 10 && Steps(Pow2(18) - 8, 2) == 110
  {
    hide Pow2, Steps, LongestWalk;
    StepsBound(h, height, 18);
    LongestAttained(18);
    LongestWalkClosed(18);
  }

  /** A number of steps within the bound for a height. */
  ghost predicate Quick(steps: nat, h: nat) { forall k: nat :: h < Pow2(k) ==> steps <= LongestWalk(k) }

  lemma StepsQuick(h: nat, height: nat)
    requires height <= h
    ensures Quick(Steps(h, height), h)
  {
    hide Pow2, Steps, LongestWalk;
    forall k: nat | h < Pow2(k) ensures Steps(h, height) <= LongestWalk(k) { StepsBound(h, height, k); }
  }

  lemma NoneQuick(h: nat)
    ensures Quick(0, h)
  {
  }
}
