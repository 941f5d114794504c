/** The Bech32 checksum: a remainder that is linear and injective in every symbol. */
module Bech32Code {

  // ---- one step ----

  function Xor(a: bv32, b: bv32): bv32 { a ^ b }

  lemma XorPairs(a: bv32, b: bv32, c: bv32, d: bv32)
    ensures Xor(Xor(a, b), Xor(c, d)) == Xor(Xor(a, c), Xor(b, d))
  {
    hide Xor;
    XorRegroup(a, b, Xor(c, d));
    XorRegroup(b, c, d);
    XorRegroup(c, b, d);
    XorSwap(b, c);
    XorRegroup(a, c, Xor(b, d));
  }

  lemma XorRegroup(a: bv32, b: bv32, c: bv32)
    ensures Xor(Xor(a, b), c) == Xor(a, Xor(b, c))
  {
  }

  lemma XorSwap(a: bv32, b: bv32)
    ensures Xor(a, b) == Xor(b, a)
  {
  }

  lemma XorSame(a: bv32)
    ensures Xor(a, a) == 0 && Xor(a, 0) == a == Xor(0, a)
  {
  }

  lemma XorBack(a: bv32, b: bv32)
    ensures Xor(a, Xor(a, b)) == b
  {
  }

  function Pick(c0: bv32, bit: bv32, k: bv32): bv32 { if c0 & bit != 0 then k else 0 }

  function Shift(c: bv32): bv32 { (c & 0x1ffffff) << 5 }

  function Top(c: bv32): bv32 { c >> 25 }

  /** Adds the multiples of the generator for the coefficient that is shifted out. */
  function Reduce(r: bv32, c0: bv32): bv32 {
    Xor(Xor(Xor(Xor(Xor(r, Pick(c0, 1, 0x3b6a57b2)), Pick(c0, 2, 0x26508e6d)), Pick(c0, 4, 0x1ea119fa)),
            Pick(c0, 8, 0x3d4233dd)), Pick(c0, 16, 0x2a1462b3))
  }

  /** The remainder of what came before times x, plus the next symbol. */
  function Step(c: bv32, v: bv32): bv32 { Reduce(Xor(Shift(c), v), Top(c)) }

  lemma OneBit(c: bv32, d: bv32)
    ensures Xor(c, d) & 1 != 0 <==> ((c & 1 != 0) != (d & 1 != 0))
    ensures Xor(c, d) & 2 != 0 <==> ((c & 2 != 0) != (d & 2 != 0))
    ensures Xor(c, d) & 4 != 0 <==> ((c & 4 != 0) != (d & 4 != 0))
    ensures Xor(c, d) & 8 != 0 <==> ((c & 8 != 0) != (d & 8 != 0))
    ensures Xor(c, d) & 16 != 0 <==> ((c & 16 != 0) != (d & 16 != 0))
  {
  }

  lemma PickLinear(c: bv32, d: bv32, bit: bv32, k: bv32)
    requires Xor(c, d) & bit != 0 <==> ((c & bit != 0) != (d & bit != 0))
    ensures Pick(Xor(c, d), bit, k) == Xor(Pick(c, bit, k), Pick(d, bit, k))
  {
    hide Xor;
    XorSame(k);
    XorSame(0);
  }

  lemma ReduceLinear(r: bv32, c: bv32, q: bv32, d: bv32)
    ensures Reduce(Xor(r, q), Xor(c, d)) == Xor(Reduce(r, c), Reduce(q, d))
  {
    hide Pick, Xor;
    OneBit(c, d);
    var r1, q1 := PickedLinear(r, c, q, d, 1, 0x3b6a57b2);
    var r2, q2 := PickedLinear(r1, c, q1, d, 2, 0x26508e6d);
    var r3, q3 := PickedLinear(r2, c, q2, d, 4, 0x1ea119fa);
    var r4, q4 := PickedLinear(r3, c, q3, d, 8, 0x3d4233dd);
    var r5, q5 := PickedLinear(r4, c, q4, d, 16, 0x2a1462b3);
  }

  lemma PickedLinear(r: bv32, c: bv32, q: bv32, d: bv32, bit: bv32, k: bv32) returns (s: bv32, t: bv32)
    requires Xor(c, d) & bit != 0 <==> ((c & bit != 0) != (d & bit != 0))
    ensures s == Xor(r, Pick(c, bit, k)) && t == Xor(q, Pick(d, bit, k))
    ensures Xor(Xor(r, q), Pick(Xor(c, d), bit, k)) == Xor(s, t)
  {
    hide Xor, Pick;
    PickLinear(c, d, bit, k);
    XorPairs(r, q, Pick(c, bit, k), Pick(d, bit, k));
    s, t := Xor(r, Pick(c, bit, k)), Xor(q, Pick(d, bit, k));
  }

  lemma ShiftLinear(c: bv32, d: bv32)
    ensures Shift(Xor(c, d)) == Xor(Shift(c), Shift(d)) && Top(Xor(c, d)) == Xor(Top(c), Top(d))
  {
  }

  /** A step is linear in the remainder and the symbol together. */
  lemma StepLinear(c: bv32, v: bv32, d: bv32, w: bv32)
    ensures Step(Xor(c, d), Xor(v, w)) == Xor(Step(c, v), Step(d, w))
  {
    hide Reduce, Xor, Shift, Top;
    ShiftLinear(c, d);
    XorPairs(Shift(c), Shift(d), v, w);
    ReduceLinear(Xor(Shift(c), v), Top(c), Xor(Shift(d), w), Top(d));
  }

  lemma StepFits(c: bv32, v: bv32)
    requires c < 0x4000_0000 && v < 32
    ensures Step(c, v) < 0x4000_0000
  {
  }

  /** Shifting by one symbol maps nothing but zero to zero. */
  lemma StepInjective(c: bv32)
    requires c < 0x4000_0000 && Step(c, 0) == 0
    ensures c == 0
  {
  }

  // ---- sequences of symbols ----

  type Data = seq<bv8>

  function Wide(x: bv8): bv32 { x as bv32 }

  ghost predicate Symbols(v: Data) { forall i :: 0 <= i < |v| ==> v[i] < 32 }

  /** The remainder after more symbols. */
  function Fold(c: bv32, v: Data): bv32 {
    if v == [] then c else Step(Fold(c, v[..|v| - 1]), Wide(v[|v| - 1]))
  }

  function Remainder(v: Data): bv32 { Fold(1, v) }

  method PolyMod(v: Data) returns (c: bv32)
    ensures c == Remainder(v)
  {
    hide Step;
    c := 1;
    var i := 0;
    while i < |v|
      invariant 0 <= i <= |v| && c == Fold(1, v[..i])
    {
      assert v[..i + 1][..i] == v[..i];
      c := Update(c, Wide(v[i]));
      i := i + 1;
    }
    assert v[..i] == v;
  }

  method Update(c: bv32, v: bv32) returns (r: bv32)
    ensures r == Step(c, v)
  {
    hide Xor, Shift, Top;
    var c0 := Top(c);
    r := Xor(Shift(c), v);
    r := AddIf(r, c0, 1, 0x3b6a57b2);
    r := AddIf(r, c0, 2, 0x26508e6d);
    r := AddIf(r, c0, 4, 0x1ea119fa);
    r := AddIf(r, c0, 8, 0x3d4233dd);
    r := AddIf(r, c0, 16, 0x2a1462b3);
  }

  method AddIf(r: bv32, c0: bv32, bit: bv32, k: bv32) returns (s: bv32)
    ensures s == Xor(r, Pick(c0, bit, k))
  {
    hide Xor;
    XorSame(r);
    s := r;
    if c0 & bit != 0 { s := Xor(s, k); }
  }

  lemma {:induction false} FoldJoin(c: bv32, v: Data, w: Data)
    ensures Fold(c, v + w) == Fold(Fold(c, v), w)
  {
    hide Step;
    if w == [] {
      assert v + w == v;
    } else {
      var n := |w| - 1;
      FoldJoin(c, v, w[..n]);
      assert (v + w)[..|v + w| - 1] == v + w[..n];
    }
  }

  lemma {:induction false} FoldFits(c: bv32, v: Data)
    requires c < 0x4000_0000 && Symbols(v)
    ensures Fold(c, v) < 0x4000_0000
  {
    if v != [] {
      var n := |v| - 1;
      FoldFits(c, v[..n]);
      Widen(v[n]);
      StepFits(Fold(c, v[..n]), Wide(v[n]));
    }
  }

  lemma Widen(x: bv8)
    ensures x < 32 ==> Wide(x) < 32
    ensures Wide(x) == 0 <==> x == 0
  {
  }

  ghost predicate Xored(v: Data, w: Data, e: Data) {
    |v| == |w| == |e| && forall i :: 0 <= i < |v| ==> e[i] == Xor8(v[i], w[i])
  }

  function Xor8(x: bv8, y: bv8): bv8 { x ^ y }

  lemma WidenXor(x: bv8, y: bv8)
    ensures Wide(Xor8(x, y)) == Xor(Wide(x), Wide(y))
  {
  }

  /** The remainder of a difference is the difference of the remainders. */
  lemma {:induction false} FoldLinear(c: bv32, v: Data, d: bv32, w: Data, e: Data)
    requires Xored(v, w, e)
    ensures Fold(Xor(c, d), e) == Xor(Fold(c, v), Fold(d, w))
  {
    hide Step, Xor, Wide, Xor8;
    if v != [] {
      var n := |v| - 1;
      FoldLinear(c, v[..n], d, w[..n], e[..n]);
      WidenXor(v[n], w[n]);
      StepLinear(Fold(c, v[..n]), Wide(v[n]), Fold(d, w[..n]), Wide(w[n]));
    }
  }

  ghost predicate Zeros(v: Data) { forall i :: 0 <= i < |v| ==> v[i] == 0 }

  /** Zeros keep a remainder zero, and keep it from becoming so. */
  lemma {:induction false} FoldZeros(c: bv32, v: Data)
    requires c < 0x4000_0000 && Zeros(v)
    ensures Fold(c, v) == 0 <==> c == 0
  {
    if v != [] {
      var n := |v| - 1;
      FoldZeros(c, v[..n]);
      FoldFits(c, v[..n]);
      var f := Fold(c, v[..n]);
      assert Wide(v[n]) == 0;
      if Step(f, 0) == 0 { StepInjective(f); }
      ZeroStep();
    }
  }

  lemma ZeroStep()
    ensures Step(0, 0) == 0
  {
  }

  // ---- six symbols in 30 bits ----

  function Append(c: bv32, x: bv8): bv32 { (c << 5) | Wide(x) }

  /** While fewer than 30 bits are taken, a step appends the symbol. */
  lemma SmallStep(c: bv32, x: bv8)
    requires c < 0x200_0000 && x < 32
    ensures Step(c, Wide(x)) == Append(c, x)
  {
    hide Xor, Append, Pick, Shift, Top;
    SmallParts(c, x);
    NothingPicked();
    XorSame(Append(c, x));
  }

  lemma SmallParts(c: bv32, x: bv8)
    requires c < 0x200_0000 && x < 32
    ensures Top(c) == 0 && Xor(Shift(c), Wide(x)) == Append(c, x)
  {
  }

  lemma NothingPicked()
    ensures forall bit, k :: Pick(0, bit, k) == 0
  {
  }

  function Pack(v: Data): bv32
    requires |v| == 6
  {
    Append(Append(Append(Append(Append(Append(0, v[0]), v[1]), v[2]), v[3]), v[4]), v[5])
  }

  function Unpack(m: bv32): Data {
    [((m >> 25) & 31) as bv8, ((m >> 20) & 31) as bv8, ((m >> 15) & 31) as bv8,
     ((m >> 10) & 31) as bv8, ((m >> 5) & 31) as bv8, (m & 31) as bv8]
  }

  lemma PackUnpack(m: bv32)
    requires m < 0x4000_0000
    ensures Symbols(Unpack(m)) && Pack(Unpack(m)) == m
  {
  }

  lemma UnpackPack(v: Data)
    requires |v| == 6 && Symbols(v)
    ensures Unpack(Pack(v)) == v
  {
    assert v[0] < 32 && v[1] < 32 && v[2] < 32 && v[3] < 32 && v[4] < 32 && v[5] < 32;
    UnpackSix(v[0], v[1], v[2], v[3], v[4], v[5]);
  }

  lemma UnpackSix(a: bv8, b: bv8, c: bv8, d: bv8, e: bv8, f: bv8)
    requires a < 32 && b < 32 && c < 32 && d < 32 && e < 32 && f < 32
    ensures Unpack(Append(Append(Append(Append(Append(Append(0, a), b), c), d), e), f)) == [a, b, c, d, e, f]
  {
  }

  lemma AppendFits(c: bv32, x: bv8, bound: bv32)
    requires x < 32 && c <= bound < 0x200_0000
    ensures Append(c, x) <= (bound << 5) | 31
  {
  }

  /** The remainder of six symbols on their own is the symbols. */
  lemma FoldSix(v: Data)
    requires |v| == 6 && Symbols(v)
    ensures Fold(0, v) == Pack(v)
  {
    hide Step, Append, Wide;
    var c1 := Append(0, v[0]);
    AppendFits(0, v[0], 0);
    SmallStep(0, v[0]);
    FoldNext(0, v, 0);
    var c2 := Append(c1, v[1]);
    AppendFits(c1, v[1], 31);
    SmallStep(c1, v[1]);
    FoldNext(0, v, 1);
    var c3 := Append(c2, v[2]);
    AppendFits(c2, v[2], 1023);
    SmallStep(c2, v[2]);
    FoldNext(0, v, 2);
    var c4 := Append(c3, v[3]);
    AppendFits(c3, v[3], 32767);
    SmallStep(c3, v[3]);
    FoldNext(0, v, 3);
    var c5 := Append(c4, v[4]);
    AppendFits(c4, v[4], 1048575);
    SmallStep(c4, v[4]);
    FoldNext(0, v, 4);
    SmallStep(c5, v[5]);
    FoldNext(0, v, 5);
    assert v[..0] == [] && v[..6] == v;
  }

  lemma FoldNext(c: bv32, v: Data, i: nat)
    requires i < |v|
    ensures Fold(c, v[..i + 1]) == Step(Fold(c, v[..i]), Wide(v[i]))
  {
    hide Step, Wide;
    assert v[..i + 1][..i] == v[..i];
  }

  // ---- the step as polynomial arithmetic ----

  /** Times the element {2} of GF(32), modulo a^5 + a^3 + 1. */
  function Twice(x: bv8): bv8 { if x & 16 != 0 then (x << 1) ^ 41 else x << 1 }

  function BitTimes(x: bv8, bit: bv8, y: bv8): bv8 { if x & bit != 0 then y else 0 }

  /** The product in GF(32). */
  function Times(x: bv8, y: bv8): bv8 {
    BitTimes(x, 1, y) ^ BitTimes(x, 2, Twice(y)) ^ BitTimes(x, 4, Twice(Twice(y))) ^
    BitTimes(x, 8, Twice(Twice(Twice(y)))) ^ BitTimes(x, 16, Twice(Twice(Twice(Twice(y)))))
  }

  /** The multiple {c0} of x^6 modulo the generator. */
  function Multiple(c0: bv8): Data {
    [Times(c0, 29), Times(c0, 22), Times(c0, 20), Times(c0, 21), Times(c0, 29), Times(c0, 18)]
  }

  /** The generator that the code adds for the coefficient shifted out is that multiple, packed. */
  lemma ReduceIsMultiple(c0: bv8)
    requires c0 < 32
    ensures Symbols(Multiple(c0)) && Reduce(0, Wide(c0)) == Pack(Multiple(c0))
  {
  }

  /** The sum of polynomials of six coefficients. */
  function Added(a: Data, b: Data): Data
    requires |a| == 6 && |b| == 6
  {
    [Xor8(a[0], b[0]), Xor8(a[1], b[1]), Xor8(a[2], b[2]), Xor8(a[3], b[3]), Xor8(a[4], b[4]), Xor8(a[5], b[5])]
  }

  lemma AppendXor(c: bv32, x: bv8, d: bv32, y: bv8)
    requires x < 32 && y < 32
    ensures Xor(Append(c, x), Append(d, y)) == Append(Xor(c, d), Xor8(x, y))
  {
    hide Xor, Append, Wide, Xor8, Up;
    AppendIsXor(c, x);
    AppendIsXor(d, y);
    XorPairs(Up(c), Wide(x), Up(d), Wide(y));
    UpLinear(c, d);
    WidenXor(x, y);
    Xor8Fits(x, y);
    AppendIsXor(Xor(c, d), Xor8(x, y));
  }

  function Up(c: bv32): bv32 { c << 5 }

  lemma UpLinear(c: bv32, d: bv32)
    ensures Up(Xor(c, d)) == Xor(Up(c), Up(d))
  {
  }

  lemma AppendIsXor(c: bv32, x: bv8)
    requires x < 32
    ensures Append(c, x) == Xor(Up(c), Wide(x))
  {
  }

  lemma Xor8Fits(x: bv8, y: bv8)
    requires x < 32 && y < 32
    ensures Xor8(x, y) < 32
  {
  }

  lemma PackAdded(a: Data, b: Data)
    requires |a| == 6 && |b| == 6 && Symbols(a) && Symbols(b)
    ensures Xor(Pack(a), Pack(b)) == Pack(Added(a, b))
  {
    hide Append, Xor, Xor8;
    XorSame(0);
    AppendXor(0, a[0], 0, b[0]);
    var (p1, q1) := (Append(0, a[0]), Append(0, b[0]));
    AppendXor(p1, a[1], q1, b[1]);
    var (p2, q2) := (Append(p1, a[1]), Append(q1, b[1]));
    AppendXor(p2, a[2], q2, b[2]);
    var (p3, q3) := (Append(p2, a[2]), Append(q2, b[2]));
    AppendXor(p3, a[3], q3, b[3]);
    var (p4, q4) := (Append(p3, a[3]), Append(q3, b[3]));
    AppendXor(p4, a[4], q4, b[4]);
    AppendXor(Append(p4, a[4]), a[5], Append(q4, b[4]), b[5]);
  }

  /** A higher part stays apart when a symbol is appended. */
  lemma AppendHigh(c: bv32, h: bv32, x: bv8)
    requires x < 32
    ensures Append(Xor(c, h), x) == Xor(Append(c, x), Up(h))
  {
    hide Xor, Append, Wide, Up;
    AppendIsXor(Xor(c, h), x);
    AppendIsXor(c, x);
    UpLinear(c, h);
    XorRegroup(Up(c), Up(h), Wide(x));
    XorRegroup(Up(c), Wide(x), Up(h));
    XorSwap(Up(h), Wide(x));
  }

  /** The first of six symbols on top of the other five. */
  lemma PackHigh(d: Data)
    requires |d| == 6 && Symbols(d)
    ensures var low := Append(Append(Append(Append(Append(0, d[1]), d[2]), d[3]), d[4]), d[5]);
            low < 0x200_0000 && Pack(d) == Xor(low, Up(Up(Up(Up(Up(Wide(d[0])))))))
  {
    hide Append, Xor, Wide, Up;
    var c1 := Append(0, d[1]);
    var c2 := Append(c1, d[2]);
    var c3 := Append(c2, d[3]);
    var c4 := Append(c3, d[4]);
    AppendFits(0, d[1], 0);
    AppendFits(c1, d[2], 31);
    AppendFits(c2, d[3], 1023);
    AppendFits(c3, d[4], 32767);
    AppendFits(c4, d[5], 1048575);
    var h := Wide(d[0]);
    AppendIsXor(0, d[0]);
    UpZero();
    AppendHigh(0, h, d[1]);
    AppendHigh(c1, Up(h), d[2]);
    AppendHigh(c2, Up(Up(h)), d[3]);
    AppendHigh(c3, Up(Up(Up(h))), d[4]);
    AppendHigh(c4, Up(Up(Up(Up(h)))), d[5]);
  }

  lemma UpZero()
    ensures Up(0) == 0
  {
  }

  lemma ShiftHigh(low: bv32, x: bv8)
    requires low < 0x200_0000 && x < 32
    ensures var c := Xor(low, Up(Up(Up(Up(Up(Wide(x))))))); Top(c) == Wide(x) && Shift(c) == Up(low)
  {
  }

  lemma ShiftPacked(d: Data, v: bv8)
    requires |d| == 6 && Symbols(d) && v < 32
    ensures Top(Pack(d)) == Wide(d[0]) && Xor(Shift(Pack(d)), Wide(v)) == Pack(d[1..] + [v])
  {
    hide Append, Xor, Wide, Up, Top, Shift;
    var low := Append(Append(Append(Append(Append(0, d[1]), d[2]), d[3]), d[4]), d[5]);
    PackHigh(d);
    ShiftHigh(low, d[0]);
    AppendIsXor(low, v);
  }

  lemma ReduceSplit(r: bv32, c0: bv32)
    ensures Reduce(r, c0) == Xor(r, Reduce(0, c0))
  {
    hide Xor, Pick;
    ReduceLinear(r, 0, 0, c0);
    XorSame(r);
    XorSame(c0);
    NothingPicked();
  }

  /**
   A step is arithmetic in GF(32)[x]: the remainder before times x, plus the next
   symbol, modulo x^6 + {29}x^5 + {22}x^4 + {20}x^3 + {21}x^2 + {29}x + {18}.
   */
  lemma StepIsRemainder(d: Data, v: bv8)
    requires |d| == 6 && Symbols(d) && v < 32
    ensures Step(Pack(d), Wide(v)) == Pack(Added(d[1..] + [v], Multiple(d[0])))
  {
    hide Pack, Reduce, Xor, Multiple, Shift, Top, Added;
    ShiftPacked(d, v);
    ReduceSplit(Pack(d[1..] + [v]), Wide(d[0]));
    ReduceIsMultiple(d[0]);
    MultipleSize(d[0]);
    PackAdded(d[1..] + [v], Multiple(d[0]));
  }

  lemma MultipleSize(c0: bv8)
    ensures |Multiple(c0)| == 6
  {
  }
}
