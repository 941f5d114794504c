/**
 The Bech32 checksum through the roots of its generator: data that agrees with
 valid data in all but three symbols, within 1023 consecutive ones, is not valid.
 */
module Bech32Errors {
  import opened Bech32Code
  import opened Bech32
  import opened Gf1024

  // ---- GF(32) inside GF(1024) ----

  predicate Has(c: bv8, bit: bv8) { c & bit != 0 }

  /** The element with {2} sent to the root 333 of a^5 + a^3 + 1. */
  function Embed(c: bv8): bv16 {
    Five(Part(Has(c, 1), 1), Part(Has(c, 2), 333), Part(Has(c, 4), 643), Part(Has(c, 8), 615), Part(Has(c, 16), 290))
  }

  function Five(a: bv16, b: bv16, c: bv16, d: bv16, e: bv16): bv16 { Plus(Plus(Plus(Plus(a, b), c), d), e) }

  lemma FivePlus(a: bv16, b: bv16, c: bv16, d: bv16, e: bv16, k: bv16, l: bv16, m: bv16, n: bv16, o: bv16)
    ensures Five(Plus(a, k), Plus(b, l), Plus(c, m), Plus(d, n), Plus(e, o)) ==
            Plus(Five(a, b, c, d, e), Five(k, l, m, n, o))
  {
    hide Plus;
    PlusPairs(a, k, b, l);
    PlusPairs(Plus(a, b), Plus(k, l), c, m);
    PlusPairs(Plus(Plus(a, b), c), Plus(Plus(k, l), m), d, n);
    PlusPairs(Plus(Plus(Plus(a, b), c), d), Plus(Plus(Plus(k, l), m), n), e, o);
  }

  lemma HasXor(x: bv8, y: bv8, bit: bv8)
    requires bit == 1 || bit == 2 || bit == 4 || bit == 8 || bit == 16
    ensures Has(Xor8(x, y), bit) <==> Has(x, bit) != Has(y, bit)
  {
  }

  lemma PartXor(x: bv8, y: bv8, bit: bv8, k: bv16)
    requires bit == 1 || bit == 2 || bit == 4 || bit == 8 || bit == 16
    ensures Part(Has(Xor8(x, y), bit), k) == Plus(Part(Has(x, bit), k), Part(Has(y, bit), k))
  {
    hide Has, Part, Plus, Xor8;
    HasXor(x, y, bit);
    PartPlus(Has(x, bit), Has(y, bit), k, k);
  }

  lemma EmbedXor(x: bv8, y: bv8)
    ensures Embed(Xor8(x, y)) == Plus(Embed(x), Embed(y))
  {
    hide Has, Part, Plus, Xor8, Five;
    PartXor(x, y, 1, 1);
    PartXor(x, y, 2, 333);
    PartXor(x, y, 4, 643);
    PartXor(x, y, 8, 615);
    PartXor(x, y, 16, 290);
    FivePlus(Part(Has(x, 1), 1), Part(Has(x, 2), 333), Part(Has(x, 4), 643),
             Part(Has(x, 8), 615), Part(Has(x, 16), 290),
             Part(Has(y, 1), 1), Part(Has(y, 2), 333), Part(Has(y, 4), 643),
             Part(Has(y, 8), 615), Part(Has(y, 16), 290));
  }

  lemma EmbedFacts(c: bv8)
    ensures Embed(c) < 1024 && Embed(0) == 0
    ensures c < 32 && Embed(c) == 0 ==> c == 0
  {
  }

  lemma MulPart(k: bv16, odd: bool, y: bv16)
    ensures Mul(k, Part(odd, y)) == Part(odd, Mul(k, y)) && Mul(Part(odd, k), y) == Part(odd, Mul(k, y))
  {
    hide Mul;
    MulNothing(k);
    MulZero(y);
  }

  lemma MulFive(k: bv16, a: bv16, b: bv16, c: bv16, d: bv16, e: bv16)
    ensures Mul(k, Five(a, b, c, d, e)) == Five(Mul(k, a), Mul(k, b), Mul(k, c), Mul(k, d), Mul(k, e))
  {
    hide Mul, Plus;
    MulPlusRight(k, a, b);
    MulPlusRight(k, Plus(a, b), c);
    MulPlusRight(k, Plus(Plus(a, b), c), d);
    MulPlusRight(k, Plus(Plus(Plus(a, b), c), d), e);
  }

  lemma FiveMul(k: bv16, a: bv16, b: bv16, c: bv16, d: bv16, e: bv16)
    ensures Mul(Five(a, b, c, d, e), k) == Five(Mul(a, k), Mul(b, k), Mul(c, k), Mul(d, k), Mul(e, k))
  {
    hide Mul, Plus;
    MulPlusLeft(a, b, k);
    MulPlusLeft(Plus(a, b), c, k);
    MulPlusLeft(Plus(Plus(a, b), c), d, k);
    MulPlusLeft(Plus(Plus(Plus(a, b), c), d), e, k);
  }

  lemma Twos()
    ensures Mul(333, 1) == 333 && Mul(333, 333) == 643 && Mul(333, 643) == 615
  {
    OneMul(333);
  }

  lemma MoreTwos()
    ensures Mul(333, 615) == 290 && Mul(333, 290) == 614
  {
  }

  lemma TwiceFits(y: bv8)
    requires y < 32
    ensures Twice(y) < 32
  {
  }

  lemma TwiceBits(y: bv8)
    requires y < 32
    ensures Embed(Twice(y)) ==
            Five(Part(Has(y, 1), 333), Part(Has(y, 2), 643), Part(Has(y, 4), 615),
                 Part(Has(y, 8), 290), Part(Has(y, 16), 614))
  {
    hide Has, Five, Twice, Part;
    TwiceHas(y);
    FiveTwice(Has(y, 1), Has(y, 2), Has(y, 4), Has(y, 8), Has(y, 16));
  }

  lemma TwiceHas(y: bv8)
    requires y < 32
    ensures var t := Twice(y);
            && Has(t, 1) == Has(y, 16) && Has(t, 2) == Has(y, 1) && Has(t, 4) == Has(y, 2)
            && Has(t, 8) == (Has(y, 4) != Has(y, 16)) && Has(t, 16) == Has(y, 8)
  {
  }

  lemma FiveTwice(a: bool, b: bool, c: bool, d: bool, e: bool)
    ensures Five(Part(e, 1), Part(a, 333), Part(b, 643), Part(c != e, 615), Part(d, 290)) ==
            Five(Part(a, 333), Part(b, 643), Part(c, 615), Part(d, 290), Part(e, 614))
  {
  }

  lemma TwiceEmbed(y: bv8)
    requires y < 32
    ensures Embed(Twice(y)) == Mul(333, Embed(y))
  {
    hide Mul, Plus, Five, Has, Part, Twice;
    TwiceBits(y);
    MulFive(333, Part(Has(y, 1), 1), Part(Has(y, 2), 333), Part(Has(y, 4), 643),
            Part(Has(y, 8), 615), Part(Has(y, 16), 290));
    Twos();
    MoreTwos();
    MulPart(333, Has(y, 1), 1);
    MulPart(333, Has(y, 2), 333);
    MulPart(333, Has(y, 4), 643);
    MulPart(333, Has(y, 8), 615);
    MulPart(333, Has(y, 16), 290);
  }

  lemma BitEmbed(x: bv8, bit: bv8, y: bv8)
    ensures Embed(BitTimes(x, bit, y)) == Part(Has(x, bit), Embed(y))
  {
    EmbedFacts(0);
    hide Embed;
  }

  lemma TimesBits(x: bv8, y: bv8, y2: bv8, y4: bv8, y8: bv8, y16: bv8)
    requires y2 == Twice(y) && y4 == Twice(y2) && y8 == Twice(y4) && y16 == Twice(y8)
    ensures Embed(Times(x, y)) ==
            Five(Part(Has(x, 1), Embed(y)), Part(Has(x, 2), Embed(y2)), Part(Has(x, 4), Embed(y4)),
                 Part(Has(x, 8), Embed(y8)), Part(Has(x, 16), Embed(y16)))
  {
    hide Twice, BitTimes, Embed, Has, Part, Plus;
    var (a, b, c) := (BitTimes(x, 1, y), BitTimes(x, 2, y2), BitTimes(x, 4, y4));
    var (d, e) := (BitTimes(x, 8, y8), BitTimes(x, 16, y16));
    assert Times(x, y) == Xor8(Xor8(Xor8(Xor8(a, b), c), d), e);
    hide Xor8, Times;
    EmbedXor(a, b);
    EmbedXor(Xor8(a, b), c);
    EmbedXor(Xor8(Xor8(a, b), c), d);
    EmbedXor(Xor8(Xor8(Xor8(a, b), c), d), e);
    BitEmbed(x, 1, y);
    BitEmbed(x, 2, y2);
    BitEmbed(x, 4, y4);
    BitEmbed(x, 8, y8);
    BitEmbed(x, 16, y16);
  }

  lemma Scale(k: bv16, l: bv16, z: bv16, w: bv16)
    requires k < 1024 && z < 1024 && Mul(333, k) == l && Mul(k, z) == w
    ensures Mul(l, z) == Mul(333, w)
  {
    hide Mul;
    MulRegroup(333, k, z);
  }

  /** The embedding keeps products. */
  lemma TimesEmbed(x: bv8, y: bv8)
    requires y < 32
    ensures Embed(Times(x, y)) == Mul(Embed(x), Embed(y))
  {
    hide Twice, Times, Has, Part, Plus, Mul, Five;
    var y2 := Twice(y);
    var y4 := Twice(y2);
    var y8 := Twice(y4);
    var y16 := Twice(y8);
    var z := Embed(y);
    TimesBits(x, y, y2, y4, y8, y16);
    TwiceChain(y, y2, y4, y8, y16);
    FiveMul(z, Part(Has(x, 1), 1), Part(Has(x, 2), 333), Part(Has(x, 4), 643),
            Part(Has(x, 8), 615), Part(Has(x, 16), 290));
    MulPart(1, Has(x, 1), z);
    MulPart(333, Has(x, 2), z);
    MulPart(643, Has(x, 4), z);
    MulPart(615, Has(x, 8), z);
    MulPart(290, Has(x, 16), z);
  }

  lemma TwiceChain(y: bv8, y2: bv8, y4: bv8, y8: bv8, y16: bv8)
    requires y < 32 && y2 == Twice(y) && y4 == Twice(y2) && y8 == Twice(y4) && y16 == Twice(y8)
    ensures Mul(1, Embed(y)) == Embed(y) && Mul(333, Embed(y)) == Embed(y2) && Mul(643, Embed(y)) == Embed(y4)
    ensures Mul(615, Embed(y)) == Embed(y8) && Mul(290, Embed(y)) == Embed(y16)
  {
    hide Twice, Mul, Embed;
    var z := Embed(y);
    EmbedFacts(y);
    TwiceFits(y);
    TwiceFits(y2);
    TwiceFits(y4);
    TwiceEmbed(y);
    TwiceEmbed(y2);
    TwiceEmbed(y4);
    TwiceEmbed(y8);
    MulOne(z);
    Twos();
    MoreTwos();
    Scale(333, 643, z, Embed(y2));
    Scale(643, 615, z, Embed(y4));
    Scale(615, 290, z, Embed(y8));
  }

  // ---- the value of a polynomial ----

  /** The symbols, highest power first, evaluated at b. */
  ghost function Eval(b: bv16, v: Data): bv16 {
    if v == [] then 0 else Next(b, Eval(b, v[..|v| - 1]), v[|v| - 1])
  }

  function Next(b: bv16, h: bv16, x: bv8): bv16 { Plus(Mul(b, h), Embed(x)) }

  lemma NextFits(b: bv16, h: bv16, x: bv8)
    requires h < 1024
    ensures Next(b, h, x) < 1024
  {
    hide Plus, Mul, Embed;
    MulFits(b, h);
    EmbedFacts(x);
    PlusFits(Mul(b, h), Embed(x));
  }

  lemma {:induction false} EvalFits(b: bv16, v: Data)
    ensures Eval(b, v) < 1024
  {
    hide Next;
    if v != [] {
      var n := |v| - 1;
      EvalFits(b, v[..n]);
      NextFits(b, Eval(b, v[..n]), v[n]);
    }
  }

  lemma NextXor(b: bv16, h: bv16, x: bv8, g: bv16, y: bv8)
    ensures Next(b, Plus(h, g), Xor8(x, y)) == Plus(Next(b, h, x), Next(b, g, y))
  {
    hide Plus, Mul, Embed, Xor8;
    MulPlusRight(b, h, g);
    EmbedXor(x, y);
    PlusPairs(Mul(b, h), Mul(b, g), Embed(x), Embed(y));
  }

  lemma {:induction false} EvalXored(b: bv16, v: Data, w: Data, e: Data)
    requires Xored(v, w, e)
    ensures Eval(b, e) == Plus(Eval(b, v), Eval(b, w))
  {
    hide Next, Xor8, Plus;
    if v == [] {
      PlusSame(0);
    } else {
      var n := |v| - 1;
      EvalXored(b, v[..n], w[..n], e[..n]);
      NextXor(b, Eval(b, v[..n]), v[n], Eval(b, w[..n]), w[n]);
    }
  }

  lemma NextTimes(b: bv16, c: bv8, h: bv16, x: bv8)
    requires b < 1024 && h < 1024 && x < 32
    ensures Next(b, Mul(Embed(c), h), Times(c, x)) == Mul(Embed(c), Next(b, h, x))
  {
    hide Plus, Mul, Embed, Times;
    var k := Embed(c);
    EmbedFacts(c);
    TimesEmbed(c, x);
    MulPlusRight(k, Mul(b, h), Embed(x));
    MulRegroup(b, k, h);
    MulRegroup(k, b, h);
    MulSwap(b, k);
  }

  lemma {:induction false} EvalTimes(b: bv16, c: bv8, v: Data, w: Data)
    requires b < 1024 && Symbols(v) && |w| == |v| && forall i :: 0 <= i < |v| ==> w[i] == Times(c, v[i])
    ensures Eval(b, w) == Mul(Embed(c), Eval(b, v))
  {
    hide Next, Times, Mul, Embed;
    if v == [] {
      MulNothing(Embed(c));
    } else {
      var n := |v| - 1;
      EvalTimes(b, c, v[..n], w[..n]);
      EvalFits(b, v[..n]);
      NextTimes(b, c, Eval(b, v[..n]), v[n]);
    }
  }

  /** A symbol in front counts with the power of its place. */
  lemma {:induction false} EvalFront(b: bv16, c: bv8, v: Data)
    requires b < 1024
    ensures Eval(b, [c] + v) == Plus(Mul(Power(b, |v|), Embed(c)), Eval(b, v))
  {
    hide Next, Mul, Embed, Plus;
    var w := [c] + v;
    EmbedFacts(c);
    if v == [] {
      assert w == [c];
      EvalOnly(b, c);
      MulOne(Embed(c));
      PlusSame(Embed(c));
    } else {
      var n := |v| - 1;
      assert w[..|w| - 1] == [c] + v[..n];
      EvalFront(b, c, v[..n]);
      PowerFits(b, n);
      NextFront(b, Power(b, n), Embed(c), Eval(b, v[..n]), v[n]);
    }
  }

  lemma NextOnly(b: bv16, c: bv8)
    ensures Next(b, 0, c) == Embed(c)
  {
    hide Mul, Embed, Plus;
    MulNothing(b);
    PlusSame(Embed(c));
  }

  lemma NextFront(b: bv16, p: bv16, k: bv16, h: bv16, x: bv8)
    requires b < 1024 && p < 1024 && k < 1024
    ensures Next(b, Plus(Mul(p, k), h), x) == Plus(Mul(Mul(b, p), k), Next(b, h, x))
  {
    hide Mul, Embed, Plus;
    MulPlusRight(b, Mul(p, k), h);
    MulRegroup(b, p, k);
    PlusRegroup(Mul(Mul(b, p), k), Mul(b, h), Embed(x));
  }

  // ---- the roots of the generator ----

  const GENERATOR: Data := [29, 22, 20, 21, 29, 18]

  /** x^6 is what the generator says it is, at b. */
  ghost predicate Root(b: bv16) { b < 1024 && Eval(b, GENERATOR) == Power(b, 6) }

  lemma Coefficients()
    ensures Embed(29) == 455 && Embed(22) == 748 && Embed(20) == 929 && Embed(21) == 928 && Embed(18) == 111
  {
  }

  lemma EvalSix(b: bv16, h1: bv16, h2: bv16, h3: bv16, h4: bv16, h5: bv16, h6: bv16)
    requires h1 == 455 && h2 == Plus(Mul(b, h1), 748) && h3 == Plus(Mul(b, h2), 929) && h4 == Plus(Mul(b, h3), 928)
    requires h5 == Plus(Mul(b, h4), 455) && h6 == Plus(Mul(b, h5), 111)
    ensures Eval(b, GENERATOR) == h6
  {
    hide Mul, Embed, Plus, Eval;
    Coefficients();
    EvalOnly(b, 29);
    var v1 := EvalMore(b, [29], h1, 22, 748, h2);
    var v2 := EvalMore(b, v1, h2, 20, 929, h3);
    var v3 := EvalMore(b, v2, h3, 21, 928, h4);
    var v4 := EvalMore(b, v3, h4, 29, 455, h5);
    var v5 := EvalMore(b, v4, h5, 18, 111, h6);
    Listed([29]);
  }

  lemma Listed(v: Data)
    requires v == [29]
    ensures v + [22] + [20] + [21] + [29] + [18] == GENERATOR
  {
  }

  lemma EvalOnly(b: bv16, x: bv8)
    ensures Eval(b, [x]) == Embed(x)
  {
    hide Next, Embed;
    NextOnly(b, x);
    assert [x][..0] == [];
  }

  lemma EvalMore(b: bv16, v: Data, h: bv16, x: bv8, k: bv16, g: bv16) returns (w: Data)
    requires Eval(b, v) == h && Embed(x) == k && g == Plus(Mul(b, h), k)
    ensures w == v + [x] && Eval(b, w) == g
  {
    hide Mul, Embed, Plus, Eval;
    EvalAppend(b, v, x);
    w := v + [x];
  }

  lemma EvalAppend(b: bv16, v: Data, x: bv8)
    ensures Eval(b, v + [x]) == Next(b, Eval(b, v), x)
  {
    hide Next;
    assert (v + [x])[..|v|] == v;
  }

  lemma PowerSix(b: bv16, p2: bv16, p3: bv16, p4: bv16, p5: bv16, p6: bv16)
    requires b < 1024 && p2 == Mul(b, b) && p3 == Mul(b, p2) && p4 == Mul(b, p3) && p5 == Mul(b, p4) && p6 == Mul(b, p5)
    ensures Power(b, 6) == p6
  {
    hide Mul;
    OneMul(b);
    assert Power(b, 1) == b;
    assert Power(b, 2) == p2;
    assert Power(b, 3) == p3;
    assert Power(b, 4) == p4;
    assert Power(b, 5) == p5;
  }

  lemma Values13()
    ensures Plus(Mul(13, 455), 748) == 96 && Plus(Mul(13, 96), 929) == 321 && Plus(Mul(13, 321), 928) == 423
    ensures Plus(Mul(13, 423), 455) == 427 && Plus(Mul(13, 427), 111) == 95
  {
  }

  lemma Powers13()
    ensures Mul(13, 13) == 81 && Mul(13, 81) == 925 && Mul(13, 925) == 1018
    ensures Mul(13, 1018) == 313 && Mul(13, 313) == 95
  {
  }

  lemma Root13()
    ensures Root(13)
  {
    hide Mul, Power, Eval, Plus;
    Values13();
    EvalSix(13, 455, 96, 321, 423, 427, 95);
    Powers13();
    PowerSix(13, 81, 925, 1018, 313, 95);
  }

  lemma Values26()
    ensures Plus(Mul(26, 455), 748) == 465 && Plus(Mul(26, 465), 929) == 352 && Plus(Mul(26, 352), 928) == 721
    ensures Plus(Mul(26, 721), 455) == 671 && Plus(Mul(26, 671), 111) == 798
  {
  }

  lemma Powers26()
    ensures Mul(26, 26) == 324 && Mul(26, 324) == 601 && Mul(26, 601) == 706
    ensures Mul(26, 706) == 726 && Mul(26, 726) == 798
  {
  }

  lemma Root26()
    ensures Root(26)
  {
    hide Mul, Power, Eval, Plus;
    Values26();
    EvalSix(26, 455, 465, 352, 721, 671, 798);
    Powers26();
    PowerSix(26, 324, 601, 706, 726, 798);
  }

  lemma Values52()
    ensures Plus(Mul(52, 455), 748) == 691 && Plus(Mul(52, 691), 929) == 691 && Plus(Mul(52, 691), 928) == 690
    ensures Plus(Mul(52, 690), 455) == 225 && Plus(Mul(52, 225), 111) == 800
  {
  }

  lemma Powers52()
    ensures Mul(52, 52) == 821 && Mul(52, 821) == 51 && Mul(52, 51) == 953
    ensures Mul(52, 953) == 983 && Mul(52, 983) == 800
  {
  }

  lemma Root52()
    ensures Root(52)
  {
    hide Mul, Power, Eval, Plus;
    Values52();
    EvalSix(52, 455, 691, 691, 690, 225, 800);
    Powers52();
    PowerSix(52, 821, 51, 953, 983, 800);
  }

  lemma SquareOfE()
    ensures Mul(E, E) == 4 && Mul(614, E) == 745 && Plus(Plus(4, 745), 749) == 0
  {
  }

  lemma MoreCoefficients()
    ensures Embed(9) == 614 && Embed(23) == 749
  {
    hide Embed;
    Coefficient9();
    Coefficient23();
  }

  lemma Bits9()
    ensures Has(9, 1) && !Has(9, 2) && !Has(9, 4) && Has(9, 8) && !Has(9, 16)
  {
  }

  lemma Coefficient9()
    ensures Embed(9) == 614
  {
    hide Has;
    Bits9();
  }

  lemma Coefficient23()
    ensures Embed(23) == 749
  {
  }

  /** The element e is the one that extends GF(32) by x^2 + {9}x + {23}. */
  lemma SameField()
    ensures Plus(Plus(Mul(E, E), Mul(Embed(9), E)), Embed(23)) == 0
  {
    hide Mul, Plus, Embed;
    SquareOfE();
    MoreCoefficients();
  }

  lemma Product26()
    ensures Mul(256, 41) == 188 && Mul(4, 188) == 752 && Mul(13, 752) == 1
  {
  }

  /** The three roots are consecutive powers of e. */
  lemma RootPowers()
    ensures Power(E, 997) == 13 && Power(E, 998) == 26 && Power(E, 999) == 52
  {
    hide Mul, Power;
    Doublings();
    Product26();
    PowerStep(8, 256, 16, 41, 188);
    PowerStep(2, 4, 24, 188, 752);
    PowerInverse(26);
    PowerFits(E, 997);
    if Power(E, 997) != 13 { SameMultiples(Power(E, 997), 13, 752); }
    ByTwo();
    PowerStep(1, 2, 997, 13, 26);
    PowerStep(1, 2, 998, 26, 52);
  }

  // ---- the remainder has the value of the data ----

  lemma EvalMultiple(b: bv16, c: bv8)
    requires Root(b)
    ensures Eval(b, Multiple(c)) == Mul(Embed(c), Power(b, 6))
  {
    hide Mul, Embed, Eval, Power;
    EvalTimes(b, c, GENERATOR, Multiple(c));
  }

  lemma RootFits(b: bv16)
    requires Root(b)
    ensures b < 1024
  {
  }

  lemma EvalStep(b: bv16, d: Data, x: bv8)
    requires Root(b) && |d| == 6 && Symbols(d) && x < 32
    ensures Eval(b, Added(d[1..] + [x], Multiple(d[0]))) == Next(b, Eval(b, d), x)
  {
    hide Mul, Embed, Eval, Power, Plus, Next, Multiple, Root;
    var (c, rest) := (d[0], d[1..]);
    MultipleSize(c);
    var v := rest + [x];
    EvalXored(b, v, Multiple(c), Added(v, Multiple(c)));
    EvalAppend(b, rest, x);
    assert d == [c] + rest;
    RootFits(b);
    EvalFront(b, c, rest);
    EvalMultiple(b, c);
    NextShift(b, c, Eval(b, rest), x);
  }

  lemma NextShift(b: bv16, c: bv8, h: bv16, x: bv8)
    requires b < 1024
    ensures Plus(Next(b, h, x), Mul(Embed(c), Power(b, 6))) == Next(b, Plus(Mul(Power(b, 5), Embed(c)), h), x)
  {
    hide Mul, Embed, Plus, Next;
    EmbedFacts(c);
    PowerFits(b, 5);
    PowerFits(b, 6);
    NextFront(b, Power(b, 5), Embed(c), h, x);
    MulSwap(Embed(c), Power(b, 6));
    PlusSwap(Next(b, h, x), Mul(Embed(c), Power(b, 6)));
  }

  lemma UnpackStep(d: Data, x: bv8)
    requires |d| == 6 && Symbols(d) && x < 32
    ensures Unpack(Step(Pack(d), Wide(x))) == Added(d[1..] + [x], Multiple(d[0]))
  {
    hide Pack, Unpack, Step, Multiple;
    StepIsRemainder(d, x);
    ReduceIsMultiple(d[0]);
    MultipleSize(d[0]);
    AddedSymbols(d[1..] + [x], Multiple(d[0]));
    UnpackPack(Added(d[1..] + [x], Multiple(d[0])));
  }

  lemma AddedSymbols(a: Data, b: Data)
    requires |a| == 6 && |b| == 6 && Symbols(a) && Symbols(b)
    ensures Symbols(Added(a, b))
  {
    hide Xor8;
    forall i | 0 <= i < 6 ensures Added(a, b)[i] < 32 { Xor8Fits(a[i], b[i]); }
  }

  /** The remainder modulo the generator has the value of the data at every root. */
  lemma {:induction false} FoldEval(b: bv16, v: Data)
    requires Root(b) && Symbols(v)
    ensures Eval(b, Unpack(Fold(0, v))) == Eval(b, v)
  {
    hide Step, Next, Unpack, Root, Pack;
    if v == [] {
      UnpackZero();
      EvalZeros(b, SIX_ZEROS);
    } else {
      var n := |v| - 1;
      var c := Fold(0, v[..n]);
      FoldEval(b, v[..n]);
      FoldFits(0, v[..n]);
      PackUnpack(c);
      UnpackSize(c);
      UnpackStep(Unpack(c), v[n]);
      EvalStep(b, Unpack(c), v[n]);
    }
  }

  lemma {:induction false} EvalZeros(b: bv16, v: Data)
    requires Zeros(v)
    ensures Eval(b, v) == 0
  {
    hide Next, Embed;
    if v != [] {
      EvalZeros(b, v[..|v| - 1]);
      NextOnly(b, 0);
      EmbedFacts(0);
    }
  }

  // ---- three errors ----

  /** Zeros up to the next position that counts. */
  lemma {:induction false} EvalJump(b: bv16, d: Data, p: nat, q: nat)
    requires b < 1024 && p <= q < |d| && forall i :: p < i < q ==> d[i] == 0
    ensures Eval(b, d[..q + 1]) == Plus(Mul(Power(b, q - p), Eval(b, d[..p + 1])), Later(d, p, q))
  {
    hide Mul, Plus, Embed, Eval, Power;
    var h := Eval(b, d[..p + 1]);
    EvalFits(b, d[..p + 1]);
    if p == q {
      PowerZero(b);
      MulOne(h);
      PlusSame(h);
    } else {
      EvalGap(b, d, p, q - 1 - p);
      var g := Mul(Power(b, q - 1 - p), h);
      assert d[..q + 1] == d[..q] + [d[q]];
      EvalAppend(b, d[..q], d[q]);
      PowerNext(b, q - p);
      PowerFits(b, q - 1 - p);
      MulRegroup(b, Power(b, q - 1 - p), h);
    }
  }

  function Later(d: Data, p: nat, q: nat): bv16
    requires q < |d|
  {
    if p < q then Embed(d[q]) else 0
  }

  lemma PowerZero(b: bv16)
    ensures Power(b, 0) == 1
  {
  }

  lemma PowerNext(b: bv16, n: nat)
    requires n > 0
    ensures Power(b, n) == Mul(b, Power(b, n - 1))
  {
  }

  lemma {:induction false} EvalGap(b: bv16, d: Data, p: nat, n: nat)
    requires b < 1024 && p + n < |d| && forall i :: p < i <= p + n ==> d[i] == 0
    ensures Eval(b, d[..p + n + 1]) == Mul(Power(b, n), Eval(b, d[..p + 1]))
  {
    hide Mul, Embed, Eval, Next;
    var h := Eval(b, d[..p + 1]);
    if n == 0 {
      MulOne(h);
    } else {
      EvalGap(b, d, p, n - 1);
      var k := p + n;
      assert d[..k + 1] == d[..k] + [0];
      EvalAppend(b, d[..k], 0);
      EvalFits(b, d[..p + 1]);
      PowerFits(b, n - 1);
      NextZero(b, Eval(b, d[..k]));
      MulRegroup(b, Power(b, n - 1), h);
    }
  }

  lemma NextZero(b: bv16, h: bv16)
    ensures Next(b, h, 0) == Mul(b, h)
  {
    hide Mul, Plus, Embed;
    EmbedFacts(0);
    PlusSame(Mul(b, h));
  }

  /** The symbols x, y and z, with m places from x to z and n from y to z. */
  function ThreeAt(b: bv16, x: bv16, m: nat, y: bv16, n: nat, z: bv16): bv16 {
    Plus(Plus(Mul(Power(b, m), x), Mul(Power(b, n), y)), z)
  }

  lemma EvalThree(b: bv16, d: Data, p: nat, q: nat, r: nat)
    requires b < 1024 && p <= q <= r < |d| && forall i :: 0 <= i <= r ==> i == p || i == q || i == r || d[i] == 0
    ensures Eval(b, d[..r + 1]) == ThreeAt(b, Embed(d[p]), r - p, Later(d, p, q), r - q, Later(d, q, r))
  {
    hide Mul, Plus, Embed, Eval, Power, Later;
    assert d[..p + 1] == d[..p] + [d[p]];
    EvalAppend(b, d[..p], d[p]);
    EvalZeros(b, d[..p]);
    NextOnly(b, d[p]);
    EvalJump(b, d, p, q);
    EvalJump(b, d, q, r);
    var (x, y) := (Embed(d[p]), Later(d, p, q));
    EmbedFacts(d[p]);
    PowerFits(b, q - p);
    PowerFits(b, r - q);
    MulPlusRight(Power(b, r - q), Mul(Power(b, q - p), x), y);
    MulRegroup(Power(b, r - q), Power(b, q - p), x);
    PowerAdd(b, r - q, q - p);
  }

  /** The next power of e as a factor of b is one more factor in every place. */
  lemma ThreeNext(b: bv16, x: bv16, m: nat, y: bv16, n: nat, z: bv16)
    requires b < 1024 && x < 1024 && y < 1024
    ensures ThreeAt(Mul(E, b), x, m, y, n, z) ==
            Plus(Plus(Mul(Power(E, m), Mul(Power(b, m), x)), Mul(Power(E, n), Mul(Power(b, n), y))), z)
  {
    hide Mul, Plus, Power;
    PowerMul(E, b, m);
    PowerMul(E, b, n);
    PowerFits(E, m);
    PowerFits(E, n);
    PowerFits(b, m);
    PowerFits(b, n);
    MulRegroup(Power(E, m), Power(b, m), x);
    MulRegroup(Power(E, n), Power(b, n), y);
  }

  lemma {:induction false} PowerKeeps(b: bv16, n: nat, x: bv16)
    requires 0 < b < 1024 && x < 1024 && Mul(Power(b, n), x) == 0
    ensures x == 0
  {
    hide Mul;
    if n == 0 {
      MulOne(x);
    } else {
      PowerFits(b, n - 1);
      MulRegroup(b, Power(b, n - 1), x);
      MulFits(Power(b, n - 1), x);
      NoDivisors(b, Mul(Power(b, n - 1), x));
      PowerKeeps(b, n - 1, x);
    }
  }

  lemma ByTwo()
    ensures Mul(E, 13) == 26 && Mul(E, 26) == 52
  {
  }

  /** Three places within 1023 that vanish at three consecutive roots are zero. */
  lemma ThreeVanish(x: bv16, m: nat, y: bv16, n: nat, z: bv16)
    requires x < 1024 && y < 1024 && n <= m < 1023 && (m == n ==> y == 0) && (n == 0 ==> z == 0)
    requires ThreeAt(13, x, m, y, n, z) == 0 == ThreeAt(26, x, m, y, n, z) && ThreeAt(52, x, m, y, n, z) == 0
    ensures x == y == z == 0
  {
    hide Mul, Plus, Power;
    var (f, g) := (Power(13, m), Power(13, n));
    var (t, s, u, w) := (Mul(f, x), Mul(g, y), Power(E, m), Power(E, n));
    ThreeFactors(x, m, y, n, z);
    PowerFits(13, m);
    PowerFits(13, n);
    PowerFits(E, m);
    PowerFits(E, n);
    MulFits(f, x);
    MulFits(g, y);
    if m == n {
      MulNothing(g);
      MulNothing(w);
      PlusSame(t);
      PlusSame(Mul(u, t));
      if m > 0 {
        OrderOfE(m);
        TwoTerms(t, z, u);
      }
    } else if n == 0 {
      PowerZero(E);
      MulOne(s);
      PlusSame(Plus(t, s));
      PlusSame(Plus(Mul(u, t), s));
      OrderOfE(m);
      TwoTerms(t, s, u);
    } else {
      OrderOfE(m);
      OrderOfE(n);
      PowersDiffer(n, m);
      ThreeTerms(t, s, z, u, w);
    }
    PowerKeeps(13, m, x);
    PowerKeeps(13, n, y);
  }

  lemma ThreeFactors(x: bv16, m: nat, y: bv16, n: nat, z: bv16)
    requires x < 1024 && y < 1024
    ensures var (t, s, u, w) := (Mul(Power(13, m), x), Mul(Power(13, n), y), Power(E, m), Power(E, n));
            && ThreeAt(13, x, m, y, n, z) == Plus(Plus(t, s), z)
            && ThreeAt(26, x, m, y, n, z) == Plus(Plus(Mul(u, t), Mul(w, s)), z)
            && ThreeAt(52, x, m, y, n, z) == Plus(Plus(Mul(u, Mul(u, t)), Mul(w, Mul(w, s))), z)
  {
    hide Mul, Plus, Power;
    ByTwo();
    ThreeNext(13, x, m, y, n, z);
    ThreeNext(26, x, m, y, n, z);
    FactorNext(13, 26, m, x);
    FactorNext(13, 26, n, y);
  }

  lemma FactorNext(b: bv16, c: bv16, m: nat, x: bv16)
    requires b < 1024 && x < 1024 && c == Mul(E, b)
    ensures Mul(Power(c, m), x) == Mul(Power(E, m), Mul(Power(b, m), x))
  {
    hide Mul, Power;
    PowerMul(E, b, m);
    PowerFits(E, m);
    PowerFits(b, m);
    MulRegroup(Power(E, m), Power(b, m), x);
  }

  /** A difference in three symbols within 1023 is never a multiple of the generator. */
  lemma ThreeNonZero(d: Data, p: nat, q: nat, r: nat)
    requires Symbols(d) && p <= q <= r < |d| && r - p < 1023 && Fold(0, d) == 0
    requires forall i :: 0 <= i < |d| ==> i == p || i == q || i == r || d[i] == 0
    ensures Zeros(d)
  {
    hide Fold;
    var (lo, hi) := (d[..r + 1], d[r + 1..]);
    assert d == lo + hi;
    FoldJoin(0, lo, hi);
    FoldFits(0, lo);
    FoldZeros(Fold(0, lo), hi);
    ThreeZeros(d, p, q, r);
  }

  lemma ThreeZeros(d: Data, p: nat, q: nat, r: nat)
    requires Symbols(d) && p <= q <= r < |d| && r - p < 1023 && Fold(0, d[..r + 1]) == 0
    requires forall i :: 0 <= i <= r ==> i == p || i == q || i == r || d[i] == 0
    ensures d[p] == d[q] == d[r] == 0
  {
    hide Fold, ThreeAt, Embed, Root, Later, Eval;
    Root13();
    Root26();
    Root52();
    RootValue(13, d[..r + 1]);
    RootValue(26, d[..r + 1]);
    RootValue(52, d[..r + 1]);
    EvalThree(13, d, p, q, r);
    EvalThree(26, d, p, q, r);
    EvalThree(52, d, p, q, r);
    LaterFits(d, p, q);
    LaterFits(d, q, r);
    EmbedFacts(d[p]);
    ThreeVanish(Embed(d[p]), r - p, Later(d, p, q), r - q, Later(d, q, r));
    SymbolFits(d, p);
    SymbolFits(d, q);
    SymbolFits(d, r);
  }

  lemma SymbolFits(d: Data, i: nat)
    requires Symbols(d) && i < |d|
    ensures d[i] < 32
  {
  }

  lemma LaterFits(d: Data, p: nat, q: nat)
    requires p <= q < |d|
    ensures Later(d, p, q) < 1024 && (p == q ==> Later(d, p, q) == 0)
    ensures p < q && d[q] < 32 && Later(d, p, q) == 0 ==> d[q] == 0
  {
    hide Embed;
    EmbedFacts(d[q]);
  }

  lemma RootValue(b: bv16, v: Data)
    requires Root(b) && Symbols(v) && Fold(0, v) == 0
    ensures b < 1024 && Eval(b, v) == 0
  {
    hide Fold, Root, Unpack, Eval;
    RootFits(b);
    FoldEval(b, v);
    UnpackZero();
    EvalZeros(b, SIX_ZEROS);
  }

  /**
   Data that differs from valid data in at least one and at most three symbols,
   checksum included, at most 1022 places apart, is not valid under the same encoding.
   */
  lemma ThreeErrorsDetected(e: Encoding, hrp: string, v: Data, w: Data, p: nat, q: nat, r: nat)
    requires Symbols(v) && Symbols(w) && |v| == |w| && v != w && p <= q <= r < |v| && r - p < 1023
    requires forall i :: 0 <= i < |v| ==> i == p || i == q || i == r || v[i] == w[i]
    requires Verifies(e, hrp, v)
    ensures !Verifies(e, hrp, w)
  {
    hide Fold, Xor, Xor8, EncodingConstant;
    if Verifies(e, hrp, w) {
      var (c, d) := (Fold(1, Expand(hrp)), Difference(v, w));
      FoldJoin(1, Expand(hrp), v);
      FoldJoin(1, Expand(hrp), w);
      FoldLinear(c, v, c, w, d);
      XorSame(c);
      XorSame(Fold(c, v));
      forall i | 0 <= i < |v| ensures d[i] < 32 && (d[i] == 0 <==> v[i] == w[i]) { Xor8Facts(v[i], w[i]); }
      ThreeNonZero(d, p, q, r);
      assert false;
    }
  }
}
