/** Bech32 and Bech32m strings. */
module Bech32 {
  import opened Basics
  import opened Bech32Code

  datatype Encoding = BECH32 | BECH32M

  /** The constant a valid remainder equals. */
  function EncodingConstant(e: Encoding): bv32 { if e == BECH32 then 1 else 0x2bc830a3 }

  // ---- the character set ----

  const CHARSET := "qpzry9x8gf2tvdw0s3jn54khce6mua7l"

  const NO_SYMBOLS := [-1, -1, -1, -1, -1, -1, -1, -1, -1, -1, -1, -1, -1, -1, -1, -1]
  const DIGITS := [15, -1, 10, 17, 21, 20, 26, 30, 7, 5, -1, -1, -1, -1, -1, -1]
  const LETTERS_1 := [-1, 29, -1, 24, 13, 25, 9, 8, 23, -1, 18, 22, 31, 27, 19, -1]
  const LETTERS_2 := [1, 0, 3, 16, 11, 28, 12, 14, 6, 4, 2, -1, -1, -1, -1, -1]

  // the values of the characters below 128, sixteen to a row
  const CHARSET_REV := [NO_SYMBOLS, NO_SYMBOLS, NO_SYMBOLS, DIGITS, LETTERS_1, LETTERS_2, LETTERS_1, LETTERS_2]

  function CharOf(x: bv8): char
    requires x < 32
  {
    CHARSET[x as int]
  }

  function Value(c: char): int
    requires c as int < 128
  {
    CHARSET_REV[c as int / 16][c as int % 16]
  }

  predicate IsUpper(c: char) { 'A' <= c <= 'Z' }

  predicate IsLower(c: char) { 'a' <= c <= 'z' }

  function LowerCase(c: char): char {
    if IsUpper(c) then ((c as int) + 32) as char else c
  }

  predicate Printable(c: char) { 33 <= c as int <= 126 }

  lemma ValueOfChar(x: bv8)
    requires x < 32
    ensures Printable(CharOf(x)) && Value(CharOf(x)) == x as int
  {
    hide Value;
    if (x as int) < 16 { CharValues1(x as int); } else { CharValues2(x as int); }
  }

  lemma CharValues1(x: int)
    requires 0 <= x < 16
    ensures Printable(CHARSET[x]) && Value(CHARSET[x]) == x
  {
  }

  lemma CharValues2(x: int)
    requires 16 <= x < 32
    ensures Printable(CHARSET[x]) && Value(CHARSET[x]) == x
  {
  }

  lemma CharOfDigits(c: char)
    requires '0' <= c <= '9'
    ensures -1 <= Value(c) < 32 && (Value(c) >= 0 ==> CHARSET[Value(c)] == c)
  {
  }

  lemma CharOfLetters(c: char)
    requires IsLower(c)
    ensures -1 <= Value(c) < 32 && (Value(c) >= 0 ==> CHARSET[Value(c)] == c)
  {
  }

  lemma UpperValue(c: char)
    requires IsUpper(c)
    ensures IsLower(LowerCase(c)) && Value(c) == Value(LowerCase(c))
  {
    var (i, j) := (c as int, LowerCase(c) as int);
    assert j / 16 == i / 16 + 2 && j % 16 == i % 16;
    assert i / 16 == 4 || i / 16 == 5;
  }

  lemma OtherValue(c: char)
    requires Printable(c) && !('0' <= c <= '9') && !IsLower(c) && !IsUpper(c)
    ensures Value(c) == -1
  {
  }

  lemma CharOfValue(c: char)
    requires Printable(c)
    ensures -1 <= Value(c) < 32 && (Value(c) >= 0 ==> CHARSET[Value(c)] == LowerCase(c))
  {
    hide Value;
    if '0' <= c <= '9' {
      CharOfDigits(c);
    } else if IsLower(c) {
      CharOfLetters(c);
    } else if IsUpper(c) {
      UpperValue(c);
      CharOfLetters(LowerCase(c));
    } else {
      OtherValue(c);
    }
  }

  /** The symbol of a printable character, if it has one. */
  function SymbolOf(c: char): Option<bv8>
    requires Printable(c)
  {
    CharOfValue(c);
    if Value(c) == -1 then None else Some(Value(c) as bv8)
  }

  lemma SymbolOfChar(x: bv8)
    requires x < 32
    ensures Printable(CharOf(x)) && SymbolOf(CharOf(x)) == Some(x)
  {
    hide Value;
    ValueOfChar(x);
    BackAndForth(x);
  }

  lemma BackAndForth(x: bv8)
    ensures (x as int) as bv8 == x
  {
  }

  lemma CharOfSymbol(c: char)
    requires Printable(c) && SymbolOf(c).Some?
    ensures SymbolOf(c).value < 32 && CharOf(SymbolOf(c).value) == LowerCase(c)
  {
    hide Value;
    CharOfValue(c);
    ForthAndBack(Value(c));
  }

  lemma ForthAndBack(n: int)
    requires 0 <= n < 32
    ensures (n as bv8) as int == n && (n as bv8) < 32
  {
  }

  lemma NoOnes(x: bv8)
    requires x < 32
    ensures CharOf(x) != '1' && !IsUpper(CharOf(x))
  {
    hide Value;
    SymbolOfChar(x);
    CharOfSymbol(CharOf(x));
    OneHasNone();
  }

  lemma OneHasNone()
    ensures SymbolOf('1') == None
  {
  }

  // ---- the checksum ----

  function High(c: char): bv8 { (c as int / 32 % 8) as bv8 }

  function Low(c: char): bv8 { (c as int % 32) as bv8 }

  function Highs(hrp: string): (v: Data)
    ensures |v| == |hrp| && forall i :: 0 <= i < |v| ==> v[i] == High(hrp[i])
  {
    if hrp == [] then [] else Highs(hrp[..|hrp| - 1]) + [High(hrp[|hrp| - 1])]
  }

  function Lows(hrp: string): (v: Data)
    ensures |v| == |hrp| && forall i :: 0 <= i < |v| ==> v[i] == Low(hrp[i])
  {
    if hrp == [] then [] else Lows(hrp[..|hrp| - 1]) + [Low(hrp[|hrp| - 1])]
  }

  /** The high bits of the human-readable part, a zero, and the low bits. */
  function Expand(hrp: string): Data { Highs(hrp) + [0] + Lows(hrp) }

  lemma ExpandFits(hrp: string)
    ensures Symbols(Expand(hrp))
  {
    forall c ensures High(c) < 32 && Low(c) < 32 {}
  }

  predicate Verifies(e: Encoding, hrp: string, v: Data) {
    Remainder(Expand(hrp) + v) == EncodingConstant(e)
  }

  const SIX_ZEROS: Data := [0, 0, 0, 0, 0, 0]

  function Correction(e: Encoding, hrp: string, v: Data): bv32 {
    Xor(Remainder(Expand(hrp) + v + SIX_ZEROS), EncodingConstant(e))
  }

  function Checksum(e: Encoding, hrp: string, v: Data): Data { Unpack(Correction(e, hrp, v)) }

  lemma CorrectionFits(e: Encoding, hrp: string, v: Data)
    requires Symbols(v)
    ensures Correction(e, hrp, v) < 0x4000_0000
  {
    hide Fold;
    ExpandFits(hrp);
    FoldFits(1, Expand(hrp) + v + SIX_ZEROS);
    XorFits(Remainder(Expand(hrp) + v + SIX_ZEROS), EncodingConstant(e));
  }

  lemma XorFits(a: bv32, b: bv32)
    requires a < 0x4000_0000 && b < 0x4000_0000
    ensures Xor(a, b) < 0x4000_0000
  {
  }

  /** What six more symbols do to a remainder. */
  lemma SixMore(hrp: string, v: Data, t: Data)
    requires |t| == 6 && Symbols(t)
    ensures Remainder(Expand(hrp) + (v + t)) == Xor(Remainder(Expand(hrp) + v + SIX_ZEROS), Pack(t))
  {
    hide Fold, Pack, Xor;
    var x := Expand(hrp) + v;
    var c := Fold(1, x);
    assert Expand(hrp) + (v + t) == x + t;
    FoldJoin(1, x, t);
    FoldJoin(1, x, SIX_ZEROS);
    ZeroXors(t);
    FoldLinear(c, SIX_ZEROS, 0, t, t);
    XorSame(c);
    FoldSix(t);
  }

  lemma ZeroXors(t: Data)
    requires |t| == 6
    ensures Xored(SIX_ZEROS, t, t)
  {
    forall x ensures Xor8(0, x) == x {}
  }

  /** Symbols with their checksum appended verify. */
  lemma ChecksumVerifies(e: Encoding, hrp: string, v: Data)
    requires Symbols(v)
    ensures |Checksum(e, hrp, v)| == 6 && Symbols(Checksum(e, hrp, v)) && Verifies(e, hrp, v + Checksum(e, hrp, v))
  {
    hide Fold, Pack, Xor, Unpack, Remainder, EncodingConstant;
    CorrectionFits(e, hrp, v);
    PackUnpack(Correction(e, hrp, v));
    UnpackSize(Correction(e, hrp, v));
    SixMore(hrp, v, Checksum(e, hrp, v));
    XorBack(Remainder(Expand(hrp) + v + SIX_ZEROS), EncodingConstant(e));
  }

  lemma UnpackSize(m: bv32)
    ensures |Unpack(m)| == 6
  {
  }

  /** Nothing else verifies in place of the checksum. */
  lemma ChecksumUnique(e: Encoding, hrp: string, v: Data, t: Data)
    requires |t| == 6 && Symbols(t) && Verifies(e, hrp, v + t)
    ensures t == Checksum(e, hrp, v)
  {
    hide Fold, Pack, Xor, Unpack, Remainder, EncodingConstant;
    SixMore(hrp, v, t);
    XorBack(Remainder(Expand(hrp) + v + SIX_ZEROS), Pack(t));
    UnpackPack(t);
  }

  /** One remainder is not valid for both encodings. */
  lemma EncodingsDiffer(e: Encoding, f: Encoding, hrp: string, v: Data)
    requires Verifies(e, hrp, v) && Verifies(f, hrp, v)
    ensures e == f
  {
  }

  // ---- errors ----

  lemma {:induction false} ZeroPrefix(z: Data, v: Data)
    requires Zeros(z)
    ensures Fold(0, z + v) == Fold(0, v)
  {
    FoldJoin(0, z, v);
    FoldZeros(0, z);
  }

  lemma PackZero(v: Data)
    requires |v| == 6 && Symbols(v) && Pack(v) == 0
    ensures Zeros(v)
  {
    hide Pack, Unpack;
    UnpackPack(v);
    UnpackZero();
  }

  lemma UnpackZero()
    ensures Unpack(0) == SIX_ZEROS
  {
  }

  /** At most six symbols leave a remainder of zero only if they are all zero. */
  lemma FewSymbols(v: Data)
    requires |v| <= 6 && Symbols(v) && Fold(0, v) == 0
    ensures Zeros(v)
  {
    hide Fold, Pack;
    var z := SIX_ZEROS[..6 - |v|];
    ZeroPrefix(z, v);
    var w := z + v;
    FoldSix(w);
    PackZero(w);
    forall i | 0 <= i < |v| ensures v[i] == 0 { assert w[|z| + i] == v[i]; }
  }

  /** A difference within six consecutive positions is never a multiple of the generator. */
  lemma BurstNonZero(d: Data, p: nat, n: nat)
    requires Symbols(d) && n <= 6 && p + n <= |d| && Zeros(d[..p]) && Zeros(d[p + n..]) && Fold(0, d) == 0
    ensures Zeros(d)
  {
    hide Fold;
    var (lo, mid, hi) := (d[..p], d[p..p + n], d[p + n..]);
    assert d == lo + (mid + hi);
    ZeroPrefix(lo, mid + hi);
    FoldJoin(0, mid, hi);
    FoldFits(0, mid);
    FoldZeros(Fold(0, mid), hi);
    FewSymbols(mid);
    forall i | 0 <= i < |d| ensures d[i] == 0 {
      if i < p {
        assert lo[i] == d[i];
      } else if i < p + n {
        assert mid[i - p] == d[i];
      } else {
        assert hi[i - p - n] == d[i];
      }
    }
  }

  function Difference(v: Data, w: Data): (d: Data)
    requires |v| == |w|
    ensures |d| == |v| && forall i :: 0 <= i < |d| ==> d[i] == Xor8(v[i], w[i])
  {
    if v == [] then [] else Difference(v[..|v| - 1], w[..|w| - 1]) + [Xor8(v[|v| - 1], w[|w| - 1])]
  }

  lemma Xor8Facts(x: bv8, y: bv8)
    ensures Xor8(x, y) == 0 <==> x == y
    ensures x < 32 && y < 32 ==> Xor8(x, y) < 32
  {
  }

  /**
   Data that differs from valid data, but only within six consecutive positions of
   it, checksum included, is not valid under the same encoding.
   */
  lemma BurstDetected(e: Encoding, hrp: string, v: Data, w: Data, p: nat, n: nat)
    requires Symbols(v) && Symbols(w) && |v| == |w| && v != w && n <= 6 && p + n <= |v|
    requires v[..p] == w[..p] && v[p + n..] == w[p + n..]
    requires Verifies(e, hrp, v)
    ensures !Verifies(e, hrp, w)
  {
    hide Fold, Xor, Xor8, EncodingConstant;
    if Verifies(e, hrp, w) {
      var (c, d) := (Fold(1, Expand(hrp)), Difference(v, w));
      FoldJoin(1, Expand(hrp), v);
      FoldJoin(1, Expand(hrp), w);
      FoldLinear(c, v, c, w, d);
      XorSame(c);
      XorSame(Fold(c, v));
      DifferenceZeros(v, w, p, n);
      BurstNonZero(d, p, n);
      forall i | 0 <= i < |v| ensures v[i] == w[i] { Xor8Facts(v[i], w[i]); }
      assert false;
    }
  }

  lemma DifferenceZeros(v: Data, w: Data, p: nat, n: nat)
    requires Symbols(v) && Symbols(w) && |v| == |w| && p + n <= |v| && v[..p] == w[..p] && v[p + n..] == w[p + n..]
    ensures var d := Difference(v, w); Symbols(d) && Zeros(d[..p]) && Zeros(d[p + n..])
  {
    hide Xor8;
    var d := Difference(v, w);
    forall i | 0 <= i < |v|
      ensures d[i] < 32 && (i < p || i >= p + n ==> d[i] == 0)
    {
      Xor8Facts(v[i], w[i]);
      if i < p {
        assert v[..p][i] == w[..p][i];
      } else if i >= p + n {
        assert v[p + n..][i - p - n] == w[p + n..][i - p - n];
      }
    }
  }
}
