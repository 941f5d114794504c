/** The loops of the Bech32 codec, proved against the functions on strings. */
module Bech32Codec {
  import opened Basics
  import opened Bech32Code
  import opened Bech32
  import opened Bech32String
  import Anchors = Bech32Anchors

  method ExpandHRP(hrp: string) returns (ret: Data)
    ensures ret == Expand(hrp)
  {
    hide High, Low, Expand;
    var n := |hrp|;
    ret := seq(2 * n + 1, _ => 0);
    var i := 0;
    while i < n
      invariant 0 <= i <= n && |ret| == 2 * n + 1
      invariant forall j :: 0 <= j < i ==> ret[j] == High(hrp[j])
      invariant forall j :: n < j <= n + i ==> ret[j] == Low(hrp[j - n - 1])
    {
      var c := hrp[i];
      ret := ret[i := High(c)];
      ret := ret[i + n + 1 := Low(c)];
      i := i + 1;
    }
    ret := ret[n := 0];
    Expanded(hrp, ret);
  }

  lemma Expanded(hrp: string, r: Data)
    requires |r| == 2 * |hrp| + 1 && r[|hrp|] == 0
    requires forall j :: 0 <= j < |hrp| ==> r[j] == High(hrp[j])
    requires forall j :: |hrp| < j <= 2 * |hrp| ==> r[j] == Low(hrp[j - |hrp| - 1])
    ensures r == Expand(hrp)
  {
    hide High, Low;
    var n := |hrp|;
    assert r[..n] == Highs(hrp);
    assert r[n + 1..] == Lows(hrp);
    assert r == r[..n] + [0] + r[n + 1..];
  }

  method VerifyChecksum(hrp: string, values: Data) returns (e: Option<Encoding>)
    ensures e == EncodingOf(hrp, values)
    ensures e == Some(BECH32) <==> Remainder(Expand(hrp) + values) == 1
    ensures e == Some(BECH32M) <==> Remainder(Expand(hrp) + values) == 0x2bc830a3
  {
    hide Expand, Remainder;
    Anchors.EncodingByRemainder(hrp, values);
    var expanded := ExpandHRP(hrp);
    var check := PolyMod(expanded + values);
    if check == EncodingConstant(BECH32) { return Some(BECH32); }
    if check == EncodingConstant(BECH32M) { return Some(BECH32M); }
    return None;
  }

  /** The five bits that are `5 * (5 - i)` bits from the end. */
  function Group(m: bv32, i: nat): bv8
    requires i < 6
  {
    var moved := match i
      case 0 => m >> 25
      case 1 => m >> 20
      case 2 => m >> 15
      case 3 => m >> 10
      case 4 => m >> 5
      case 5 => m;
    (moved & 31) as bv8
  }

  lemma Groups(m: bv32)
    ensures Unpack(m) == [Group(m, 0), Group(m, 1), Group(m, 2), Group(m, 3), Group(m, 4), Group(m, 5)]
  {
  }

  method CreateChecksum(e: Encoding, hrp: string, values: Data) returns (ret: Data)
    ensures ret == Checksum(e, hrp, values)
  {
    hide Expand, Remainder, Group, Xor, EncodingConstant, Unpack;
    var expanded := ExpandHRP(hrp);
    var enc := expanded + values + [0, 0, 0, 0, 0, 0];
    var c := PolyMod(enc);
    var mod := Xor(c, EncodingConstant(e));
    ret := [0, 0, 0, 0, 0, 0];
    var i := 0;
    while i < 6
      invariant 0 <= i <= 6 && |ret| == 6 && forall j :: 0 <= j < i ==> ret[j] == Group(mod, j)
    {
      ret := ret[i := Group(mod, i)];
      i := i + 1;
    }
    Groups(mod);
    assert enc == Expand(hrp) + values + SIX_ZEROS;
    assert ret == [ret[0], ret[1], ret[2], ret[3], ret[4], ret[5]];
  }

  method EncodeString(e: Encoding, hrp: string, values: Data) returns (ret: string)
    requires Symbols(values) && forall i :: 0 <= i < |hrp| ==> !IsUpper(hrp[i])
    ensures ret == Encode(e, hrp, values)
  {
    hide Checksum, CharOf;
    CombinedSymbols(e, hrp, values);
    var checksum := CreateChecksum(e, hrp, values);
    var combined := values + checksum;
    ret := hrp + "1";
    var i := 0;
    while i < |combined|
      invariant 0 <= i <= |combined| && ret == hrp + "1" + Chars(combined[..i])
    {
      assert combined[..i + 1][..i] == combined[..i];
      ret := ret + [CharOf(combined[i])];
      i := i + 1;
    }
    assert combined[..i] == combined;
  }

  method FindLastOne(s: string) returns (pos: int)
    ensures pos == RFind(s)
  {
    pos := |s| - 1;
    while pos >= 0 && s[pos] != '1'
      invariant -1 <= pos < |s| && RFind(s) == RFind(s[..pos + 1])
    {
      assert s[..pos + 1][..pos] == s[..pos];
      pos := pos - 1;
    }
  }

  method ReadValues(s: string) returns (v: Option<Data>)
    requires AllPrintable(s)
    ensures v == ValuesOf(s)
  {
    hide SymbolOf;
    var values: Data := [];
    var i := 0;
    while i < |s|
      invariant 0 <= i <= |s| && AllPrintable(s[..i]) && ValuesOf(s[..i]) == Some(values)
    {
      assert s[..i + 1][..i] == s[..i];
      var rev := SymbolOf(s[i]);
      if rev.None? {
        NoneStays(s, i + 1);
        return None;
      }
      values := values + [rev.value];
      i := i + 1;
    }
    assert s[..i] == s;
    return Some(values);
  }

  lemma {:induction false} NoneStays(s: string, i: int)
    requires AllPrintable(s) && 0 <= i <= |s| && AllPrintable(s[..i]) && ValuesOf(s[..i]).None?
    ensures ValuesOf(s).None?
  {
    hide ValuesOf;
    if i < |s| {
      var n := |s| - 1;
      assert s[..n][..i] == s[..i];
      NoneStays(s[..n], i);
      NoneBefore(s);
    } else {
      assert s[..i] == s;
    }
  }

  lemma NoneBefore(s: string)
    requires s != [] && AllPrintable(s) && AllPrintable(s[..|s| - 1]) && ValuesOf(s[..|s| - 1]).None?
    ensures ValuesOf(s).None?
  {
  }

  method LowerString(s: string) returns (t: string)
    ensures t == LowerAll(s)
  {
    t := "";
    var i := 0;
    while i < |s|
      invariant 0 <= i <= |s| && t == LowerAll(s[..i])
    {
      assert s[..i + 1][..i] == s[..i];
      t := t + [LowerCase(s[i])];
      i := i + 1;
    }
    assert s[..i] == s;
  }

  method DecodeString(s: string) returns (r: Option<Decoded>)
    ensures r == Decode(s)
  {
    hide Good, EncodingOf, ValuesOf;
    var ok, errors := CheckCharacters(s);
    if !ok { return None; }
    GoodPrintable(s);
    var pos := FindLastOne(s);
    if |s| > 90 || pos == -1 || pos == 0 || pos + 7 > |s| { return None; }
    var values := ReadValues(s[pos + 1..]);
    if values.None? { return None; }
    CharsOfValues(s[pos + 1..]);
    var hrp := LowerString(s[..pos]);
    var e := VerifyChecksum(hrp, values.value);
    if e.None? { return None; }
    return Some(Decoded(e.value, hrp, values.value[..|values.value| - 6]));
  }
}
