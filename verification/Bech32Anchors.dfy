/**
 Fixed points of the Bech32 codec: the two constants, the character set and known
 strings, none of them stated through the codec's own tables.
 */
module Bech32Anchors {
  import opened Basics
  import opened Bech32Code
  import opened Bech32
  import opened Bech32String

  /** A string is Bech32 exactly if the remainder is 1, and Bech32m exactly if it is 0x2bc830a3. */
  lemma EncodingByRemainder(hrp: string, v: Data)
    ensures EncodingOf(hrp, v) == Some(BECH32) <==> Remainder(Expand(hrp) + v) == 1
    ensures EncodingOf(hrp, v) == Some(BECH32M) <==> Remainder(Expand(hrp) + v) == 0x2bc830a3
  {
    hide Remainder, Expand;
  }

  lemma HighAndLow(c: char)
    requires c as int < 256
    ensures 32 * High(c) as int + Low(c) as int == c as int && Low(c) as int < 32
  {
    ForthAndBack(c as int / 32 % 8);
    ForthAndBack(c as int % 32);
  }

  /** The high three bits of each character, a zero, and then the low five. */
  lemma ExpandExactly(hrp: string, i: nat)
    requires i < |hrp| && hrp[i] as int < 256
    ensures |Expand(hrp)| == 2 * |hrp| + 1 && Expand(hrp)[|hrp|] == 0
    ensures 32 * Expand(hrp)[i] as int + Expand(hrp)[|hrp| + 1 + i] as int == hrp[i] as int
    ensures Expand(hrp)[|hrp| + 1 + i] as int < 32
  {
    HighAndLow(hrp[i]);
    hide High, Low;
    assert Expand(hrp)[i] == High(hrp[i]) && Expand(hrp)[|hrp| + 1 + i] == Low(hrp[i]);
  }

  /** The 32 characters in the order of their values. */
  lemma CharsetExactly(x: bv8)
    requires x < 32
    ensures CharOf(x) == "qpzry9x8gf2tvdw0s3jn54khce6mua7l"[x as int]
  {
  }

  lemma {:induction false} OneCase(s: string)
    requires Good(s)
    ensures forall i :: 0 <= i < |s| ==> CaseOf(s[i]).Neither? || CaseOf(s[i]) == Seen(s)
  {
    if s != [] {
      var n := |s| - 1;
      forall i | 0 <= i < n ensures !BadAt(s[..n], i) {
        assert s[..n][..i] == s[..i] && !BadAt(s, i);
      }
      OneCase(s[..n]);
      forall i | 0 <= i < n ensures CaseOf(s[i]).Neither? || CaseOf(s[i]) == Seen(s[..n]) {
        assert s[..n][i] == s[i];
      }
      assert !BadAt(s, n);
    }
  }

  /** The characters of a string pass exactly if all are printable ASCII and no two letters differ in case. */
  lemma GoodExactly(s: string)
    ensures Good(s) <==>
            && (forall i :: 0 <= i < |s| ==> 33 <= s[i] as int <= 126)
            && !exists i, j :: 0 <= i < |s| && 0 <= j < |s| && 'a' <= s[i] <= 'z' && 'A' <= s[j] <= 'Z'
  {
    hide Good, Seen;
    if Good(s) {
      GoodPrintable(s);
      OneCase(s);
      forall i, j | 0 <= i < |s| && 0 <= j < |s| && 'a' <= s[i] <= 'z' ensures !('A' <= s[j] <= 'Z') {
        assert CaseOf(s[i]) == Lower == Seen(s);
      }
    } else if forall i :: 0 <= i < |s| ==> 33 <= s[i] as int <= 126 {
      if forall i :: 0 <= i < |s| ==> CaseOf(s[i]) != Upper { OneCaseGood(s, Lower); }
      if forall i :: 0 <= i < |s| ==> CaseOf(s[i]) != Lower { OneCaseGood(s, Upper); }
    }
  }

  // ---- known strings ----

  lemma {:induction false} Traced(c: bv32, v: Data, cs: seq<bv32>)
    requires |cs| == |v| > 0 && cs[0] == Step(c, Wide(v[0]))
    requires forall i :: 0 < i < |v| ==> cs[i] == Step(cs[i - 1], Wide(v[i]))
    ensures Fold(c, v) == cs[|v| - 1]
  {
    hide Step, Wide;
    var n := |v| - 1;
    if n > 0 { Traced(c, v[..n], cs[..n]); }
  }

  lemma SingleSteps()
    ensures Step(0x1, Wide(3)) == 0x23
    ensures Step(0x23, Wide(0)) == 0x460
    ensures Step(0x460, Wide(1)) == 0x8c01
    ensures Step(0x8c01, Wide(10)) == 0x11802a
    ensures Step(0x11802a, Wide(28)) == 0x230055c
    ensures Step(0x230055c, Wide(25)) == 0x3d6afc2b
    ensures Step(0x3d6afc2b, Wide(31)) == 0x2f84386
    ensures Step(0x2f84386, Wide(20)) == 0x24622766
    ensures Step(0x24622766, Wide(31)) == 0x1
  {
  }

  lemma ShortSteps()
    ensures Fold(0x1, [3, 0, 1, 10, 28, 25, 31, 20, 31]) == 0x1
  {
    hide Step, Wide;
    SingleSteps();
    Traced(0x1, [3, 0, 1, 10, 28, 25, 31, 20, 31],
           [0x23, 0x460, 0x8c01, 0x11802a, 0x230055c, 0x3d6afc2b, 0x2f84386, 0x24622766, 0x1]);
  }

  lemma SingleStepsM()
    ensures Step(0x1, Wide(3)) == 0x23
    ensures Step(0x23, Wide(0)) == 0x460
    ensures Step(0x460, Wide(1)) == 0x8c01
    ensures Step(0x8c01, Wide(31)) == 0x11803f
    ensures Step(0x11803f, Wide(0)) == 0x23007e0
    ensures Step(0x23007e0, Wide(9)) == 0x3d6aabbb
    ensures Step(0x3d6aabbb, Wide(19)) == 0x2f2b18a
    ensures Step(0x2f2b18a, Wide(17)) == 0x253c66e3
    ensures Step(0x253c66e3, Wide(29)) == 0x2bc830a3
  {
  }

  lemma ShortStepsM()
    ensures Fold(0x1, [3, 0, 1, 31, 0, 9, 19, 17, 29]) == 0x2bc830a3
  {
    hide Step, Wide;
    SingleStepsM();
    Traced(0x1, [3, 0, 1, 31, 0, 9, 19, 17, 29],
           [0x23, 0x460, 0x8c01, 0x11803f, 0x23007e0, 0x3d6aabbb, 0x2f2b18a, 0x253c66e3, 0x2bc830a3]);
  }

  lemma OneCharacter()
    ensures Expand("a") == [3, 0, 1]
  {
  }

  /** A string that verifies is what its data encodes to. */
  lemma KnownString(e: Encoding, t: Data)
    requires |t| == 6 && Symbols(t) && Remainder([3, 0, 1] + t) == (if e == BECH32 then 1 else 0x2bc830a3)
    ensures Encode(e, "a", []) == "a1" + Chars(t)
  {
    hide Remainder, Checksum, Encode;
    OneCharacter();
    hide Expand;
    Reencoded(e, "a", t);
    assert t[..0] == [];
    assert "a" + "1" == "a1";
  }

  lemma SixChars(t: Data)
    requires |t| == 6 && Symbols(t)
    ensures Chars(t) == [CharOf(t[0]), CharOf(t[1]), CharOf(t[2]), CharOf(t[3]), CharOf(t[4]), CharOf(t[5])]
  {
    hide CharOf;
  }

  lemma Bech32Known()
    ensures Encode(BECH32, "a", []) == "a12uel5l"
  {
    hide Fold, Encode, Expand, Chars;
    var t: Data := [10, 28, 25, 31, 20, 31];
    ShortSteps();
    assert [3, 0, 1] + t == [3, 0, 1, 10, 28, 25, 31, 20, 31];
    KnownString(BECH32, t);
    SixChars(t);
    assert Chars(t) == "2uel5l";
  }

  lemma Bech32mKnown()
    ensures Encode(BECH32M, "a", []) == "a1lqfn3a"
  {
    hide Fold, Encode, Expand, Chars;
    var t: Data := [31, 0, 9, 19, 17, 29];
    ShortStepsM();
    assert [3, 0, 1] + t == [3, 0, 1, 31, 0, 9, 19, 17, 29];
    KnownString(BECH32M, t);
    SixChars(t);
    assert Chars(t) == "lqfn3a";
  }
}
