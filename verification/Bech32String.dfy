/** Encoding to and decoding from Bech32 and Bech32m strings. */
module Bech32String {
  import opened Basics
  import opened Bech32Code
  import opened Bech32

  // ---- characters ----

  datatype Case = Neither | Lower | Upper

  function CaseOf(c: char): Case { if IsLower(c) then Lower else if IsUpper(c) then Upper else Neither }

  /** The case of the first letter. */
  function Seen(s: string): Case {
    if s == [] then Neither
    else
      var c := Seen(s[..|s| - 1]);
      if c.Neither? then CaseOf(s[|s| - 1]) else c
  }

  /** A character that cannot be printed, or a letter not in the case of the first one. */
  predicate BadAt(s: string, i: int)
    requires 0 <= i < |s|
  {
    if CaseOf(s[i]).Neither? then !Printable(s[i]) else Seen(s[..i]) != Neither && Seen(s[..i]) != CaseOf(s[i])
  }

  ghost predicate Good(s: string) { forall i :: 0 <= i < |s| ==> !BadAt(s, i) }

  method CheckCharacters(s: string) returns (ok: bool, errors: seq<int>)
    ensures ok <==> Good(s)
    ensures forall i :: i in errors <==> 0 <= i < |s| && BadAt(s, i)
  {
    errors := [];
    var lower, upper := false, false;
    var i := 0;
    while i < |s|
      invariant 0 <= i <= |s| && !(lower && upper)
      invariant Seen(s[..i]) == if lower then Lower else if upper then Upper else Neither
      invariant forall j :: j in errors <==> 0 <= j < i && BadAt(s, j)
    {
      var c := s[i];
      assert s[..i + 1][..i] == s[..i];
      if IsLower(c) {
        if upper { errors := errors + [i]; } else { lower := true; }
      } else if IsUpper(c) {
        if lower { errors := errors + [i]; } else { upper := true; }
      } else if !Printable(c) {
        errors := errors + [i];
      }
      i := i + 1;
    }
    assert s[..i] == s;
    ok := errors == [];
    if ok {
      forall j | 0 <= j < |s| ensures !BadAt(s, j) { assert j !in errors; }
    } else {
      var j := errors[0];
      assert j in errors && BadAt(s, j);
    }
  }

  /** Printable characters without upper case are good, and so are those without lower case. */
  lemma {:induction false} OneCaseSeen(s: string, c: Case)
    requires forall i :: 0 <= i < |s| ==> CaseOf(s[i]).Neither? || CaseOf(s[i]) == c
    ensures Seen(s).Neither? || Seen(s) == c
  {
    if s != [] { OneCaseSeen(s[..|s| - 1], c); }
  }

  lemma OneCaseGood(s: string, c: Case)
    requires forall i :: 0 <= i < |s| ==> Printable(s[i]) && (CaseOf(s[i]).Neither? || CaseOf(s[i]) == c)
    ensures Good(s)
  {
    forall i | 0 <= i < |s| ensures !BadAt(s, i) { OneCaseSeen(s[..i], c); }
  }

  lemma GoodPrintable(s: string)
    requires Good(s)
    ensures forall i :: 0 <= i < |s| ==> Printable(s[i])
  {
    forall i | 0 <= i < |s| ensures Printable(s[i]) { assert !BadAt(s, i); }
  }

  // ---- parts of a string ----

  function RFind(s: string): (pos: int)
    ensures -1 <= pos < |s| && (pos >= 0 ==> s[pos] == '1') && forall i :: pos < i < |s| ==> s[i] != '1'
  {
    if s == [] then -1 else if s[|s| - 1] == '1' then |s| - 1 else RFind(s[..|s| - 1])
  }

  function LowerAll(s: string): (t: string)
    ensures |t| == |s| && forall i :: 0 <= i < |s| ==> t[i] == LowerCase(s[i])
  {
    if s == [] then [] else LowerAll(s[..|s| - 1]) + [LowerCase(s[|s| - 1])]
  }

  function Chars(v: Data): (s: string)
    requires Symbols(v)
    ensures |s| == |v| && forall i :: 0 <= i < |v| ==> s[i] == CharOf(v[i])
  {
    if v == [] then [] else Chars(v[..|v| - 1]) + [CharOf(v[|v| - 1])]
  }

  ghost predicate AllPrintable(s: string) { forall i :: 0 <= i < |s| ==> Printable(s[i]) }

  /** The symbols of printable characters, if each has one. */
  function ValuesOf(s: string): Option<Data>
    requires AllPrintable(s)
  {
    if s == [] then Some([])
    else
      var n := |s| - 1;
      var v := ValuesOf(s[..n]);
      if v.None? || SymbolOf(s[n]).None? then None else Some(v.value + [SymbolOf(s[n]).value])
  }

  /** Characters of symbols have these symbols. */
  lemma {:induction false} ValuesOfChars(v: Data)
    requires Symbols(v)
    ensures AllPrintable(Chars(v)) && ValuesOf(Chars(v)) == Some(v)
  {
    hide SymbolOf, CharOf;
    forall i | 0 <= i < |v| ensures Printable(Chars(v)[i]) { SymbolOfChar(v[i]); }
    if v != [] {
      var n := |v| - 1;
      ValuesOfChars(v[..n]);
      assert Chars(v)[..n] == Chars(v[..n]);
      SymbolOfChar(v[n]);
      assert v == v[..n] + [v[n]];
    }
  }

  /** Symbols of characters have these characters, in lower case. */
  lemma {:induction false} CharsOfValues(s: string)
    requires AllPrintable(s) && ValuesOf(s).Some?
    ensures Symbols(ValuesOf(s).value) && Chars(ValuesOf(s).value) == LowerAll(s) && |ValuesOf(s).value| == |s|
  {
    hide SymbolOf, CharOf;
    if s != [] {
      var n := |s| - 1;
      CharsOfValues(s[..n]);
      CharOfSymbol(s[n]);
      var v := ValuesOf(s).value;
      assert v[..n] == ValuesOf(s[..n]).value;
    }
  }

  // ---- the codec ----

  function Encode(e: Encoding, hrp: string, v: Data): string
    requires Symbols(v)
  {
    CombinedSymbols(e, hrp, v);
    hrp + "1" + Chars(v + Checksum(e, hrp, v))
  }

  lemma CombinedSymbols(e: Encoding, hrp: string, v: Data)
    requires Symbols(v)
    ensures Symbols(v + Checksum(e, hrp, v)) && |Checksum(e, hrp, v)| == 6
  {
    hide Checksum, Verifies;
    ChecksumVerifies(e, hrp, v);
  }

  datatype Decoded = Decoded(encoding: Encoding, hrp: string, data: Data)

  function EncodingOf(hrp: string, v: Data): Option<Encoding> {
    if Verifies(BECH32, hrp, v) then Some(BECH32) else if Verifies(BECH32M, hrp, v) then Some(BECH32M) else None
  }

  /** Reads a string whose characters are good. */
  function DecodeGood(s: string): Option<Decoded>
    requires AllPrintable(s)
  {
    var pos := RFind(s);
    if |s| > 90 || pos <= 0 || pos + 7 > |s| then None
    else
      var v := ValuesOf(s[pos + 1..]);
      if v.None? then None
      else
        var hrp := LowerAll(s[..pos]);
        var e := EncodingOf(hrp, v.value);
        if e.None? then None
        else
          CharsOfValues(s[pos + 1..]);
          Some(Decoded(e.value, hrp, v.value[..|v.value| - 6]))
  }

  ghost function Decode(s: string): Option<Decoded> {
    if !Good(s) then None else
      GoodPrintable(s);
      DecodeGood(s)
  }

  lemma EncodingExactly(e: Encoding, hrp: string, v: Data)
    ensures EncodingOf(hrp, v) == Some(e) <==> Verifies(e, hrp, v)
  {
  }

  /** What an encoded string can be decoded from: a printable human-readable part, 90 characters in all. */
  ghost predicate Encodable(hrp: string, v: Data) {
    && 1 <= |hrp| && |hrp| + 1 + |v| + 6 <= 90
    && forall i :: 0 <= i < |hrp| ==> Printable(hrp[i])
  }

  lemma EncodedParts(e: Encoding, hrp: string, v: Data)
    requires Symbols(v)
    ensures var s := Encode(e, hrp, v);
            && |s| == |hrp| + 1 + |v| + 6 && RFind(s) == |hrp| && s[..|hrp|] == hrp
            && Symbols(v + Checksum(e, hrp, v)) && s[|hrp| + 1..] == Chars(v + Checksum(e, hrp, v))
  {
    hide CharOf, Checksum, Verifies;
    ChecksumVerifies(e, hrp, v);
    var (s, w) := (Encode(e, hrp, v), v + Checksum(e, hrp, v));
    assert s[|hrp|] == '1';
    forall i | |hrp| < i < |s| ensures s[i] != '1' { NoOnes(w[i - |hrp| - 1]); }
  }

  lemma EncodedGood(e: Encoding, hrp: string, v: Data)
    requires Symbols(v) && (forall i :: 0 <= i < |hrp| ==> !IsUpper(hrp[i]))
    ensures Good(Encode(e, hrp, v)) <==> AllPrintable(hrp)
  {
    hide CharOf, Checksum, Verifies;
    ChecksumVerifies(e, hrp, v);
    var (s, w) := (Encode(e, hrp, v), v + Checksum(e, hrp, v));
    if AllPrintable(hrp) {
      forall i | 0 <= i < |s| ensures Printable(s[i]) && CaseOf(s[i]) != Upper {
        if i < |hrp| { assert s[i] == hrp[i]; }
        if i > |hrp| { NoOnes(w[i - |hrp| - 1]); SymbolOfChar(w[i - |hrp| - 1]); }
      }
      OneCaseGood(s, Lower);
    } else if Good(s) {
      GoodPrintable(s);
      forall i | 0 <= i < |hrp| ensures Printable(hrp[i]) { assert s[i] == hrp[i]; }
    }
  }

  /** Decoding what was encoded gives it back, exactly if it is printable and not too long. */
  lemma DecodeEncode(e: Encoding, hrp: string, v: Data)
    requires Symbols(v) && forall i :: 0 <= i < |hrp| ==> !IsUpper(hrp[i])
    ensures Decode(Encode(e, hrp, v)) == if Encodable(hrp, v) then Some(Decoded(e, hrp, v)) else None
  {
    hide CharOf, Checksum, Verifies, Encode, Good, EncodingOf;
    EncodedParts(e, hrp, v);
    EncodedGood(e, hrp, v);
    var s := Encode(e, hrp, v);
    if Good(s) {
      GoodPrintable(s);
      var w := v + Checksum(e, hrp, v);
      ValuesOfChars(w);
      assert LowerAll(hrp) == hrp;
      ChecksumVerifies(e, hrp, v);
      EncodingExactly(e, hrp, w);
      assert w[..|w| - 6] == v;
    }
  }

  /** Encoding what was decoded gives the string back in lower case. */
  lemma EncodeDecode(s: string)
    requires Decode(s).Some?
    ensures var d := Decode(s).value;
            && Symbols(d.data) && (forall i :: 0 <= i < |d.hrp| ==> !IsUpper(d.hrp[i]))
            && Encode(d.encoding, d.hrp, d.data) == LowerAll(s)
  {
    hide CharOf, Checksum, Verifies, EncodingOf, SymbolOf, ValuesOf, Good, Symbols, Encode;
    GoodPrintable(s);
    var (pos, d) := (RFind(s), Decode(s).value);
    CharsOfValues(s[pos + 1..]);
    var w := ValuesOf(s[pos + 1..]).value;
    EncodingExactly(d.encoding, d.hrp, w);
    Reencoded(d.encoding, d.hrp, w);
    assert LowerAll(s) == LowerAll(s[..pos]) + "1" + LowerAll(s[pos + 1..]);
  }

  lemma Reencoded(e: Encoding, hrp: string, w: Data)
    requires |w| >= 6 && Symbols(w) && Verifies(e, hrp, w)
    ensures Symbols(w[..|w| - 6]) && Encode(e, hrp, w[..|w| - 6]) == hrp + "1" + Chars(w)
  {
    hide Checksum, Verifies, CharOf;
    var (v, t) := (w[..|w| - 6], w[|w| - 6..]);
    assert w == v + t;
    ChecksumUnique(e, hrp, v, t);
  }
}
