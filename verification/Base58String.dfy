/** Encoding bytes to and decoding them from Base58 strings. */
module Base58String {
  import opened Basics
  import opened Digits
  import opened Radix
  import opened Base58

  // ---- runs of elements ----

  /** How many elements at the start satisfy a condition. */
  function Leading<T>(s: seq<T>, p: T -> bool): (n: nat)
    ensures n <= |s| && (forall i :: 0 <= i < n ==> p(s[i])) && (n < |s| ==> !p(s[n]))
  {
    if s == [] || !p(s[0]) then 0 else 1 + Leading(s[1..], p)
  }

  lemma LeadingUnique<T>(s: seq<T>, p: T -> bool, n: nat)
    requires n <= |s| && (forall i :: 0 <= i < n ==> p(s[i])) && (n < |s| ==> !p(s[n]))
    ensures Leading(s, p) == n
  {
    var m := Leading(s, p);
  }

  // ---- letters ----

  ghost function Letters(ds: seq<int>): (s: string)
    requires AreDigits(58, ds)
    ensures |s| == |ds| && forall i :: 0 <= i < |ds| ==> s[i] == LetterOf(ds[i])
  {
    if ds == [] then [] else Letters(ds[..|ds| - 1]) + [LetterOf(ds[|ds| - 1])]
  }

  /** The digits of a string all of whose characters have one. */
  function DigitsOf(s: string): (ds: seq<int>)
    ensures |ds| == |s| && forall i :: 0 <= i < |s| ==> ds[i] == DigitOf(s[i])
  {
    if s == [] then [] else DigitsOf(s[..|s| - 1]) + [DigitOf(s[|s| - 1])]
  }

  ghost predicate AllLetters(s: string) { forall i :: 0 <= i < |s| ==> DigitOf(s[i]) >= 0 }

  lemma DigitsAreDigits(s: string)
    requires AllLetters(s)
    ensures AreDigits(58, DigitsOf(s)) && Letters(DigitsOf(s)) == s
  {
    hide DigitOf, LetterOf;
    forall i | 0 <= i < |s| ensures 0 <= DigitOf(s[i]) < 58 && LetterOf(DigitOf(s[i])) == s[i] { LetterOfDigit(s[i]); }
  }

  lemma LettersAreLetters(ds: seq<int>)
    requires AreDigits(58, ds)
    ensures AllLetters(Letters(ds)) && DigitsOf(Letters(ds)) == ds
  {
    hide DigitOf, LetterOf;
    forall i | 0 <= i < |ds| ensures DigitOf(Letters(ds)[i]) == ds[i] { DigitOfLetter(ds[i]); }
  }

  // ---- encoding ----

  const IS_ZERO := (x: int) => x == 0

  const IS_ONE := (c: char) => c == '1'

  const IS_SPACE := (c: char) => IsSpace(c)

  const IS_BODY := (c: char) => !IsSpace(c)

  /** The number of a byte string, leading zeros aside, most significant digit first in another base. */
  ghost function Converted(from: nat, to: nat, s: seq<int>): seq<int>
    requires from > 0 && to >= 2 && AreDigits(from, s)
  {
    BigEndianBound(from, s);
    Reverse(ToDigits(to, BigEndian(from, s)))
  }

  lemma ConvertedDigits(from: nat, to: nat, s: seq<int>)
    requires from > 0 && to >= 2 && AreDigits(from, s)
    ensures var t := Converted(from, to, s);
            AreDigits(to, t) && BigEndian(to, t) == BigEndian(from, s) && (t != [] ==> t[0] != 0)
  {
    BigEndianBound(from, s);
    DigitsBigEndian(to, BigEndian(from, s));
  }

  /** Converting there and back. */
  lemma ConvertedBack(from: nat, to: nat, s: seq<int>)
    requires from >= 2 && to >= 2 && AreDigits(from, s) && (s != [] ==> s[0] != 0)
    ensures AreDigits(to, Converted(from, to, s)) && Converted(to, from, Converted(from, to, s)) == s
    ensures s == [] <==> Converted(from, to, s) == []
  {
    ConvertedDigits(from, to, s);
    BigEndianDigits(from, s);
    BigEndianDigits(to, Converted(from, to, s));
  }

  /** One letter for each leading zero byte, then the letters of the number. */
  ghost function Encoded(x: seq<int>): string
    requires AreDigits(256, x)
  {
    var z := Leading(x, IS_ZERO);
    ConvertedDigits(256, 58, x[z..]);
    Repeat('1', z) + Letters(Converted(256, 58, x[z..]))
  }

  // ---- decoding ----

  ghost predicate AllSpaces(s: string) { forall i :: 0 <= i < |s| ==> IsSpace(s[i]) }

  /** A string from which the leading spaces are gone. */
  ghost function DecodedBody(t: string, max: int): Option<seq<int>> {
    var z := Leading(t, IS_ONE);
    var r := t[z..];
    var n := Leading(r, IS_BODY);
    if (z > 0 && z > max) || !AllLetters(r[..n]) || !AllSpaces(r[n..]) then None
    else
      DigitsAreDigits(r[..n]);
      var d := Converted(58, 256, DigitsOf(r[..n]));
      if n > 0 && z + |d| > max then None else Some(Repeat(0, z) + d)
  }

  ghost function Decoded(s: string, max: int): Option<seq<int>> {
    if '\0' in s then None else DecodedBody(s[Leading(s, IS_SPACE)..], max)
  }

  lemma LetterNotSpace(c: char)
    ensures DigitOf(c) >= 0 ==> !IsSpace(c) && c != '\0'
    ensures DigitOf(c) == 0 <==> c == '1'
  {
    hide DigitOf, LetterOf;
    LetterOfDigit(c);
    OneIsZero();
  }

  lemma EncodedParts(x: seq<int>)
    requires AreDigits(256, x)
    ensures var (s, z) := (Encoded(x), Leading(x, IS_ZERO));
            var d := Converted(256, 58, x[z..]);
            && AllLetters(s) && Leading(s, IS_ONE) == z && AreDigits(58, d) && s[z..] == Letters(d)
  {
    hide DigitOf, LetterOf, Converted, Leading, Repeat, Letters, AllLetters;
    var z := Leading(x, IS_ZERO);
    var d := Converted(256, 58, x[z..]);
    ConvertedDigits(256, 58, x[z..]);
    LettersAreLetters(d);
    if d != [] {
      DigitOfLetter(d[0]);
      LetterNotSpace(Letters(d)[0]);
    }
    OnesBefore(z, Letters(d));
  }

  lemma OnesBefore(z: nat, w: string)
    requires AllLetters(w) && (w != [] ==> w[0] != '1')
    ensures var s := Repeat('1', z) + w; AllLetters(s) && Leading(s, IS_ONE) == z && s[z..] == w
  {
    hide DigitOf, Leading, Repeat;
    var s := Repeat('1', z) + w;
    OneIsZero();
    forall i | 0 <= i < |s| ensures DigitOf(s[i]) >= 0 {
      if i >= z { assert s[i] == w[i - z]; }
    }
    LeadingUnique(s, IS_ONE, z);
  }

  /** Decoding what was encoded gives the bytes back, exactly if they are not too many. */
  lemma DecodeEncode(x: seq<int>, max: int)
    requires AreDigits(256, x)
    ensures Decoded(Encoded(x), max) == if |x| <= max || x == [] then Some(x) else None
  {
    hide DigitOf, LetterOf, Converted, Encoded, Letters, Leading, Repeat, DigitsOf, AllLetters, IsSpace;
    var (s, z) := (Encoded(x), Leading(x, IS_ZERO));
    var d := Converted(256, 58, x[z..]);
    EncodedParts(x);
    LettersAreLetters(d);
    OnlyLetters(s);
    var r := s[z..];
    OnlyLetters(r);
    assert r[..|r|] == r && r[|r|..] == [];
    ConvertedBack(256, 58, x[z..]);
    assert x == Repeat(0, z) + x[z..];
  }

  /** Letters hold no space, neither in front nor at the end. */
  lemma OnlyLetters(s: string)
    requires AllLetters(s)
    ensures '\0' !in s && Leading(s, IS_SPACE) == 0 && s[0..] == s && Leading(s, IS_BODY) == |s|
  {
    hide DigitOf, Leading, IsSpace;
    forall i | 0 <= i < |s| ensures !IsSpace(s[i]) && s[i] != '\0' { LetterNotSpace(s[i]); }
    LeadingUnique(s, IS_SPACE, 0);
    LeadingUnique(s, IS_BODY, |s|);
  }

  /** A string without spaces at either end. */
  function Stripped(s: string): string {
    var t := s[Leading(s, IS_SPACE)..];
    t[..|t| - Leading(Reverse(t), IS_SPACE)]
  }

  lemma StrippedParts(t: string, n: nat)
    requires n <= |t| && AllSpaces(t[n..]) && (n > 0 ==> !IsSpace(t[n - 1]))
    ensures |t| - Leading(Reverse(t), IS_SPACE) == n
  {
    hide Leading, Reverse, IsSpace;
    var r := Reverse(t);
    forall i | 0 <= i < |t| - n ensures IS_SPACE(r[i]) { assert r[i] == t[n..][|t| - 1 - i - n]; }
    LeadingUnique(r, IS_SPACE, |t| - n);
  }

  lemma EncodeBody(t: string, max: int)
    requires DecodedBody(t, max).Some?
    ensures var x := DecodedBody(t, max).value;
            && AreDigits(256, x) && (x == [] || |x| <= max)
            && Encoded(x) == t[..|t| - Leading(Reverse(t), IS_SPACE)]
  {
    hide DigitOf, Converted, Encoded, Leading, Repeat, DigitsOf, Reverse, IsSpace, AllLetters, AllSpaces;
    var z := Leading(t, IS_ONE);
    var r := t[z..];
    var n := Leading(r, IS_BODY);
    DigitsAreDigits(r[..n]);
    BodyEnds(t, z, n);
    StrippedParts(t, z + n);
    DecodedParts(r[..n], z);
    assert t[..z + n] == Repeat('1', z) + r[..n];
  }

  /** Encoding what was decoded gives the string back without the spaces around it. */
  lemma EncodeDecode(s: string, max: int)
    requires Decoded(s, max).Some?
    ensures var x := Decoded(s, max).value;
            AreDigits(256, x) && (x == [] || |x| <= max) && Encoded(x) == Stripped(s)
  {
    hide Encoded, Leading, Reverse, IsSpace, DecodedBody;
    EncodeBody(s[Leading(s, IS_SPACE)..], max);
  }

  /** The letters end where the spaces begin. */
  lemma BodyEnds(t: string, z: nat, n: nat)
    requires z + n <= |t| && AllSpaces(t[z..][n..])
    requires forall i :: 0 <= i < z ==> t[i] == '1'
    requires forall i :: 0 <= i < n ==> !IsSpace(t[z..][i])
    ensures AllSpaces(t[z + n..]) && (z + n > 0 ==> !IsSpace(t[z + n - 1]))
  {
    assert t[z + n..] == t[z..][n..];
    if n > 0 { assert t[z + n - 1] == t[z..][n - 1]; }
  }

  lemma DecodedParts(body: string, z: nat)
    requires AllLetters(body) && AreDigits(58, DigitsOf(body)) && (body != [] ==> body[0] != '1')
    ensures var x := Repeat(0, z) + Converted(58, 256, DigitsOf(body));
            AreDigits(256, x) && Encoded(x) == Repeat('1', z) + body && (body == [] ==> |x| == z)
  {
    hide DigitOf, LetterOf, Converted, Letters, Leading, Repeat, DigitsOf;
    var ds := DigitsOf(body);
    var d := Converted(58, 256, ds);
    var x := Repeat(0, z) + d;
    ConvertedDigits(58, 256, ds);
    if body != [] { LetterNotSpace(body[0]); }
    ConvertedBack(58, 256, ds);
    LeadingUnique(x, IS_ZERO, z);
    assert x[z..] == d;
    DigitsAreDigits(body);
  }
}
