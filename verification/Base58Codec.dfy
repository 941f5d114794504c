/** The loops of the Base58 codec, in buffers of a fixed size. */
module Base58Codec {
  import opened Basics
  import opened Digits
  import opened Radix
  import opened Base58
  import opened Base58String

  /**
   Digits in one base, most significant first, become the number in a buffer of
   digits in another; the buffer never overflows.
   */
  method Convert(s: seq<int>, from: nat, to: nat, buf: array<int>) returns (length: nat)
    requires from >= 2 && to >= 2 && AreDigits(from, s) && Pow(from, |s|) <= Pow(to, buf.Length)
    requires forall i :: 0 <= i < buf.Length ==> buf[i] == 0
    modifies buf
    ensures length <= buf.Length && Reverse(buf[..length]) == Converted(from, to, s)
  {
    hide Holding, Pow;
    length := 0;
    var k := 0;
    HoldingZero(to, buf[..]);
    while k < |s|
      invariant 0 <= k <= |s| && Holding(to, buf[..], length, BigEndian(from, s[..k]))
    {
      PrefixFits(from, to, s, k, buf.Length);
      length := MulAdd(buf, length, to, from, s[k], BigEndian(from, s[..k]));
      k := k + 1;
    }
    assert s[..k] == s;
    HoldingDigits(to, buf[..], length, BigEndian(from, s));
    assert buf[..][..length] == buf[..length];
  }

  lemma HoldingZero(b: nat, buf: seq<int>)
    requires b >= 2 && forall i :: 0 <= i < |buf| ==> buf[i] == 0
    ensures Holding(b, buf, 0, 0)
  {
  }

  lemma HoldingDigits(b: nat, buf: seq<int>, length: int, n: int)
    requires Holding(b, buf, length, n)
    ensures b >= 2 && 0 <= length <= |buf| && n >= 0 && buf[..length] == ToDigits(b, n)
  {
  }

  lemma PrefixFits(from: nat, to: nat, s: seq<int>, k: int, size: nat)
    requires from >= 2 && to >= 2 && AreDigits(from, s) && 0 <= k < |s| && Pow(from, |s|) <= Pow(to, size)
    ensures BigEndian(from, s[..k + 1]) == from * BigEndian(from, s[..k]) + s[k] < Pow(to, size)
    ensures s[k] >= 0
  {
    hide Pow;
    assert s[..k + 1][..k] == s[..k];
    BigEndianBound(from, s[..k + 1]);
    PowMonotone(from, k + 1, |s|);
  }

  method CountZeroes(input: seq<int>) returns (n: nat)
    ensures n == Leading(input, IS_ZERO)
  {
    hide Leading;
    n := 0;
    while n < |input| && input[n] == 0
      invariant 0 <= n <= |input| && forall i :: 0 <= i < n ==> input[i] == 0
    {
      n := n + 1;
    }
    LeadingUnique(input, IS_ZERO, n);
  }

  method EncodeBase58(input: seq<int>) returns (str: string)
    requires AreDigits(256, input)
    ensures str == Encoded(input)
  {
    hide Leading, Converted, Letters, Repeat, LetterOf, Pow;
    var zeroes := CountZeroes(input);
    var rest := input[zeroes..];
    BuffersFit(|rest|);
    var b58 := new int[Size58(|rest|)](_ => 0);
    var length := Convert(rest, 256, 58, b58);
    ConvertedDigits(256, 58, rest);
    LeadingUnique(Reverse(b58[..length]), IS_ZERO, 0);
    str := Fill('1', zeroes);
    var letters := Spell(b58, length);
    str := str + letters;
  }

  /** The letters of the digits in a buffer, leading zeros skipped. */
  method Spell(buf: array<int>, length: nat) returns (str: string)
    requires length <= buf.Length && AreDigits(58, Reverse(buf[..length]))
    ensures var ds := Reverse(buf[..length]); str == Letters(ds[Leading(ds, IS_ZERO)..])
  {
    hide LetterOf, Reverse, Letters, Leading;
    ghost var ds := Reverse(buf[..length]);
    var top := length;
    while top > 0 && buf[top - 1] == 0
      invariant 0 <= top <= length && forall i :: 0 <= i < length - top ==> ds[i] == 0
    {
      assert ds[length - top] == buf[..length][top - 1];
      top := top - 1;
    }
    assert top > 0 ==> ds[length - top] == buf[..length][top - 1];
    LeadingUnique(ds, IS_ZERO, length - top);
    ghost var es := ds[length - top..];
    str := "";
    LettersEmpty();
    var i := 0;
    while i < top
      invariant 0 <= i <= top == |es| && str == Letters(es[..i])
    {
      assert es[i] == ds[length - top + i] == buf[..length][top - 1 - i];
      LettersStep(es, i);
      str := str + [LetterOf(buf[top - 1 - i])];
      i := i + 1;
    }
    assert es[..i] == es;
  }

  lemma LettersEmpty()
    ensures Letters([]) == ""
  {
  }

  lemma LettersStep(ds: seq<int>, i: int)
    requires AreDigits(58, ds) && 0 <= i < |ds|
    ensures Letters(ds[..i + 1]) == Letters(ds[..i]) + [LetterOf(ds[i])]
  {
    assert ds[..i + 1][..i] == ds[..i];
  }

  method Fill<T>(x: T, n: nat) returns (s: seq<T>)
    ensures s == Repeat(x, n)
  {
    s := [];
    var i := 0;
    while i < n
      invariant 0 <= i <= n && s == Repeat(x, i)
    {
      s := s + [x];
      i := i + 1;
    }
  }

  // ---- decoding ----

  method SkipSpaces(s: string, start: nat) returns (p: nat)
    requires start <= |s|
    ensures p == start + Leading(s[start..], IS_SPACE)
  {
    hide Leading, IsSpace;
    p := start;
    while p < |s| && IsSpace(s[p])
      invariant start <= p <= |s| && forall i :: 0 <= i < p - start ==> IsSpace(s[start..][i])
    {
      p := p + 1;
    }
    LeadingUnique(s[start..], IS_SPACE, p - start);
  }

  /** The leading letters for zero; none if there are too many. */
  method CountOnes(s: string, start: nat, max: int) returns (n: Option<nat>)
    requires start <= |s|
    ensures var z := Leading(s[start..], IS_ONE);
            n == if z > 0 && z > max then None else Some(z)
  {
    hide Leading;
    ghost var t := s[start..];
    var z := 0;
    while start + z < |s| && s[start + z] == '1'
      invariant 0 <= z <= |t| && (forall i :: 0 <= i < z ==> t[i] == '1') && (z > 0 ==> z <= max)
    {
      assert t[z] == '1';
      if z + 1 > max {
        LeadingAtLeast(t, IS_ONE, z + 1);
        return None;
      }
      z := z + 1;
    }
    LeadingUnique(t, IS_ONE, z);
    return Some(z);
  }

  lemma LeadingAtLeast<T>(s: seq<T>, p: T -> bool, n: nat)
    requires n <= |s| && forall i :: 0 <= i < n ==> p(s[i])
    ensures Leading(s, p) >= n
  {
    hide Leading;
    var m := Leading(s, p);
  }

  /**
   Reads letters up to a space or the end into a buffer: none if one of them is no
   letter, or the number takes more than `room` bytes.
   */
  method ReadBody(r: string, room: int, buf: array<int>) returns (length: Option<nat>, n: nat)
    requires buf.Length == Size256(|r|) && forall i :: 0 <= i < buf.Length ==> buf[i] == 0
    modifies buf
    ensures var m := Leading(r, IS_BODY);
            if !AllLetters(r[..m]) then length == None else
              && AreDigits(58, DigitsOf(r[..m]))
              && var d := Converted(58, 256, DigitsOf(r[..m]));
              if m > 0 && |d| > room then length == None
              else n == m && length.Some? && length.value <= buf.Length && Reverse(buf[..length.value]) == d
  {
    hide Leading, Pow, Holding, DigitOf, IsSpace, Converted;
    ghost var m := Leading(r, IS_BODY);
    BuffersFit(|r|);
    var len: nat := 0;
    n := 0;
    HoldingZero(256, buf[..]);
    while n < |r| && !IsSpace(r[n])
      invariant 0 <= n <= m && AllLetters(r[..n])
      invariant Holding(256, buf[..], len, BigEndian(58, DigitsOf(r[..n])))
      invariant n > 0 ==> len <= room
    {
      assert n < m;
      var carry := DigitOf(r[n]);
      LetterOfDigit(r[n]);
      if carry == -1 {
        assert r[..m][n] == r[n];
        return None, 0;
      }
      BodyFits(r, n);
      len := MulAdd(buf, len, 256, 58, carry, BigEndian(58, DigitsOf(r[..n])));
      n := n + 1;
      if len > room {
        TooLong(r, n, m, buf[..], len, room);
        return None, 0;
      }
    }
    assert n == m;
    DigitsAreDigits(r[..m]);
    BodyDigits(r[..m], buf[..], len);
    assert buf[..][..len] == buf[..len];
    return Some(len), n;
  }

  lemma BodyFits(r: string, n: nat)
    requires n < |r| && AllLetters(r[..n]) && 0 <= DigitOf(r[n]) < 58
    ensures AllLetters(r[..n + 1])
    ensures BigEndian(58, DigitsOf(r[..n + 1])) ==
            58 * BigEndian(58, DigitsOf(r[..n])) + DigitOf(r[n]) < Pow(256, Size256(|r|))
  {
    hide Pow, DigitOf;
    assert r[..n + 1][..n] == r[..n];
    var ds := DigitsOf(r[..n + 1]);
    DigitsAreDigits(r[..n + 1]);
    assert ds[..n] == DigitsOf(r[..n]);
    BigEndianBound(58, ds);
    PowMonotone(58, n + 1, |r|);
    BuffersFit(|r|);
  }

  lemma BodyDigits(s: string, buf: seq<int>, len: int)
    requires AllLetters(s) && AreDigits(58, DigitsOf(s)) && Holding(256, buf, len, BigEndian(58, DigitsOf(s)))
    ensures 0 <= len <= |buf| && Reverse(buf[..len]) == Converted(58, 256, DigitsOf(s))
  {
  }

  /** A number that is too long stays so with more letters. */
  lemma TooLong(r: string, n: nat, m: nat, buf: seq<int>, len: int, room: int)
    requires n <= m <= |r| && n > 0 && AllLetters(r[..n]) && len > room
    requires Holding(256, buf, len, BigEndian(58, DigitsOf(r[..n])))
    ensures AllLetters(r[..m]) ==> AreDigits(58, DigitsOf(r[..m])) && |Converted(58, 256, DigitsOf(r[..m]))| > room
  {
    if AllLetters(r[..m]) {
      DigitsAreDigits(r[..m]);
      DigitsAreDigits(r[..n]);
      assert DigitsOf(r[..m])[..n] == DigitsOf(r[..n]);
      BigEndianBound(58, DigitsOf(r[..m]));
      BigEndianBound(58, DigitsOf(r[..n]));
      PrefixGrows(58, DigitsOf(r[..m]), n);
      DigitsMonotone(256, BigEndian(58, DigitsOf(r[..n])), BigEndian(58, DigitsOf(r[..m])));
    }
  }

  lemma {:induction false} PrefixGrows(b: nat, s: seq<int>, n: nat)
    requires b > 0 && AreDigits(b, s) && n <= |s|
    ensures 0 <= BigEndian(b, s[..n]) <= BigEndian(b, s)
  {
    BigEndianBound(b, s[..n]);
    if n < |s| {
      var k := |s| - 1;
      assert s[..k][..n] == s[..n];
      PrefixGrows(b, s[..k], n);
      MulAtLeast(BigEndian(b, s[..k]), b);
    } else {
      assert s[..n] == s;
    }
  }

  method DecodeBase58(s: string, max: int) returns (r: Option<seq<int>>)
    ensures r == Decoded(s, max)
  {
    hide Leading, IsSpace, Converted, Repeat, AllLetters, AllSpaces, DigitsOf, AreDigits, Reverse, Size256;
    if '\0' in s { return None; }
    var start := SkipSpaces(s, 0);
    assert s[0..] == s;
    ghost var t := s[start..];
    var zeroes := CountOnes(s, start, max);
    if zeroes.None? { return None; }
    var z := zeroes.value;
    var rest := s[start + z..];
    assert rest == t[z..];
    var b256 := new int[Size256(|rest|)](_ => 0);
    var length, n := ReadBody(rest, max - z, b256);
    if length.None? { return None; }
    var end := SkipSpaces(rest, n);
    SpacesToEnd(rest, n);
    if end != |rest| { return None; }
    var zeros := Fill(0, z);
    var bytes := Backwards(b256, length.value);
    return Some(zeros + bytes);
  }

  lemma SpacesToEnd(r: string, n: nat)
    requires n <= |r|
    ensures n + Leading(r[n..], IS_SPACE) == |r| <==> AllSpaces(r[n..])
  {
    hide Leading, IsSpace;
    if AllSpaces(r[n..]) { LeadingUnique(r[n..], IS_SPACE, |r| - n); }
  }

  /** The digits of a buffer, most significant first. */
  method Backwards(buf: array<int>, length: nat) returns (s: seq<int>)
    requires length <= buf.Length
    ensures s == Reverse(buf[..length])
  {
    s := [];
    var i := length;
    while i > 0
      invariant 0 <= i <= length && |s| == length - i && forall j :: 0 <= j < |s| ==> s[j] == buf[length - 1 - j]
    {
      i := i - 1;
      s := s + [buf[i]];
    }
  }
}
