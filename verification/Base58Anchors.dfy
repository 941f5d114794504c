/**
 The Base58 alphabet by its rule, what an encoded string is worth, and known strings,
 none of them stated through the codec's own tables.
 */
module Base58Anchors {
  import opened Basics
  import opened Digits
  import opened Radix
  import opened Base58
  import opened Base58String

  /** The place of a character among the ASCII digits and letters without "0", "I", "O" and "l". */
  function Place(c: char): int {
    var n := c as int;
    if '1' <= c <= '9' then n - 49
    else if 'A' <= c <= 'H' then n - 56
    else if 'J' <= c <= 'N' then n - 57
    else if 'P' <= c <= 'Z' then n - 58
    else if 'a' <= c <= 'k' then n - 64
    else if 'm' <= c <= 'z' then n - 65
    else -1
  }

  lemma PlaceIsOrder(c: char, d: char)
    requires Place(c) >= 0 && Place(d) >= 0
    ensures c < d <==> Place(c) < Place(d)
  {
  }

  lemma Alphabet3(c: char)
    requires c <= '?'
    ensures DigitOf(c) == Place(c)
  {
  }

  lemma Alphabet4(c: char)
    requires '@' <= c <= '_'
    ensures DigitOf(c) == Place(c)
  {
  }

  lemma Alphabet6(c: char)
    requires '`' <= c
    ensures DigitOf(c) == Place(c)
  {
  }

  /** Each character stands for its place, and the places are those of the letters. */
  lemma AlphabetExactly(c: char)
    ensures DigitOf(c) == Place(c)
    ensures Place(c) >= 0 ==> Place(c) < 58 && LetterOf(Place(c)) == c
  {
    LetterOfDigit(c);
    hide DigitOf, Place;
    if c <= '?' { Alphabet3(c); } else if c <= '_' { Alphabet4(c); } else { Alphabet6(c); }
  }

  /** The white space skipped is space, tab, line feed, vertical tab, form feed and carriage return. */
  lemma SpaceExactly(c: char)
    ensures IsSpace(c) <==> c as int in {32, 9, 10, 11, 12, 13}
  {
  }

  /** A byte string has as many leading zeros as its encoding ones, and the same value. */
  lemma EncodedNumber(x: seq<int>)
    requires AreDigits(256, x)
    ensures var (s, z) := (Encoded(x), Leading(x, IS_ZERO));
            && Leading(s, IS_ONE) == z && (forall i :: 0 <= i < |s| ==> 0 <= Place(s[i]))
            && BigEndian(58, DigitsOf(s[z..])) == BigEndian(256, x[z..])
  {
    hide DigitOf, LetterOf, Converted, Encoded, Letters, Leading, Place, BigEndian;
    EncodedParts(x);
    var z := Leading(x, IS_ZERO);
    ConvertedDigits(256, 58, x[z..]);
    LettersAreLetters(Converted(256, 58, x[z..]));
    forall i | 0 <= i < |Encoded(x)| ensures 0 <= Place(Encoded(x)[i]) { AlphabetExactly(Encoded(x)[i]); }
  }

  /** A number is spelled by the digits, the first not zero, that have its value. */
  lemma KnownBytes(x: seq<int>, d: seq<int>)
    requires AreDigits(256, x) && x != [] && x[0] != 0 && AreDigits(58, d) && d != [] && d[0] != 0
    requires BigEndian(256, x) == BigEndian(58, d)
    ensures Encoded(x) == Letters(d)
  {
    hide Letters, BigEndian, ToDigits, LetterOf;
    LeadingUnique(x, IS_ZERO, 0);
    hide Leading;
    assert x[0..] == x;
    BigEndianDigits(58, d);
    assert Repeat('1', 0) == [];
  }

  lemma Known61()
    ensures Encoded([0x61]) == "2g"
  {
    hide Encoded;
    assert [0x61][..0] == [] && [1, 39][..1] == [1] && [1][..0] == [];
    KnownBytes([0x61], [1, 39]);
    assert Letters([1, 39]) == [LetterOf(1), LetterOf(39)];
    AlphabetExactly('2');
    AlphabetExactly('g');
  }
}
