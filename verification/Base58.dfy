/** Base58 strings. */
module Base58 {
  import opened Digits
  import opened Radix

  // ---- the alphabet ----

  // all digits and letters except "0", "I", "O" and "l"
  const NUMERALS := "123456789"
  const CAPITALS := "ABCDEFGHJKLMNPQRSTUVWXYZ"
  const SMALL := "abcdefghijkmnopqrstuvwxyz"

  const NO_DIGITS := [-1, -1, -1, -1, -1, -1, -1, -1, -1, -1, -1, -1, -1, -1, -1, -1]
  const ROW_3 := [-1, 0, 1, 2, 3, 4, 5, 6, 7, 8, -1, -1, -1, -1, -1, -1]
  const ROW_4 := [-1, 9, 10, 11, 12, 13, 14, 15, 16, -1, 17, 18, 19, 20, 21, -1]
  const ROW_5 := [22, 23, 24, 25, 26, 27, 28, 29, 30, 31, 32, -1, -1, -1, -1, -1]
  const ROW_6 := [-1, 33, 34, 35, 36, 37, 38, 39, 40, 41, 42, 43, -1, 44, 45, 46]
  const ROW_7 := [47, 48, 49, 50, 51, 52, 53, 54, 55, 56, 57, -1, -1, -1, -1, -1]

  // the digits of the characters below 128, sixteen to a row; those above have none
  const MAP_BASE58 := [NO_DIGITS, NO_DIGITS, NO_DIGITS, ROW_3, ROW_4, ROW_5, ROW_6, ROW_7]

  function DigitOf(c: char): int {
    if c as int >= 128 then -1 else MAP_BASE58[c as int / 16][c as int % 16]
  }

  function LetterOf(d: int): char
    requires 0 <= d < 58
  {
    if d < 9 then NUMERALS[d] else if d < 33 then CAPITALS[d - 9] else SMALL[d - 33]
  }

  predicate IsSpace(c: char) { c == ' ' || 9 <= c as int <= 13 }

  lemma Letters1(d: int)
    requires 0 <= d < 22
    ensures DigitOf(LetterOf(d)) == d
  {
  }

  lemma Letters2(d: int)
    requires 22 <= d < 33
    ensures DigitOf(LetterOf(d)) == d
  {
  }

  lemma Letters3(d: int)
    requires 33 <= d < 46
    ensures DigitOf(LetterOf(d)) == d
  {
  }

  lemma Letters4(d: int)
    requires 46 <= d < 58
    ensures DigitOf(LetterOf(d)) == d
  {
  }

  lemma DigitOfLetter(d: int)
    requires 0 <= d < 58
    ensures DigitOf(LetterOf(d)) == d
  {
    hide DigitOf, LetterOf;
    if d < 22 { Letters1(d); } else if d < 33 { Letters2(d); } else if d < 46 { Letters3(d); } else { Letters4(d); }
  }

  lemma Digits3(c: char)
    requires '0' <= c <= 'O'
    ensures -1 <= DigitOf(c) < 58 && (DigitOf(c) >= 0 ==> LetterOf(DigitOf(c)) == c)
  {
  }

  lemma Digits5(c: char)
    requires 'P' <= c <= '_'
    ensures -1 <= DigitOf(c) < 58 && (DigitOf(c) >= 0 ==> LetterOf(DigitOf(c)) == c)
  {
  }

  lemma Digits6(c: char)
    requires '`' <= c <= 'o'
    ensures -1 <= DigitOf(c) < 58 && (DigitOf(c) >= 0 ==> LetterOf(DigitOf(c)) == c)
  {
  }

  lemma Digits7(c: char)
    requires 'p' <= c
    ensures -1 <= DigitOf(c) < 58 && (DigitOf(c) >= 0 ==> LetterOf(DigitOf(c)) == c)
  {
  }

  lemma NoDigits(c: char)
    requires c < '0'
    ensures DigitOf(c) == -1
  {
  }

  lemma LetterOfDigit(c: char)
    ensures -1 <= DigitOf(c) < 58 && (DigitOf(c) >= 0 ==> LetterOf(DigitOf(c)) == c)
    ensures DigitOf(c) >= 0 ==> '0' <= c
  {
    hide DigitOf, LetterOf;
    if c < '0' {
      NoDigits(c);
    } else if c <= 'O' {
      Digits3(c);
    } else if c <= '_' {
      Digits5(c);
    } else if c <= 'o' {
      Digits6(c);
    } else {
      Digits7(c);
    }
  }

  lemma OneIsZero()
    ensures DigitOf('1') == 0 && LetterOf(0) == '1'
  {
  }

  // ---- room in the buffers ----

  lemma {:induction false} PowLess(x: nat, y: nat, k: nat)
    requires x < y && k > 0
    ensures Pow(x, k) < Pow(y, k)
  {
    hide Pow;
    PowStep(x, k - 1);
    PowStep(y, k - 1);
    if k == 1 {
      PowNone(x);
      PowNone(y);
    } else {
      PowLess(x, y, k - 1);
      MulMonotone(x, y, Pow(x, k - 1));
      MulMonotone(Pow(x, k - 1) + 1, Pow(y, k - 1), y);
      Distribute(y, Pow(x, k - 1), 1);
    }
  }

  lemma PowNone(x: nat)
    ensures Pow(x, 0) == 1
  {
  }

  lemma {:induction false} PowBase(x: nat, y: nat, k: nat)
    requires x <= y
    ensures Pow(x, k) <= Pow(y, k)
  {
    if k > 0 && x < y { PowLess(x, y, k); }
    if k == 0 { PowNone(x); PowNone(y); }
  }

  lemma PowSwap(x: nat, m: nat, n: nat)
    ensures Pow(Pow(x, m), n) == Pow(Pow(x, n), m)
  {
    hide Pow;
    PowPow(x, m, n);
    PowPow(x, n, m);
    Commute(m, n);
  }

  lemma Commute(m: int, n: int)
    ensures m * n == n * m
  {
  }

  lemma PowGrows(y: nat, b: nat, n: nat, m: nat, a: nat)
    requires y > 0 && b * n <= a * m
    ensures Pow(Pow(y, b), n) <= Pow(Pow(y, m), a)
  {
    hide Pow;
    PowPow(y, b, n);
    PowPow(y, m, a);
    Commute(a, m);
    PowMonotone(y, b * n, m * a);
  }

  /** If x^a is at most y^b, then x^n is at most y^m for every m that is at least n*b/a. */
  lemma PowRatio(x: nat, a: nat, y: nat, b: nat, n: nat, m: nat)
    requires a > 0 && y > 0 && Pow(x, a) <= Pow(y, b) && b * n <= a * m
    ensures Pow(x, n) <= Pow(y, m)
  {
    hide Pow;
    PowSwap(x, n, a);
    PowBase(Pow(x, a), Pow(y, b), n);
    PowGrows(y, b, n, m, a);
    if Pow(x, n) > Pow(y, m) { PowLess(Pow(y, m), Pow(x, n), a); }
  }

  lemma Doubled(x: nat, n: nat, v: nat)
    requires Pow(x, n) == v
    ensures Pow(x, 2 * n) == v * v
  {
    PowAdd(x, n, n);
  }

  lemma Pow58Up()
    ensures Pow(58, 7) == 2207984167552 && Pow(58, 64) == POW_58_64
  {
    hide Pow;
    PowNone(58);
    PowStep(58, 0);
    Doubled(58, 1, 58);
    Doubled(58, 2, 3364);
    Doubled(58, 4, 11316496);
    Doubled(58, 8, 128063081718016);
    Doubled(58, 16, 16400152899115243850138976256);
    Doubled(58, 32, 268965015114358137726910587140455987105619365599731777536);
    PowAdd(58, 4, 2);
    PowAdd(58, 6, 1);
  }

  const POW_58_64 :=
    72342179355466901471258927612150153907721848234316445933056526044582001260898145151856420451025374266490194231296

  lemma Pow256Up()
    ensures Pow(256, 52) == POW_256_52 && Pow(256, 8) == 0x1_0000_0000_0000_0000
  {
    hide Pow;
    PowNone(256);
    PowStep(256, 0);
    Doubled(256, 1, 256);
    Doubled(256, 2, 0x1_0000);
    Doubled(256, 4, 0x1_0000_0000);
    Doubled(256, 8, 0x1_0000_0000_0000_0000);
    Doubled(256, 16, 340282366920938463463374607431768211456);
    PowAdd(256, 32, 16);
    PowAdd(256, 48, 4);
  }

  const POW_256_52 :=
    0x100000000000000000000000000000000000000000000000000000000000000000000000000000000000000000000000000000000

  lemma Pow58Fits()
    ensures Pow(58, 71) <= Pow(256, 52) && Pow(256, 8) <= Pow(58, 11)
  {
    hide Pow;
    Pow58Up();
    Pow256Up();
    PowAdd(58, 64, 7);
    PowStep(58, 7);
    PowStep(58, 8);
    PowStep(58, 9);
    PowStep(58, 10);
  }

  function Size256(n: nat): nat { n * 733 / 1000 + 1 }

  function Size58(n: nat): nat { n * 138 / 100 + 1 }

  /** The buffers are large enough for every number of the length they are made for. */
  lemma BuffersFit(n: nat)
    ensures Pow(58, n) <= Pow(256, Size256(n)) && Pow(256, n) <= Pow(58, Size58(n))
  {
    hide Pow;
    Pow58Fits();
    PowRatio(58, 71, 256, 52, n, Size256(n));
    PowRatio(256, 8, 58, 11, n, Size58(n));
  }
}
