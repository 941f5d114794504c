/**
 What the limb loops keep: for each, a predicate on the limbs at the head of the loop
 and a lemma for one turn of it.
 */
module LimbLoops {
  import opened Digits
  import opened Limbs

  /** The number that limbs stand for. */
  ghost function Number(s: seq<int>): int { Value(B, s) }

  ghost function Modulus(width: nat): int { Pow(B, width) }

  lemma NumberFits(s: seq<uint32>)
    ensures 0 <= Number(s) < Modulus(|s|)
  {
    ValueBound(B, s);
  }

  lemma NumberStep(s: seq<int>, i: int)
    requires 0 <= i < |s|
    ensures Number(s[..i + 1]) == Number(s[..i]) + s[i] * Modulus(i) && Modulus(i + 1) == B * Modulus(i)
  {
    ValueStep(B, s, i);
  }

  lemma NumberUpdate(s: seq<int>, i: int, x: int)
    requires 0 <= i < |s|
    ensures Number(s[i := x]) == Number(s) + (x - s[i]) * Modulus(i)
  {
    ValueUpdate(B, s, i, x);
  }

  /** A number below the modulus that differs by a multiple of it is the residue. */
  lemma Residue(s: seq<uint32>, x: int, q: int)
    requires Number(s) == x + q * Modulus(|s|)
    ensures Number(s) == x % Modulus(|s|)
  {
    NumberFits(s);
    ModUnique(x, Modulus(|s|), q, Number(s));
  }

  // ---- addition ----

  /** The sum of the first `i` limbs is in place, with a carry. */
  ghost predicate Adding(zs: seq<int>, xs: seq<int>, ys: seq<int>, i: int, carry: int) {
    && 0 <= i <= |zs| == |xs| == |ys|
    && Number(zs[..i]) + carry * Modulus(i) == Number(xs[..i]) + Number(ys[..i])
  }

  lemma AddStart(xs: seq<int>, ys: seq<int>)
    requires |xs| == |ys|
    ensures Adding(xs, xs, ys, 0, 0)
  {
  }

  lemma AddStep(zs: seq<int>, xs: seq<int>, ys: seq<int>, i: int, carry: int, n: int)
    requires Adding(zs, xs, ys, i, carry) && i < |zs| && n == carry + xs[i] + ys[i]
    ensures Adding(zs[i := n % B], xs, ys, i + 1, n / B)
  {
    hide Number, Modulus;
    var ws := zs[i := n % B];
    assert ws[..i] == zs[..i];
    NumberStep(ws, i);
    NumberStep(xs, i);
    NumberStep(ys, i);
    CarryStep(Number(zs[..i]), Number(xs[..i]) + Number(ys[..i]), carry, n, xs[i] + ys[i], Modulus(i));
    Distribute(Modulus(i), xs[i], ys[i]);
  }

  lemma AddEnd(zs: seq<uint32>, xs: seq<int>, ys: seq<int>, carry: int)
    requires Adding(zs, xs, ys, |zs|, carry)
    ensures Number(zs) == (Number(xs) + Number(ys)) % Modulus(|zs|)
  {
    assert zs[..|zs|] == zs && xs[..|zs|] == xs && ys[..|zs|] == ys;
    Residue(zs, Number(xs) + Number(ys), -carry);
  }

  // ---- increment, decrement, complement ----

  /** The first `i` limbs have wrapped around to zero. */
  ghost predicate Incrementing(zs: seq<int>, xs: seq<int>, i: int) {
    && 0 <= i <= |zs| == |xs| && zs[i..] == xs[i..]
    && Number(zs) + Modulus(i) == Number(xs) + 1
    && (forall j :: 0 <= j < i ==> zs[j] == 0)
  }

  lemma IncrementStart(xs: seq<int>)
    ensures Incrementing(xs, xs, 0)
  {
  }

  lemma IncrementStep(zs: seq<uint32>, xs: seq<int>, i: int)
    requires Incrementing(zs, xs, i) && i < |zs|
    ensures zs[i] == B - 1 ==> Incrementing(zs[i := 0], xs, i + 1)
    ensures zs[i] < B - 1 ==> Number(zs[i := zs[i] + 1]) == Number(xs) + 1
  {
    hide Number, Modulus;
    NumberStep(zs, i);
    if zs[i] < B - 1 { NumberUpdate(zs, i, zs[i] + 1); } else { NumberUpdate(zs, i, 0); }
  }

  /** All limbs have wrapped, or the sum is exact. */
  lemma IncrementEnd(zs: seq<uint32>, xs: seq<int>)
    requires Incrementing(zs, xs, |zs|) || Number(zs) == Number(xs) + 1
    ensures Number(zs) == (Number(xs) + 1) % Modulus(|zs|)
  {
    if Number(zs) == Number(xs) + 1 { Residue(zs, Number(xs) + 1, 0); } else { Residue(zs, Number(xs) + 1, -1); }
  }

  /** The first `i` limbs have wrapped around to the maximum. */
  ghost predicate Decrementing(zs: seq<int>, xs: seq<int>, i: int) {
    && 0 <= i <= |zs| == |xs| && zs[i..] == xs[i..]
    && Number(zs) + 1 == Number(xs) + Modulus(i)
    && (forall j :: 0 <= j < i ==> zs[j] == B - 1)
  }

  lemma DecrementStart(xs: seq<int>)
    ensures Decrementing(xs, xs, 0)
  {
  }

  lemma DecrementStep(zs: seq<uint32>, xs: seq<int>, i: int)
    requires Decrementing(zs, xs, i) && i < |zs|
    ensures zs[i] == 0 ==> Decrementing(zs[i := B - 1], xs, i + 1)
    ensures zs[i] > 0 ==> Number(zs[i := zs[i] - 1]) + 1 == Number(xs)
  {
    hide Number, Modulus;
    NumberStep(zs, i);
    if zs[i] > 0 { NumberUpdate(zs, i, zs[i] - 1); } else { NumberUpdate(zs, i, B - 1); }
  }

  lemma DecrementEnd(zs: seq<uint32>, xs: seq<int>)
    requires Decrementing(zs, xs, |zs|) || Number(zs) + 1 == Number(xs)
    ensures Number(zs) == (Number(xs) - 1) % Modulus(|zs|)
  {
    if Number(zs) + 1 == Number(xs) { Residue(zs, Number(xs) - 1, 0); } else { Residue(zs, Number(xs) - 1, 1); }
  }

  /** Complementing every limb takes the number from the largest one. */
  lemma {:induction false} ComplementValue(zs: seq<uint32>, xs: seq<uint32>)
    requires |zs| == |xs| && forall i :: 0 <= i < |zs| ==> zs[i] == B - 1 - xs[i]
    ensures Number(zs) == Modulus(|zs|) - 1 - Number(xs)
  {
    if zs != [] {
      var n := |zs| - 1;
      ComplementValue(zs[..n], xs[..n]);
      var p, x: int := Modulus(n), xs[n];
      assert (B - 1 - x) * p == B * p - p - x * p;
    }
  }

  /** Adding the negative is subtracting. */
  lemma NegativeAdds(x: int, y: int, m: int)
    requires m > 0
    ensures (x + (-y) % m) % m == (x - y) % m
  {
    var q := (-y) / m;
    assert -y == q * m + (-y) % m;
    var r := (x - y) / m;
    assert x - y == r * m + (x - y) % m;
    assert x + (-y) % m == (r - q) * m + (x - y) % m;
    DivModUnique(x + (-y) % m, m, r - q, (x - y) % m);
  }

  // ---- multiplication ----

  /** The product of the first `i` limbs and a factor is in place, with a carry. */
  ghost predicate Scaling(zs: seq<int>, xs: seq<int>, f: int, i: int, carry: int) {
    && 0 <= i <= |zs| == |xs|
    && Number(zs[..i]) + carry * Modulus(i) == f * Number(xs[..i])
  }

  lemma ScaleStart(xs: seq<int>, f: int)
    ensures Scaling(xs, xs, f, 0, 0)
  {
  }

  lemma ScaleStep(zs: seq<int>, xs: seq<int>, f: int, i: int, carry: int, n: int)
    requires Scaling(zs, xs, f, i, carry) && i < |zs| && n == carry + f * xs[i]
    ensures Scaling(zs[i := n % B], xs, f, i + 1, n / B)
  {
    hide Number, Modulus;
    var ws := zs[i := n % B];
    assert ws[..i] == zs[..i];
    NumberStep(ws, i);
    NumberStep(xs, i);
    CarryStep(Number(zs[..i]), f * Number(xs[..i]), carry, n, f * xs[i], Modulus(i));
    Distribute(f, Number(xs[..i]), xs[i] * Modulus(i));
    Regroup(f, xs[i], Modulus(i));
  }

  lemma ScaleEnd(zs: seq<uint32>, xs: seq<int>, f: int, carry: int)
    requires Scaling(zs, xs, f, |zs|, carry)
    ensures Number(zs) == (f * Number(xs)) % Modulus(|zs|)
  {
    assert zs[..|zs|] == zs && xs[..|zs|] == xs;
    Residue(zs, f * Number(xs), -carry);
  }

  /** `f` times the first `i` limbs of `ys`, moved up by `j` limbs, has been added to `v`. */
  ghost predicate Multiplying(zs: seq<int>, v: int, f: int, ys: seq<int>, i: int, j: int, carry: int) {
    && 0 <= i && 0 <= j && i + j <= |zs| == |ys|
    && Number(zs) + carry * Modulus(i + j) == v + f * (Number(ys[..i]) * Modulus(j))
  }

  lemma MultiplyStep(zs: seq<int>, v: int, f: int, ys: seq<int>, i: int, j: int, carry: int, n: int)
    requires Multiplying(zs, v, f, ys, i, j, carry) && i + j < |zs| && n == carry + zs[i + j] + f * ys[i]
    ensures Multiplying(zs[i + j := n % B], v, f, ys, i + 1, j, n / B)
  {
    var (k, p) := (i + j, Modulus(i + j));
    ValueUpdate(B, zs, k, n % B);
    NumberStep(ys, i);
    PowAdd(B, i, j);
    MultiplyArithmetic(Number(zs), carry, v, f, Number(ys[..i]), ys[i], zs[k], n, Modulus(i), Modulus(j), p);
  }

  lemma MultiplyArithmetic(z: int, carry: int, v: int, f: int, y: int, d: int, old_: int, n: int, pi: int, pj: int,
      p: int)
    requires z + carry * p == v + f * (y * pj) && n == carry + old_ + f * d && p == pi * pj
    ensures z + (n % B - old_) * p + (n / B) * (B * p) == v + f * ((y + d * pi) * pj)
  {
    assert n == n % B + (n / B) * B;
    Regroup(n / B, B, p);
    Distribute(p, n % B, (n / B) * B);
    Distribute(p, carry, f * d);
    Distribute(p, n % B, -old_);
    Distribute(p, carry + f * d, old_);
    Distribute(pj, y, d * pi);
    Regroup(d, pi, pj);
    Regroup(f, d, p);
    Distribute(f, y * pj, d * p);
  }

  /** The product of the first `j` limbs of `xs` with `ys`, but for `q` times the modulus. */
  ghost predicate Multiplied(zs: seq<int>, xs: seq<int>, ys: seq<int>, j: int, q: int) {
    && 0 <= j <= |zs| == |xs| == |ys|
    && Number(zs) == Number(xs[..j]) * Number(ys) + q * Modulus(|zs|)
  }

  lemma MultiplyRow(zs: seq<int>, v: int, xs: seq<int>, ys: seq<int>, j: int, carry: int, q: int)
    requires 0 <= j < |zs| == |xs| == |ys|
    requires v == Number(xs[..j]) * Number(ys) + q * Modulus(|zs|)
    requires Multiplying(zs, v, xs[j], ys, |zs| - j, j, carry)
    ensures Multiplied(zs, xs, ys, j + 1, q - carry - xs[j] * Number(ys[|zs| - j..]))
  {
    hide Number, Modulus;
    var w := |zs|;
    NumberStep(xs, j);
    NumberSplit(ys, w - j);
    ModulusAdd(w - j, j);
    RowArithmetic(Number(zs), v, carry, xs[j], Number(ys[..w - j]), Number(ys[w - j..]), Number(ys), Modulus(j),
      Modulus(w - j), Modulus(w), Number(xs[..j]), q);
  }

  lemma RowArithmetic(z: int, v: int, carry: int, f: int, lo: int, hi: int, y: int, pj: int, pk: int, m: int, x: int,
      q: int)
    requires z + carry * m == v + f * (lo * pj) && y == lo + pk * hi && m == pk * pj && v == x * y + q * m
    ensures z == (x + f * pj) * y + (q - carry - f * hi) * m
  {
    Distribute(pj, lo, pk * hi);
    Regroup(pj, pk, hi);
    assert y * pj == lo * pj + m * hi;
    Distribute(f, lo * pj, m * hi);
    Regroup(f, hi, m);
    Distribute(y, x, f * pj);
    Regroup(f, pj, y);
    Distribute(m, q, -carry);
    Distribute(m, q - carry, -(f * hi));
  }

  lemma NumberSplit(s: seq<int>, k: int)
    requires 0 <= k <= |s|
    ensures Number(s) == Number(s[..k]) + Modulus(k) * Number(s[k..])
  {
    ValueSplit(B, s, k);
  }

  lemma ModulusAdd(i: nat, j: nat)
    ensures Modulus(i + j) == Modulus(i) * Modulus(j)
  {
    PowAdd(B, i, j);
  }

  lemma MultiplyEnd(zs: seq<uint32>, xs: seq<int>, ys: seq<int>, q: int)
    requires Multiplied(zs, xs, ys, |zs|, q)
    ensures Number(zs) == (Number(xs) * Number(ys)) % Modulus(|zs|)
  {
    assert xs[..|zs|] == xs;
    Residue(zs, Number(xs) * Number(ys), q);
  }

  // ---- shifts ----

  /** The first `i` limbs have been shifted left by `k` limbs and `s` bits, but for `q` times the modulus. */
  ghost predicate ShiftingLeft(zs: seq<uint32>, xs: seq<uint32>, i: int, k: nat, s: nat, q: int) {
    && 0 <= i <= |zs| == |xs| && s < 32
    && Number(zs) == Number(xs[..i]) * (Pow2(s) * Modulus(k)) - q * Modulus(|zs|)
    && (i + k < |zs| ==> q == 0 && zs[i + k] < Pow2(s))
    && (forall m :: i + k < m < |zs| ==> zs[m] == 0)
  }

  /** What one turn of the loop makes of the limbs. */
  function LeftTurn(zs: seq<uint32>, x: uint32, i: nat, k: nat, s: nat): seq<uint32>
    requires s < 32
  {
    var z1 := if i + k + 1 < |zs| && s != 0 then zs[i + k + 1 := Or(zs[i + k + 1], Right(x, 32 - s))] else zs;
    if i + k < |zs| then z1[i + k := Or(z1[i + k], Left(x, s))] else z1
  }

  lemma LeftStart(zs: seq<uint32>, xs: seq<uint32>, k: nat, s: nat)
    requires |zs| == |xs| && s < 32 && forall m :: 0 <= m < |zs| ==> zs[m] == 0
    ensures ShiftingLeft(zs, xs, 0, k, s, 0)
  {
    ValueZero(B, zs);
    assert Number(xs[..0]) == 0;
  }

  lemma LeftStep(zs: seq<uint32>, xs: seq<uint32>, i: int, k: nat, s: nat, q: int) returns (r: int)
    requires ShiftingLeft(zs, xs, i, k, s, q) && i < |zs|
    ensures ShiftingLeft(LeftTurn(zs, xs[i], i, k, s), xs, i + 1, k, s, r)
  {
    hide Number, Modulus, Left, Right, Or, Pow2;
    var (w, x) := (|zs|, xs[i]);
    var (lo, hi) := (Left(x, s), Right(x, 32 - s));
    Shifted(x, s);
    NumberStep(xs, i);
    ModulusAdd(i, k);
    ScaledStep(Number(xs[..i]), x, Modulus(i), Pow2(s), Modulus(k), Modulus(i + k));
    if i + k + 1 < w {
      OrWithZero(zs[i + k + 1], hi);
      var z1 := zs[i + k + 1 := hi];
      assert s == 0 ==> z1 == zs;
      NumberUpdate(zs, i + k + 1, hi);
      OrAdds(zs[i + k], lo, s);
      NumberUpdate(z1, i + k, zs[i + k] + lo);
      ModulusAdd(i + k, 1);
      ModulusOne();
      r := q;
      JoinHalves(x * Pow2(s), lo, hi, Modulus(i + k));
    } else if i + k < w {
      OrAdds(zs[i + k], lo, s);
      NumberUpdate(zs, i + k, zs[i + k] + lo);
      ModulusAdd(i + k, 1);
      ModulusOne();
      JoinHalves(x * Pow2(s), lo, hi, Modulus(i + k));
      r := hi;
    } else {
      ModulusAdd(w, i + k - w);
      r := q + x * Pow2(s) * Modulus(i + k - w);
      Shuffle(x * Pow2(s), Modulus(w), Modulus(i + k - w));
      Distribute(Modulus(w), q, x * Pow2(s) * Modulus(i + k - w));
    }
  }

  lemma ModulusOne()
    ensures Modulus(1) == B && Modulus(0) == 1
  {
    assert Pow(B, 0) == 1;
  }

  lemma ScaledStep(v: int, x: int, pi: int, h: int, pk: int, p: int)
    requires p == pi * pk
    ensures (v + x * pi) * (h * pk) == v * (h * pk) + x * h * p
  {
    Distribute(h * pk, v, x * pi);
    assert (x * pi) * (h * pk) == x * h * (pi * pk) by {
      Regroup(x, pi, h * pk);
      Shuffle(pi, h, pk);
      Regroup(x, h, p);
    }
  }

  lemma JoinHalves(y: int, lo: int, hi: int, p: int)
    requires y == lo + hi * B
    ensures lo * p + hi * (p * B) == y * p && lo * p + hi * (B * p) == y * p
  {
    Distribute(p, lo, hi * B);
    Regroup(hi, B, p);
  }

  lemma Shifted(x: uint32, s: nat)
    requires s <= 32
    ensures x * Pow2(s) == Left(x, s) + Right(x, 32 - s) * B
    ensures Right(x, 32 - s) < Pow2(s) && Left(x, s) % Pow2(s) == 0
    ensures s == 0 ==> Right(x, 32 - s) == 0 && Left(x, s) == x
    ensures s == 32 ==> Left(x, s) == 0
    ensures Pow2(s) * Pow2(32 - s) == B
  {
    ShiftedHalves(x, s);
    Pow2At32();
    assert Pow2(0) == 1;
    if s == 32 { DivModUnique(x * B, B, x, 0); }
  }

  lemma OrWithZero(z: uint32, x: uint32)
    ensures z == 0 ==> Or(z, x) == x
    ensures x == 0 ==> Or(z, x) == z
  {
    OrZero(x);
    OrZero(z);
  }

  lemma OrAdds(z: uint32, x: uint32, s: nat)
    requires z < Pow2(s) && x % Pow2(s) == 0
    ensures Or(z, x) == z + x
  {
    OrDisjoint(z, x, s);
  }

  lemma LeftEnd(zs: seq<uint32>, xs: seq<uint32>, k: nat, s: nat, q: int)
    requires ShiftingLeft(zs, xs, |zs|, k, s, q)
    ensures Number(zs) == (Number(xs) * Pow2(32 * k + s)) % Modulus(|zs|)
  {
    assert xs[..|zs|] == xs;
    ShiftScale(k, s);
    Residue(zs, Number(xs) * (Pow2(s) * Modulus(k)), -q);
  }

  lemma ShiftScale(k: nat, s: nat)
    ensures Pow2(s) * Modulus(k) == Pow2(32 * k + s)
  {
    LimbPow(k);
    PowAdd(2, 32 * k, s);
  }

  /** The first `i` limbs have been shifted right by `k` limbs and `s` bits, with what fell off. */
  ghost predicate ShiftingRight(zs: seq<uint32>, xs: seq<uint32>, i: int, k: nat, s: nat, r: int) {
    && 0 <= i <= |zs| == |xs| && s < 32
    && Number(zs) * (Pow2(s) * Modulus(k)) + r == Number(xs[..i])
    && 0 <= r < Pow2(s) * Modulus(k)
    && (i <= k ==> Number(zs) == 0)
    && (i > k ==> zs[i - k - 1] < Pow2(32 - s))
    && (forall m :: 0 <= m < |zs| && m >= i - k ==> zs[m] == 0)
  }

  function RightTurn(zs: seq<uint32>, x: uint32, i: nat, k: nat, s: nat): seq<uint32>
    requires s < 32 && i < |zs|
  {
    var z1 := if i - k - 1 >= 0 && s != 0 then zs[i - k - 1 := Or(zs[i - k - 1], Left(x, 32 - s))] else zs;
    if i - k >= 0 then z1[i - k := Or(z1[i - k], Right(x, s))] else z1
  }

  lemma RightStart(zs: seq<uint32>, xs: seq<uint32>, k: nat, s: nat)
    requires |zs| == |xs| && s < 32 && forall m :: 0 <= m < |zs| ==> zs[m] == 0
    ensures ShiftingRight(zs, xs, 0, k, s, 0)
  {
    ValueZero(B, zs);
    MulPositive(Pow2(s), Modulus(k));
    assert Number(xs[..0]) == 0;
  }

  lemma RightStep(zs: seq<uint32>, xs: seq<uint32>, i: int, k: nat, s: nat, r: int) returns (t: int)
    requires ShiftingRight(zs, xs, i, k, s, r) && i < |zs|
    ensures ShiftingRight(RightTurn(zs, xs[i], i, k, s), xs, i + 1, k, s, t)
  {
    if i < k {
      t := Number(xs[..i + 1]);
      RightSkips(zs, xs, i, k, s, r);
    } else if i == k {
      t := r + (xs[i] % Pow2(s)) * Modulus(k);
      RightBegins(zs, xs, k, s, r);
    } else {
      t := r;
      RightMoves(zs, xs, i, k, s, r);
    }
  }

  lemma RightSkips(zs: seq<uint32>, xs: seq<uint32>, i: int, k: nat, s: nat, r: int)
    requires ShiftingRight(zs, xs, i, k, s, r) && i < |zs| && i < k
    ensures ShiftingRight(RightTurn(zs, xs[i], i, k, s), xs, i + 1, k, s, Number(xs[..i + 1]))
  {
    hide Number, Modulus, Pow2;
    NumberFits(xs[..i + 1]);
    ModulusGrows(i + 1, k);
    MulAtLeast(Modulus(k), Pow2(s));
  }

  lemma ModulusGrows(i: nat, k: nat)
    requires i <= k
    ensures 0 < Modulus(i) <= Modulus(k)
  {
    PowMonotone(B, i, k);
  }

  lemma RightBegins(zs: seq<uint32>, xs: seq<uint32>, k: nat, s: nat, r: int)
    requires ShiftingRight(zs, xs, k, k, s, r) && k < |zs|
    ensures ShiftingRight(RightTurn(zs, xs[k], k, k, s), xs, k + 1, k, s, r + (xs[k] % Pow2(s)) * Modulus(k))
  {
    hide Number, Modulus, Pow2, Left, Or;
    var (x, h) := (xs[k], Pow2(s));
    var d := Right(x, s);
    OrWithZero(zs[0], d);
    NumberUpdate(zs, 0, d);
    ModulusOne();
    NumberStep(xs, k);
    NumberFits(xs[..k]);
    ShiftedHalves(x, 32 - s);
    assert x == d * h + x % h;
    FallOff(r, x, d, h, Modulus(k));
  }

  lemma FallOff(r: int, x: int, d: int, h: int, p: int)
    requires 0 <= r < p && h > 0 && x == d * h + x % h
    ensures d * (h * p) + (r + (x % h) * p) == r + x * p
    ensures 0 <= r + (x % h) * p < h * p
  {
    Regroup(d, h, p);
    Distribute(p, d * h, x % h);
    MulMonotone(x % h + 1, h, p);
    Distribute(p, x % h, 1);
    MulMonotone(0, x % h, p);
  }

  lemma RightMoves(zs: seq<uint32>, xs: seq<uint32>, i: int, k: nat, s: nat, r: int)
    requires ShiftingRight(zs, xs, i, k, s, r) && k < i < |zs|
    ensures ShiftingRight(RightTurn(zs, xs[i], i, k, s), xs, i + 1, k, s, r)
  {
    hide Number, Modulus, Left, Right, Or, Pow2;
    var (x, j) := (xs[i], i - k - 1);
    var (lo, hi) := (Left(x, 32 - s), Right(x, s));
    Shifted(x, 32 - s);
    OrAdds(zs[j], lo, 32 - s);
    OrWithZero(zs[j], lo);
    OrWithZero(zs[j + 1], hi);
    var z1 := zs[j := zs[j] + lo];
    assert s == 0 ==> z1 == zs;
    NumberUpdate(zs, j, zs[j] + lo);
    NumberUpdate(z1, j + 1, hi);
    ModulusAdd(j, 1);
    ModulusOne();
    JoinHalves(x * Pow2(32 - s), lo, hi, Modulus(j));
    NumberStep(xs, i);
    ModulusAdd(j + 1, k);
    MovesArithmetic(Number(zs), x, Pow2(32 - s), Pow2(s), Modulus(j), Modulus(j + 1), Modulus(k), Modulus(i));
  }

  lemma MovesArithmetic(z: int, x: int, l: int, h: int, pj: int, pj1: int, pk: int, p: int)
    requires l * h == B && pj1 == pj * B && p == pj1 * pk
    ensures (z + x * l * pj) * (h * pk) == z * (h * pk) + x * p
  {
    Distribute(h * pk, z, x * l * pj);
    assert (x * l * pj) * (h * pk) == x * p by {
      Regroup(x, l, pj);
      Regroup(x, l * pj, h * pk);
      assert (l * pj) * (h * pk) == (l * h) * (pj * pk) by {
        Regroup(l, pj, h * pk);
        Shuffle(pj, h, pk);
        Regroup(l, h, pj * pk);
      }
      Regroup(B, pj, pk);
    }
  }

  lemma RightEnd(zs: seq<uint32>, xs: seq<uint32>, k: nat, s: nat, r: int)
    requires ShiftingRight(zs, xs, |zs|, k, s, r)
    ensures Number(zs) == Number(xs) / Pow2(32 * k + s)
  {
    assert xs[..|zs|] == xs;
    ShiftScale(k, s);
    DivModUnique(Number(xs), Pow2(s) * Modulus(k), Number(zs), r);
  }

  // ---- bits and division ----

  /** The position of the highest bit set plus one, or zero. */
  ghost predicate IsBits(x: int, n: int) {
    if x == 0 then n == 0 else n > 0 && Pow2(n - 1) <= x < Pow2(n)
  }

  /** The highest non-zero limb decides. */
  lemma BitsOf(zs: seq<uint32>, pos: int, n: int)
    requires 0 <= pos < |zs| && n > 0 && (forall i :: pos < i < |zs| ==> zs[i] == 0)
    requires Pow2(n - 1) <= zs[pos] < Pow2(n)
    ensures IsBits(Number(zs), 32 * pos + n)
  {
    hide Number, Modulus, Pow2;
    var (lo, p) := (Number(zs[..pos]), Modulus(pos));
    NumberSplit(zs, pos + 1);
    NumberZero(zs[pos + 1..]);
    assert Modulus(pos + 1) * 0 == 0;
    NumberStep(zs, pos);
    NumberFits(zs[..pos]);
    var z: int := zs[pos];
    MulMonotone(Pow2(n - 1), z, p);
    MulMonotone(z + 1, Pow2(n), p);
    Distribute(p, z, 1);
    ShiftScale(pos, n - 1);
    ShiftScale(pos, n);
  }

  lemma NumberZero(s: seq<int>)
    requires forall i :: 0 <= i < |s| ==> s[i] == 0
    ensures Number(s) == 0
  {
    ValueZero(B, s);
  }

  /** A bit test finds the highest bit, going down. */
  lemma TopBit(x: uint32, n: nat)
    requires x < Pow2(n + 1)
    ensures x / Pow2(n) % 2 == 1 <==> Pow2(n) <= x
  {
    var p := Pow2(n);
    if x < p { DivModUnique(x, p, 0, x); } else { DivModUnique(x, p, 1, x - p); }
  }

  /** Where a division stands before it tries the bit `shift`. */
  ghost predicate Dividing(num: int, d: int, q: int, r: int, shift: int) {
    && shift >= -1 && q * d + r == num && q % Pow2(shift + 1) == 0
    && 0 <= r < d * Pow2(shift + 1)
  }

  lemma DivideStart(num: int, d: int, n: int, m: int)
    requires num >= 0 && d > 0 && IsBits(num, n) && IsBits(d, m) && m <= n
    ensures Dividing(num, d, 0, num, n - m) && 0 <= d * Pow2(n - m) < Pow2(n)
  {
    hide Pow2;
    Pow2Add(m - 1, n - m + 1);
    MulMonotone(Pow2(m - 1), d, Pow2(n - m + 1));
    Pow2Add(m, n - m);
    MulMonotone(d + 1, Pow2(m), Pow2(n - m));
    Distribute(Pow2(n - m), d, 1);
    MulPositive(d, Pow2(n - m));
    DivModUnique(0, Pow2(n - m + 1), 0, 0);
  }

  lemma DivideStep(num: int, d: int, q: int, r: int, shift: nat)
    requires d > 0 && Dividing(num, d, q, r, shift)
    ensures r >= d * Pow2(shift) ==> Dividing(num, d, q + Pow2(shift), r - d * Pow2(shift), shift - 1)
    ensures r < d * Pow2(shift) ==> Dividing(num, d, q, r, shift - 1)
  {
    var p := Pow2(shift);
    Shuffle(d, 2, p);
    Distribute(d, q, p);
    var k := q / (2 * p);
    assert q == k * (2 * p);
    Shuffle(k, 2, p);
    Distribute(p, 2 * k, 1);
    DivModUnique(q, p, 2 * k, 0);
    DivModUnique(q + p, p, 2 * k + 1, 0);
  }

  lemma DivideEnd(num: int, d: int, q: int, r: int)
    requires d > 0 && Dividing(num, d, q, r, -1)
    ensures q == num / d && r == num % d
  {
    assert Pow2(0) == 1;
    DivModUnique(num, d, q, r);
  }

  /** Halving the shifted divisor takes back one bit of the shift. */
  lemma DivisorStep(d: int, shift: nat)
    requires d > 0 && shift > 0
    ensures d * Pow2(shift) / Pow2(1) == d * Pow2(shift - 1)
  {
    Shuffle(d, 2, Pow2(shift - 1));
    assert Pow2(1) == 2 * Pow2(0) && Pow2(0) == 1;
  }

  /** Setting a bit of a quotient that has no bits so low yet. */
  lemma SetBitAdds(zs: seq<uint32>, t: nat)
    requires t < 32 * |zs| && Number(zs) % Pow2(t + 1) == 0
    ensures Pow2(t % 32) < B
    ensures Number(zs[t / 32 := Or(zs[t / 32], Pow2(t % 32))]) == Number(zs) + Pow2(t)
  {
    hide Number, Modulus, Or;
    var (j, s) := (t / 32, t % 32);
    LimbIsMultiple(zs, j, s);
    BitFits(s);
    assert Or(zs[j], Pow2(s)) == zs[j] + Pow2(s) by {
      OrBit(zs[j], s);
    }
    NumberUpdate(zs, j, zs[j] + Pow2(s));
    ShiftScale(j, s);
  }

  lemma BitFits(s: nat)
    requires s < 32
    ensures Pow2(s) < B
  {
    Pow2At32();
    PowMonotone(2, s, 31);
    assert Pow2(32) == 2 * Pow2(31);
  }

  lemma OrBit(x: uint32, s: nat)
    requires s < 32 && x % Pow2(s + 1) == 0 && Pow2(s) < B
    ensures Or(x, Pow2(s)) == x + Pow2(s)
  {
    assert Pow2(s + 1) == 2 * Pow2(s);
    OrDisjoint(Pow2(s), x, s + 1);
  }

  /** A multiple of a power of two has a limb that is one, in its place. */
  lemma LimbIsMultiple(zs: seq<uint32>, j: int, s: nat)
    requires 0 <= j < |zs| && s < 32 && Number(zs) % Pow2(32 * j + s + 1) == 0
    ensures zs[j] % Pow2(s + 1) == 0
  {
    hide Number, Modulus, Pow2;
    var (m, p, q) := (Number(zs), Modulus(j), Pow2(s + 1));
    ShiftScale(j, s + 1);
    NumberSplit(zs, j + 1);
    NumberStep(zs, j);
    NumberFits(zs[..j]);
    ModulusAdd(j, 1);
    ModulusOne();
    Pow2Add(s + 1, 32 - (s + 1));
    Pow2At32();
    var (lo, hi) := (Number(zs[..j]), Number(zs[j + 1..]));
    var k := m / (q * p);
    assert m == k * (q * p);
    MultipleArithmetic(lo, zs[j], hi, p, q, Pow2(32 - (s + 1)), k);
  }

  lemma MultipleArithmetic(lo: int, x: int, hi: int, p: int, q: int, c: int, k: int)
    requires 0 <= lo < p && 0 < q && q * c == B
    requires lo + x * p + (p * B) * hi == k * (q * p)
    ensures x % q == 0
  {
    var y := x + B * hi;
    Regroup(p, B, hi);
    Distribute(p, x, B * hi);
    assert lo + y * p == k * (q * p);
    Regroup(k, q, p);
    DivModUnique(k * q * p, p, y, lo);
    DivModUnique(k * q * p, p, k * q, 0);
    Regroup(q, c, hi);
    Distribute(q, k, -(c * hi));
    assert x == q * (k - c * hi);
    DivModUnique(x, q, k - c * hi, 0);
  }
}
