/**
 The cuckoo cache as a value: a table of slots with a collection flag and an epoch
 flag each, eight locations per element, lazy erasure and two generations.
 */
module Cuckoo {
  import opened Basics
  import opened Sums

  const TWO_32 := 0x1_0000_0000

  type uint32 = x: int | 0 <= x < TWO_32

  /** The eight hash functions: an index and an element to 32 bits. */
  type Hash<!E> = (int, E) -> uint32

  datatype Slot<E> = Slot(element: E, collected: bool, recent: bool)

  datatype Cache<E> = Cache(slots: seq<Slot<E>>, counter: int, epochSize: uint32)

  // ---- locations ----

  /** A 32-bit hash mapped onto [0, n) by multiplication. */
  function FastRange32(x: uint32, n: uint32): int { x * n / TWO_32 }

  lemma FastRangeFits(x: uint32, n: uint32)
    requires n > 0
    ensures 0 <= FastRange32(x, n) < n
  {
    assert 0 <= x * n < TWO_32 * n;
  }

  function Location<E>(hash: Hash<E>, size: uint32, e: E, k: int): int {
    FastRange32(hash(k, e), size)
  }

  function Locations<E>(hash: Hash<E>, size: uint32, e: E): seq<int> {
    [Location(hash, size, e, 0), Location(hash, size, e, 1), Location(hash, size, e, 2), Location(hash, size, e, 3),
     Location(hash, size, e, 4), Location(hash, size, e, 5), Location(hash, size, e, 6), Location(hash, size, e, 7)]
  }

  ghost predicate Fit(locs: seq<int>, size: int) {
    |locs| == 8 && forall k :: 0 <= k < 8 ==> 0 <= locs[k] < size
  }

  lemma LocationsFit<E>(hash: Hash<E>, size: uint32, e: E)
    requires size > 0
    ensures Fit(Locations(hash, size, e), size)
  {
    forall k: int ensures 0 <= Location(hash, size, e, k) < size { FastRangeFits(hash(k, e), size); }
  }

  /** The first of the locations at which a condition holds, or their number. */
  function First(locs: seq<int>, p: int -> bool): (k: int)
    ensures 0 <= k <= |locs|
    ensures k < |locs| ==> p(locs[k])
    ensures forall j :: 0 <= j < k ==> !p(locs[j])
  {
    FirstFrom(locs, p, 0)
  }

  function FirstFrom(locs: seq<int>, p: int -> bool, i: int): (k: int)
    requires 0 <= i <= |locs|
    ensures i <= k <= |locs|
    ensures k < |locs| ==> p(locs[k])
    ensures forall j :: i <= j < k ==> !p(locs[j])
    decreases |locs| - i
  {
    if i == |locs| || p(locs[i]) then i else FirstFrom(locs, p, i + 1)
  }

  function Holds<E(==)>(slots: seq<Slot<E>>, e: E): int -> bool {
    (i: int) => 0 <= i < |slots| && slots[i].element == e
  }

  function Open<E>(slots: seq<Slot<E>>): int -> bool {
    (i: int) => 0 <= i < |slots| && slots[i].collected
  }

  function Is(loc: int): int -> bool {
    (i: int) => i == loc
  }

  // ---- operations ----

  function RecentLive<E>(x: Slot<E>): int { if !x.collected && x.recent then 1 else 0 }

  function OldLive<E>(x: Slot<E>): int { if !x.collected && !x.recent then 1 else 0 }

  function Copies<E(==)>(e: E): Slot<E> -> int {
    (x: Slot<E>) => if !x.collected && x.element == e then 1 else 0
  }

  function Aged<E>(x: Slot<E>): Slot<E> {
    if x.recent then x.(recent := false) else x.(collected := true)
  }

  function AgeAll<E>(slots: seq<Slot<E>>): seq<Slot<E>> {
    if slots == [] then [] else AgeAll(slots[..|slots| - 1]) + [Aged(slots[|slots| - 1])]
  }

  function Recent<E>(c: Cache<E>): int { Sum(RecentLive, c.slots) }

  function Old<E>(c: Cache<E>): int { Sum(OldLive, c.slots) }

  function EpochCheck<E>(c: Cache<E>): Cache<E> {
    if c.counter != 0 then c.(counter := c.counter - 1)
    else if Recent(c) >= c.epochSize then Cache(AgeAll(c.slots), c.epochSize, c.epochSize)
    else c.(counter := NextScan(c.epochSize, Recent(c)))
  }

  /** Inserts until the next scan when it would be needed at the earliest. */
  function NextScan(epochSize: uint32, recent: int): int {
    Max(1, Max(epochSize / 16, epochSize - recent))
  }

  const INVALID := TWO_32 - 1

  /**
   Finds a slot for `e`, displacing elements `depth` times at most: the new slots and
   the element left without one.
   */
  function Settle<E(==)>(hash: Hash<E>, slots: seq<Slot<E>>, e: E, recent: bool, last: int, depth: nat)
    : (seq<Slot<E>>, Option<E>)
    requires 0 < |slots| < TWO_32
    decreases depth
  {
    if depth == 0 then (slots, Some(e))
    else
      LocationsFit(hash, |slots|, e);
      var locs := Locations(hash, |slots|, e);
      var k := First(locs, Open(slots));
      if k < 8 then (slots[locs[k] := Slot(e, false, recent)], None)
      else
        var loc := locs[(1 + First(locs, Is(last))) % 8];
        var x := slots[loc];
        Settle(hash, slots[loc := Slot(e, x.collected, recent)], x.element, x.recent, loc, depth - 1)
  }

  /** No location is the invalid one, so the search for it fails. */
  lemma FirstDisplacement<E>(hash: Hash<E>, size: uint32, e: E)
    requires size > 0
    ensures First(Locations(hash, size, e), Is(INVALID)) == 8
  {
    hide Locations, First;
    LocationsFit(hash, size, e);
    var locs := Locations(hash, size, e);
    assert forall k :: 0 <= k < 8 ==> !Is(INVALID)(locs[k]);
    NoneFirst(locs, Is(INVALID));
  }

  /** The slots after a displacement at a location, and the chain that goes on from there. */
  ghost predicate GoesOnFrom<E>(
      hash: Hash<E>, slots: seq<Slot<E>>, e: E, recent: bool, depth: nat, loc: int, r: (seq<Slot<E>>, Option<E>))
    requires 0 < |slots| < TWO_32 && depth > 0
  {
    && 0 <= loc < |slots|
    && r == Settle(hash, slots[loc := Slot(e, slots[loc].collected, recent)], slots[loc].element, slots[loc].recent,
                   loc, depth - 1)
  }

  /**
   With no open location, an insert displaces the element at the second location of
   its own: it is the first one exactly if the two are the same.
   */
  lemma DisplacesSecond<E>(hash: Hash<E>, slots: seq<Slot<E>>, e: E, depth: nat)
    requires 0 < |slots| < TWO_32 && depth > 0
    requires First(Locations(hash, |slots|, e), Open(slots)) == 8
    ensures var locs := Locations(hash, |slots|, e);
            && GoesOnFrom(hash, slots, e, true, depth, locs[1], Settle(hash, slots, e, true, INVALID, depth))
            && (locs[(1 + First(locs, Is(INVALID))) % 8] == locs[0] <==> locs[0] == locs[1])
  {
    hide Locations;
    LocationsFit(hash, |slots|, e);
    FirstDisplacement(hash, |slots|, e);
  }

  /** Eight hashes of which the second is far from the first. */
  function Spread(k: int, e: int): uint32 { if k == 1 then TWO_32 / 2 else 0 }

  /** In a full table of two slots such an insert displaces the second slot, not the first. */
  lemma NotTheFirst(x: Slot<int>, y: Slot<int>, e: int)
    requires !x.collected && !y.collected
    ensures Locations(Spread, 2, e)[0] == 0 && Locations(Spread, 2, e)[1] == 1
    ensures Settle(Spread, [x, y], e, true, INVALID, 1) == ([x, Slot(e, false, true)], Some(y.element))
  {
    hide First;
    var locs := Locations(Spread, 2, e);
    LocationsFit(Spread, 2, e);
    assert forall k :: 0 <= k < 8 ==> !Open([x, y])(locs[k]);
    NoneFirst(locs, Open([x, y]));
    DisplacesSecond(Spread, [x, y], e, 1);
    assert [x, y][1 := Slot(e, false, true)] == [x, Slot(e, false, true)];
  }

  lemma NoneFirst(locs: seq<int>, p: int -> bool)
    requires forall k :: 0 <= k < |locs| ==> !p(locs[k])
    ensures First(locs, p) == |locs|
  {
    hide FirstFrom;
  }

  /** Insert after the epoch check. */
  function Place<E(==)>(hash: Hash<E>, slots: seq<Slot<E>>, e: E, depth: nat): (seq<Slot<E>>, Option<E>)
    requires 0 < |slots| < TWO_32
  {
    LocationsFit(hash, |slots|, e);
    var locs := Locations(hash, |slots|, e);
    var k := First(locs, Holds(slots, e));
    if k < 8 then (slots[locs[k] := Slot(e, false, true)], None)
    else Settle(hash, slots, e, true, INVALID, depth)
  }

  function Insert<E(==)>(hash: Hash<E>, c: Cache<E>, e: E, depth: nat): Cache<E>
    requires 0 < |EpochCheck(c).slots| < TWO_32
  {
    var u := EpochCheck(c);
    u.(slots := Place(hash, u.slots, e, depth).0)
  }

  predicate Contains<E(==)>(hash: Hash<E>, c: Cache<E>, e: E)
    requires 0 < |c.slots| < TWO_32
  {
    First(Locations(hash, |c.slots|, e), Holds(c.slots, e)) < 8
  }

  /** Looking an element up and allowing it to be erased. */
  function Discard<E(==)>(hash: Hash<E>, c: Cache<E>, e: E): Cache<E>
    requires 0 < |c.slots| < TWO_32
  {
    LocationsFit(hash, |c.slots|, e);
    var locs := Locations(hash, |c.slots|, e);
    var k := First(locs, Holds(c.slots, e));
    if k == 8 then c else c.(slots := c.slots[locs[k] := c.slots[locs[k]].(collected := true)])
  }

  function EpochSize(size: uint32): uint32 {
    Max(1, (45 * size) % TWO_32 / 100)
  }

  function Blank<E>(blank: E, n: nat): seq<Slot<E>> {
    if n == 0 then [] else Blank(blank, n - 1) + [Slot(blank, true, false)]
  }

  function Setup<E>(blank: E, newSize: uint32): Cache<E> {
    var size := Max(2, newSize);
    Cache(Blank(blank, size), EpochSize(size), EpochSize(size))
  }

  // ---- how full the table is ----

  function Bound(epochSize: int): int { epochSize + Max(1, epochSize / 16) }

  /** Neither generation outgrows the bound, and the counter runs out in time. */
  ghost predicate Balanced<E>(c: Cache<E>) {
    && 0 <= c.counter <= c.epochSize && 1 <= c.epochSize
    && Recent(c) + c.counter <= Bound(c.epochSize)
    && Old(c) <= Bound(c.epochSize)
  }

  lemma {:induction false} AgedSums<E>(slots: seq<Slot<E>>)
    ensures |AgeAll(slots)| == |slots|
    ensures forall i :: 0 <= i < |slots| ==> AgeAll(slots)[i] == Aged(slots[i])
    ensures Sum(RecentLive, AgeAll(slots)) == 0
    ensures Sum(OldLive, AgeAll(slots)) == Sum(RecentLive, slots)
  {
    if slots != [] {
      var n := |slots| - 1;
      AgedSums(slots[..n]);
      assert AgeAll(slots)[..n] == AgeAll(slots[..n]);
    }
  }

  /** The epoch check leaves room for one more recent element. */
  lemma EpochCheckBalances<E(!new)>(c: Cache<E>)
    requires Balanced(c)
    ensures var u := EpochCheck(c);
            && Balanced(u) && Recent(u) + u.counter < Bound(u.epochSize)
            && |u.slots| == |c.slots| && u.epochSize == c.epochSize
  {
    SumAtLeast(RecentLive<E>, c.slots, 0);
    AgedSums(c.slots);
  }

  /** A displacement chain moves epoch marks around but makes none. */
  lemma {:induction false} SettleBalances<E>(hash: Hash<E>, slots: seq<Slot<E>>, e: E, recent: bool, last: int,
      depth: nat)
    requires 0 < |slots| < TWO_32
    ensures var t := Settle(hash, slots, e, recent, last, depth).0;
            && |t| == |slots|
            && Sum(RecentLive, t) <= Sum(RecentLive, slots) + (if recent then 1 else 0)
            && Sum(OldLive, t) <= Sum(OldLive, slots) + (if recent then 0 else 1)
    decreases depth
  {
    hide Locations, Sum, FirstFrom;
    if depth > 0 {
      LocationsFit(hash, |slots|, e);
      var locs := Locations(hash, |slots|, e);
      var k := First(locs, Open(slots));
      if k < 8 {
        SumUpdate(RecentLive, slots, locs[k], Slot(e, false, recent));
        SumUpdate(OldLive, slots, locs[k], Slot(e, false, recent));
      } else {
        var m := (1 + First(locs, Is(last))) % 8;
        var loc := locs[m];
        assert !Open(slots)(locs[m]);
        var x := slots[loc];
        var s := Slot(e, x.collected, recent);
        SumUpdate(RecentLive, slots, loc, s);
        SumUpdate(OldLive, slots, loc, s);
        SettleBalances(hash, slots[loc := s], x.element, x.recent, loc, depth - 1);
      }
    }
  }

  lemma PlaceBalances<E>(hash: Hash<E>, slots: seq<Slot<E>>, e: E, depth: nat)
    requires 0 < |slots| < TWO_32
    ensures var t := Place(hash, slots, e, depth).0;
            |t| == |slots| && Sum(RecentLive, t) <= Sum(RecentLive, slots) + 1 && Sum(OldLive, t) <= Sum(OldLive, slots)
  {
    hide Locations;
    LocationsFit(hash, |slots|, e);
    var locs := Locations(hash, |slots|, e);
    var k := First(locs, Holds(slots, e));
    if k < 8 {
      SumUpdate(RecentLive, slots, locs[k], Slot(e, false, true));
      SumUpdate(OldLive, slots, locs[k], Slot(e, false, true));
    } else {
      SettleBalances(hash, slots, e, true, INVALID, depth);
    }
  }

  lemma InsertBalances<E(!new)>(hash: Hash<E>, c: Cache<E>, e: E, depth: nat)
    requires Balanced(c) && 0 < |c.slots| < TWO_32
    ensures |EpochCheck(c).slots| == |c.slots|
    ensures Balanced(Insert(hash, c, e, depth)) && |Insert(hash, c, e, depth).slots| == |c.slots|
  {
    hide EpochCheck, Place;
    EpochCheckBalances(c);
    PlaceBalances(hash, EpochCheck(c).slots, e, depth);
  }

  lemma DiscardBalances<E(!new)>(hash: Hash<E>, c: Cache<E>, e: E)
    requires Balanced(c) && 0 < |c.slots| < TWO_32
    ensures Balanced(Discard(hash, c, e)) && |Discard(hash, c, e).slots| == |c.slots|
  {
    hide Locations;
    LocationsFit(hash, |c.slots|, e);
    var locs := Locations(hash, |c.slots|, e);
    var k := First(locs, Holds(c.slots, e));
    if k < 8 {
      var x := c.slots[locs[k]].(collected := true);
      SumUpdate(RecentLive, c.slots, locs[k], x);
      SumUpdate(OldLive, c.slots, locs[k], x);
    }
  }
}
