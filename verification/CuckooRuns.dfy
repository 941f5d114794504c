/**
 What the cuckoo cache keeps: every element at one of its own locations and in one
 slot only, nothing but one element lost per insert, and a bounded load.
 */
module CuckooRuns {
  import opened Basics
  import opened Sums
  import opened Cuckoo

  /** A live or non-blank element sits at one of its own eight locations. */
  ghost predicate AtHome<E>(hash: Hash<E>, blank: E, slots: seq<Slot<E>>) {
    0 < |slots| < TWO_32 &&
    forall i :: 0 <= i < |slots| && (!slots[i].collected || slots[i].element != blank) ==>
      i in Locations(hash, |slots|, slots[i].element)
  }

  /** No element but the blank one is in two slots. */
  ghost predicate Distinct<E>(blank: E, slots: seq<Slot<E>>) {
    forall i, j :: 0 <= i < j < |slots| && slots[i].element == slots[j].element ==> slots[i].element == blank
  }

  ghost predicate Absent<E>(blank: E, slots: seq<Slot<E>>, e: E) {
    e != blank ==> forall i :: 0 <= i < |slots| ==> slots[i].element != e
  }

  /** Writing an absent element to one of its locations. */
  lemma WriteKeeps<E>(hash: Hash<E>, blank: E, slots: seq<Slot<E>>, e: E, loc: int, x: Slot<E>)
    requires AtHome(hash, blank, slots) && Distinct(blank, slots) && Absent(blank, slots, e)
    requires 0 <= loc < |slots| && loc in Locations(hash, |slots|, e) && x.element == e
    ensures AtHome(hash, blank, slots[loc := x]) && Distinct(blank, slots[loc := x])
    ensures slots[loc].element != e ==> Absent(blank, slots[loc := x], slots[loc].element)
  {
    hide Locations;
    var t := slots[loc := x];
    forall i, j | 0 <= i < j < |t| && t[i].element == t[j].element
      ensures t[i].element == blank
    {
      if i != loc && j != loc { assert slots[i].element == slots[j].element; }
    }
  }

  lemma {:induction false} SettleKeeps<E>(hash: Hash<E>, blank: E, slots: seq<Slot<E>>, e: E, recent: bool, last: int,
      depth: nat)
    requires AtHome(hash, blank, slots) && Distinct(blank, slots) && Absent(blank, slots, e)
    ensures var t := Settle(hash, slots, e, recent, last, depth).0;
            AtHome(hash, blank, t) && Distinct(blank, t)
    decreases depth
  {
    hide Locations, AtHome, Distinct, Settle;
    HomeSize(hash, blank, slots);
    if depth == 0 {
      SettleNot(hash, slots, e, recent, last);
    } else {
      var loc, settled := SettleFirst(hash, slots, e, recent, last, depth);
      var x := slots[loc];
      if settled {
        WriteKeeps(hash, blank, slots, e, loc, Slot(e, false, recent));
      } else {
        WriteKeeps(hash, blank, slots, e, loc, Slot(e, x.collected, recent));
        SettleKeeps(hash, blank, slots[loc := Slot(e, x.collected, recent)], x.element, x.recent, loc, depth - 1);
      }
    }
  }

  lemma SettleNot<E>(hash: Hash<E>, slots: seq<Slot<E>>, e: E, recent: bool, last: int)
    requires 0 < |slots| < TWO_32
    ensures Settle(hash, slots, e, recent, last, 0) == (slots, Some(e))
  {
  }

  /** The first slot of a chain: an open one, or one whose element goes on. */
  lemma SettleFirst<E>(hash: Hash<E>, slots: seq<Slot<E>>, e: E, recent: bool, last: int, depth: nat)
    returns (loc: int, settled: bool)
    requires 0 < |slots| < TWO_32 && depth > 0
    ensures 0 <= loc < |slots| && loc in Locations(hash, |slots|, e) && settled == slots[loc].collected
    ensures Settle(hash, slots, e, recent, last, depth) ==
            if settled then (slots[loc := Slot(e, false, recent)], None)
            else var x := slots[loc];
              Settle(hash, slots[loc := Slot(e, x.collected, recent)], x.element, x.recent, loc, depth - 1)
  {
    hide Locations, FirstFrom;
    LocationsFit(hash, |slots|, e);
    var locs := Locations(hash, |slots|, e);
    var k := First(locs, Open(slots));
    settled := k < 8;
    loc := if settled then locs[k] else locs[(1 + First(locs, Is(last))) % 8];
    assert !settled ==> !Open(slots)(loc);
  }

  lemma HomeSize<E>(hash: Hash<E>, blank: E, slots: seq<Slot<E>>)
    requires AtHome(hash, blank, slots)
    ensures 0 < |slots| < TWO_32
  {
  }

  /** An element in the table is found at one of its locations, unless it is the blank one. */
  lemma FoundExactly<E>(hash: Hash<E>, blank: E, slots: seq<Slot<E>>, e: E)
    requires AtHome(hash, blank, slots)
    ensures First(Locations(hash, |slots|, e), Holds(slots, e)) == 8 ==> Absent(blank, slots, e)
    ensures forall i :: 0 <= i < |slots| && !slots[i].collected && slots[i].element == e ==>
              First(Locations(hash, |slots|, e), Holds(slots, e)) < 8
  {
    hide Locations;
    LocationsFit(hash, |slots|, e);
    var locs := Locations(hash, |slots|, e);
    if First(locs, Holds(slots, e)) == 8 {
      forall i | 0 <= i < |slots| && (!slots[i].collected || e != blank)
        ensures slots[i].element != e
      {
        assert forall j :: 0 <= j < 8 ==> !Holds(slots, e)(locs[j]);
      }
    }
  }

  lemma PlaceKeeps<E>(hash: Hash<E>, blank: E, slots: seq<Slot<E>>, e: E, depth: nat)
    requires AtHome(hash, blank, slots) && Distinct(blank, slots)
    ensures var t := Place(hash, slots, e, depth).0;
            AtHome(hash, blank, t) && Distinct(blank, t)
  {
    hide Locations, Settle;
    LocationsFit(hash, |slots|, e);
    FoundExactly(hash, blank, slots, e);
    var locs := Locations(hash, |slots|, e);
    var k := First(locs, Holds(slots, e));
    if k < 8 {
      assert slots[locs[k]].element == e;
      var t := slots[locs[k] := Slot(e, false, true)];
      assert forall i :: 0 <= i < |slots| ==> t[i].element == slots[i].element;
    } else {
      SettleKeeps(hash, blank, slots, e, true, INVALID, depth);
    }
  }

  lemma AgeKeeps<E>(hash: Hash<E>, blank: E, slots: seq<Slot<E>>)
    requires AtHome(hash, blank, slots) && Distinct(blank, slots)
    ensures AtHome(hash, blank, AgeAll(slots)) && Distinct(blank, AgeAll(slots))
  {
    hide Locations, AgeAll;
    AgedSums(slots);
    assert forall i :: 0 <= i < |slots| ==> AgeAll(slots)[i].element == slots[i].element;
  }

  // ---- what an insert does to the elements ----

  function Left<E(==)>(o: Option<E>, e: E): int { if o == Some(e) then 1 else 0 }

  function One<E(==)>(e: E, x: E): int { if e == x then 1 else 0 }

  /** A chain of displacements loses at most the element it ends with. */
  lemma {:induction false} SettleConserves<E>(hash: Hash<E>, slots: seq<Slot<E>>, e: E, recent: bool, last: int,
      depth: nat, y: E)
    requires 0 < |slots| < TWO_32
    ensures var (t, left) := Settle(hash, slots, e, recent, last, depth);
            Sum(Copies(y), t) + Left(left, y) == Sum(Copies(y), slots) + One(e, y)
    decreases depth
  {
    hide Locations, Sum, Settle;
    if depth == 0 {
      SettleNot(hash, slots, e, recent, last);
    } else {
      var loc, settled := SettleFirst(hash, slots, e, recent, last, depth);
      var x := slots[loc];
      if settled {
        SumUpdate(Copies(y), slots, loc, Slot(e, false, recent));
      } else {
        var s := Slot(e, x.collected, recent);
        SumUpdate(Copies(y), slots, loc, s);
        SettleConserves(hash, slots[loc := s], x.element, x.recent, loc, depth - 1, y);
      }
    }
  }

  /** The slot at which insert finds the element already in the table. */
  function Present<E(==)>(hash: Hash<E>, slots: seq<Slot<E>>, e: E): Option<Slot<E>>
    requires 0 < |slots| < TWO_32
  {
    LocationsFit(hash, |slots|, e);
    var locs := Locations(hash, |slots|, e);
    var k := First(locs, Holds(slots, e));
    if k < 8 then Some(slots[locs[k]]) else None
  }

  /**
   Of the elements live after the epoch check together with the inserted one, an
   insert loses at most one; it loses none if the element was in the table or one
   of its locations was open.
   */
  lemma PlaceConserves<E>(hash: Hash<E>, slots: seq<Slot<E>>, e: E, depth: nat, y: E)
    requires 0 < |slots| < TWO_32
    ensures var (t, left) := Place(hash, slots, e, depth);
            var found := Present(hash, slots, e);
            && Sum(Copies(y), t) + Left(left, y) ==
               Sum(Copies(y), slots) + (if found.Some? && !found.value.collected then 0 else One(e, y))
            && (found.Some? ==> left.None?)
            && ((exists k :: 0 <= k < 8 && Open(slots)(Locations(hash, |slots|, e)[k])) && depth > 0 ==> left.None?)
  {
    hide Locations;
    LocationsFit(hash, |slots|, e);
    var locs := Locations(hash, |slots|, e);
    var k := First(locs, Holds(slots, e));
    if k < 8 {
      assert slots[locs[k]].element == e;
      SumUpdate(Copies(y), slots, locs[k], Slot(e, false, true));
    } else {
      SettleConserves(hash, slots, e, true, INVALID, depth, y);
    }
  }

  /** After an insert the element is in the cache, unless it is the one lost. */
  lemma InsertThenContains<E(!new)>(hash: Hash<E>, blank: E, c: Cache<E>, e: E, depth: nat)
    requires Sound(hash, blank, c)
    ensures |EpochCheck(c).slots| == |c.slots| && |Insert(hash, c, e, depth).slots| == |c.slots|
    ensures Place(hash, EpochCheck(c).slots, e, depth).1 != Some(e) ==> Contains(hash, Insert(hash, c, e, depth), e)
  {
    hide EpochCheck, Place, Locations;
    EpochCheckKeeps(hash, blank, c);
    var u := EpochCheck(c);
    var (t, left) := Place(hash, u.slots, e, depth);
    PlaceBalances(hash, u.slots, e, depth);
    PlaceKeeps(hash, blank, u.slots, e, depth);
    if left != Some(e) { PlacedIsFound(hash, blank, u.slots, e, depth); }
  }

  lemma PlacedIsFound<E(!new)>(hash: Hash<E>, blank: E, slots: seq<Slot<E>>, e: E, depth: nat)
    requires AtHome(hash, blank, slots) && Place(hash, slots, e, depth).1 != Some(e)
    requires AtHome(hash, blank, Place(hash, slots, e, depth).0)
    ensures First(Locations(hash, |Place(hash, slots, e, depth).0|, e), Holds(Place(hash, slots, e, depth).0, e)) < 8
  {
    var (t, left) := Place(hash, slots, e, depth);
    var locs := Locations(hash, |slots|, e);
    var k := First(locs, Holds(slots, e));
    FoundExactly(hash, blank, t, e);
    if k < 8 {
      LocationsFit(hash, |slots|, e);
      assert t[locs[k]].element == e && !t[locs[k]].collected;
    } else {
      PlaceConserves(hash, slots, e, depth, e);
      SumAtLeast(Copies(e), slots, 0);
      var i := SumPositive(Copies(e), t);
    }
  }

  /** An element marked for erasure is still found until its slot is needed. */
  lemma DiscardStillContains<E>(hash: Hash<E>, c: Cache<E>, e: E, y: E)
    requires 0 < |c.slots| < TWO_32
    ensures |Discard(hash, c, e).slots| == |c.slots|
    ensures Contains(hash, Discard(hash, c, e), y) <==> Contains(hash, c, y)
  {
    hide Locations;
    LocationsFit(hash, |c.slots|, e);
    LocationsFit(hash, |c.slots|, y);
    var t := Discard(hash, c, e);
    var locs := Locations(hash, |c.slots|, y);
    assert forall i :: 0 <= i < |c.slots| ==> t.slots[i].element == c.slots[i].element;
    assert forall k :: 0 <= k < 8 ==> (Holds(t.slots, y)(locs[k]) <==> Holds(c.slots, y)(locs[k]));
  }

  // ---- runs ----

  ghost predicate Sound<E>(hash: Hash<E>, blank: E, c: Cache<E>) {
    AtHome(hash, blank, c.slots) && Distinct(blank, c.slots) && Balanced(c)
  }

  lemma EpochCheckKeeps<E(!new)>(hash: Hash<E>, blank: E, c: Cache<E>)
    requires Sound(hash, blank, c)
    ensures Sound(hash, blank, EpochCheck(c)) && |EpochCheck(c).slots| == |c.slots|
  {
    hide AtHome, Distinct, Balanced, Recent;
    EpochCheckBalances(c);
    AgeKeeps(hash, blank, c.slots);
  }

  datatype Op<E> = Put(e: E) | Erase(e: E) | Look(e: E)

  function Apply<E(==)>(hash: Hash<E>, depth: nat, c: Cache<E>, op: Op<E>): Cache<E>
    requires 0 < |c.slots| < TWO_32
  {
    match op
    case Put(e) =>
      AgedSums(c.slots);
      Insert(hash, c, e, depth)
    case Erase(e) => Discard(hash, c, e)
    case Look(_) => c
  }

  lemma InsertKeeps<E(!new)>(hash: Hash<E>, blank: E, c: Cache<E>, e: E, depth: nat)
    requires Sound(hash, blank, c)
    ensures |EpochCheck(c).slots| == |c.slots|
    ensures Sound(hash, blank, Insert(hash, c, e, depth)) && |Insert(hash, c, e, depth).slots| == |c.slots|
    ensures Insert(hash, c, e, depth).epochSize == c.epochSize
  {
    hide EpochCheck, Place, AtHome, Distinct, Balanced, Locations;
    HomeSize(hash, blank, c.slots);
    EpochCheckKeeps(hash, blank, c);
    PlaceKeeps(hash, blank, EpochCheck(c).slots, e, depth);
    InsertBalances(hash, c, e, depth);
    EpochCheckBalances(c);
  }

  lemma DiscardKeeps<E(!new)>(hash: Hash<E>, blank: E, c: Cache<E>, e: E)
    requires Sound(hash, blank, c)
    ensures Sound(hash, blank, Discard(hash, c, e)) && |Discard(hash, c, e).slots| == |c.slots|
    ensures Discard(hash, c, e).epochSize == c.epochSize
  {
    hide Locations, Balanced;
    DiscardBalances(hash, c, e);
    LocationsFit(hash, |c.slots|, e);
    var t := Discard(hash, c, e);
    assert forall i :: 0 <= i < |c.slots| ==> t.slots[i].element == c.slots[i].element;
    assert forall i :: 0 <= i < |c.slots| && !t.slots[i].collected ==> !c.slots[i].collected;
  }

  lemma ApplyKeeps<E(!new)>(hash: Hash<E>, blank: E, depth: nat, c: Cache<E>, op: Op<E>)
    requires Sound(hash, blank, c)
    ensures Sound(hash, blank, Apply(hash, depth, c, op)) && |Apply(hash, depth, c, op).slots| == |c.slots|
    ensures Apply(hash, depth, c, op).epochSize == c.epochSize
  {
    hide Insert, Discard, AtHome, Distinct, Balanced;
    HomeSize(hash, blank, c.slots);
    match op
    case Put(e) => InsertKeeps(hash, blank, c, e, depth);
    case Erase(e) => DiscardKeeps(hash, blank, c, e);
    case Look(_) =>
  }

  lemma {:induction false} SetupSound<E(!new)>(hash: Hash<E>, blank: E, newSize: uint32)
    ensures Sound(hash, blank, Setup(blank, newSize))
    ensures |Setup(blank, newSize).slots| == Max(2, newSize)
    ensures Setup(blank, newSize).epochSize == EpochSize(Max(2, newSize))
  {
    hide Locations, Sum, Blank;
    BlankSlots(blank, Max(2, newSize));
    SumZero(RecentLive<E>, Setup(blank, newSize).slots);
    SumZero(OldLive<E>, Setup(blank, newSize).slots);
  }

  lemma {:induction false} BlankSlots<E>(blank: E, n: nat)
    ensures |Blank(blank, n)| == n && forall i :: 0 <= i < n ==> Blank(blank, n)[i] == Slot(blank, true, false)
  {
    if n > 0 { BlankSlots(blank, n - 1); }
  }

  /** The caches a run passes through, from setup on. */
  ghost predicate IsRun<E>(hash: Hash<E>, blank: E, newSize: uint32, depth: nat, ops: seq<Op<E>>,
      caches: seq<Cache<E>>) {
    && |caches| == |ops| + 1 && caches[0] == Setup(blank, newSize)
    && forall i :: 0 <= i < |ops| ==>
         0 < |caches[i].slots| < TWO_32 && caches[i + 1] == Apply(hash, depth, caches[i], ops[i])
  }

  /**
   At every point of every run, for any hash functions, table size and chain length,
   the cache is sound and its live slots number at most twice the bound of an epoch.
   */
  lemma {:induction false} EveryRunIsSound<E(!new)>(
      hash: Hash<E>, blank: E, newSize: uint32, depth: nat, ops: seq<Op<E>>, caches: seq<Cache<E>>, n: nat)
    requires IsRun(hash, blank, newSize, depth, ops, caches) && n < |caches|
    ensures Sound(hash, blank, caches[n]) && |caches[n].slots| == Max(2, newSize)
    ensures caches[n].epochSize == EpochSize(Max(2, newSize))
    ensures Recent(caches[n]) + Old(caches[n]) <= 2 * Bound(caches[n].epochSize)
  {
    hide Sound, Setup, Apply;
    if n == 0 {
      SetupSound(hash, blank, newSize);
    } else {
      EveryRunIsSound(hash, blank, newSize, depth, ops, caches, n - 1);
      ApplyKeeps(hash, blank, depth, caches[n - 1], ops[n - 1]);
    }
    SoundIsBounded(hash, blank, caches[n]);
  }

  lemma SoundIsBounded<E>(hash: Hash<E>, blank: E, c: Cache<E>)
    requires Sound(hash, blank, c)
    ensures Recent(c) + Old(c) <= 2 * Bound(c.epochSize)
  {
  }

  /**
   For every table on which 45 * size does not wrap, the bound is at most 95.625
   percent of it and a little over two slots; from 36 slots on, without these.
   */
  lemma LoadIsBounded(size: uint32)
    requires 2 <= size && 45 * size < TWO_32
    ensures 1600 * (2 * Bound(EpochSize(size))) <= 1530 * size + 3400
    ensures 36 <= size ==> 1600 * (2 * Bound(EpochSize(size))) <= 1530 * size
  {
    assert (45 * size) % TWO_32 == 45 * size;
    assert size >= 3 ==> EpochSize(size) == 45 * size / 100;
  }
}
