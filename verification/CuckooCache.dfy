/**
 The cuckoo cache in place: packed collection flags, and the table with its epoch
 flags and counter, proved against the values of module Cuckoo.
 */
module CuckooCache {
  import opened Basics
  import opened Sums
  import opened Cuckoo
  import opened CuckooRuns
  import Meaning = CuckooMeaning

  // ---- packed flags ----

  function Bit(k: int): bv8
    requires 0 <= k < 8
  {
    1 << k
  }

  predicate HasBit(b: bv8, k: int)
    requires 0 <= k < 8
  {
    b & Bit(k) != 0
  }

  function WithBit(b: bv8, k: int): bv8
    requires 0 <= k < 8
  {
    b | Bit(k)
  }

  function WithoutBit(b: bv8, k: int): bv8
    requires 0 <= k < 8
  {
    b & !Bit(k)
  }

  lemma BitOps(b: bv8, k: int, j: int)
    requires 0 <= k < 8 && 0 <= j < 8
    ensures HasBit(WithBit(b, k), j) <==> k == j || HasBit(b, j)
    ensures HasBit(WithoutBit(b, k), j) <==> k != j && HasBit(b, j)
    ensures HasBit(0xFF, j)
  {
    hide Bit;
    BitValue(k);
    BitValue(j);
  }

  lemma BitValue(k: int)
    requires 0 <= k < 8
    ensures Bit(k) == [1 as bv8, 2, 4, 8, 16, 32, 64, 128][k]
  {
    assert Bit(0) == 1 && Bit(1) == 2 && Bit(2) == 4 && Bit(3) == 8;
    assert Bit(4) == 16 && Bit(5) == 32 && Bit(6) == 64 && Bit(7) == 128;
  }

  /** The number of bytes set aside for `size` flags; the sum is a 32-bit one. */
  function Bytes(size: uint32): int { (size + 7) % TWO_32 / 8 }

  /** The flags have room for `size` entries exactly if the sum does not wrap. */
  lemma BytesFit(size: uint32)
    ensures size <= 8 * Bytes(size) <==> size + 7 < TWO_32
  {
    if size + 7 < TWO_32 {
      assert (size + 7) % TWO_32 == size + 7;
    } else {
      assert (size + 7) % TWO_32 == size + 7 - TWO_32;
    }
  }

  /** A size within the documented maximum for which there is no room at all. */
  lemma BytesWrap()
    ensures Bytes(TWO_32 - 2) == 0
  {
  }

  /** One flag per entry, eight to a byte. */
  class BitPackedFlags {
    var mem: array<bv8>

    predicate IsSet(i: int)
      reads this, mem
    {
      0 <= i < 8 * mem.Length && HasBit(mem[i / 8], i % 8)
    }

    /** Room for `size` entries if their number does not wrap, all of them set. */
    constructor (size: uint32)
      ensures fresh(mem) && mem.Length == Bytes(size)
      ensures forall i :: 0 <= i < 8 * mem.Length ==> IsSet(i)
    {
      mem := new bv8[Bytes(size)](_ => 0xFF);
      new;
      forall i | 0 <= i < 8 * mem.Length ensures IsSet(i) { BitOps(0, 0, i % 8); }
    }

    method Setup(size: uint32)
      modifies this
      ensures fresh(mem) && mem.Length == Bytes(size)
      ensures forall i :: 0 <= i < 8 * mem.Length ==> IsSet(i)
    {
      var d := new BitPackedFlags(size);
      mem := d.mem;
      assert forall i :: d.IsSet(i) <==> IsSet(i);
    }

    method Set(s: int)
      requires 0 <= s < 8 * mem.Length
      modifies mem
      ensures forall i :: IsSet(i) <==> old(IsSet(i)) || i == s
    {
      hide HasBit, WithBit;
      mem[s / 8] := WithBit(mem[s / 8], s % 8);
      forall i | 0 <= i < 8 * mem.Length && i / 8 == s / 8
        ensures IsSet(i) <==> old(IsSet(i)) || i == s
      {
        BitOps(old(mem[s / 8]), s % 8, i % 8);
      }
    }

    method Unset(s: int)
      requires 0 <= s < 8 * mem.Length
      modifies mem
      ensures forall i :: IsSet(i) <==> old(IsSet(i)) && i != s
    {
      hide HasBit, WithoutBit;
      mem[s / 8] := WithoutBit(mem[s / 8], s % 8);
      forall i | 0 <= i < 8 * mem.Length && i / 8 == s / 8
        ensures IsSet(i) <==> old(IsSet(i)) && i != s
      {
        BitOps(old(mem[s / 8]), s % 8, i % 8);
      }
    }
  }

  // ---- the cache ----

  /** Slots of which the first `i` have been aged. */
  ghost predicate HalfAged<E>(was: seq<Slot<E>>, slots: seq<Slot<E>>, i: int) {
    0 <= i <= |was| && slots == AgeAll(was[..i]) + was[i..]
  }

  lemma AgeStep<E>(was: seq<Slot<E>>, slots: seq<Slot<E>>, i: int)
    requires HalfAged(was, slots, i) && i < |was|
    ensures |slots| == |was| && slots[i] == was[i] && HalfAged(was, slots[i := Aged(was[i])], i + 1)
  {
    AgedSums(was[..i]);
    assert was[..i + 1][..i] == was[..i];
    assert AgeAll(was[..i + 1]) == AgeAll(was[..i]) + [Aged(was[i])];
  }

  lemma AgeEnds<E>(was: seq<Slot<E>>, slots: seq<Slot<E>>)
    ensures HalfAged(was, was, 0)
    ensures HalfAged(was, slots, |was|) ==> slots == AgeAll(was)
  {
    assert was[..0] == [] && was[0..] == was && was[..|was|] == was && was[|was|..] == [];
  }

  lemma SumStep<T>(f: T -> int, xs: seq<T>, i: int)
    requires 0 <= i < |xs|
    ensures Sum(f, xs[..i + 1]) == Sum(f, xs[..i]) + f(xs[i])
  {
    assert xs[..i + 1][..i] == xs[..i];
  }

  lemma SettleStep<E>(hash: Hash<E>, slots: seq<Slot<E>>, e: E, recent: bool, last: int, depth: nat)
    requires 0 < |slots| < TWO_32 && depth > 0 && Fit(Locations(hash, |slots|, e), |slots|)
    ensures var locs := Locations(hash, |slots|, e);
            var k := First(locs, Open(slots));
            if k < 8 then
              Settle(hash, slots, e, recent, last, depth) == (slots[locs[k] := Slot(e, false, recent)], None)
            else
              var loc := locs[(1 + First(locs, Is(last))) % 8];
              Settle(hash, slots, e, recent, last, depth) ==
              Settle(hash, slots[loc := Slot(e, slots[loc].collected, recent)], slots[loc].element, slots[loc].recent,
                     loc, depth - 1)
  {
    hide Locations;
  }

  lemma SettleEnd<E>(hash: Hash<E>, slots: seq<Slot<E>>, e: E, recent: bool, last: int)
    requires 0 < |slots| < TWO_32
    ensures Settle(hash, slots, e, recent, last, 0) == (slots, Some(e))
  {
  }

  class Store<E(==,!new)> {
    const hash: Hash<E>
    const blank: E
    var table: seq<E>
    var size: uint32
    const collectionFlags: BitPackedFlags
    var epochFlags: seq<bool>
    var epochHeuristicCounter: int
    var epochSize: uint32
    var depthLimit: nat
    // the slots that the table and its flags make up
    ghost var slots: seq<Slot<E>>

    ghost predicate Valid()
      reads this, collectionFlags, collectionFlags.mem
    {
      && 2 <= size <= 8 * collectionFlags.mem.Length
      && |table| == |epochFlags| == |slots| == size
      && forall i :: 0 <= i < size ==> slots[i] == Slot(table[i], collectionFlags.IsSet(i), epochFlags[i])
    }

    ghost function Abs(): Cache<E>
      reads this
    {
      Cache(slots, epochHeuristicCounter, epochSize)
    }

    /** A cache as constructed: it cannot be used before its setup. */
    constructor (hash: Hash<E>, blank: E)
      ensures this.hash == hash && this.blank == blank && fresh(collectionFlags)
    {
      this.hash, this.blank := hash, blank;
      table, size, epochFlags, epochHeuristicCounter, epochSize, depthLimit, slots := [], 0, [], 0, 0, 0, [];
      collectionFlags := new BitPackedFlags(0);
    }

    /** Sets up at least two slots; the result can be used exactly if its flags have room. */
    method Setup(newSize: uint32, depth: nat) returns (n: uint32)
      modifies this, collectionFlags
      ensures fresh(collectionFlags.mem)
      ensures Valid() <==> newSize + 7 < TWO_32
      ensures Abs() == Cuckoo.Setup(blank, newSize) && depthLimit == depth && n == |slots| == Max(2, newSize)
      ensures Sound(hash, blank, Abs())
    {
      hide Sound, Blank;
      size := Max(2, newSize);
      depthLimit := depth;
      table := seq(size, _ => blank);
      BytesFit(size);
      collectionFlags.Setup(size);
      epochFlags := seq(size, _ => false);
      epochSize := EpochSize(size);
      epochHeuristicCounter := epochSize;
      n := size;
      slots := Blank(blank, size);
      BlankSlots(blank, size);
      SetupSound(hash, blank, newSize);
    }

    method AllowErase(n: int)
      requires Valid() && 0 <= n < size
      modifies this`slots, collectionFlags.mem
      ensures Valid() && slots == old(slots)[n := old(slots)[n].(collected := true)]
    {
      collectionFlags.Set(n);
      slots := slots[n := slots[n].(collected := true)];
    }

    /** Writes an element to a slot and marks it to be kept. */
    method Write(n: int, e: E, recent: bool)
      requires Valid() && 0 <= n < size
      modifies this`slots, this`table, this`epochFlags, collectionFlags.mem
      ensures Valid() && slots == old(slots)[n := Slot(e, false, recent)]
    {
      table := table[n := e];
      collectionFlags.Unset(n);
      epochFlags := epochFlags[n := recent];
      slots := slots[n := Slot(e, false, recent)];
    }

    method CountRecent() returns (count: int)
      requires Valid()
      ensures count == Recent(Abs())
    {
      count := 0;
      var i := 0;
      while i < size
        invariant 0 <= i <= size && count == Sum(RecentLive, slots[..i])
      {
        SumStep(RecentLive, slots, i);
        if epochFlags[i] && !collectionFlags.IsSet(i) {
          count := count + 1;
        }
        i := i + 1;
      }
      assert slots[..size] == slots;
    }

    method Age()
      requires Valid()
      modifies this`slots, this`epochFlags, collectionFlags.mem
      ensures Valid() && slots == AgeAll(old(slots))
    {
      hide HalfAged, AgeAll, Aged, BitPackedFlags.IsSet;
      ghost var was := slots;
      assert |was| == size;
      hide Store.Valid;
      AgeEnds(was, slots);
      var i := 0;
      while i < size
        invariant 0 <= i <= size && Valid() && HalfAged(was, slots, i)
      {
        AgeStep(was, slots, i);
        AgeSlot(i);
        i := i + 1;
      }
      AgeEnds(was, slots);
    }

    method AgeSlot(i: int)
      requires Valid() && 0 <= i < size
      modifies this`slots, this`epochFlags, collectionFlags.mem
      ensures Valid() && slots == old(slots)[i := Aged(old(slots)[i])]
    {
      if epochFlags[i] {
        epochFlags := epochFlags[i := false];
        slots := slots[i := slots[i].(recent := false)];
      } else {
        AllowErase(i);
      }
    }

    method EpochCheck()
      requires Valid() && epochHeuristicCounter >= 0
      modifies this`slots, this`epochFlags, this`epochHeuristicCounter, collectionFlags.mem
      ensures Valid() && Abs() == Cuckoo.EpochCheck(old(Abs()))
    {
      hide Recent, AgeAll;
      if epochHeuristicCounter != 0 {
        epochHeuristicCounter := epochHeuristicCounter - 1;
        return;
      }
      var epochUnusedCount := CountRecent();
      if epochUnusedCount >= epochSize {
        Age();
        epochHeuristicCounter := epochSize;
      } else {
        epochHeuristicCounter := Max(1, Max(epochSize / 16, epochSize - epochUnusedCount));
      }
    }

    /** The first of eight locations at which the element is stored, or eight. */
    method FindElement(locs: seq<int>, e: E) returns (k: int)
      requires Valid() && Fit(locs, size)
      ensures k == First(locs, Holds(slots, e))
    {
      k := 0;
      while k < 8
        invariant 0 <= k <= 8 && First(locs, Holds(slots, e)) == FirstFrom(locs, Holds(slots, e), k)
      {
        if table[locs[k]] == e { return; }
        k := k + 1;
      }
    }

    method FindOpen(locs: seq<int>) returns (k: int)
      requires Valid() && Fit(locs, size)
      ensures k == First(locs, Open(slots))
    {
      k := 0;
      while k < 8
        invariant 0 <= k <= 8 && First(locs, Open(slots)) == FirstFrom(locs, Open(slots), k)
      {
        if collectionFlags.IsSet(locs[k]) { return; }
        k := k + 1;
      }
    }

    method FindLocation(locs: seq<int>, loc: int) returns (k: int)
      requires |locs| == 8
      ensures k == First(locs, Is(loc))
    {
      k := 0;
      while k < 8
        invariant 0 <= k <= 8 && First(locs, Is(loc)) == FirstFrom(locs, Is(loc), k)
      {
        if locs[k] == loc { return; }
        k := k + 1;
      }
    }

    /** Swaps an element and its epoch with those at a slot. */
    method Swap(n: int, e: E, recent: bool) returns (f: E, was: bool)
      requires Valid() && 0 <= n < size
      modifies this`slots, this`table, this`epochFlags
      ensures Valid() && f == old(slots)[n].element && was == old(slots)[n].recent
      ensures slots == old(slots)[n := Slot(e, old(slots)[n].collected, recent)]
    {
      f, was := table[n], epochFlags[n];
      table := table[n := e];
      epochFlags := epochFlags[n := recent];
      slots := slots[n := Slot(e, slots[n].collected, recent)];
    }

    method Insert(element: E) returns (ghost left: Option<E>)
      requires Valid() && Sound(hash, blank, Abs())
      modifies this`slots, this`table, this`epochFlags, this`epochHeuristicCounter, collectionFlags.mem
      ensures Valid() && Sound(hash, blank, Abs())
      ensures |Cuckoo.EpochCheck(old(Abs())).slots| == size
      ensures Abs() == Cuckoo.Insert(hash, old(Abs()), element, depthLimit)
      ensures left == Place(hash, Cuckoo.EpochCheck(old(Abs())).slots, element, depthLimit).1
    {
      hide Locations, Cuckoo.EpochCheck, Sound, Place;
      InsertKeeps(hash, blank, Abs(), element, depthLimit);
      SoundCounter(hash, blank, Abs());
      EpochCheck();
      left := PlaceElement(element);
    }

    method PlaceElement(e: E) returns (ghost left: Option<E>)
      requires Valid()
      modifies this`slots, this`table, this`epochFlags, collectionFlags.mem
      ensures Valid() && (slots, left) == Place(hash, old(slots), e, depthLimit)
    {
      hide Locations, Settle;
      LocationsFit(hash, size, e);
      var locs := Locations(hash, size, e);
      var k := FindElement(locs, e);
      if k < 8 {
        Write(locs[k], e, true);
        left := None;
      } else {
        left := Displace(e, locs);
      }
    }

    method Displace(element: E, locations: seq<int>) returns (ghost left: Option<E>)
      requires Valid() && locations == Locations(hash, size, element)
      modifies this`slots, this`table, this`epochFlags, collectionFlags.mem
      ensures Valid() && (slots, left) == Settle(hash, old(slots), element, true, INVALID, depthLimit)
    {
      hide Locations, Settle, First;
      var lastLoc := INVALID;
      var lastEpoch := true;
      var e, locs := element, locations;
      LocationsFit(hash, size, e);
      var depth := 0;
      while depth < depthLimit
        invariant 0 <= depth <= depthLimit && Valid()
        invariant locs == Locations(hash, size, e) && Fit(locs, size)
        invariant Settle(hash, old(slots), element, true, INVALID, depthLimit) ==
                  Settle(hash, slots, e, lastEpoch, lastLoc, depthLimit - depth)
      {
        var k := FindOpen(locs);
        SettleStep(hash, slots, e, lastEpoch, lastLoc, depthLimit - depth);
        if k < 8 {
          Write(locs[k], e, lastEpoch);
          left := None;
          return;
        }
        k := FindLocation(locs, lastLoc);
        lastLoc := locs[(1 + k) % 8];
        e, lastEpoch := Swap(lastLoc, e, lastEpoch);
        LocationsFit(hash, size, e);
        locs := Locations(hash, size, e);
        depth := depth + 1;
      }
      SettleEnd(hash, slots, e, lastEpoch, lastLoc);
      left := Some(e);
    }

    method Contains(e: E, erase: bool) returns (found: bool)
      requires Valid() && Sound(hash, blank, Abs())
      modifies this`slots, collectionFlags.mem
      ensures Valid() && Sound(hash, blank, Abs())
      ensures found == Cuckoo.Contains(hash, old(Abs()), e)
      ensures e != blank ==> (found <==> exists i :: 0 <= i < old(size) && old(slots)[i].element == e)
      ensures Abs() == if erase then Discard(hash, old(Abs()), e) else old(Abs())
    {
      hide Locations, Sound;
      LocationsFit(hash, size, e);
      DiscardKeeps(hash, blank, Abs(), e);
      if e != blank { Meaning.ContainsExactly(hash, blank, Abs(), e); }
      var locs := Locations(hash, size, e);
      var k := FindElement(locs, e);
      if k < 8 {
        if erase { AllowErase(locs[k]); }
        return true;
      }
      return false;
    }
  }

  lemma SoundCounter<E>(hash: Hash<E>, blank: E, c: Cache<E>)
    requires Sound(hash, blank, c)
    ensures c.counter >= 0
  {
  }
}
