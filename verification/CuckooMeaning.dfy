/**
 What the cuckoo cache answers: an element is found exactly if it is in the table, and
 then it was put there; and which slots an operation touches.
 */
module CuckooMeaning {
  import opened Basics
  import opened Sums
  import opened Cuckoo
  import opened CuckooRuns

  // ---- locations ----

  /** Hash value and location are the same fraction of their ranges. */
  lemma FastRangeExactly(x: uint32, n: uint32)
    ensures var r := FastRange32(x, n); r * 0x1_0000_0000 <= x * n < (r + 1) * 0x1_0000_0000
  {
    DivisionBounds(x * n);
  }

  lemma DivisionBounds(y: int)
    ensures y / TWO_32 * TWO_32 <= y < (y / TWO_32 + 1) * TWO_32
  {
  }

  /** The k-th of the eight locations is that of the k-th hash. */
  lemma LocationsExactly<E>(hash: Hash<E>, size: uint32, e: E, k: int)
    requires 0 <= k < 8
    ensures |Locations(hash, size, e)| == 8
    ensures var r := Locations(hash, size, e)[k];
            r * 0x1_0000_0000 <= hash(k, e) * size < (r + 1) * 0x1_0000_0000
  {
    FastRangeExactly(hash(k, e), size);
    hide FastRange32;
    assert Locations(hash, size, e)[k] == Location(hash, size, e, k);
  }

  // ---- answers ----

  /** An element other than the blank one is found exactly if some slot holds it. */
  lemma ContainsExactly<E>(hash: Hash<E>, blank: E, c: Cache<E>, e: E)
    requires Sound(hash, blank, c) && e != blank
    ensures Contains(hash, c, e) <==> exists i :: 0 <= i < |c.slots| && c.slots[i].element == e
  {
    hide Locations, Distinct, Balanced;
    FoundExactly(hash, blank, c.slots, e);
    var locs := Locations(hash, |c.slots|, e);
    LocationsFit(hash, |c.slots|, e);
    if Contains(hash, c, e) {
      var k := First(locs, Holds(c.slots, e));
      assert c.slots[locs[k]].element == e;
    }
  }

  /** Every element in the slots is one of the given ones. */
  ghost predicate From<E(!new)>(slots: seq<Slot<E>>, known: iset<E>) {
    forall i :: 0 <= i < |slots| ==> slots[i].element in known
  }

  lemma {:induction false} SettleFrom<E(!new)>(hash: Hash<E>, slots: seq<Slot<E>>, e: E, recent: bool, last: int,
      depth: nat, known: iset<E>)
    requires 0 < |slots| < TWO_32 && From(slots, known) && e in known
    ensures From(Settle(hash, slots, e, recent, last, depth).0, known)
    decreases depth
  {
    hide Locations, Settle;
    if depth == 0 {
      SettleNot(hash, slots, e, recent, last);
    } else {
      var loc, settled := SettleFirst(hash, slots, e, recent, last, depth);
      if !settled {
        var x := slots[loc];
        SettleFrom(hash, slots[loc := Slot(e, x.collected, recent)], x.element, x.recent, loc, depth - 1, known);
      }
    }
  }

  lemma ApplyFrom<E(!new)>(hash: Hash<E>, depth: nat, c: Cache<E>, op: Op<E>, known: iset<E>)
    requires 0 < |c.slots| < TWO_32 && From(c.slots, known) && (op.Put? ==> op.e in known)
    ensures From(Apply(hash, depth, c, op).slots, known)
  {
    hide Locations, Settle, AgeAll, Recent;
    LocationsFit(hash, |c.slots|, op.e);
    if op.Put? {
      AgedSums(c.slots);
      SettleFrom(hash, EpochCheck(c).slots, op.e, true, INVALID, depth, known);
    }
  }

  ghost predicate WasPut<E>(ops: seq<Op<E>>, n: nat, e: E) {
    exists i :: 0 <= i < n && i < |ops| && ops[i] == Put(e)
  }

  lemma {:induction false} RunFrom<E(!new)>(hash: Hash<E>, blank: E, newSize: uint32, depth: nat, ops: seq<Op<E>>,
      caches: seq<Cache<E>>, n: nat)
    requires IsRun(hash, blank, newSize, depth, ops, caches) && n < |caches|
    ensures From(caches[n].slots, iset e | e == blank || WasPut(ops, n, e))
  {
    hide Apply;
    if n == 0 {
      BlankSlots(blank, Max(2, newSize));
    } else {
      RunFrom(hash, blank, newSize, depth, ops, caches, n - 1);
      var known := iset e | e == blank || WasPut(ops, n, e);
      assert forall e :: WasPut(ops, n - 1, e) ==> WasPut(ops, n, e);
      assert WasPut(ops, n, ops[n - 1].e) || !ops[n - 1].Put? by { assert ops[n - 1] == ops[n - 1]; }
      assert From(caches[n - 1].slots, known);
      ApplyFrom(hash, depth, caches[n - 1], ops[n - 1], known);
    }
  }

  /** In every run, an element that is found, other than the blank one, was put in earlier. */
  lemma FoundWasPut<E(!new)>(hash: Hash<E>, blank: E, newSize: uint32, depth: nat, ops: seq<Op<E>>,
      caches: seq<Cache<E>>, n: nat, e: E)
    requires IsRun(hash, blank, newSize, depth, ops, caches) && n < |caches| && e != blank
    ensures 0 < |caches[n].slots| < TWO_32
    ensures Contains(hash, caches[n], e) ==> exists i :: 0 <= i < n && ops[i] == Put(e)
  {
    hide Apply, Contains, Balanced;
    EveryRunIsSound(hash, blank, newSize, depth, ops, caches, n);
    HomeSize(hash, blank, caches[n].slots);
    ContainsExactly(hash, blank, caches[n], e);
    if Contains(hash, caches[n], e) {
      RunFrom(hash, blank, newSize, depth, ops, caches, n);
      assert WasPut(ops, n, e);
    }
  }

  // ---- the slots an operation touches ----

  /** Allowing an element to be erased marks the slot that holds it, if any, and changes nothing else. */
  lemma DiscardExactly<E(!new)>(hash: Hash<E>, blank: E, c: Cache<E>, e: E)
    requires Sound(hash, blank, c) && e != blank
    ensures var t := Discard(hash, c, e);
            && |t.slots| == |c.slots| && t.counter == c.counter && t.epochSize == c.epochSize
            && forall i :: 0 <= i < |c.slots| ==>
                 t.slots[i] == if c.slots[i].element == e then Slot(e, true, c.slots[i].recent) else c.slots[i]
  {
    hide Locations, Balanced;
    LocationsFit(hash, |c.slots|, e);
    FoundExactly(hash, blank, c.slots, e);
    var locs := Locations(hash, |c.slots|, e);
    var k := First(locs, Holds(c.slots, e));
    if k < 8 { assert c.slots[locs[k]].element == e; }
  }

  /** Putting in an element that is there already makes its slot live and recent, and changes nothing else. */
  lemma PutAgain<E(!new)>(hash: Hash<E>, blank: E, slots: seq<Slot<E>>, e: E, depth: nat, at: int)
    requires AtHome(hash, blank, slots) && Distinct(blank, slots) && e != blank
    requires 0 <= at < |slots| && slots[at].element == e
    ensures Place(hash, slots, e, depth) == (slots[at := Slot(e, false, true)], None)
  {
    hide Locations;
    LocationsFit(hash, |slots|, e);
    FoundExactly(hash, blank, slots, e);
    var locs := Locations(hash, |slots|, e);
    var k := First(locs, Holds(slots, e));
    assert k < 8 && slots[locs[k]].element == e;
  }

  /** A new element goes to the first of its locations that is open. */
  lemma PutFirst<E(!new)>(hash: Hash<E>, slots: seq<Slot<E>>, e: E, depth: nat, k: int)
    requires 0 < |slots| < TWO_32 && depth > 0 && forall i :: 0 <= i < |slots| ==> slots[i].element != e
    requires 0 <= k < 8 && Fit(Locations(hash, |slots|, e), |slots|)
    requires var locs := Locations(hash, |slots|, e);
             slots[locs[k]].collected && forall j :: 0 <= j < k ==> !slots[locs[j]].collected
    ensures Place(hash, slots, e, depth) == (slots[Locations(hash, |slots|, e)[k] := Slot(e, false, true)], None)
  {
    hide Locations, FirstFrom;
    var locs := Locations(hash, |slots|, e);
    NoneFirst(locs, Holds(slots, e));
    var n := First(locs, Open(slots));
    assert Open(slots)(locs[k]);
    assert n < 8 ==> Open(slots)(locs[n]);
    assert n == k;
  }

  /** An element displaced from the j-th of its locations, none of them open, displaces the one at the next. */
  lemma DisplacesNext<E>(hash: Hash<E>, slots: seq<Slot<E>>, e: E, recent: bool, last: int, depth: nat, j: int)
    requires 0 < |slots| < TWO_32 && depth > 0 && 0 <= j < 8
    requires First(Locations(hash, |slots|, e), Open(slots)) == 8
    requires var locs := Locations(hash, |slots|, e); locs[j] == last && last !in locs[..j]
    ensures GoesOnFrom(hash, slots, e, recent, depth, Locations(hash, |slots|, e)[if j == 7 then 0 else j + 1],
                       Settle(hash, slots, e, recent, last, depth))
  {
    hide Locations, FirstFrom;
    LocationsFit(hash, |slots|, e);
    var locs := Locations(hash, |slots|, e);
    var k := First(locs, Is(last));
    assert Is(last)(locs[j]);
    assert k < 8 ==> Is(last)(locs[k]);
    assert k == j;
  }

  // ---- epochs ----

  /** 45 percent of the table, rounded down, but at least one; the product is taken modulo 2^32. */
  lemma EpochSizeExactly(size: uint32)
    requires 45 * size < 0x1_0000_0000
    ensures EpochSize(size) >= 1 && 100 * (EpochSize(size) + 1) > 45 * size
    ensures EpochSize(size) > 1 ==> 100 * EpochSize(size) <= 45 * size
  {
  }

  /** The next scan waits until the epoch can be full, for a sixteenth of it at least and for one insert in any case. */
  lemma NextScanExactly(epochSize: uint32, recent: int)
    ensures var n := NextScan(epochSize, recent);
            && n >= 1 && 16 * (n + 1) > epochSize && n >= epochSize - recent
            && (n == 1 || 16 * n <= epochSize || n == epochSize - recent)
  {
  }

  /** A scan is due when the counter has run out, and starts a new epoch exactly if the recent elements fill one. */
  lemma EpochCheckExactly<E(!new)>(c: Cache<E>)
    requires Balanced(c)
    ensures var t := EpochCheck(c);
            && |t.slots| == |c.slots|
            && (c.counter > 0 ==> t == c.(counter := c.counter - 1))
            && (c.counter == 0 && Recent(c) < c.epochSize ==>
                  t.slots == c.slots && 1 <= t.counter && c.epochSize - Recent(c) <= t.counter)
            && (c.counter == 0 && Recent(c) >= c.epochSize ==>
                  && t.counter == c.epochSize
                  && forall i :: 0 <= i < |c.slots| ==>
                       t.slots[i] == if c.slots[i].recent then Slot(c.slots[i].element, c.slots[i].collected, false)
                                     else Slot(c.slots[i].element, true, false))
  {
    hide Recent, AgeAll;
    AgedSums(c.slots);
  }
}
