/** Compact blocks: what is sent of a block, and how it is put together again. */
module CompactBlocks {
  import opened Basics

  /** A transaction; a null one has neither inputs nor outputs. */
  datatype Tx = Tx(witnessHash: int, content: int, isNull: bool)

  /** A short id, and how a message maps witness hashes to them. */
  datatype ShortId = ShortId(bits: int)

  type Shortener = int -> ShortId

  /** A transaction sent in full, with the distance from the one before. */
  datatype Prefilled = Prefilled(index: int, tx: Tx)

  datatype CompactBlock = CompactBlock(header: Option<int>, shortIds: seq<ShortId>, prefilled: seq<Prefilled>)

  datatype Status = Ok | Invalid | Failed | CheckFailed

  const MAX_TRANSACTIONS := 4000000 / 40

  const MAX_16 := 65535

  function Count(b: CompactBlock): int { |b.shortIds| + |b.prefilled| }

  /** What a received message satisfies: sixteen-bit distances, and a count that fits in sixteen bits. */
  ghost predicate Received(b: CompactBlock) {
    Count(b) <= MAX_16 && forall i :: 0 <= i < |b.prefilled| ==> 0 <= b.prefilled[i].index <= MAX_16
  }

  type Slots = seq<Option<Tx>>

  // ---- the transactions sent in full ----

  datatype Filling = Filling(ok: bool, slots: Slots, last: int)

  /** The slots after the first `i` of them, or up to the first that is refused. */
  function Fill(b: CompactBlock, i: nat): (f: Filling)
    requires Received(b) && i <= |b.prefilled|
    ensures |f.slots| == Count(b)
  {
    if i == 0 then Filling(true, Repeat(None, Count(b)), -1)
    else
      var f := Fill(b, i - 1);
      var p := b.prefilled[i - 1];
      var next := f.last + p.index + 1;
      if !f.ok then f
      else if p.tx.isNull then f.(ok := false)
      else if next < 0 || next > MAX_16 || next > |b.shortIds| + (i - 1) then Filling(false, f.slots, next)
      else Filling(true, f.slots[next := Some(p.tx)], next)
  }

  /** The position of a transaction sent in full, by the distances alone. */
  function Position(b: CompactBlock, i: nat): int
    requires i < |b.prefilled|
  {
    (if i == 0 then -1 else Position(b, i - 1)) + b.prefilled[i].index + 1
  }

  /** One of the first `i` transactions sent in full is at a position. */
  ghost predicate SentAt(b: CompactBlock, i: nat, p: int)
    requires i <= |b.prefilled|
  {
    exists j :: 0 <= j < i && Position(b, j) == p
  }

  lemma {:induction false} PositionsIncrease(b: CompactBlock, j: nat, k: nat)
    requires Received(b) && j < k < |b.prefilled|
    ensures Position(b, j) < Position(b, k)
  {
    if j < k - 1 { PositionsIncrease(b, j, k - 1); }
  }

  lemma FillStep(b: CompactBlock, i: nat)
    requires Received(b) && 0 < i <= |b.prefilled| && Fill(b, i).ok
    ensures var (f, g, p) := (Fill(b, i - 1), Fill(b, i), b.prefilled[i - 1]);
            && f.ok && g.last == f.last + p.index + 1 && 0 <= g.last < Count(b) && !p.tx.isNull
            && g.slots == f.slots[g.last := Some(p.tx)]
  {
  }

  lemma {:induction false} FillLast(b: CompactBlock, i: nat)
    requires Received(b) && i <= |b.prefilled| && Fill(b, i).ok
    ensures Fill(b, i).last == if i == 0 then -1 else Position(b, i - 1)
    ensures i > 0 ==> 0 <= Fill(b, i).last < Count(b)
  {
    if i > 0 {
      hide Fill;
      FillStep(b, i);
      if i == 1 { FillNone(b); } else { FillLast(b, i - 1); }
    }
  }

  lemma FillNone(b: CompactBlock)
    requires Received(b)
    ensures Fill(b, 0) == Filling(true, Repeat(None, Count(b)), -1)
  {
  }

  /** Accepted transactions are in the slots at their positions. */
  lemma {:induction false} FillHolds(b: CompactBlock, i: nat, j: nat)
    requires Received(b) && j < i <= |b.prefilled| && Fill(b, i).ok
    ensures 0 <= Position(b, j) < Count(b) && Fill(b, i).slots[Position(b, j)] == Some(b.prefilled[j].tx)
  {
    hide Fill;
    FillStep(b, i);
    FillLast(b, i);
    if j < i - 1 {
      FillHolds(b, i - 1, j);
      PositionsIncrease(b, j, i - 1);
    }
  }

  /** And the other slots are empty. */
  lemma {:induction false} FillOnly(b: CompactBlock, i: nat, p: nat)
    requires Received(b) && i <= |b.prefilled| && Fill(b, i).ok && p < Count(b) && Fill(b, i).slots[p].Some?
    ensures SentAt(b, i, p)
  {
    hide Fill, Position;
    FillNone(b);
    if i > 0 {
      FillStep(b, i);
      FillLast(b, i);
      if p == Fill(b, i).last {
        assert Position(b, i - 1) == p;
      } else {
        FillOnly(b, i - 1, p);
      }
    }
  }

  /** A slot at a position is filled exactly if a transaction was sent for it. */
  lemma FilledExactly(b: CompactBlock, i: nat, p: nat)
    requires Received(b) && i <= |b.prefilled| && Fill(b, i).ok && p < Count(b)
    ensures Fill(b, i).slots[p].Some? <==> SentAt(b, i, p)
  {
    hide Fill, Position;
    if Fill(b, i).slots[p].Some? {
      FillOnly(b, i, p);
    } else if SentAt(b, i, p) {
      var j :| 0 <= j < i && Position(b, j) == p;
      FillHolds(b, i, j);
    }
  }

  // ---- the slots left for short ids ----

  /** The empty slots, in order. */
  function Free(s: Slots): (r: seq<int>)
    ensures |r| <= |s|
  {
    if s == [] then []
    else if s[|s| - 1].None? then Free(s[..|s| - 1]) + [|s| - 1]
    else Free(s[..|s| - 1])
  }

  ghost predicate Listed(r: seq<int>, p: int) { exists k :: 0 <= k < |r| && r[k] == p }

  lemma {:induction false} FreeOrder(s: Slots)
    ensures forall k :: 0 <= k < |Free(s)| ==> 0 <= Free(s)[k] < |s| && s[Free(s)[k]].None?
    ensures forall j, k :: 0 <= j < k < |Free(s)| ==> Free(s)[j] < Free(s)[k]
  {
    if s != [] { FreeOrder(s[..|s| - 1]); }
  }

  lemma {:induction false} FreeAll(s: Slots, p: int)
    requires 0 <= p < |s| && s[p].None?
    ensures Listed(Free(s), p)
  {
    var (n, r) := (|s| - 1, Free(s));
    if p == n {
      assert r[|r| - 1] == p;
    } else {
      FreeAll(s[..n], p);
      var q := Free(s[..n]);
      var k :| 0 <= k < |q| && q[k] == p;
      assert r[k] == p;
    }
  }

  lemma FreeSlots(s: Slots)
    ensures forall k :: 0 <= k < |Free(s)| ==> 0 <= Free(s)[k] < |s| && s[Free(s)[k]].None?
    ensures forall j, k :: 0 <= j < k < |Free(s)| ==> Free(s)[j] < Free(s)[k]
    ensures forall p :: 0 <= p < |s| && s[p].None? ==> Listed(Free(s), p)
  {
    hide Free, Listed;
    FreeOrder(s);
    forall p | 0 <= p < |s| && s[p].None? ensures Listed(Free(s), p) { FreeAll(s, p); }
  }

  /** Filling an empty slot leaves one fewer. */
  lemma {:induction false} FreeUpdate(s: Slots, p: nat, t: Tx)
    requires p < |s| && s[p].None?
    ensures |Free(s[p := Some(t)])| == |Free(s)| - 1
  {
    var n := |s| - 1;
    if p == n {
      assert s[p := Some(t)][..n] == s[..n];
    } else {
      FreeUpdate(s[..n], p, t);
      assert s[p := Some(t)][..n] == s[..n][p := Some(t)];
    }
  }

  lemma {:induction false} FreeEmpty(n: nat)
    ensures |Free(Repeat(None, n))| == n
  {
    if n > 0 {
      FreeEmpty(n - 1);
      var s: Slots := Repeat(None, n);
      assert s[..n - 1] == Repeat(None, n - 1);
    }
  }

  lemma NotSentYet(b: CompactBlock, i: nat)
    requires Received(b) && i < |b.prefilled|
    ensures !SentAt(b, i, Position(b, i))
  {
    forall j | 0 <= j < i ensures Position(b, j) != Position(b, i) { PositionsIncrease(b, j, i); }
  }

  /** Exactly one slot is left for each short id. */
  lemma {:induction false} FreeCount(b: CompactBlock, i: nat)
    requires Received(b) && i <= |b.prefilled| && Fill(b, i).ok
    ensures |Free(Fill(b, i).slots)| == Count(b) - i
  {
    if i == 0 {
      FreeEmpty(Count(b));
    } else {
      hide Fill, Position;
      FillStep(b, i);
      FreeCount(b, i - 1);
      FillLast(b, i);
      var (f, g) := (Fill(b, i - 1), Fill(b, i));
      FilledExactly(b, i - 1, g.last);
      NotSentYet(b, i - 1);
      FreeUpdate(f.slots, g.last, b.prefilled[i - 1].tx);
    }
  }

  /**
   For an accepted message the positions of the transactions sent in full increase,
   and together with those of the short ids they are each index of the block once.
   */
  lemma Partition(b: CompactBlock)
    requires Received(b) && Fill(b, |b.prefilled|).ok
    ensures |Free(Fill(b, |b.prefilled|).slots)| == |b.shortIds|
    ensures forall j, k :: 0 <= j < k < |b.prefilled| ==> Position(b, j) < Position(b, k)
    ensures forall p :: 0 <= p < Count(b) ==>
              (SentAt(b, |b.prefilled|, p) <==> !Listed(Free(Fill(b, |b.prefilled|).slots), p))
  {
    hide Fill, Position, Free, SentAt;
    var (n, s) := (|b.prefilled|, Fill(b, |b.prefilled|).slots);
    FreeCount(b, n);
    FreeSlots(s);
    forall j, k | 0 <= j < k < n ensures Position(b, j) < Position(b, k) { PositionsIncrease(b, j, k); }
    forall p | 0 <= p < Count(b)
      ensures SentAt(b, n, p) <==> !Listed(Free(s), p)
    {
      FilledExactly(b, n, p);
    }
  }

  // ---- matching transactions by short id ----

  /** Which slot each of the first `n` short ids is for; a later one takes over. */
  function IdMap(ids: seq<ShortId>, free: seq<int>, n: nat): map<ShortId, int>
    requires n <= |ids| && n <= |free|
  {
    if n == 0 then map[] else IdMap(ids, free, n - 1)[ids[n - 1] := free[n - 1]]
  }

  lemma {:induction false} IdMapFrom(ids: seq<ShortId>, free: seq<int>, n: nat)
    requires n <= |ids| && n <= |free|
    ensures forall id :: id in IdMap(ids, free, n) ==>
              exists k :: 0 <= k < n && ids[k] == id && IdMap(ids, free, n)[id] == free[k]
  {
    if n > 0 {
      IdMapFrom(ids, free, n - 1);
      assert ids[n - 1] == ids[n - 1];
    }
  }

  lemma {:induction false} IdMapSize(ids: seq<ShortId>, free: seq<int>, n: nat)
    requires n <= |ids| && n <= |free|
    ensures |IdMap(ids, free, n)| <= n
    ensures |IdMap(ids, free, n)| == n ==>
              && (forall k :: 0 <= k < n ==> ids[k] in IdMap(ids, free, n) && IdMap(ids, free, n)[ids[k]] == free[k])
              && (forall j, k :: 0 <= j < k < n ==> ids[j] != ids[k])
  {
    if n > 0 {
      IdMapSize(ids, free, n - 1);
      var (m, id) := (IdMap(ids, free, n - 1), ids[n - 1]);
      if id in m {
        assert m[id := free[n - 1]].Keys == m.Keys;
      } else {
        assert m[id := free[n - 1]].Keys == m.Keys + {id};
      }
    }
  }

  /** If no short id came twice, each is mapped to its own slot. */
  lemma IdMapExact(ids: seq<ShortId>, free: seq<int>, n: nat)
    requires n <= |ids| && n <= |free|
    ensures |IdMap(ids, free, n)| <= n
    ensures |IdMap(ids, free, n)| == n ==>
              && (forall k :: 0 <= k < n ==> ids[k] in IdMap(ids, free, n) && IdMap(ids, free, n)[ids[k]] == free[k])
              && (forall j, k :: 0 <= j < k < n ==> ids[j] != ids[k])
    ensures forall id :: id in IdMap(ids, free, n) ==>
              exists k :: 0 <= k < n && ids[k] == id && IdMap(ids, free, n)[id] == free[k]
  {
    hide IdMap;
    IdMapSize(ids, free, n);
    IdMapFrom(ids, free, n);
  }

  /** Slots while transactions are offered for them, and which have ever been matched. */
  datatype Pool = Pool(slots: Slots, have: seq<bool>, count: int)

  ghost predicate PoolOk(p: Pool, ids: map<ShortId, int>) {
    && |p.have| == |p.slots|
    && forall id :: id in ids ==> 0 <= ids[id] < |p.slots| && (!p.have[ids[id]] ==> p.slots[ids[id]].None?)
  }

  /** A transaction fills a slot; a second match, if it is another transaction, empties it for good. */
  function Offer(p: Pool, ids: map<ShortId, int>, id: ShortId, tx: Tx, extra: bool): Pool
    requires PoolOk(p, ids)
  {
    if id !in ids then p
    else
      var i := ids[id];
      if !p.have[i] then Pool(p.slots[i := Some(tx)], p.have[i := true], p.count + 1)
      else if p.slots[i].Some? && (!extra || p.slots[i].value.witnessHash != tx.witnessHash)
        then p.(slots := p.slots[i := None], count := p.count - 1)
      else p
  }

  lemma OfferOk(p: Pool, ids: map<ShortId, int>, id: ShortId, tx: Tx, extra: bool)
    requires PoolOk(p, ids)
    ensures PoolOk(Offer(p, ids, id, tx, extra), ids) && |Offer(p, ids, id, tx, extra).slots| == |p.slots|
  {
  }

  datatype Offered = Offered(id: ShortId, tx: Tx)

  /** Offers in turn, until every short id has been matched. */
  function OfferAll(p: Pool, ids: map<ShortId, int>, items: seq<Offered>, extra: bool): Pool
    requires PoolOk(p, ids)
    decreases |items|
  {
    if items == [] then p
    else
      OfferOk(p, ids, items[0].id, items[0].tx, extra);
      var q := Offer(p, ids, items[0].id, items[0].tx, extra);
      if q.count == |ids| then q else OfferAll(q, ids, items[1..], extra)
  }

  lemma {:induction false} OfferAllOk(p: Pool, ids: map<ShortId, int>, items: seq<Offered>, extra: bool)
    requires PoolOk(p, ids)
    ensures PoolOk(OfferAll(p, ids, items, extra), ids) && |OfferAll(p, ids, items, extra).slots| == |p.slots|
    decreases |items|
  {
    if items != [] {
      OfferOk(p, ids, items[0].id, items[0].tx, extra);
      OfferAllOk(Offer(p, ids, items[0].id, items[0].tx, extra), ids, items[1..], extra);
    }
  }

  /** The count of matched transactions goes with the empty slots. */
  lemma OfferCounts(p: Pool, ids: map<ShortId, int>, id: ShortId, tx: Tx, extra: bool)
    requires PoolOk(p, ids)
    ensures var q := Offer(p, ids, id, tx, extra); q.count + |Free(q.slots)| == p.count + |Free(p.slots)|
  {
    hide Free;
    if id in ids {
      var i := ids[id];
      if !p.have[i] {
        FreeUpdate(p.slots, i, tx);
      } else if p.slots[i].Some? {
        var s := p.slots[i := None];
        FreeUpdate(s, i, p.slots[i].value);
        assert s[i := Some(p.slots[i].value)] == p.slots;
      }
    }
  }

  lemma {:induction false} OfferAllCounts(p: Pool, ids: map<ShortId, int>, items: seq<Offered>, extra: bool)
    requires PoolOk(p, ids)
    ensures var q := OfferAll(p, ids, items, extra); q.count + |Free(q.slots)| == p.count + |Free(p.slots)|
    decreases |items|
  {
    hide Free;
    if items != [] {
      OfferOk(p, ids, items[0].id, items[0].tx, extra);
      OfferCounts(p, ids, items[0].id, items[0].tx, extra);
      OfferAllCounts(Offer(p, ids, items[0].id, items[0].tx, extra), ids, items[1..], extra);
    }
  }

  // ---- what the slots hold of a block ----

  /** Every filled slot holds the transaction of the block. */
  ghost predicate Agrees(s: Slots, vtx: seq<Tx>) {
    |s| == |vtx| && forall i :: 0 <= i < |s| ==> s[i].None? || s[i] == Some(vtx[i])
  }

  /** An offered transaction that matches a short id is the one of the block. */
  ghost predicate TrueMatch(o: Offered, ids: map<ShortId, int>, vtx: seq<Tx>) {
    o.id in ids ==> 0 <= ids[o.id] < |vtx| && vtx[ids[o.id]] == o.tx
  }

  lemma {:induction false} OfferAllAgrees(p: Pool, ids: map<ShortId, int>, items: seq<Offered>, extra: bool,
      vtx: seq<Tx>)
    requires PoolOk(p, ids) && Agrees(p.slots, vtx) && forall o :: o in items ==> TrueMatch(o, ids, vtx)
    ensures Agrees(OfferAll(p, ids, items, extra).slots, vtx)
    decreases |items|
  {
    if items != [] {
      OfferOk(p, ids, items[0].id, items[0].tx, extra);
      assert items[0] in items && TrueMatch(items[0], ids, vtx);
      OfferAllAgrees(Offer(p, ids, items[0].id, items[0].tx, extra), ids, items[1..], extra, vtx);
    }
  }
}
