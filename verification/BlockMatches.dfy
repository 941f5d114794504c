/**
 Exactly which compact blocks are accepted, which slots the available transactions
 fill, and which transactions complete the block.
 */
module BlockMatches {
  import opened Basics
  import opened CompactBlocks
  import opened BlockRebuild

  // ---- acceptance ----

  /** A transaction sent in full can be taken: it is not null, and leaves no slot before it without a short id. */
  ghost predicate Placeable(b: CompactBlock, j: nat)
    requires j < |b.prefilled|
  {
    !b.prefilled[j].tx.isNull && Position(b, j) <= 65535 && Position(b, j) <= |b.shortIds| + j
  }

  lemma {:induction false} FillExactly(b: CompactBlock, i: nat)
    requires Received(b) && i <= |b.prefilled|
    ensures Fill(b, i).ok <==> forall j :: 0 <= j < i ==> Placeable(b, j)
  {
    if i > 0 {
      FillExactly(b, i - 1);
      if Fill(b, i - 1).ok {
        FillLast(b, i - 1);
        PositionNatural(b, i - 1);
        assert Fill(b, i).ok <==> Placeable(b, i - 1);
      } else {
        var j :| 0 <= j < i - 1 && !Placeable(b, j);
      }
    }
  }

  lemma {:induction false} PositionNatural(b: CompactBlock, j: nat)
    requires Received(b) && j < |b.prefilled|
    ensures Position(b, j) >= 0
  {
    if j > 0 { PositionNatural(b, j - 1); }
  }

  ghost predicate DistinctIds(ids: seq<ShortId>) { forall j, k :: 0 <= j < k < |ids| ==> ids[j] != ids[k] }

  lemma {:induction false} DistinctMap(ids: seq<ShortId>, free: seq<int>, n: nat)
    requires n <= |ids| && n <= |free| && DistinctIds(ids)
    ensures |IdMap(ids, free, n)| == n
  {
    if n > 0 {
      DistinctMap(ids, free, n - 1);
      IdMapFrom(ids, free, n - 1);
      var (m, id) := (IdMap(ids, free, n - 1), ids[n - 1]);
      assert id !in m;
      assert m[id := free[n - 1]].Keys == m.Keys + {id};
    }
  }

  /**
   A message is accepted exactly if it has a header and a transaction, the object is
   unused, every transaction sent in full can be taken, no two short ids are the same and
   no bucket gets crowded. It is only the last two that make it a failure, not a fault.
   */
  lemma AcceptedExactly(b: CompactBlock, p: Partial, sid: Shortener, pool: seq<Tx>, extra: seq<Extra>,
      crowded: int -> bool)
    requires Received(b)
    ensures var out := InitOutcome(b, p, sid, pool, extra, crowded);
            var wellFormed := b.header.Some? && |b.shortIds| + |b.prefilled| > 0 && p.header.None? && p.slots == [] &&
                              forall j :: 0 <= j < |b.prefilled| ==> Placeable(b, j);
            var lucky := DistinctIds(b.shortIds) && forall i :: 0 <= i < |b.shortIds| ==> !crowded(i);
            && (out.status == Ok <==> wellFormed && lucky)
            && (out.status == Failed <==> wellFormed && !lucky)
            && (out.status == Ok ==> out.partial.header == b.header && out.partial.prefilledCount == |b.prefilled|)
  {
    hide Fill, Free, IdMap, Matched, Placeable;
    FillExactly(b, |b.prefilled|);
    if Fill(b, |b.prefilled|).ok {
      FreeCount(b, |b.prefilled|);
      var free := Free(Fill(b, |b.prefilled|).slots);
      IdMapSize(b.shortIds, free, |b.shortIds|);
      if DistinctIds(b.shortIds) { DistinctMap(b.shortIds, free, |b.shortIds|); }
    }
  }

  /** What the sender makes of a block is accepted by an unused object, unless short ids collide or crowd. */
  lemma CompactedAccepted(header: int, vtx: seq<Tx>, sid: Shortener, pool: seq<Tx>, extra: seq<Extra>,
      crowded: int -> bool)
    requires 1 <= |vtx| <= MAX_16 && !vtx[0].isNull
    requires forall i, j :: 1 <= i < j < |vtx| ==> sid(vtx[i].witnessHash) != sid(vtx[j].witnessHash)
    requires forall i :: 0 <= i < |vtx| - 1 ==> !crowded(i)
    ensures var b := Compacted(header, vtx, sid);
            Received(b) && InitOutcome(b, FRESH, sid, pool, extra, crowded).status == Ok
  {
    hide InitOutcome;
    var b := Compacted(header, vtx, sid);
    AcceptedExactly(b, FRESH, sid, pool, extra, crowded);
    assert Position(b, 0) == 0;
  }

  // ---- which slots are filled ----

  /** A slot for a short id is taken, and filled, exactly if that id has been offered. */
  ghost predicate Found(p: Pool, ids: map<ShortId, int>, seen: set<ShortId>)
    requires PoolOk(p, ids)
  {
    forall id :: id in ids ==> p.have[ids[id]] == (id in seen) && p.slots[ids[id]].Some? == (id in seen)
  }

  ghost predicate OneToOne(ids: map<ShortId, int>) {
    forall a, c :: a in ids && c in ids && ids[a] == ids[c] ==> a == c
  }

  function IdsIn(items: seq<Offered>): set<ShortId> {
    if items == [] then {} else {items[0].id} + IdsIn(items[1..])
  }

  lemma {:induction false} IdsInExactly(items: seq<Offered>, id: ShortId)
    ensures id in IdsIn(items) <==> exists i :: 0 <= i < |items| && items[i].id == id
  {
    if items != [] {
      IdsInExactly(items[1..], id);
      if i :| 0 <= i < |items| && items[i].id == id {
        if i > 0 { assert items[1..][i - 1].id == id; }
      }
    }
  }

  /** Every offer is new, or repeats what is in the slot and comes from the extra transactions. */
  ghost predicate Peaceful(items: seq<Offered>, ids: map<ShortId, int>, seen: set<ShortId>, extra: bool) {
    extra || forall i :: 0 <= i < |items| && items[i].id in ids ==>
      items[i].id !in seen && forall j :: 0 <= j < i ==> items[j].id != items[i].id
  }

  lemma OfferFinds(p: Pool, ids: map<ShortId, int>, o: Offered, extra: bool, vtx: seq<Tx>, seen: set<ShortId>)
    requires PoolOk(p, ids) && OneToOne(ids) && Found(p, ids, seen)
    requires Agrees(p.slots, vtx) && TrueMatch(o, ids, vtx) && (extra || o.id !in ids || o.id !in seen)
    ensures PoolOk(Offer(p, ids, o.id, o.tx, extra), ids)
    ensures Found(Offer(p, ids, o.id, o.tx, extra), ids, seen + {o.id})
    ensures Agrees(Offer(p, ids, o.id, o.tx, extra).slots, vtx)
  {
  }

  lemma NoneFree(s: Slots)
    requires Free(s) == []
    ensures forall i :: 0 <= i < |s| ==> s[i].Some?
  {
    forall i | 0 <= i < |s| ensures s[i].Some? {
      if s[i].None? {
        FreeAll(s, i);
        assert false;
      }
    }
  }

  /** Stopping early is harmless: by then every slot is filled. */
  lemma {:induction false} OfferAllFinds(p: Pool, ids: map<ShortId, int>, items: seq<Offered>, extra: bool,
      vtx: seq<Tx>, seen: set<ShortId>)
    requires PoolOk(p, ids) && OneToOne(ids) && Found(p, ids, seen) && p.count + |Free(p.slots)| == |ids|
    requires Agrees(p.slots, vtx) && (forall o :: o in items ==> TrueMatch(o, ids, vtx))
    requires Peaceful(items, ids, seen, extra)
    ensures PoolOk(OfferAll(p, ids, items, extra), ids)
    ensures Found(OfferAll(p, ids, items, extra), ids, seen + IdsIn(items))
    decreases |items|
  {
    hide Free, OneToOne, TrueMatch, Agrees;
    if items == [] {
      assert seen + {} == seen;
    } else {
      var o := items[0];
      assert o in items;
      OfferFinds(p, ids, o, extra, vtx, seen);
      OfferCounts(p, ids, o.id, o.tx, extra);
      var q := Offer(p, ids, o.id, o.tx, extra);
      hide Offer;
      assert seen + IdsIn(items) == (seen + {o.id}) + IdsIn(items[1..]);
      if q.count == |ids| {
        NoneFree(q.slots);
      } else {
        PeacefulRest(items, ids, seen, extra);
        OfferAllFinds(q, ids, items[1..], extra, vtx, seen + {o.id});
      }
    }
  }

  lemma PeacefulRest(items: seq<Offered>, ids: map<ShortId, int>, seen: set<ShortId>, extra: bool)
    requires items != [] && Peaceful(items, ids, seen, extra)
    ensures Peaceful(items[1..], ids, seen + {items[0].id}, extra)
  {
    if !extra {
      forall i | 0 <= i < |items| - 1 && items[1..][i].id in ids
        ensures items[1..][i].id !in seen + {items[0].id}
        ensures forall j :: 0 <= j < i ==> items[1..][j].id != items[1..][i].id
      {
        assert items[1..][i] == items[i + 1];
        forall j | 0 <= j < i ensures items[1..][j].id != items[1..][i].id { assert items[1..][j] == items[j + 1]; }
      }
    }
  }

  /** Slots of no short id stay as they are. */
  lemma {:induction false} OfferAllFrame(p: Pool, ids: map<ShortId, int>, items: seq<Offered>, extra: bool, i: int)
    requires PoolOk(p, ids) && 0 <= i < |p.slots| && forall id :: id in ids ==> ids[id] != i
    ensures |OfferAll(p, ids, items, extra).slots| == |p.slots|
    ensures OfferAll(p, ids, items, extra).slots[i] == p.slots[i]
    decreases |items|
  {
    if items != [] {
      OfferOk(p, ids, items[0].id, items[0].tx, extra);
      OfferAllFrame(Offer(p, ids, items[0].id, items[0].tx, extra), ids, items[1..], extra, i);
    }
  }

  /** The short id of each slot not sent in full leads to that slot and to no other. */
  lemma IdsLead(b: CompactBlock, vtx: seq<Tx>, sid: Shortener)
    requires Encodes(b, vtx, sid) && |IdsOf(b)| == |b.shortIds|
    ensures OneToOne(IdsOf(b))
    ensures forall p :: 0 <= p < |vtx| && !SentAt(b, |b.prefilled|, p) ==>
              var id := sid(vtx[p].witnessHash); id in IdsOf(b) && IdsOf(b)[id] == p
    ensures forall id :: id in IdsOf(b) ==> 0 <= IdsOf(b)[id] < |vtx| && !SentAt(b, |b.prefilled|, IdsOf(b)[id])
  {
    hide Fill, Free, IdMap, Position, SentAt;
    var s := Fill(b, |b.prefilled|).slots;
    var free := Free(s);
    Partition(b);
    FreeSlots(s);
    IdMapExact(b.shortIds, free, |b.shortIds|);
  }

  /** No transaction is twice in the mempool. */
  ghost predicate NoneTwice(pool: seq<Tx>) { forall i, j :: 0 <= i < j < |pool| ==> pool[i] != pool[j] }

  lemma PoolIsPeaceful(b: CompactBlock, vtx: seq<Tx>, sid: Shortener, pool: seq<Tx>)
    requires Encodes(b, vtx, sid) && |IdsOf(b)| == |b.shortIds| && NoneTwice(pool)
    requires forall o :: o in PoolItems(pool, sid) ==> TrueMatch(o, IdsOf(b), vtx)
    ensures Peaceful(PoolItems(pool, sid), IdsOf(b), {}, false)
  {
    hide Encodes, IdsOf, PoolItems;
    EncodesOk(b, vtx, sid);
    var items := PoolItems(pool, sid);
    forall i, j | 0 <= j < i < |items| && items[i].id in IdsOf(b)
      ensures items[j].id != items[i].id
    {
      assert items[i] in items && items[j] in items;
      assert pool[j] != pool[i];
    }
  }

  /**
   If no available transaction is mistaken for one of the block, an unused object ends up
   with exactly the slots filled whose transactions were sent or are available.
   */
  lemma SlotsFilledExactly(b: CompactBlock, vtx: seq<Tx>, sid: Shortener, pool: seq<Tx>, extra: seq<Extra>,
      crowded: int -> bool, p: nat)
    requires Encodes(b, vtx, sid) && p < |vtx| && NoneTwice(pool)
    requires forall o :: o in PoolItems(pool, sid) ==> NoFalseMatch(vtx, sid, o)
    requires forall o :: o in ExtraItems(extra, sid) ==> NoFalseMatch(vtx, sid, o)
    requires InitOutcome(b, FRESH, sid, pool, extra, crowded).status == Ok
    ensures var s := InitOutcome(b, FRESH, sid, pool, extra, crowded).partial.slots;
            && |s| == |vtx|
            && (s[p].Some? <==> || SentAt(b, |b.prefilled|, p) || vtx[p] in pool
                                || exists i :: 0 <= i < |extra| && sid(extra[i].hash) == sid(vtx[p].witnessHash))
  {
    hide Encodes, Fill, IdsOf, NoFalseMatch, TrueMatch, OfferAll, PoolItems, ExtraItems, Agrees, SentAt, Peaceful,
         OneToOne, Found, Free, NoneTwice;
    EncodesOk(b, vtx, sid);
    FilledAgrees(b, vtx, sid);
    StartOk(b, 0);
    IdsLead(b, vtx, sid);
    var ids := IdsOf(b);
    var (ps, es) := (PoolItems(pool, sid), ExtraItems(extra, sid));
    forall o | o in ps ensures TrueMatch(o, ids, vtx) { MatchesAreTrue(b, vtx, sid, o); }
    forall o | o in es ensures TrueMatch(o, ids, vtx) { MatchesAreTrue(b, vtx, sid, o); }
    var s := Pool(Fill(b, |b.prefilled|).slots, Repeat(false, Count(b)), 0);
    OfferAllOk(s, ids, ps, false);
    var t := OfferAll(s, ids, ps, false);
    if SentAt(b, |b.prefilled|, p) {
      OfferAllFrame(s, ids, ps, false, p);
      OfferAllFrame(t, ids, es, true, p);
      FilledExactly(b, |b.prefilled|, p);
    } else {
      StartFinds(b, vtx, sid);
      PoolIsPeaceful(b, vtx, sid, pool);
      FreeCount(b, |b.prefilled|);
      OfferAllFinds(s, ids, ps, false, vtx, {});
      OfferAllCounts(s, ids, ps, false);
      OfferAllAgrees(s, ids, ps, false, vtx);
      ExtraIsPeaceful(es, ids, {} + IdsIn(ps));
      OfferAllFinds(t, ids, es, true, vtx, {} + IdsIn(ps));
      OfferAllOk(t, ids, es, true);
      FoundAt(OfferAll(t, ids, es, true), ids, {} + IdsIn(ps) + IdsIn(es), sid(vtx[p].witnessHash));
      OfferedAt(vtx, sid, pool, extra, p);
    }
  }

  lemma StartFinds(b: CompactBlock, vtx: seq<Tx>, sid: Shortener)
    requires Encodes(b, vtx, sid) && |IdsOf(b)| == |b.shortIds|
    ensures var s := Pool(Fill(b, |b.prefilled|).slots, Repeat(false, Count(b)), 0);
            PoolOk(s, IdsOf(b)) && Found(s, IdsOf(b), {})
  {
    hide Fill, Free, IdMap, Position, SentAt, Encodes;
    EncodesOk(b, vtx, sid);
    StartOk(b, 0);
  }

  lemma ExtraIsPeaceful(items: seq<Offered>, ids: map<ShortId, int>, seen: set<ShortId>)
    ensures Peaceful(items, ids, seen, true)
  {
  }

  lemma FoundAt(p: Pool, ids: map<ShortId, int>, seen: set<ShortId>, id: ShortId)
    requires PoolOk(p, ids) && Found(p, ids, seen) && id in ids
    ensures p.slots[ids[id]].Some? <==> id in seen
  {
  }

  /** The short id of a transaction of the block is offered exactly if the transaction is available. */
  lemma OfferedAt(vtx: seq<Tx>, sid: Shortener, pool: seq<Tx>, extra: seq<Extra>, p: nat)
    requires p < |vtx| && forall o :: o in PoolItems(pool, sid) ==> NoFalseMatch(vtx, sid, o)
    ensures var id := sid(vtx[p].witnessHash);
            && (id in IdsIn(PoolItems(pool, sid)) <==> vtx[p] in pool)
            && (id in IdsIn(ExtraItems(extra, sid)) <==> exists i :: 0 <= i < |extra| && sid(extra[i].hash) == id)
  {
    hide IdsIn, PoolItems, ExtraItems;
    var id := sid(vtx[p].witnessHash);
    var (ps, es) := (PoolItems(pool, sid), ExtraItems(extra, sid));
    IdsInExactly(ps, id);
    IdsInExactly(es, id);
    if i :| 0 <= i < |ps| && ps[i].id == id {
      assert ps[i] in ps;
      assert vtx[p] == ps[i].tx == pool[i];
    }
    if i :| 0 <= i < |pool| && pool[i] == vtx[p] {
      assert ps[i].id == id;
    }
    assert forall i :: 0 <= i < |extra| ==> es[i].id == sid(extra[i].hash);
  }

  lemma {:induction false} EmptiedStays(p: Pool, ids: map<ShortId, int>, items: seq<Offered>, extra: bool, i: int)
    requires PoolOk(p, ids) && 0 <= i < |p.slots| && p.have[i] && p.slots[i].None?
    ensures var q := OfferAll(p, ids, items, extra); |q.slots| == |p.slots| && q.slots[i].None?
    decreases |items|
  {
    if items != [] {
      OfferOk(p, ids, items[0].id, items[0].tx, extra);
      EmptiedStays(Offer(p, ids, items[0].id, items[0].tx, extra), ids, items[1..], extra, i);
    }
  }

  /** A second match, except of the same transaction among the extra ones, empties the slot for good. */
  lemma SecondMatchEmpties(p: Pool, ids: map<ShortId, int>, items: seq<Offered>, extra: bool)
    requires PoolOk(p, ids) && items != [] && items[0].id in ids
    requires var i := ids[items[0].id];
             p.have[i] && p.slots[i].Some? && !(extra && p.slots[i].value.witnessHash == items[0].tx.witnessHash)
    ensures var q := OfferAll(p, ids, items, extra); |q.slots| == |p.slots| && q.slots[ids[items[0].id]].None?
  {
    OfferOk(p, ids, items[0].id, items[0].tx, extra);
    EmptiedStays(Offer(p, ids, items[0].id, items[0].tx, extra), ids, items[1..], extra, ids[items[0].id]);
  }

  // ---- completing the block ----

  /** Each filled slot gives its own transaction, and the k-th empty slot takes the k-th missing one. */
  ghost predicate Completed(s: Slots, free: seq<int>, missing: seq<Tx>, txs: seq<Tx>) {
    && |txs| == |s| && |free| <= |missing|
    && (forall i :: 0 <= i < |s| && s[i].Some? ==> txs[i] == s[i].value)
    && (forall k :: 0 <= k < |free| ==> 0 <= free[k] < |s| && txs[free[k]] == missing[k])
  }

  lemma CompletedStep(s: Slots, free: seq<int>, missing: seq<Tx>, txs: seq<Tx>)
    requires s != [] && Completed(s[..|s| - 1], free, missing, txs)
    ensures var n := |s| - 1;
            if s[n].Some? then Completed(s, free, missing, txs + [s[n].value])
            else |free| < |missing| ==> Completed(s, free + [n], missing, txs + [missing[|free|]])
  {
  }

  /** The block can be completed exactly if there are as many transactions as empty slots, and uses that many. */
  lemma {:induction false} AssembleExactly(s: Slots, missing: seq<Tx>)
    ensures var r := Assemble(s, missing, |s|);
            && (r.Some? <==> |Free(s)| <= |missing|)
            && (r.Some? ==> r.value.used == |Free(s)| && Completed(s, Free(s), missing, r.value.txs))
  {
    if s != [] {
      hide Completed;
      var n := |s| - 1;
      AssembleExactly(s[..n], missing);
      AssembleSlice(s, n, missing, n);
      AssembleStep(s, missing, n);
      hide Assemble;
      var r := Assemble(s, missing, n);
      if r.Some? { CompletedStep(s, Free(s[..n]), missing, r.value.txs); }
    }
  }
}
