/** Receiving a compact block and rebuilding the block from it. */
module BlockRebuild {
  import opened Basics
  import opened CompactBlocks

  /** A block that has been received in part. */
  datatype Partial = Partial(header: Option<int>, slots: Slots, prefilledCount: int, mempoolCount: int)

  const FRESH := Partial(None, [], 0, 0)

  ghost predicate AnyCrowded(crowded: int -> bool, n: int) { exists i :: 0 <= i < n && crowded(i) }

  /** What the sender makes of a block: the first transaction in full, the others by short id. */
  function Compacted(header: int, vtx: seq<Tx>, sid: Shortener): CompactBlock
    requires vtx != []
  {
    CompactBlock(Some(header), ShortIds(vtx[1..], sid), [Prefilled(0, vtx[0])])
  }

  function ShortIds(vtx: seq<Tx>, sid: Shortener): (ids: seq<ShortId>)
    ensures |ids| == |vtx| && forall i :: 0 <= i < |vtx| ==> ids[i] == sid(vtx[i].witnessHash)
  {
    if vtx == [] then [] else ShortIds(vtx[..|vtx| - 1], sid) + [sid(vtx[|vtx| - 1].witnessHash)]
  }

  /** Transactions of the mempool with their short ids. */
  function PoolItems(txs: seq<Tx>, sid: Shortener): (items: seq<Offered>)
    ensures |items| == |txs| && forall i :: 0 <= i < |txs| ==> items[i] == Offered(sid(txs[i].witnessHash), txs[i])
  {
    if txs == [] then []
    else PoolItems(txs[..|txs| - 1], sid) + [Offered(sid(txs[|txs| - 1].witnessHash), txs[|txs| - 1])]
  }

  /** An extra transaction comes with its witness hash. */
  datatype Extra = Extra(hash: int, tx: Tx)

  function ExtraItems(txs: seq<Extra>, sid: Shortener): (items: seq<Offered>)
    ensures |items| == |txs| && forall i :: 0 <= i < |txs| ==> items[i] == Offered(sid(txs[i].hash), txs[i].tx)
  {
    if txs == [] then [] else ExtraItems(txs[..|txs| - 1], sid) + [Offered(sid(txs[|txs| - 1].hash), txs[|txs| - 1].tx)]
  }

  predicate Refused(b: CompactBlock, p: Partial) {
    || b.header.None? || (b.shortIds == [] && b.prefilled == [])
    || Count(b) > MAX_TRANSACTIONS
    || p.header.Some? || p.slots != []
  }

  /** The map from short ids to the slots they are for. */
  function IdsOf(b: CompactBlock): map<ShortId, int>
    requires Received(b) && Fill(b, |b.prefilled|).ok
  {
    FreeCount(b, |b.prefilled|);
    IdMap(b.shortIds, Free(Fill(b, |b.prefilled|).slots), |b.shortIds|)
  }

  lemma StartOk(b: CompactBlock, count: int)
    requires Received(b) && Fill(b, |b.prefilled|).ok
    ensures PoolOk(Pool(Fill(b, |b.prefilled|).slots, Repeat(false, Count(b)), count), IdsOf(b))
  {
    hide Fill, Free, IdMap;
    var s := Fill(b, |b.prefilled|).slots;
    FreeCount(b, |b.prefilled|);
    FreeSlots(s);
    IdMapExact(b.shortIds, Free(s), |b.shortIds|);
  }

  /** The slots after mempool and extra transactions have been offered. */
  function Matched(b: CompactBlock, count: int, sid: Shortener, pool: seq<Tx>, extra: seq<Extra>): Pool
    requires Received(b) && Fill(b, |b.prefilled|).ok
  {
    StartOk(b, count);
    var p := Pool(Fill(b, |b.prefilled|).slots, Repeat(false, Count(b)), count);
    OfferAllOk(p, IdsOf(b), PoolItems(pool, sid), false);
    OfferAll(OfferAll(p, IdsOf(b), PoolItems(pool, sid), false), IdsOf(b), ExtraItems(extra, sid), true)
  }

  datatype Outcome = Outcome(status: Status, partial: Partial)

  /** The outcome of receiving a compact block. */
  ghost function InitOutcome(b: CompactBlock, p: Partial, sid: Shortener, pool: seq<Tx>, extra: seq<Extra>,
      crowded: int -> bool): Outcome
    requires Received(b)
  {
    if Refused(b, p) then Outcome(Invalid, p)
    else
      var f := Fill(b, |b.prefilled|);
      var q := Partial(b.header, f.slots, p.prefilledCount, p.mempoolCount);
      if !f.ok then Outcome(Invalid, q)
      else
        var r := q.(prefilledCount := |b.prefilled|);
        if AnyCrowded(crowded, |b.shortIds|) || |IdsOf(b)| != |b.shortIds| then Outcome(Failed, r)
        else
          var m := Matched(b, p.mempoolCount, sid, pool, extra);
          Outcome(Ok, r.(slots := m.slots, mempoolCount := m.count))
  }

  // ---- putting a block together ----

  datatype Assembly = Assembly(txs: seq<Tx>, used: nat)

  /** The first `n` transactions, taking missing ones in order for empty slots. */
  function Assemble(s: Slots, missing: seq<Tx>, n: nat): (r: Option<Assembly>)
    requires n <= |s|
    ensures r.Some? ==> |r.value.txs| == n && r.value.used <= |missing|
  {
    if n == 0 then Some(Assembly([], 0))
    else
      var r := Assemble(s, missing, n - 1);
      if r.None? then None
      else if s[n - 1].Some? then Some(Assembly(r.value.txs + [s[n - 1].value], r.value.used))
      else if r.value.used >= |missing| then None
      else Some(Assembly(r.value.txs + [missing[r.value.used]], r.value.used + 1))
  }

  /** The transactions of a block for the empty slots. */
  function Missing(s: Slots, vtx: seq<Tx>): seq<Tx>
    requires |s| == |vtx|
  {
    if s == [] then []
    else
      var n := |s| - 1;
      if s[n].None? then Missing(s[..n], vtx[..n]) + [vtx[n]] else Missing(s[..n], vtx[..n])
  }

  lemma {:induction false} AssemblePrefix(s: Slots, missing: seq<Tx>, more: seq<Tx>, n: nat)
    requires n <= |s| && Assemble(s, missing, n).Some?
    ensures Assemble(s, missing + more, n) == Assemble(s, missing, n)
  {
    if n > 0 {
      AssemblePrefix(s, missing, more, n - 1);
      var u := Assemble(s, missing, n - 1).value.used;
      if s[n - 1].None? { assert (missing + more)[u] == missing[u]; }
    }
  }

  lemma {:induction false} AssembleSlice(s: Slots, k: nat, missing: seq<Tx>, n: nat)
    requires n <= k <= |s|
    ensures Assemble(s[..k], missing, n) == Assemble(s, missing, n)
  {
    if n > 0 { AssembleSlice(s, k, missing, n - 1); }
  }

  /** Slots that agree with a block, and the missing transactions in order, give the block. */
  lemma {:induction false} AssembleMissing(s: Slots, vtx: seq<Tx>)
    requires Agrees(s, vtx)
    ensures Assemble(s, Missing(s, vtx), |s|) == Some(Assembly(vtx, |Missing(s, vtx)|))
  {
    hide Assemble, Missing, Agrees;
    AgreesLast(s, vtx);
    if s == [] {
      AssembleNothing(s, vtx);
    } else {
      var n := |s| - 1;
      var m := Missing(s[..n], vtx[..n]);
      MissingStep(s, vtx);
      AssembleMissing(s[..n], vtx[..n]);
      AssembleSlice(s, n, m, n);
      AssembleLast(s, m, vtx[..n], n, vtx[n]);
      assert vtx == vtx[..n] + [vtx[n]];
    }
  }

  lemma AgreesLast(s: Slots, vtx: seq<Tx>)
    requires Agrees(s, vtx)
    ensures |s| == |vtx|
    ensures s != [] ==> var n := |s| - 1; Agrees(s[..n], vtx[..n]) && (s[n].None? || s[n] == Some(vtx[n]))
  {
  }

  lemma AssembleNothing(s: Slots, vtx: seq<Tx>)
    requires s == [] && vtx == []
    ensures Missing(s, vtx) == [] && Assemble(s, [], 0) == Some(Assembly(vtx, 0))
  {
  }

  lemma AssembleLast(s: Slots, m: seq<Tx>, txs: seq<Tx>, n: nat, t: Tx)
    requires n < |s| && (s[n].None? || s[n] == Some(t))
    requires Assemble(s, m, n) == Some(Assembly(txs, |m|))
    ensures if s[n].Some? then Assemble(s, m, n + 1) == Some(Assembly(txs + [t], |m|))
            else Assemble(s, m + [t], n + 1) == Some(Assembly(txs + [t], |m| + 1))
  {
    hide Assemble;
    if s[n].None? {
      AssemblePrefix(s, m, [t], n);
      AssembleStep(s, m + [t], n);
    } else {
      AssembleStep(s, m, n);
    }
  }

  lemma MissingStep(s: Slots, vtx: seq<Tx>)
    requires |s| == |vtx| && s != []
    ensures var n := |s| - 1;
            Missing(s, vtx) == if s[n].None? then Missing(s[..n], vtx[..n]) + [vtx[n]] else Missing(s[..n], vtx[..n])
  {
  }

  lemma AssembleStep(s: Slots, missing: seq<Tx>, n: nat)
    requires n < |s|
    ensures var r := Assemble(s, missing, n);
            Assemble(s, missing, n + 1) ==
            if r.None? then None
            else if s[n].Some? then Some(Assembly(r.value.txs + [s[n].value], r.value.used))
            else if r.value.used >= |missing| then None
            else Some(Assembly(r.value.txs + [missing[r.value.used]], r.value.used + 1))
  {
  }

  // ---- rebuilding ----

  /** A message that stands for a block: its transactions sent in full, and short ids for the others in order. */
  ghost predicate Encodes(b: CompactBlock, vtx: seq<Tx>, sid: Shortener) {
    && Received(b) && Count(b) == |vtx| && Fill(b, |b.prefilled|).ok
    && (forall j :: 0 <= j < |b.prefilled| ==> 0 <= Position(b, j) < |vtx| && b.prefilled[j].tx == vtx[Position(b, j)])
    && var free := Free(Fill(b, |b.prefilled|).slots);
       forall k :: 0 <= k < |b.shortIds| && k < |free| && 0 <= free[k] < |vtx| ==>
         b.shortIds[k] == sid(vtx[free[k]].witnessHash)
  }

  lemma FilledAgrees(b: CompactBlock, vtx: seq<Tx>, sid: Shortener)
    requires Encodes(b, vtx, sid)
    ensures Agrees(Fill(b, |b.prefilled|).slots, vtx)
  {
    hide Fill, Position, Free;
    var (n, s) := (|b.prefilled|, Fill(b, |b.prefilled|).slots);
    forall p | 0 <= p < |s| && s[p].Some?
      ensures s[p] == Some(vtx[p])
    {
      FillOnly(b, n, p);
      var j :| 0 <= j < n && Position(b, j) == p;
      FillHolds(b, n, j);
    }
  }

  /** No available transaction has the short id of a different transaction of the block. */
  ghost predicate NoFalseMatch(vtx: seq<Tx>, sid: Shortener, o: Offered) {
    forall p :: 0 <= p < |vtx| && sid(vtx[p].witnessHash) == o.id ==> vtx[p] == o.tx
  }

  lemma MatchesAreTrue(b: CompactBlock, vtx: seq<Tx>, sid: Shortener, o: Offered)
    requires Encodes(b, vtx, sid) && |IdsOf(b)| == |b.shortIds| && NoFalseMatch(vtx, sid, o)
    ensures TrueMatch(o, IdsOf(b), vtx)
  {
    hide Fill, Free, IdMap, Position;
    var s := Fill(b, |b.prefilled|).slots;
    FreeCount(b, |b.prefilled|);
    FreeSlots(s);
    IdMapExact(b.shortIds, Free(s), |b.shortIds|);
  }

  /**
   If no available transaction matches a different one of the block, then an accepted
   message leaves slots that hold nothing but the transactions of the block, and the
   missing ones, in order, complete it.
   */
  lemma Rebuilds(b: CompactBlock, vtx: seq<Tx>, sid: Shortener, p: Partial, pool: seq<Tx>, extra: seq<Extra>,
      crowded: int -> bool)
    requires Encodes(b, vtx, sid)
    requires forall o :: o in PoolItems(pool, sid) ==> NoFalseMatch(vtx, sid, o)
    requires forall o :: o in ExtraItems(extra, sid) ==> NoFalseMatch(vtx, sid, o)
    requires InitOutcome(b, p, sid, pool, extra, crowded).status == Ok
    ensures var s := InitOutcome(b, p, sid, pool, extra, crowded).partial.slots;
            Agrees(s, vtx) && Assemble(s, Missing(s, vtx), |s|) == Some(Assembly(vtx, |Missing(s, vtx)|))
  {
    hide Encodes, Fill, IdsOf, NoFalseMatch, TrueMatch, OfferAll, PoolItems, ExtraItems, Agrees;
    EncodesOk(b, vtx, sid);
    FilledAgrees(b, vtx, sid);
    StartOk(b, p.mempoolCount);
    var s := Pool(Fill(b, |b.prefilled|).slots, Repeat(false, Count(b)), p.mempoolCount);
    forall o | o in PoolItems(pool, sid) ensures TrueMatch(o, IdsOf(b), vtx) { MatchesAreTrue(b, vtx, sid, o); }
    forall o | o in ExtraItems(extra, sid) ensures TrueMatch(o, IdsOf(b), vtx) { MatchesAreTrue(b, vtx, sid, o); }
    OfferAllOk(s, IdsOf(b), PoolItems(pool, sid), false);
    OfferAllAgrees(s, IdsOf(b), PoolItems(pool, sid), false, vtx);
    var t := OfferAll(s, IdsOf(b), PoolItems(pool, sid), false);
    OfferAllAgrees(t, IdsOf(b), ExtraItems(extra, sid), true, vtx);
    AssembleMissing(Matched(b, p.mempoolCount, sid, pool, extra).slots, vtx);
  }

  lemma EncodesOk(b: CompactBlock, vtx: seq<Tx>, sid: Shortener)
    requires Encodes(b, vtx, sid)
    ensures Received(b) && Fill(b, |b.prefilled|).ok && Count(b) == |vtx|
  {
  }

  /** What the sender makes of a block stands for it, and only the first transaction is sent in full. */
  lemma CompactedEncodes(header: int, vtx: seq<Tx>, sid: Shortener)
    requires 1 <= |vtx| <= MAX_16 && !vtx[0].isNull
    ensures var b := Compacted(header, vtx, sid);
            && Encodes(b, vtx, sid) && b.header == Some(header)
            && forall p :: SentAt(b, |b.prefilled|, p) <==> p == 0
  {
    var b := Compacted(header, vtx, sid);
    var (f, g) := (Fill(b, 0), Fill(b, 1));
    assert g == Filling(true, f.slots[0 := Some(vtx[0])], 0);
    FreeAfterFirst(vtx[0], |vtx|);
    assert Position(b, 0) == 0;
  }

  lemma {:induction false} FreeAfterFirst(t: Tx, n: nat)
    requires n >= 1
    ensures var r := Free(Repeat(None, n)[0 := Some(t)]); |r| == n - 1 && forall k :: 0 <= k < n - 1 ==> r[k] == k + 1
  {
    var s := Repeat(None, n)[0 := Some(t)];
    if n > 1 {
      FreeAfterFirst(t, n - 1);
      assert s[..n - 1] == Repeat(None, n - 1)[0 := Some(t)];
    } else {
      assert s[..0] == [];
    }
  }

  /** The count of transactions found is that of the short ids whose slot is filled. */
  lemma CountIsExact(b: CompactBlock, p: Partial, sid: Shortener, pool: seq<Tx>, extra: seq<Extra>,
      crowded: int -> bool)
    requires Received(b) && InitOutcome(b, p, sid, pool, extra, crowded).status == Ok
    ensures var q := InitOutcome(b, p, sid, pool, extra, crowded).partial;
            q.mempoolCount - p.mempoolCount == |b.shortIds| - |Free(q.slots)|
  {
    hide Fill, IdsOf, OfferAll, PoolItems, ExtraItems, Free;
    StartOk(b, p.mempoolCount);
    FreeCount(b, |b.prefilled|);
    var s := Pool(Fill(b, |b.prefilled|).slots, Repeat(false, Count(b)), p.mempoolCount);
    OfferAllOk(s, IdsOf(b), PoolItems(pool, sid), false);
    OfferAllCounts(s, IdsOf(b), PoolItems(pool, sid), false);
    OfferAllCounts(OfferAll(s, IdsOf(b), PoolItems(pool, sid), false), IdsOf(b), ExtraItems(extra, sid), true);
  }
}
