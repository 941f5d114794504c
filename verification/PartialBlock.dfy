/** A partially downloaded block, filled in place. */
module PartialBlock {
  import opened Basics
  import opened CompactBlocks
  import opened BlockRebuild

  /** What the check of a complete block says. */
  datatype Verdict = Passes | Mutated | Fails

  class PartiallyDownloadedBlock {
    var txnAvailable: Slots
    var prefilledCount: int
    var mempoolCount: int
    var header: Option<int>

    ghost function Abs(): Partial
      reads this
    {
      Partial(header, txnAvailable, prefilledCount, mempoolCount)
    }

    constructor ()
      ensures Abs() == FRESH
    {
      txnAvailable, prefilledCount, mempoolCount, header := [], 0, 0, None;
    }

    /** Puts the transactions sent in full into their slots. */
    method Prefill(b: CompactBlock) returns (ok: bool)
      requires Received(b)
      modifies this`txnAvailable
      ensures var f := Fill(b, |b.prefilled|); ok == f.ok && txnAvailable == f.slots
    {
      hide Fill;
      FillNone(b);
      txnAvailable := Repeat(None, Count(b));
      var last := -1;
      var i := 0;
      while i < |b.prefilled|
        invariant 0 <= i <= |b.prefilled| && Fill(b, i) == Filling(true, txnAvailable, last) && last >= -1
      {
        FillNext(b, i);
        var p := b.prefilled[i];
        if p.tx.isNull {
          RefusedStays(b, i + 1, |b.prefilled|);
          return false;
        }
        last := last + p.index + 1;
        if last > MAX_16 || last > |b.shortIds| + i {
          RefusedStays(b, i + 1, |b.prefilled|);
          return false;
        }
        txnAvailable := txnAvailable[last := Some(p.tx)];
        i := i + 1;
      }
      return true;
    }

    /** Maps each short id to the next empty slot; fails if the map gets crowded. */
    method MapShortIds(b: CompactBlock, crowded: int -> bool) returns (ok: bool, ids: map<ShortId, int>)
      requires |b.shortIds| == |Free(txnAvailable)|
      ensures ok <==> !AnyCrowded(crowded, |b.shortIds|)
      ensures ok ==> ids == IdMap(b.shortIds, Free(txnAvailable), |b.shortIds|)
    {
      hide Free;
      ids := map[];
      var indexOffset := 0;
      var i := 0;
      FreeNone(txnAvailable);
      while i < |b.shortIds|
        invariant 0 <= i <= |b.shortIds| && indexOffset >= 0 && i + indexOffset <= |txnAvailable|
        invariant |Free(txnAvailable[..i + indexOffset])| == i
        invariant ids == IdMap(b.shortIds, Free(txnAvailable), i)
        invariant !AnyCrowded(crowded, i)
      {
        FreeAhead(txnAvailable, i + indexOffset);
        while txnAvailable[i + indexOffset].Some?
          invariant indexOffset >= 0 && i + indexOffset < |txnAvailable|
          invariant |Free(txnAvailable[..i + indexOffset])| == i
          decreases |txnAvailable| - indexOffset
        {
          FreeStep(txnAvailable, i + indexOffset);
          FreeAhead(txnAvailable, i + indexOffset + 1);
          indexOffset := indexOffset + 1;
        }
        FreeStep(txnAvailable, i + indexOffset);
        FreeAt(txnAvailable, i + indexOffset);
        ids := ids[b.shortIds[i] := i + indexOffset];
        if crowded(i) { return false, ids; }
        i := i + 1;
      }
      return true, ids;
    }

    /** Offers transactions for the slots of their short ids. */
    method Match(ids: map<ShortId, int>, have: seq<bool>, items: seq<Offered>, extra: bool) returns (newHave: seq<bool>)
      requires PoolOk(Pool(txnAvailable, have, mempoolCount), ids)
      modifies this`txnAvailable, this`mempoolCount
      ensures Pool(txnAvailable, newHave, mempoolCount) ==
              OfferAll(old(Pool(txnAvailable, have, mempoolCount)), ids, items, extra)
    {
      hide OfferAll;
      newHave := have;
      var i := 0;
      ghost var start := Pool(txnAvailable, have, mempoolCount);
      assert items[0..] == items;
      while i < |items|
        invariant 0 <= i <= |items| && PoolOk(Pool(txnAvailable, newHave, mempoolCount), ids)
        invariant OfferAll(start, ids, items, extra) ==
                  OfferAll(Pool(txnAvailable, newHave, mempoolCount), ids, items[i..], extra)
      {
        ghost var p := Pool(txnAvailable, newHave, mempoolCount);
        OfferOk(p, ids, items[i].id, items[i].tx, extra);
        OfferStep(p, ids, items[i..], extra);
        var (id, tx) := (items[i].id, items[i].tx);
        if id in ids {
          var at := ids[id];
          if !newHave[at] {
            txnAvailable := txnAvailable[at := Some(tx)];
            newHave := newHave[at := true];
            mempoolCount := mempoolCount + 1;
          } else if txnAvailable[at].Some? && (!extra || txnAvailable[at].value.witnessHash != tx.witnessHash) {
            txnAvailable := txnAvailable[at := None];
            mempoolCount := mempoolCount - 1;
          }
        }
        if mempoolCount == |ids| { return; }
        assert items[i..][1..] == items[i + 1..];
        i := i + 1;
      }
      OfferNone(Pool(txnAvailable, newHave, mempoolCount), ids, items[i..], extra);
    }

    method InitData(b: CompactBlock, sid: Shortener, pool: seq<Tx>, extra: seq<Extra>, crowded: int -> bool)
      returns (status: Status)
      requires Received(b)
      modifies this
      ensures Outcome(status, Abs()) == InitOutcome(b, old(Abs()), sid, pool, extra, crowded)
    {
      hide Fill, Free, IdMap, OfferAll, PoolItems, ExtraItems, AnyCrowded;
      if b.header.None? || (b.shortIds == [] && b.prefilled == []) { return Invalid; }
      if |b.shortIds| + |b.prefilled| > MAX_TRANSACTIONS { return Invalid; }
      if header.Some? || txnAvailable != [] { return Invalid; }
      header := b.header;
      var ok := Prefill(b);
      if !ok { return Invalid; }
      prefilledCount := |b.prefilled|;
      FreeCount(b, |b.prefilled|);
      var calm, ids := MapShortIds(b, crowded);
      if !calm { return Failed; }
      if |ids| != |b.shortIds| { return Failed; }
      StartOk(b, mempoolCount);
      var have := Repeat(false, |txnAvailable|);
      OfferAllOk(Pool(txnAvailable, have, mempoolCount), ids, PoolItems(pool, sid), false);
      have := Match(ids, have, PoolItems(pool, sid), false);
      have := Match(ids, have, ExtraItems(extra, sid), true);
      return Ok;
    }

    /**
     Completes the block with the missing transactions. Unless one is missing still,
     the object is spent afterwards; then the block has every transaction in its place.
     Otherwise the slots before the one that stays empty have been moved from.
     */
    method FillBlock(missing: seq<Tx>, check: seq<Tx> -> Verdict) returns (status: Status, vtx: seq<Tx>)
      modifies this`header, this`txnAvailable
      ensures old(header).None? ==> status == Invalid && Abs() == old(Abs())
      ensures old(header).Some? ==>
                var r := Assemble(old(txnAvailable), missing, |old(txnAvailable)|);
                if r.None? then
                  && status == Invalid && header == old(header)
                  && exists i :: MovedUpTo(old(txnAvailable), missing, txnAvailable, i)
                else
                  && header == None && txnAvailable == []
                  && if r.value.used != |missing| then status == Invalid
                     else
                       && vtx == r.value.txs
                       && status == match check(vtx)
                                    case Passes => Ok
                                    case Mutated => Failed
                                    case Fails => CheckFailed
    {
      vtx := [];
      if header.None? { return Invalid, []; }
      hide Assemble;
      ghost var slots := txnAvailable;
      AssembleNone(slots, missing);
      var offset := 0;
      var i := 0;
      while i < |txnAvailable|
        invariant 0 <= i <= |slots| == |txnAvailable| && txnAvailable[i..] == slots[i..] && header == old(header)
        invariant forall j :: 0 <= j < i ==> txnAvailable[j] == None
        invariant Assemble(slots, missing, i) == Some(Assembly(vtx, offset))
      {
        AssembleStep(slots, missing, i);
        assert txnAvailable[i] == txnAvailable[i..][0] == slots[i];
        if txnAvailable[i].None? {
          if |missing| <= offset {
            NoneStays(slots, missing, i + 1);
            assert MovedUpTo(slots, missing, txnAvailable, i);
            return Invalid, [];
          }
          vtx := vtx + [missing[offset]];
          offset := offset + 1;
        } else {
          vtx := vtx + [txnAvailable[i].value];
          txnAvailable := txnAvailable[i := None];
        }
        assert txnAvailable[i + 1..] == slots[i..][1..] == slots[i + 1..];
        i := i + 1;
      }
      header := None;
      txnAvailable := [];
      if |missing| != offset { return Invalid, vtx; }
      match check(vtx)
      case Passes => return Ok, vtx;
      case Mutated => return Failed, vtx;
      case Fails => return CheckFailed, vtx;
    }
  }

  /** The slots before the first for which no transaction is left have been moved from. */
  ghost predicate MovedUpTo(s: Slots, missing: seq<Tx>, left: Slots, i: int) {
    && 0 <= i < |s| == |left| && Assemble(s, missing, i).Some? && Assemble(s, missing, i + 1).None?
    && (forall j :: 0 <= j < i ==> left[j] == None)
    && left[i..] == s[i..]
  }

  // ---- one turn of each loop ----

  lemma FillNext(b: CompactBlock, i: nat)
    requires Received(b) && i < |b.prefilled|
    ensures var (f, p) := (Fill(b, i), b.prefilled[i]);
            var next := f.last + p.index + 1;
            Fill(b, i + 1) ==
            if !f.ok then f
            else if p.tx.isNull then f.(ok := false)
            else if next < 0 || next > MAX_16 || next > |b.shortIds| + i then Filling(false, f.slots, next)
            else Filling(true, f.slots[next := Some(p.tx)], next)
  {
  }

  lemma {:induction false} RefusedStays(b: CompactBlock, i: nat, n: nat)
    requires Received(b) && i <= n <= |b.prefilled| && !Fill(b, i).ok
    ensures Fill(b, n) == Fill(b, i)
  {
    if i < n { RefusedStays(b, i, n - 1); }
  }

  lemma FreeNone(s: Slots)
    ensures Free(s[..0]) == []
  {
  }

  lemma FreeStep(s: Slots, p: nat)
    requires p < |s|
    ensures Free(s[..p + 1]) == if s[p].None? then Free(s[..p]) + [p] else Free(s[..p])
  {
    assert s[..p + 1][..p] == s[..p];
  }

  lemma {:induction false} FreePrefix(s: Slots, p: nat)
    requires p <= |s|
    ensures Free(s[..p]) <= Free(s)
  {
    if p < |s| {
      var n := |s| - 1;
      assert s[..n][..p] == s[..p];
      FreePrefix(s[..n], p);
    } else {
      assert s[..p] == s;
    }
  }

  /** While an empty slot is ahead, there is a slot ahead. */
  lemma FreeAhead(s: Slots, p: nat)
    requires p <= |s|
    ensures |Free(s[..p])| < |Free(s)| ==> p < |s|
  {
    if p == |s| { assert s[..p] == s; }
  }

  lemma FreeAt(s: Slots, p: nat)
    requires p < |s| && s[p].None?
    ensures |Free(s[..p])| < |Free(s)| && Free(s)[|Free(s[..p])|] == p
  {
    FreeStep(s, p);
    FreePrefix(s, p + 1);
  }

  lemma OfferStep(p: Pool, ids: map<ShortId, int>, items: seq<Offered>, extra: bool)
    requires PoolOk(p, ids) && items != [] && PoolOk(Offer(p, ids, items[0].id, items[0].tx, extra), ids)
    ensures var q := Offer(p, ids, items[0].id, items[0].tx, extra);
            OfferAll(p, ids, items, extra) == if q.count == |ids| then q else OfferAll(q, ids, items[1..], extra)
  {
  }

  lemma OfferNone(p: Pool, ids: map<ShortId, int>, items: seq<Offered>, extra: bool)
    requires PoolOk(p, ids) && items == []
    ensures OfferAll(p, ids, items, extra) == p
  {
  }

  lemma AssembleNone(s: Slots, missing: seq<Tx>)
    ensures Assemble(s, missing, 0) == Some(Assembly([], 0))
  {
  }

  lemma {:induction false} NoneStays(s: Slots, missing: seq<Tx>, n: nat)
    requires n <= |s| && Assemble(s, missing, n).None?
    ensures Assemble(s, missing, |s|).None?
  {
    var k := n;
    while k < |s|
      invariant n <= k <= |s| && Assemble(s, missing, k).None?
    {
      k := k + 1;
    }
  }
}
