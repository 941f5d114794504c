/**
 Writing an address manager and reading it back.
 */
module AddrManRoundTrip {
  import opened AddrManState
  import opened AddrManRuns
  import opened AddrManCheck
  import opened AddrManDisk
  import Sets
  import Ops = AddrManOps

  // ---- what is written ----

  /** The ids in `order` that have references, that is, the new entries. */
  function NewOf(m: Infos, order: seq<int>): seq<int> {
    if order == [] then [] else
    var id := order[|order| - 1];
    NewOf(m, order[..|order| - 1]) + if Info(m, id).refCount != 0 then [id] else []
  }

  function TriedOf(m: Infos, order: seq<int>): seq<int> {
    if order == [] then [] else
    var id := order[|order| - 1];
    TriedOf(m, order[..|order| - 1]) + if Info(m, id).inTried then [id] else []
  }

  function Saved(m: Infos, ids: seq<int>): seq<Disk> {
    if ids == [] then [] else Saved(m, ids[..|ids| - 1]) + [Persist(Info(m, ids[|ids| - 1]))]
  }

  /** The place of `id` in `ids`: how many ids come before it. */
  function Rank(ids: seq<int>, id: int): nat {
    if ids == [] || ids[0] == id then 0 else 1 + Rank(ids[1..], id)
  }

  /** The occupied slots of a bucket among its first `i`, in order. */
  function Row(table: Table, bucket: int, i: nat): seq<Slot> {
    if i == 0 then [] else
    Row(table, bucket, i - 1) + if Slot(bucket, i - 1) in table then [Slot(bucket, i - 1)] else []
  }

  function Rows(table: Table, n: nat): seq<Slot> {
    if n == 0 then [] else Rows(table, n - 1) + Row(table, n - 1, BUCKET_SIZE)
  }

  function Refs(table: Table, ids: seq<int>, slots: seq<Slot>): seq<int> {
    if slots == [] then [] else
    var sl := slots[|slots| - 1];
    Refs(table, ids, slots[..|slots| - 1]) + [if sl in table then Rank(ids, table[sl]) else 0]
  }

  function BucketRefs(table: Table, ids: seq<int>, n: nat): seq<seq<int>> {
    if n == 0 then [] else BucketRefs(table, ids, n - 1) + [Refs(table, ids, Row(table, n - 1, BUCKET_SIZE))]
  }

  /** The file written when mapInfo is traversed in the order `order`. */
  function Dump(e: Env, s: State, order: seq<int>): File {
    var ids := NewOf(s.mapInfo, order);
    File(FILE_FORMAT, INCOMPATIBILITY_BASE + FILE_FORMAT, s.key, s.nNew, s.nTried, NEW_BUCKET_COUNT,
         Saved(s.mapInfo, ids), Saved(s.mapInfo, TriedOf(s.mapInfo, order)),
         BucketRefs(s.vvNew, ids, NEW_BUCKET_COUNT), e.asmapChecksum)
  }

  // ---- what must survive ----

  /** The same addresses with the same persistent data, at the same slots, under any ids. */
  ghost predicate SameBook(s: State, t: State) {
    && t.key == s.key && t.nNew == s.nNew && t.nTried == s.nTried
    && t.mapAddr.Keys == s.mapAddr.Keys
    && (forall a <- s.mapAddr :: SameEntry(Info(s.mapInfo, s.mapAddr[a]), Info(t.mapInfo, t.mapAddr[a])))
    && SameSlots(s.mapInfo, s.vvTried, t.mapInfo, t.vvTried)
    && SameSlots(s.mapInfo, s.vvNew, t.mapInfo, t.vvNew)
    && forall net :: CountOf(t.counts, net) == CountOf(s.counts, net)
  }

  /** What the file is for survives, and what is only kept in memory starts anew. */
  predicate Restored(a: AddrInfo, b: AddrInfo) {
    && b.addr == a.addr && b.time == a.time && b.services == a.services
    && b.source == a.source && b.lastSuccess == a.lastSuccess && b.attempts == a.attempts
    && b.lastTry == 0 && b.lastCountAttempt == 0
  }

  predicate SameEntry(a: AddrInfo, b: AddrInfo) {
    Restored(a, b) && b.inTried == a.inTried && b.refCount == a.refCount
  }

  ghost predicate SameSlots(m: Infos, table: Table, m': Infos, table': Table) {
    && table'.Keys == table.Keys
    && forall sl <- table :: Info(m', table'[sl]).addr == Info(m, table[sl]).addr
  }

  // ---- lists of ids ----

  ghost predicate Distinct(ids: seq<int>) {
    forall i, j :: 0 <= i < j < |ids| ==> ids[i] != ids[j]
  }

  lemma {:induction false} NewOfExact(m: Infos, order: seq<int>)
    requires Distinct(order)
    ensures Distinct(NewOf(m, order))
    ensures forall id :: id in NewOf(m, order) <==> id in order && Info(m, id).refCount != 0
  {
    if order != [] {
      var n := |order| - 1;
      NewOfExact(m, order[..n]);
      assert order == order[..n] + [order[n]];
      assert order[n] !in order[..n];
    }
  }

  lemma {:induction false} TriedOfExact(m: Infos, order: seq<int>)
    requires Distinct(order)
    ensures Distinct(TriedOf(m, order))
    ensures forall id :: id in TriedOf(m, order) <==> id in order && Info(m, id).inTried
  {
    if order != [] {
      var n := |order| - 1;
      TriedOfExact(m, order[..n]);
      assert order == order[..n] + [order[n]];
      assert order[n] !in order[..n];
    }
  }

  lemma {:induction false} SavedExact(m: Infos, ids: seq<int>)
    ensures |Saved(m, ids)| == |ids|
    ensures forall i :: 0 <= i < |ids| ==> Saved(m, ids)[i] == Persist(Info(m, ids[i]))
  {
    if ids != [] { SavedExact(m, ids[..|ids| - 1]); }
  }

  lemma {:induction false} RankExact(ids: seq<int>, id: int)
    requires id in ids
    ensures Rank(ids, id) < |ids| && ids[Rank(ids, id)] == id
  {
    if ids[0] != id {
      assert id in ids[1..];
      RankExact(ids[1..], id);
    }
  }

  lemma {:induction false} ElementsExact(ids: seq<int>, s: set<int>)
    requires Distinct(ids) && forall id :: id in ids <==> id in s
    ensures |ids| == |s|
  {
    ElementsSize(ids);
    var a := Elements(ids);
    assert forall id :: id in a <==> id in s;
    assert a == s;
  }

  // ---- rows of slots ----

  lemma {:induction false} RowExact(table: Table, bucket: int, i: nat)
    ensures forall sl :: sl in Row(table, bucket, i) <==> sl in table && sl.bucket == bucket && 0 <= sl.position < i
    ensures forall x, y :: 0 <= x < y < |Row(table, bucket, i)| ==> Row(table, bucket, i)[x] != Row(table, bucket, i)[y]
  {
    if i > 0 { RowExact(table, bucket, i - 1); }
  }

  lemma {:induction false} RowsExact(table: Table, n: nat)
    ensures forall sl :: sl in Rows(table, n) <==> sl in table && 0 <= sl.bucket < n && 0 <= sl.position < BUCKET_SIZE
    ensures forall x, y :: 0 <= x < y < |Rows(table, n)| ==> Rows(table, n)[x] != Rows(table, n)[y]
  {
    if n > 0 {
      RowsExact(table, n - 1);
      RowExact(table, n - 1, BUCKET_SIZE);
      hide Row;
      var a, b := Rows(table, n - 1), Row(table, n - 1, BUCKET_SIZE);
      forall x, y | 0 <= x < y < |a + b| ensures (a + b)[x] != (a + b)[y] {
        if x < |a| <= y { assert a[x] in a && b[y - |a|] in b; }
      }
    }
  }

  /** The pairs of a list of slots. */
  function Paired(table: Table, ids: seq<int>, slots: seq<Slot>): seq<(int, int)> {
    if slots == [] then [] else
    var sl := slots[|slots| - 1];
    Paired(table, ids, slots[..|slots| - 1]) + [(sl.bucket, if sl in table then Rank(ids, table[sl]) else 0)]
  }

  lemma {:induction false} PairedAt(table: Table, ids: seq<int>, slots: seq<Slot>)
    ensures |Paired(table, ids, slots)| == |slots|
    ensures forall k :: 0 <= k < |slots| ==>
              Paired(table, ids, slots)[k] ==
              (slots[k].bucket, if slots[k] in table then Rank(ids, table[slots[k]]) else 0)
  {
    if slots != [] { PairedAt(table, ids, slots[..|slots| - 1]); }
  }

  lemma PairedNone(table: Table, ids: seq<int>)
    ensures Paired(table, ids, []) == []
  {
  }

  lemma PairedAppend(table: Table, ids: seq<int>, a: seq<Slot>, b: seq<Slot>)
    ensures Paired(table, ids, a + b) == Paired(table, ids, a) + Paired(table, ids, b)
  {
    PairedAt(table, ids, a);
    PairedAt(table, ids, b);
    PairedAt(table, ids, a + b);
  }

  /** Every slot in `table` refers to one of `ids`. */
  ghost predicate Refers(table: Table, ids: seq<int>) {
    forall sl <- table :: table[sl] in ids
  }

  lemma {:induction false} RefsPaired(table: Table, ids: seq<int>, bucket: int, slots: seq<Slot>)
    requires Refers(table, ids) && forall k :: 0 <= k < |slots| ==> slots[k] in table && slots[k].bucket == bucket
    ensures InRange(bucket, Refs(table, ids, slots), |ids|) == Paired(table, ids, slots)
  {
    if slots != [] {
      var n := |slots| - 1;
      var sl := slots[n];
      RefsPaired(table, ids, bucket, slots[..n]);
      assert sl in table;
      RankExact(ids, table[sl]);
      var b := Refs(table, ids, slots);
      assert b[..|b| - 1] == Refs(table, ids, slots[..n]);
    }
  }

  lemma {:induction false} BucketsPaired(table: Table, ids: seq<int>, n: nat)
    requires Refers(table, ids)
    ensures |BucketRefs(table, ids, n)| == n
    ensures Pairs(BucketRefs(table, ids, n), |ids|) == Paired(table, ids, Rows(table, n))
  {
    PairedNone(table, ids);
    hide Row, Paired, Refs, InRange, Refers, Rank;
    if n > 0 {
      BucketsPaired(table, ids, n - 1);
      var row := Row(table, n - 1, BUCKET_SIZE);
      RowPaired(table, ids, n - 1);
      PairsAppend(BucketRefs(table, ids, n - 1), Refs(table, ids, row), |ids|);
      PairedAppend(table, ids, Rows(table, n - 1), row);
    }
  }

  lemma PairsAppend(bs: seq<seq<int>>, b: seq<int>, n: int)
    ensures Pairs(bs + [b], n) == Pairs(bs, n) + InRange(|bs|, b, n)
  {
    hide InRange;
    assert (bs + [b])[..|bs|] == bs;
  }

  lemma RowPaired(table: Table, ids: seq<int>, bucket: nat)
    requires Refers(table, ids)
    ensures var row := Row(table, bucket, BUCKET_SIZE);
            InRange(bucket, Refs(table, ids, row), |ids|) == Paired(table, ids, row)
  {
    hide Row, Paired, Refs, InRange, Refers, Rank;
    RowExact(table, bucket, BUCKET_SIZE);
    var row := Row(table, bucket, BUCKET_SIZE);
    assert forall k :: 0 <= k < |row| ==> row[k] in row;
    RefsPaired(table, ids, bucket, row);
  }

  // ---- reading the entries back ----

  ghost predicate Fit(e: Env, ds: seq<Disk>) {
    && (forall i :: 0 <= i < |ds| ==> e.valid(ds[i].addr) && ds[i].lastSuccess >= 0)
    && (forall i, j :: 0 <= i < j < |ds| ==> ds[i].addr != ds[j].addr)
  }

  /** A new entry comes in; the counters catch up with it. */
  lemma InsertNewKeeps(e: Env, s: State, info: AddrInfo)
    requires Partial(e, s, s.mapInfo.Keys, {}) && 0 <= s.idCount
    requires info.addr !in s.mapAddr && e.valid(info.addr) && info.lastTry >= 0 && info.lastSuccess >= 0
    requires info.randomPos == |s.vRandom| && info.refCount == 0 && !info.inTried
    ensures var t := Insert(e, s, s.idCount, info).(idCount := s.idCount + 1, nNew := s.nNew + 1);
            Partial(e, t, t.mapInfo.Keys, {})
  {
    hide Keyed, Ordered, TriedTable, NewSlots, RefCounts, Counted;
    var id := s.idCount;
    var m, n := s.mapInfo, s.mapInfo[id := info];
    Ops.CreateIndexes(m, n, s.mapAddr, s.vRandom, id);
    Ops.CreateTables(e, s.key, m, n, s.vvTried, s.vvNew, m.Keys, id);
    Ops.CreateCounts(e, m, n, s.nNew, s.nTried, s.counts, id);
    assert n.Keys == m.Keys + {id};
  }

  lemma InsertTriedTables(e: Env, key: Key, m: Infos, n: Infos, vvTried: Table, vvNew: Table, limbo: set<int>, id: int)
    requires TriedTable(e, key, m, vvTried) && NewSlots(e, key, m, vvNew) && RefCounts(m, vvNew, limbo)
    requires id !in m && id in n && n == m[id := n[id]] && n[id].inTried && n[id].refCount == 0 && n[id].lastSuccess > 0
    requires e.TriedSlot(key, n[id].addr) !in vvTried
    ensures TriedTable(e, key, n, vvTried[e.TriedSlot(key, n[id].addr) := id])
    ensures NewSlots(e, key, n, vvNew) && RefCounts(n, vvNew, limbo)
  {
    forall sl | sl in vvTried
      ensures IsTried(n, vvTried[sl]) && sl == e.TriedSlot(key, n[vvTried[sl]].addr)
    {
      assert IsTried(m, vvTried[sl]);
    }
    forall sl | sl in vvNew
      ensures IsNew(n, {}, vvNew[sl])
      ensures sl.position == e.bucketPosition(key, true, sl.bucket, n[vvNew[sl]].addr)
    {
      assert IsNew(m, {}, vvNew[sl]);
    }
  }

  lemma InsertTriedCounts(e: Env, m: Infos, n: Infos, nNew: int, nTried: int, counts: map<int, NewTriedCount>, id: int)
    requires Counted(e, m, nNew, nTried, counts, {})
    requires id !in m && id in n && n == m[id := n[id]] && n[id].inTried
    ensures Counted(e, n, nNew, nTried + 1, Ops.Bump(e, counts, n[id].addr, 0, 1), {})
  {
    hide Counted, Ops.Moved, NewIds, TriedIds, Ops.Bump;
    Ops.Elsewhere(m, n, id);
    Ops.NewIdsMoved(m, n, {}, {}, id, 0);
    Ops.TriedIdsMoved(m, n, id, 1);
    Ops.Recount(e, m, n, nNew, nTried, counts, {}, {}, id, n[id].addr, 0, 1);
  }

  /** A tried entry comes in at its free slot. */
  lemma InsertTriedKeeps(e: Env, s: State, d: Disk, limbo: set<int>)
    requires Partial(e, s, limbo, {}) && 0 <= s.idCount
    requires d.addr !in s.mapAddr && e.valid(d.addr) && d.lastSuccess > 0
    requires e.TriedSlot(s.key, d.addr) !in s.vvTried
    ensures Partial(e, LoadTriedOne(e, s, d).(nTried := s.nTried + 1), limbo, {})
  {
    hide Keyed, Ordered, TriedTable, NewSlots, RefCounts, Counted;
    var id, info := s.idCount, Revive(d, |s.vRandom|).(inTried := true);
    var m, n := s.mapInfo, s.mapInfo[id := info];
    Ops.CreateIndexes(m, n, s.mapAddr, s.vRandom, id);
    InsertTriedTables(e, s.key, m, n, s.vvTried, s.vvNew, limbo, id);
    InsertTriedCounts(e, m, n, s.nNew, s.nTried, s.counts, id);
  }

  /** The state with the counters it will have once its entries are all that there are. */
  function Caught(s: State, n: int): State {
    s.(idCount := n, nNew := n, nTried := 0)
  }

  lemma EmptyPartial(e: Env, f: File)
    ensures Partial(e, Caught(Start(f), 0), {}, {})
  {
    assert NewIds(map[], {}) == {} && TriedIds(map[]) == {};
    forall net
      ensures InNetwork(e, map[], NewIds(map[], {}), net) == {}
      ensures InNetwork(e, map[], TriedIds(map[]), net) == {}
    {
    }
  }

  /** The entries after the first stage. */
  ghost predicate HasNew(m: Infos, ds: seq<Disk>) {
    && (forall id :: id in m <==> 0 <= id < |ds|)
    && (forall i :: 0 <= i < |ds| ==> m[i] == Revive(ds[i], i))
  }

  lemma {:induction false} LoadNewHas(e: Env, f: File, ds: seq<Disk>)
    ensures var s := LoadNew(e, Start(f), ds);
            && HasNew(s.mapInfo, ds) && |s.vRandom| == |ds|
            && (forall a :: a in s.mapAddr <==> AddressIn(ds, a))
            && s == Start(f).(mapInfo := s.mapInfo, mapAddr := s.mapAddr, vRandom := s.vRandom, counts := s.counts)
  {
    hide AddressIn, Ops.Bump;
    AddressInNone();
    if ds != [] {
      var n := |ds| - 1;
      LoadNewHas(e, f, ds[..n]);
      assert forall i :: 0 <= i < n ==> ds[..n][i] == ds[i];
      forall a ensures AddressIn(ds, a) <==> AddressIn(ds[..n], a) || a == ds[n].addr { AddressInStep(ds, a); }
    }
  }

  ghost predicate AddressIn(ds: seq<Disk>, a: Service) { exists i :: 0 <= i < |ds| && ds[i].addr == a }

  lemma AddressInNone()
    ensures forall a :: !AddressIn([], a)
  {
  }

  lemma AddressInStep(ds: seq<Disk>, a: Service)
    requires ds != []
    ensures AddressIn(ds, a) <==> AddressIn(ds[..|ds| - 1], a) || a == ds[|ds| - 1].addr
  {
    var n := |ds| - 1;
    if i :| 0 <= i < |ds| && ds[i].addr == a && i < n { assert ds[..n][i].addr == a; }
  }

  lemma {:induction false} LoadNewPartial(e: Env, f: File, ds: seq<Disk>)
    requires Fit(e, ds)
    ensures var s := Caught(LoadNew(e, Start(f), ds), |ds|);
            Partial(e, s, s.mapInfo.Keys, {})
  {
    hide Partial, HasNew, Insert;
    if ds == [] {
      EmptyPartial(e, f);
      assert Start(f).mapInfo.Keys == {};
    } else {
      var n := |ds| - 1;
      assert Fit(e, ds[..n]);
      LoadNewPartial(e, f, ds[..n]);
      LoadNewHas(e, f, ds[..n]);
      var t := LoadNew(e, Start(f), ds[..n]);
      InsertNewKeeps(e, Caught(t, n), Revive(ds[n], |t.vRandom|));
      InsertCaught(e, t, n, Revive(ds[n], |t.vRandom|));
    }
  }

  lemma InsertCaught(e: Env, s: State, n: int, info: AddrInfo)
    ensures Insert(e, Caught(s, n), n, info).(idCount := n + 1, nNew := n + 1) == Caught(Insert(e, s, n, info), n + 1)
  {
  }

  // ---- reading the tried table back ----

  /** The tried entries `ds` fit beside the entries `m`: other addresses, other slots. */
  ghost predicate FitTried(e: Env, key: Key, m: Infos, ds: seq<Disk>) {
    && Fit(e, ds)
    && (forall i :: 0 <= i < |ds| ==> ds[i].lastSuccess > 0)
    && (forall i, id :: 0 <= i < |ds| && id in m ==> ds[i].addr != m[id].addr)
    && (forall i, j :: 0 <= i < j < |ds| ==> e.TriedSlot(key, ds[i].addr) != e.TriedSlot(key, ds[j].addr))
  }

  /** `t` is `s` with the tried entries `ds`, which have the next ids. */
  ghost predicate HasTried(s: State, t: State, ds: seq<Disk>) {
    && t == s.(mapInfo := t.mapInfo, mapAddr := t.mapAddr, vRandom := t.vRandom, counts := t.counts,
               vvTried := t.vvTried, idCount := s.idCount + |ds|)
    && |t.vRandom| == |s.vRandom| + |ds|
    && (forall id :: id in t.mapInfo <==> id in s.mapInfo || s.idCount <= id < s.idCount + |ds|)
    && (forall id <- s.mapInfo :: id < s.idCount && t.mapInfo[id] == s.mapInfo[id])
    && (forall id :: s.idCount <= id < s.idCount + |ds| ==>
          t.mapInfo[id] == Revive(ds[id - s.idCount], |s.vRandom| + id - s.idCount).(inTried := true))
  }

  lemma AddressHolder(s: State, a: Service) returns (id: int)
    requires Keyed(s.mapInfo, s.mapAddr, s.idCount)
    ensures a in s.mapAddr ==> id in s.mapInfo && s.mapInfo[id].addr == a && id == s.mapAddr[a]
  {
    id := if a in s.mapAddr then s.mapAddr[a] else 0;
  }

  lemma TriedSlotHolder(e: Env, s: State, sl: Slot) returns (id: int)
    requires TriedTable(e, s.key, s.mapInfo, s.vvTried)
    ensures sl in s.vvTried ==>
              && id in s.mapInfo && s.mapInfo[id].inTried && id == s.vvTried[sl]
              && e.TriedSlot(s.key, s.mapInfo[id].addr) == sl
  {
    id := if sl in s.vvTried then s.vvTried[sl] else 0;
    assert sl in s.vvTried ==> IsTried(s.mapInfo, id);
  }

  /** The next tried entry has a new address and a free slot. */
  lemma TriedFits(e: Env, s: State, t: State, ds: seq<Disk>, d: Disk, nTried: int, limbo: set<int>)
    requires Partial(e, t.(nTried := nTried), limbo, {}) && HasTried(s, t, ds)
    requires forall id <- s.mapInfo :: !s.mapInfo[id].inTried
    requires FitTried(e, t.key, s.mapInfo, ds + [d])
    ensures d.addr !in t.mapAddr && e.TriedSlot(t.key, d.addr) !in t.vvTried
  {
    hide Ordered, NewSlots, RefCounts, Counted, Sound;
    var all, n := ds + [d], |ds|;
    assert all[n] == d;
    forall id | id in t.mapInfo
      ensures t.mapInfo[id].addr != d.addr
      ensures t.mapInfo[id].inTried ==> e.TriedSlot(t.key, t.mapInfo[id].addr) != e.TriedSlot(t.key, d.addr)
    {
      if id !in s.mapInfo {
        assert all[id - s.idCount] == ds[id - s.idCount];
        assert t.mapInfo[id].addr == all[id - s.idCount].addr;
      }
    }
    var sl := e.TriedSlot(t.key, d.addr);
    var _ := AddressHolder(t, d.addr);
    var _ := TriedSlotHolder(e, t, sl);
  }

  lemma {:induction false} LoadTriedKeeps(e: Env, s: State, ds: seq<Disk>, limbo: set<int>)
    requires Partial(e, s.(nTried := 0), limbo, {}) && 0 <= s.idCount
    requires forall id <- s.mapInfo :: id < s.idCount && !s.mapInfo[id].inTried
    requires FitTried(e, s.key, s.mapInfo, ds)
    ensures HasTried(s, LoadTried(e, s, ds), ds)
    ensures Partial(e, LoadTried(e, s, ds).(nTried := |ds|), limbo, {})
  {
    hide Partial, HasTried, FitTried;
    if ds == [] {
      HasTriedNone(s);
    } else {
      var n := |ds| - 1;
      FitTriedPrefix(e, s.key, s.mapInfo, ds);
      LoadTriedKeeps(e, s, ds[..n], limbo);
      var t := LoadTried(e, s, ds[..n]);
      assert ds[..n] + [ds[n]] == ds;
      assert t.key == s.key && 0 <= t.idCount by { HasTriedFrame(s, t, ds[..n]); }
      TriedFits(e, s, t, ds[..n], ds[n], n, limbo);
      LastFits(e, s.key, s.mapInfo, ds);
      HasTriedNext(e, s, t, ds);
      InsertTriedKeeps(e, t.(nTried := n), ds[n], limbo);
      assert LoadTriedOne(e, t.(nTried := n), ds[n]).(nTried := n + 1) == LoadTriedOne(e, t, ds[n]).(nTried := n + 1);
    }
  }

  lemma HasTriedNone(s: State)
    requires forall id <- s.mapInfo :: id < s.idCount
    ensures HasTried(s, s, [])
  {
  }

  lemma HasTriedFrame(s: State, t: State, ds: seq<Disk>)
    requires HasTried(s, t, ds)
    ensures t == s.(mapInfo := t.mapInfo, mapAddr := t.mapAddr, vRandom := t.vRandom, counts := t.counts,
                    vvTried := t.vvTried, idCount := s.idCount + |ds|)
    ensures s.mapInfo.Keys <= t.mapInfo.Keys
  {
    hide Revive;
    assert forall id <- s.mapInfo :: id in t.mapInfo;
  }

  lemma HasTriedNext(e: Env, s: State, t: State, ds: seq<Disk>)
    requires |ds| > 0 && HasTried(s, t, ds[..|ds| - 1])
    requires e.valid(ds[|ds| - 1].addr) && e.TriedSlot(t.key, ds[|ds| - 1].addr) !in t.vvTried
    ensures HasTried(s, LoadTriedOne(e, t, ds[|ds| - 1]), ds)
  {
  }

  lemma FitTriedPrefix(e: Env, key: Key, m: Infos, ds: seq<Disk>)
    requires FitTried(e, key, m, ds) && |ds| > 0
    ensures FitTried(e, key, m, ds[..|ds| - 1])
  {
  }

  lemma LastFits(e: Env, key: Key, m: Infos, ds: seq<Disk>)
    requires FitTried(e, key, m, ds) && |ds| > 0
    ensures e.valid(ds[|ds| - 1].addr) && ds[|ds| - 1].lastSuccess > 0
  {
  }

  // ---- putting the references back ----

  /** Entry `i` of `m` is the reloaded entry `ids[i]` of the original. */
  ghost predicate Mirrors(s: State, ids: seq<int>, m: Infos) {
    && (forall i :: 0 <= i < |ids| ==> ids[i] in s.mapInfo && !s.mapInfo[ids[i]].inTried)
    && (forall i :: 0 <= i < |ids| ==> i in m && !m[i].inTried && Restored(s.mapInfo[ids[i]], m[i]))
  }

  /** `t` is `base` with the slots of `s` in `done` filled, under the new ids. */
  ghost predicate HasSlots(s: State, ids: seq<int>, base: State, t: State, done: seq<Slot>) {
    && t == base.(mapInfo := t.mapInfo, vvNew := t.vvNew)
    && t.mapInfo.Keys == base.mapInfo.Keys
    && (forall id <- base.mapInfo :: t.mapInfo[id] == base.mapInfo[id].(refCount := t.mapInfo[id].refCount))
    && (forall sl :: sl in t.vvNew <==> sl in done)
    && (forall sl <- t.vvNew :: sl in s.vvNew && t.vvNew[sl] == Rank(ids, s.vvNew[sl]))
  }

  /** The references of the next slot's entry are not yet all there. */
  lemma RoomLeft(s: State, ids: seq<int>, t: State, i: int, sl: Slot)
    requires RefCounts(s.mapInfo, s.vvNew, {}) && Refers(s.vvNew, ids) && Mirrors(s, ids, t.mapInfo)
    requires RefCounts(t.mapInfo, t.vvNew, t.mapInfo.Keys)
    requires forall x <- t.vvNew :: x in s.vvNew && t.vvNew[x] == Rank(ids, s.vvNew[x])
    requires sl in s.vvNew && sl !in t.vvNew && i == Rank(ids, s.vvNew[sl])
    ensures 0 <= i < |ids| && ids[i] == s.vvNew[sl]
    ensures i in t.mapInfo && t.mapInfo[i].refCount < NEW_BUCKETS_PER_ADDRESS
  {
    RankExact(ids, s.vvNew[sl]);
    var have, all := SlotsOf(t.vvNew, i), SlotsOf(s.vvNew, ids[i]);
    forall x | x in have
      ensures x in all && x != sl
    {
      assert Holds(t.vvNew, x, i);
      RankExact(ids, s.vvNew[x]);
      assert Holds(s.vvNew, x, ids[i]);
    }
    assert Holds(s.vvNew, sl, ids[i]);
    assert have <= all - {sl};
    Sets.SubsetSize(have, all - {sl});
  }

  lemma PlaceStep(e: Env, s: State, ids: seq<int>, base: State, t: State, done: seq<Slot>, sl: Slot)
    requires Partial(e, s, {}, {}) && Refers(s.vvNew, ids) && Mirrors(s, ids, base.mapInfo) && base.key == s.key
    requires HasSlots(s, ids, base, t, done) && Partial(e, t, t.mapInfo.Keys, {})
    requires sl in s.vvNew && sl !in done
    ensures var u := PlaceOne(e, t, (sl.bucket, Rank(ids, s.vvNew[sl])), true);
            && HasSlots(s, ids, base, u, done + [sl])
            && Partial(e, u, u.mapInfo.Keys, {})
  {
    hide Keyed, Ordered, TriedTable, NewSlots, RefCounts, Counted, Refers, Rank;
    var i := Rank(ids, s.vvNew[sl]);
    MirrorsStill(s, ids, base, t, done);
    RoomLeft(s, ids, t, i, sl);
    SlotRange(e, s, sl);
    Ops.SlotHolder(e, s.key, s.mapInfo, s.vvNew, {}, sl);
    assert Restored(s.mapInfo[ids[i]], t.mapInfo[i]);
    Ops.AddRefKeeps(e, t, i, sl, t.mapInfo.Keys, {});
    var u := Ops.AddRef(t, i, sl);
    Ops.LimboTo(u.mapInfo, u.vvNew, t.mapInfo.Keys - {i}, u.mapInfo.Keys);
  }

  lemma MirrorsStill(s: State, ids: seq<int>, base: State, t: State, done: seq<Slot>)
    requires Mirrors(s, ids, base.mapInfo) && HasSlots(s, ids, base, t, done)
    ensures Mirrors(s, ids, t.mapInfo)
  {
  }

  lemma SlotRange(e: Env, s: State, sl: Slot)
    requires NewSlots(e, s.key, s.mapInfo, s.vvNew) && sl in s.vvNew
    ensures 0 <= sl.bucket < NEW_BUCKET_COUNT && 0 <= sl.position < BUCKET_SIZE
  {
  }

  lemma {:induction false} PlaceAllBack(e: Env, s: State, ids: seq<int>, base: State, slots: seq<Slot>)
    requires Partial(e, s, {}, {}) && Refers(s.vvNew, ids) && Mirrors(s, ids, base.mapInfo) && base.key == s.key
    requires base.vvNew == map[] && Partial(e, base, base.mapInfo.Keys, {})
    requires forall k :: 0 <= k < |slots| ==> slots[k] in s.vvNew
    requires forall x, y :: 0 <= x < y < |slots| ==> slots[x] != slots[y]
    ensures var t := PlaceAll(e, base, Paired(s.vvNew, ids, slots), true);
            HasSlots(s, ids, base, t, slots) && Partial(e, t, t.mapInfo.Keys, {})
  {
    hide Partial, Mirrors, Refers, PlaceOne, Rank;
    if slots == [] {
      assert Paired(s.vvNew, ids, slots) == [];
    } else {
      var n := |slots| - 1;
      PlaceAllBack(e, s, ids, base, slots[..n]);
      var ps := Paired(s.vvNew, ids, slots);
      assert ps[..|ps| - 1] == Paired(s.vvNew, ids, slots[..n]);
      var t := PlaceAll(e, base, ps[..|ps| - 1], true);
      assert slots[n] !in slots[..n];
      hide HasSlots;
      PlaceStep(e, s, ids, base, t, slots[..n], slots[n]);
      assert slots[..n] + [slots[n]] == slots;
    }
  }

  // ---- the renaming of ids ----

  /** The id under which entry `id` comes back. */
  function Renamed(m: Infos, ids: seq<int>, tried: seq<int>, id: int): int {
    if Info(m, id).inTried then |ids| + Rank(tried, id) else Rank(ids, id)
  }

  /** `t` has exactly the entries of `s`, under their new ids. */
  ghost predicate Reborn(s: State, ids: seq<int>, tried: seq<int>, t: State) {
    && Partition(s.mapInfo, ids, tried)
    && (forall id :: id in t.mapInfo <==> 0 <= id < |ids| + |tried|)
    && (forall id <- s.mapInfo :: SameEntry(s.mapInfo[id], Info(t.mapInfo, Renamed(s.mapInfo, ids, tried, id))))
  }

  ghost predicate Partition(m: Infos, ids: seq<int>, tried: seq<int>) {
    && Distinct(ids) && Distinct(tried)
    && (forall id :: id in ids <==> id in m && !m[id].inTried)
    && (forall id :: id in tried <==> id in m && m[id].inTried)
  }

  /** The original of an entry that came back. */
  function Original(ids: seq<int>, tried: seq<int>, j: int): int
    requires 0 <= j < |ids| + |tried|
  {
    if j < |ids| then ids[j] else tried[j - |ids|]
  }

  lemma {:induction false} RankOf(ids: seq<int>, i: int)
    requires Distinct(ids) && 0 <= i < |ids|
    ensures Rank(ids, ids[i]) == i
  {
    RankExact(ids, ids[i]);
  }

  lemma RenamedRange(m: Infos, ids: seq<int>, tried: seq<int>, id: int)
    requires Partition(m, ids, tried) && id in m
    ensures 0 <= Renamed(m, ids, tried, id) < |ids| + |tried|
    ensures Original(ids, tried, Renamed(m, ids, tried, id)) == id
  {
    if m[id].inTried { RankExact(tried, id); } else { RankExact(ids, id); }
  }

  lemma RenamedBack(m: Infos, ids: seq<int>, tried: seq<int>, j: int)
    requires Partition(m, ids, tried) && 0 <= j < |ids| + |tried|
    ensures Original(ids, tried, j) in m && Renamed(m, ids, tried, Original(ids, tried, j)) == j
  {
    if j < |ids| {
      assert ids[j] in ids;
      RankOf(ids, j);
    } else {
      assert tried[j - |ids|] in tried;
      RankOf(tried, j - |ids|);
    }
  }

  lemma {:induction false} SameSize(a: set<int>, b: set<int>, f: int -> int, g: int -> int)
    requires forall x :: x in a ==> f(x) in b && g(f(x)) == x
    requires forall y :: y in b ==> g(y) in a && f(g(y)) == y
    ensures |a| == |b|
    decreases |a|
  {
    if a == {} {
      if b != {} { var _ := Sets.Any(b); assert false; }
    } else {
      var x := Sets.Any(a);
      SameSize(a - {x}, b - {f(x)}, f, g);
    }
  }

  lemma RebornCounts(e: Env, s: State, ids: seq<int>, tried: seq<int>, t: State, net: int)
    requires Reborn(s, ids, tried, t)
    ensures |InNetwork(e, t.mapInfo, NewIds(t.mapInfo, {}), net)| ==
            |InNetwork(e, s.mapInfo, NewIds(s.mapInfo, {}), net)|
    ensures |InNetwork(e, t.mapInfo, TriedIds(t.mapInfo), net)| == |InNetwork(e, s.mapInfo, TriedIds(s.mapInfo), net)|
  {
    hide Partition, Renamed;
    var n := |ids| + |tried|;
    var f := id => Renamed(s.mapInfo, ids, tried, id);
    var g := j => if 0 <= j < n then Original(ids, tried, j) else 0;
    forall id | id in s.mapInfo
      ensures f(id) in t.mapInfo && g(f(id)) == id && SameEntry(s.mapInfo[id], t.mapInfo[f(id)])
    {
      RenamedRange(s.mapInfo, ids, tried, id);
    }
    forall j | j in t.mapInfo
      ensures g(j) in s.mapInfo && f(g(j)) == j && SameEntry(s.mapInfo[g(j)], t.mapInfo[j])
    {
      RenamedBack(s.mapInfo, ids, tried, j);
    }
    MatchedSize(e, s.mapInfo, t.mapInfo, f, g, net);
  }

  lemma MatchedSize(e: Env, m: Infos, m': Infos, f: int -> int, g: int -> int, net: int)
    requires forall id <- m :: f(id) in m' && g(f(id)) == id && SameEntry(m[id], m'[f(id)])
    requires forall j <- m' :: g(j) in m && f(g(j)) == j && SameEntry(m[g(j)], m'[j])
    ensures |InNetwork(e, m', NewIds(m', {}), net)| == |InNetwork(e, m, NewIds(m, {}), net)|
    ensures |InNetwork(e, m', TriedIds(m'), net)| == |InNetwork(e, m, TriedIds(m), net)|
  {
    var a, b := InNetwork(e, m, NewIds(m, {}), net), InNetwork(e, m', NewIds(m', {}), net);
    assert forall x :: x in a <==> IsNew(m, {}, x) && IsIn(e, m, x, net);
    assert forall y :: y in b <==> IsNew(m', {}, y) && IsIn(e, m', y, net);
    SameSize(a, b, f, g);
    var c, d := InNetwork(e, m, TriedIds(m), net), InNetwork(e, m', TriedIds(m'), net);
    assert forall x :: x in c <==> IsTried(m, x) && IsIn(e, m, x, net);
    assert forall y :: y in d <==> IsTried(m', y) && IsIn(e, m', y, net);
    SameSize(c, d, f, g);
  }

  // ---- sizes of the tables ----

  lemma {:induction false} RowSize(table: Table, bucket: int, i: nat)
    ensures |Row(table, bucket, i)| <= i
  {
    if i > 0 { RowSize(table, bucket, i - 1); }
  }

  lemma {:induction false} RowsSize(table: Table, n: nat)
    ensures |Rows(table, n)| <= n * BUCKET_SIZE
  {
    if n > 0 {
      RowsSize(table, n - 1);
      RowSize(table, n - 1, BUCKET_SIZE);
    }
  }

  function Ids(table: Table, slots: seq<Slot>): seq<int> {
    if slots == [] then [] else
    var sl := slots[|slots| - 1];
    Ids(table, slots[..|slots| - 1]) + [if sl in table then table[sl] else -1]
  }

  lemma {:induction false} IdsExact(table: Table, slots: seq<Slot>)
    ensures |Ids(table, slots)| == |slots|
    ensures forall k :: 0 <= k < |slots| && slots[k] in table ==> table[slots[k]] in Ids(table, slots)
  {
    if slots != [] {
      var n := |slots| - 1;
      IdsExact(table, slots[..n]);
      forall k | 0 <= k < n && slots[k] in table ensures table[slots[k]] in Ids(table, slots) {
        assert slots[..n][k] == slots[k];
      }
    }
  }

  /** A table has no more entries than slots. */
  lemma TableHolds(table: Table, n: nat, ids: set<int>)
    requires forall sl <- table :: 0 <= sl.bucket < n && 0 <= sl.position < BUCKET_SIZE
    requires forall id <- ids :: exists sl :: Holds(table, sl, id)
    ensures |ids| <= n * BUCKET_SIZE
  {
    var slots := Rows(table, n);
    RowsExact(table, n);
    RowsSize(table, n);
    IdsExact(table, slots);
    ElementsSize(Ids(table, slots));
    forall id | id in ids
      ensures id in Elements(Ids(table, slots))
    {
      var sl :| Holds(table, sl, id);
      assert sl in slots;
      var k :| 0 <= k < |slots| && slots[k] == sl;
    }
    var a := Elements(Ids(table, slots));
    assert forall id :: id in ids ==> id in a;
    assert ids <= a;
    Sets.SubsetSize(ids, a);
  }

  lemma TablesFit(e: Env, s: State)
    requires Partial(e, s, {}, {})
    ensures 0 <= s.nNew <= NEW_BUCKET_COUNT * BUCKET_SIZE
    ensures 0 <= s.nTried <= TRIED_BUCKET_COUNT * BUCKET_SIZE
  {
    hide Keyed, Ordered, Sound;
    CountedSizes(e, s);
    hide Counted;
    var a, b := NewIds(s.mapInfo, {}), TriedIds(s.mapInfo);
    forall id | id in a
      ensures exists sl :: Holds(s.vvNew, sl, id)
    {
      assert IsNew(s.mapInfo, {}, id);
      var sl := Sets.Any(SlotsOf(s.vvNew, id));
      assert Holds(s.vvNew, sl, id);
    }
    forall id | id in b
      ensures exists sl :: Holds(s.vvTried, sl, id)
    {
      assert IsTried(s.mapInfo, id);
      assert Holds(s.vvTried, e.TriedSlot(s.key, s.mapInfo[id].addr), id);
    }
    TableHolds(s.vvNew, NEW_BUCKET_COUNT, a);
    TableHolds(s.vvTried, TRIED_BUCKET_COUNT, b);
  }

  // ---- a consistent manager fits its own file ----

  lemma WrittenIds(e: Env, s: State, order: seq<int>)
    requires Partial(e, s, {}, {}) && Lists(order, s.mapInfo)
    ensures Partition(s.mapInfo, NewOf(s.mapInfo, order), TriedOf(s.mapInfo, order))
    ensures |NewOf(s.mapInfo, order)| == s.nNew && |TriedOf(s.mapInfo, order)| == s.nTried
    ensures Refers(s.vvNew, NewOf(s.mapInfo, order))
  {
    hide Keyed, Ordered, NewSlots, Sound, NewOf, TriedOf;
    NewOfExact(s.mapInfo, order);
    TriedOfExact(s.mapInfo, order);
    CountedSizes(e, s);
    hide Counted;
    var ids, tried := NewOf(s.mapInfo, order), TriedOf(s.mapInfo, order);
    forall id
      ensures id in ids <==> IsNew(s.mapInfo, {}, id)
      ensures id in tried <==> IsTried(s.mapInfo, id)
    {
    }
    ElementsExact(ids, NewIds(s.mapInfo, {}));
    ElementsExact(tried, TriedIds(s.mapInfo));
    SlotsRefer(e, s, ids);
  }

  lemma SlotsRefer(e: Env, s: State, ids: seq<int>)
    requires NewSlots(e, s.key, s.mapInfo, s.vvNew) && forall id :: IsNew(s.mapInfo, {}, id) ==> id in ids
    ensures Refers(s.vvNew, ids)
  {
    forall sl | sl in s.vvNew ensures s.vvNew[sl] in ids {
      var id := s.vvNew[sl];
      assert IsNew(s.mapInfo, {}, id);
    }
  }

  lemma SavedFits(e: Env, s: State, ids: seq<int>)
    requires Keyed(s.mapInfo, s.mapAddr, s.idCount) && Sound(e, s.mapInfo)
    requires Distinct(ids) && forall i :: 0 <= i < |ids| ==> ids[i] in s.mapInfo
    ensures Fit(e, Saved(s.mapInfo, ids))
  {
    SavedExact(s.mapInfo, ids);
    hide Saved;
    var ds := Saved(s.mapInfo, ids);
    forall i, j | 0 <= i < j < |ds| ensures ds[i].addr != ds[j].addr {
      assert ids[i] in s.mapInfo && ids[j] in s.mapInfo;
    }
  }

  lemma Members(m: Infos, ids: seq<int>, tried: seq<int>)
    requires Partition(m, ids, tried)
    ensures forall i :: 0 <= i < |ids| ==> ids[i] in m && !m[ids[i]].inTried
    ensures forall i :: 0 <= i < |tried| ==> tried[i] in m && m[tried[i]].inTried
  {
    forall i | 0 <= i < |ids| ensures ids[i] in m && !m[ids[i]].inTried {
      var x := ids[i];
      assert x in ids;
    }
    forall i | 0 <= i < |tried| ensures tried[i] in m && m[tried[i]].inTried {
      var x := tried[i];
      assert x in tried;
    }
  }

  lemma SavedTriedFits(e: Env, s: State, ids: seq<int>, tried: seq<int>, m: Infos)
    requires Partial(e, s, {}, {}) && Partition(s.mapInfo, ids, tried)
    requires HasNew(m, Saved(s.mapInfo, ids))
    ensures FitTried(e, s.key, m, Saved(s.mapInfo, tried))
  {
    hide Ordered, NewSlots, RefCounts, Counted, Saved;
    Members(s.mapInfo, ids, tried);
    SavedFits(e, s, tried);
    SavedExact(s.mapInfo, ids);
    SavedExact(s.mapInfo, tried);
    var ds := Saved(s.mapInfo, tried);
    forall i | 0 <= i < |ds|
      ensures ds[i].lastSuccess > 0 && ds[i].addr == s.mapInfo[tried[i]].addr
      ensures Holds(s.vvTried, e.TriedSlot(s.key, ds[i].addr), tried[i])
    {
      assert tried[i] in s.mapInfo && s.mapInfo[tried[i]].inTried;
    }
    forall i, id | 0 <= i < |ds| && id in m
      ensures ds[i].addr != m[id].addr
    {
      assert ids[id] in s.mapInfo && tried[i] in s.mapInfo;
    }
  }

  // ---- the round trip ----

  /** What reading the two lists of entries back gives. */
  lemma LoadedBack(e: Env, s: State, order: seq<int>)
    requires Partial(e, s, {}, {}) && Lists(order, s.mapInfo)
    ensures var ids, tried := NewOf(s.mapInfo, order), TriedOf(s.mapInfo, order);
            var t := Loaded(e, Dump(e, s, order));
            && Partial(e, t, t.mapInfo.Keys, {})
            && t.vvNew == map[] && t.key == s.key && t.nNew == s.nNew && t.nTried == s.nTried
            && Revived(s, ids, tried, t.mapInfo)
            && t.collisions == {} && 0 <= t.idCount
  {
    hide Keyed, Ordered, TriedTable, NewSlots, RefCounts, Counted, LoadNew, LoadTried, NewOf, TriedOf, Saved, Lists,
         BucketRefs, Fit, FitTried, HasNew, HasTried, Partition, Refers;
    var ids, tried, f := NewOf(s.mapInfo, order), TriedOf(s.mapInfo, order), Dump(e, s, order);
    WrittenIds(e, s, order);
    Members(s.mapInfo, ids, tried);
    SavedLength(s.mapInfo, ids);
    SavedLength(s.mapInfo, tried);
    assert Distinct(ids) by { PartitionDistinct(s.mapInfo, ids, tried); }
    SavedFits(e, s, ids);
    LoadNewPartial(e, f, f.newEntries);
    LoadNewHas(e, f, f.newEntries);
    var r := LoadNew(e, Start(f), f.newEntries).(idCount := f.nNew);
    assert r.(nTried := 0) == Caught(LoadNew(e, Start(f), f.newEntries), |ids|);
    SavedTriedFits(e, s, ids, tried, r.mapInfo);
    NotYetTried(r.mapInfo, f.newEntries);
    LoadTriedKeeps(e, r, f.triedEntries, r.mapInfo.Keys);
    var t := Loaded(e, f);
    RevivedAll(s, ids, tried, r, t);
    Ops.LimboTo(t.mapInfo, t.vvNew, r.mapInfo.Keys, t.mapInfo.Keys);
    assert t.(nTried := |f.triedEntries|) == t;
  }

  lemma PartitionDistinct(m: Infos, ids: seq<int>, tried: seq<int>)
    requires Partition(m, ids, tried)
    ensures Distinct(ids) && Distinct(tried)
  {
  }

  lemma SavedLength(m: Infos, ids: seq<int>)
    ensures |Saved(m, ids)| == |ids|
  {
    SavedExact(m, ids);
  }

  lemma NotYetTried(m: Infos, ds: seq<Disk>)
    requires HasNew(m, ds)
    ensures forall id <- m :: id < |ds| && !m[id].inTried
  {
  }

  /** Every original is back under its new id, still without references. */
  ghost predicate Revived(s: State, ids: seq<int>, tried: seq<int>, m: Infos) {
    && (forall id :: id in m <==> 0 <= id < |ids| + |tried|)
    && (forall i :: 0 <= i < |ids| ==> !m[i].inTried && Restored(Info(s.mapInfo, ids[i]), m[i]))
    && (forall i :: |ids| <= i < |ids| + |tried| ==>
          && m[i].inTried && m[i].refCount == 0
          && Restored(Info(s.mapInfo, tried[i - |ids|]), m[i]))
  }

  lemma RevivedAll(s: State, ids: seq<int>, tried: seq<int>, r: State, t: State)
    requires HasNew(r.mapInfo, Saved(s.mapInfo, ids)) && r.idCount == |ids|
    requires HasTried(r, t, Saved(s.mapInfo, tried))
    ensures Revived(s, ids, tried, t.mapInfo)
    ensures t == r.(mapInfo := t.mapInfo, mapAddr := t.mapAddr, vRandom := t.vRandom, counts := t.counts,
                    vvTried := t.vvTried, idCount := r.idCount + |tried|)
    ensures r.mapInfo.Keys <= t.mapInfo.Keys
  {
    hide Saved, Revive, Persist, HasNew, HasTried, Revived;
    SavedExact(s.mapInfo, tried);
    HasTriedFrame(r, t, Saved(s.mapInfo, tried));
    RevivedEntries(s, ids, tried, r, t);
  }

  lemma RevivedEntries(s: State, ids: seq<int>, tried: seq<int>, r: State, t: State)
    requires HasNew(r.mapInfo, Saved(s.mapInfo, ids)) && r.idCount == |ids|
    requires HasTried(r, t, Saved(s.mapInfo, tried))
    ensures Revived(s, ids, tried, t.mapInfo)
  {
    SavedExact(s.mapInfo, ids);
    SavedExact(s.mapInfo, tried);
    hide Saved;
  }

  lemma {:induction false} PruneNothing(e: Env, s: State, ids: seq<int>)
    requires forall id <- s.mapInfo :: !Stray(s, id)
    ensures Prune(e, s, ids) == s
  {
    hide Ops.Delete;
    if ids != [] { PruneNothing(e, s, ids[..|ids| - 1]); }
  }

  /** The references are back as they were. */
  lemma PlacedBack(e: Env, s: State, order: seq<int>)
    requires Partial(e, s, {}, {}) && Lists(order, s.mapInfo)
    ensures var ids, tried := NewOf(s.mapInfo, order), TriedOf(s.mapInfo, order);
            var t := Placed(e, Dump(e, s, order));
            && Partial(e, t, t.mapInfo.Keys, {})
            && HasSlots(s, ids, Loaded(e, Dump(e, s, order)), t, Rows(s.vvNew, NEW_BUCKET_COUNT))
  {
    hide Partial, NewOf, TriedOf, Saved, Lists, BucketRefs, Mirrors, HasSlots, Refers, Partition, Loaded, PlaceAll,
         Paired, Pairs, Rows, Revived;
    var ids, tried, f := NewOf(s.mapInfo, order), TriedOf(s.mapInfo, order), Dump(e, s, order);
    WrittenIds(e, s, order);
    LoadedBack(e, s, order);
    var base := Loaded(e, f);
    RevivedMirrors(s, ids, tried, base.mapInfo);
    BucketsPaired(s.vvNew, ids, NEW_BUCKET_COUNT);
    var slots := Rows(s.vvNew, NEW_BUCKET_COUNT);
    RowsExact(s.vvNew, NEW_BUCKET_COUNT);
    assert forall k :: 0 <= k < |slots| ==> slots[k] in slots;
    PlaceAllBack(e, s, ids, base, slots);
  }

  lemma RevivedMirrors(s: State, ids: seq<int>, tried: seq<int>, m: Infos)
    requires Revived(s, ids, tried, m) && Partition(s.mapInfo, ids, tried)
    ensures Mirrors(s, ids, m)
  {
    Members(s.mapInfo, ids, tried);
  }

  /** Reference counts come back exact. */
  lemma RefsBack(s: State, ids: seq<int>, base: State, t: State, i: int)
    requires RefCounts(s.mapInfo, s.vvNew, {}) && RefCounts(t.mapInfo, t.vvNew, t.mapInfo.Keys)
    requires Mirrors(s, ids, base.mapInfo) && Distinct(ids) && Refers(s.vvNew, ids)
    requires HasSlots(s, ids, base, t, Rows(s.vvNew, NEW_BUCKET_COUNT))
    requires forall sl <- s.vvNew :: 0 <= sl.bucket < NEW_BUCKET_COUNT && 0 <= sl.position < BUCKET_SIZE
    requires 0 <= i < |ids|
    ensures i in t.mapInfo && t.mapInfo[i].refCount == s.mapInfo[ids[i]].refCount > 0
  {
    hide Rows, HasSlots, Refers, Rank;
    var x := ids[i];
    assert x in s.mapInfo && !s.mapInfo[x].inTried;
    BaseEntry(s, ids, base, t, Rows(s.vvNew, NEW_BUCKET_COUNT), i);
    forall sl
      ensures Holds(t.vvNew, sl, i) <==> Holds(s.vvNew, sl, x)
    {
      SlotBack(s, ids, base, t, i, sl);
    }
    assert SlotsOf(t.vvNew, i) == SlotsOf(s.vvNew, x);
  }

  lemma BaseEntry(s: State, ids: seq<int>, base: State, t: State, done: seq<Slot>, i: int)
    requires Mirrors(s, ids, base.mapInfo) && HasSlots(s, ids, base, t, done) && 0 <= i < |ids|
    ensures i in t.mapInfo && !t.mapInfo[i].inTried
  {
  }

  lemma SlotBack(s: State, ids: seq<int>, base: State, t: State, i: int, sl: Slot)
    requires Distinct(ids) && Refers(s.vvNew, ids) && 0 <= i < |ids|
    requires HasSlots(s, ids, base, t, Rows(s.vvNew, NEW_BUCKET_COUNT))
    requires forall sl <- s.vvNew :: 0 <= sl.bucket < NEW_BUCKET_COUNT && 0 <= sl.position < BUCKET_SIZE
    ensures Holds(t.vvNew, sl, i) <==> Holds(s.vvNew, sl, ids[i])
  {
    RowsExact(s.vvNew, NEW_BUCKET_COUNT);
    hide Rows;
    if sl in s.vvNew {
      RankExact(ids, s.vvNew[sl]);
      if s.vvNew[sl] == ids[i] { RankOf(ids, i); }
    }
  }

  lemma RebornBack(e: Env, s: State, ids: seq<int>, tried: seq<int>, base: State, t: State)
    requires Partial(e, s, {}, {}) && Partial(e, t, t.mapInfo.Keys, {})
    requires Partition(s.mapInfo, ids, tried) && Revived(s, ids, tried, base.mapInfo) && Refers(s.vvNew, ids)
    requires HasSlots(s, ids, base, t, Rows(s.vvNew, NEW_BUCKET_COUNT))
    ensures Reborn(s, ids, tried, t)
    ensures Partial(e, t, {}, {})
  {
    hide Keyed, Ordered, NewSlots, RefCounts, Counted, Sound, Refers, Rows, Rank, Holds;
    RevivedMirrors(s, ids, tried, base.mapInfo);
    Members(s.mapInfo, ids, tried);
    NewSlotsRange(e, s);
    forall i | 0 <= i < |ids|
      ensures i in t.mapInfo && t.mapInfo[i].refCount == s.mapInfo[ids[i]].refCount > 0
    {
      RefsBack(s, ids, base, t, i);
    }
    forall id | id in s.mapInfo
      ensures SameEntry(s.mapInfo[id], Info(t.mapInfo, Renamed(s.mapInfo, ids, tried, id)))
    {
      RenamedRange(s.mapInfo, ids, tried, id);
      SameEntryBack(e, s, ids, tried, base, t, Renamed(s.mapInfo, ids, tried, id));
    }
    Ops.LimboTo(t.mapInfo, t.vvNew, t.mapInfo.Keys, {});
  }

  lemma SameEntryBack(e: Env, s: State, ids: seq<int>, tried: seq<int>, base: State, t: State, j: int)
    requires Partial(e, s, {}, {}) && Partial(e, t, t.mapInfo.Keys, {})
    requires Partition(s.mapInfo, ids, tried) && Revived(s, ids, tried, base.mapInfo)
    requires HasSlots(s, ids, base, t, Rows(s.vvNew, NEW_BUCKET_COUNT))
    requires forall i :: 0 <= i < |ids| ==> i in t.mapInfo && t.mapInfo[i].refCount == Info(s.mapInfo, ids[i]).refCount
    requires 0 <= j < |ids| + |tried|
    ensures j in t.mapInfo && SameEntry(Info(s.mapInfo, Original(ids, tried, j)), t.mapInfo[j])
  {
    hide Keyed, Ordered, NewSlots, RefCounts, Counted, Sound, Rows, Rank, Holds;
    Members(s.mapInfo, ids, tried);
    hide Partition;
    assert j in base.mapInfo;
    var k := Original(ids, tried, j);
    assert k in s.mapInfo;
    if j >= |ids| {
      assert t.mapInfo[j].inTried && s.mapInfo[k].inTried;
    }
  }

  lemma NewSlotsRange(e: Env, s: State)
    requires NewSlots(e, s.key, s.mapInfo, s.vvNew)
    ensures forall sl <- s.vvNew :: 0 <= sl.bucket < NEW_BUCKET_COUNT && 0 <= sl.position < BUCKET_SIZE
  {
  }

  lemma TriedSlotsBack(e: Env, s: State, ids: seq<int>, tried: seq<int>, t: State)
    requires TriedTable(e, s.key, s.mapInfo, s.vvTried) && TriedTable(e, t.key, t.mapInfo, t.vvTried)
    requires t.key == s.key && Reborn(s, ids, tried, t)
    ensures SameSlots(s.mapInfo, s.vvTried, t.mapInfo, t.vvTried)
  {
    hide TriedTable, Partition;
    forall sl
      ensures sl in s.vvTried ==>
                sl in t.vvTried && Info(t.mapInfo, t.vvTried[sl]).addr == Info(s.mapInfo, s.vvTried[sl]).addr
      ensures sl in t.vvTried ==> sl in s.vvTried
    {
      var k := TriedSlotHolder(e, s, sl);
      var j := TriedSlotHolder(e, t, sl);
      if sl in s.vvTried {
        RenamedRange(s.mapInfo, ids, tried, k);
        TriedEntrySlot(e, t, Renamed(s.mapInfo, ids, tried, k));
      }
      if sl in t.vvTried {
        RenamedBack(s.mapInfo, ids, tried, j);
        TriedEntrySlot(e, s, Original(ids, tried, j));
      }
    }
  }

  lemma TriedEntrySlot(e: Env, s: State, id: int)
    requires TriedTable(e, s.key, s.mapInfo, s.vvTried) && id in s.mapInfo && s.mapInfo[id].inTried
    ensures Holds(s.vvTried, e.TriedSlot(s.key, s.mapInfo[id].addr), id)
  {
  }

  lemma NewSlotsBack(e: Env, s: State, ids: seq<int>, tried: seq<int>, base: State, t: State)
    requires NewSlots(e, s.key, s.mapInfo, s.vvNew) && Refers(s.vvNew, ids) && Reborn(s, ids, tried, t)
    requires HasSlots(s, ids, base, t, Rows(s.vvNew, NEW_BUCKET_COUNT))
    ensures SameSlots(s.mapInfo, s.vvNew, t.mapInfo, t.vvNew)
  {
    hide Partition, Rank;
    RowsExact(s.vvNew, NEW_BUCKET_COUNT);
    hide Rows;
    NewSlotsRange(e, s);
    forall sl | sl in s.vvNew
      ensures sl in t.vvNew && Info(t.mapInfo, t.vvNew[sl]).addr == Info(s.mapInfo, s.vvNew[sl]).addr
    {
      var k := s.vvNew[sl];
      assert IsNew(s.mapInfo, {}, k) && k in s.mapInfo;
      assert t.vvNew[sl] == Renamed(s.mapInfo, ids, tried, k);
    }
  }

  lemma AddressesBack(s: State, ids: seq<int>, tried: seq<int>, t: State)
    requires Keyed(s.mapInfo, s.mapAddr, s.idCount) && Keyed(t.mapInfo, t.mapAddr, t.idCount)
    requires Reborn(s, ids, tried, t)
    ensures t.mapAddr.Keys == s.mapAddr.Keys
    ensures forall a <- s.mapAddr :: SameEntry(Info(s.mapInfo, s.mapAddr[a]), Info(t.mapInfo, t.mapAddr[a]))
  {
    hide Keyed, Partition;
    forall a
      ensures a in s.mapAddr ==>
                a in t.mapAddr && SameEntry(Info(s.mapInfo, s.mapAddr[a]), Info(t.mapInfo, t.mapAddr[a]))
      ensures a in t.mapAddr ==> a in s.mapAddr
    {
      var k := AddressHolder(s, a);
      var j := AddressHolder(t, a);
      if a in s.mapAddr {
        RenamedRange(s.mapInfo, ids, tried, k);
        KnownAddresses(t, a);
        assert t.mapInfo[Renamed(s.mapInfo, ids, tried, k)].addr == a;
      }
      if a in t.mapAddr {
        RenamedBack(s.mapInfo, ids, tried, j);
        KnownAddresses(s, a);
        assert s.mapInfo[Original(ids, tried, j)].addr == a;
      }
    }
  }

  lemma CountsBack(e: Env, s: State, ids: seq<int>, tried: seq<int>, t: State, net: int)
    requires Counted(e, s.mapInfo, s.nNew, s.nTried, s.counts, {})
    requires Counted(e, t.mapInfo, t.nNew, t.nTried, t.counts, {})
    requires Reborn(s, ids, tried, t)
    ensures CountOf(t.counts, net) == CountOf(s.counts, net)
  {
    RebornCounts(e, s, ids, tried, t, net);
  }

  /** The state before pruning and checking. */
  lemma ReadBack(e: Env, s: State, order: seq<int>)
    requires Partial(e, s, {}, {}) && Lists(order, s.mapInfo)
    ensures var t := Placed(e, Dump(e, s, order));
            Partial(e, t, {}, {}) && SameBook(s, t) && t.collisions == {} && 0 <= t.idCount
  {
    hide Keyed, Ordered, TriedTable, NewSlots, RefCounts, Counted, Sound, Placed, Loaded, Dump,
         SameSlots, SameEntry, NewOf, TriedOf, Lists, Partition, Reborn, Revived, HasSlots, Refers, Rows;
    var ids, tried, f := NewOf(s.mapInfo, order), TriedOf(s.mapInfo, order), Dump(e, s, order);
    WrittenIds(e, s, order);
    LoadedBack(e, s, order);
    PlacedBack(e, s, order);
    var base, t := Loaded(e, f), Placed(e, f);
    SlotsFrame(s, ids, base, t);
    RebornBack(e, s, ids, tried, base, t);
    AddressesBack(s, ids, tried, t);
    TriedSlotsBack(e, s, ids, tried, t);
    NewSlotsBack(e, s, ids, tried, base, t);
    forall net ensures CountOf(t.counts, net) == CountOf(s.counts, net) {
      CountsBack(e, s, ids, tried, t, net);
    }
  }

  /**
   Writing a consistent manager and reading it into an empty one with the same
   ASN map loses nothing: it succeeds, whatever the order in which the map is
   traversed on either side, and restores the same book of addresses.
   */
  lemma RoundTrip(e: Env, s: State, order: seq<int>, pruning: seq<int>)
    requires Consistent(e, s) && Lists(order, s.mapInfo)
    ensures Load(e, Render(Dump(e, s, order)), pruning).Some?
    ensures var t := Load(e, Render(Dump(e, s, order)), pruning).value;
            SameBook(s, t) && Consistent(e, t)
  {
    hide Keyed, Ordered, TriedTable, NewSlots, RefCounts, Counted, Sound, Placed, Render, Checked, Unchecked,
         NewOf, TriedOf, Lists, Partition, Refers, Saved, BucketRefs;
    var ids, tried, f := NewOf(s.mapInfo, order), TriedOf(s.mapInfo, order), Dump(e, s, order);
    WrittenIds(e, s, order);
    TablesFit(e, s);
    SavedLength(s.mapInfo, ids);
    SavedLength(s.mapInfo, tried);
    BucketRefsLength(s.vvNew, ids, NEW_BUCKET_COUNT);
    ParseRender(f);
    ReadBack(e, s, order);
    var t := Placed(e, f);
    NoStrays(t);
    PruneNothing(e, t, pruning);
    TablesCheckedExactly(e, t);
  }

  lemma {:induction false} BucketRefsLength(table: Table, ids: seq<int>, n: nat)
    ensures |BucketRefs(table, ids, n)| == n
  {
    if n > 0 { BucketRefsLength(table, ids, n - 1); }
  }

  lemma SlotsFrame(s: State, ids: seq<int>, base: State, t: State)
    requires HasSlots(s, ids, base, t, Rows(s.vvNew, NEW_BUCKET_COUNT))
    ensures t == base.(mapInfo := t.mapInfo, vvNew := t.vvNew)
  {
  }

  lemma NoStrays(s: State)
    requires RefCounts(s.mapInfo, s.vvNew, {})
    ensures forall id <- s.mapInfo :: !Stray(s, id)
  {
  }
}
