/**
 Serialize and Unserialize as the loops that write and rebuild the object, proved
 against the stream format and the rebuilding functions.
 */
module AddrManStream {
  import opened Basics
  import opened AddrManState
  import opened AddrManRuns
  import opened AddrManager
  import opened AddrManCheck
  import opened AddrManDisk
  import opened AddrManRoundTrip
  import Sets
  import Ops = AddrManOps

  // ---- writing ----

  lemma {:induction false} EntriesAppend(a: seq<Disk>, d: Disk)
    ensures Entries(a + [d]) == Entries(a) + [Entry(d)]
  {
    if a != [] {
      EntriesAppend(a[1..], d);
      assert (a + [d])[1..] == a[1..] + [d];
    }
  }

  lemma {:induction false} NumsAppend(a: seq<int>, x: int)
    ensures Nums(a + [x]) == Nums(a) + [Num(x)]
  {
    if a != [] {
      NumsAppend(a[1..], x);
      assert (a + [x])[1..] == a[1..] + [x];
    }
  }

  lemma JoinFour<T>(a: seq<T>, b: seq<T>, c: seq<T>, d: seq<T>)
    ensures a + (b + c + d) == a + b + c + d
  {
  }

  lemma {:induction false} BucketsAppend(a: seq<seq<int>>, b: seq<int>)
    ensures Buckets(a + [b]) == Buckets(a) + [Num(|b|)] + Nums(b)
  {
    if a == [] {
      assert [b][1..] == [] && Buckets([b]) == [Num(|b|)] + Nums(b) + Buckets([]);
    } else {
      BucketsAppend(a[1..], b);
      assert (a + [b])[1..] == a[1..] + [b];
      hide Nums;
      JoinFour([Num(|a[0]|)] + Nums(a[0]), Buckets(a[1..]), [Num(|b|)], Nums(b));
    }
  }

  lemma {:induction false} RankPast(ids: seq<int>, id: int, x: int)
    ensures id in ids ==> Rank(ids + [x], id) == Rank(ids, id)
    ensures id !in ids ==> Rank(ids + [id], id) == |ids|
  {
    if ids != [] {
      RankPast(ids[1..], id, x);
      assert (ids + [x])[1..] == ids[1..] + [x];
      assert (ids + [id])[1..] == ids[1..] + [id];
    }
  }

  /** The numbers given to the entries so far agree with their ranks. */
  ghost predicate Numbered(unkIds: map<int, int>, ids: seq<int>) {
    forall i :: 0 <= i < |ids| ==> ids[i] in unkIds && unkIds[ids[i]] == Rank(ids, ids[i])
  }

  lemma NumberedNext(unkIds: map<int, int>, ids: seq<int>, id: int)
    requires Numbered(unkIds, ids) && id !in ids
    ensures Numbered(unkIds[id := |ids|], ids)
    ensures Numbered(unkIds[id := |ids|], ids + [id])
  {
    RankPast(ids, id, id);
    forall i | 0 <= i < |ids| + 1
      ensures (ids + [id])[i] in unkIds[id := |ids|]
      ensures unkIds[id := |ids|][(ids + [id])[i]] == Rank(ids + [id], (ids + [id])[i])
    {
      if i < |ids| {
        assert ids[i] in ids;
        RankPast(ids, ids[i], id);
      }
    }
  }

  lemma SavedNext(m: Infos, ids: seq<int>, id: int)
    ensures Entries(Saved(m, ids + [id])) == Entries(Saved(m, ids)) + [Entry(Persist(Info(m, id)))]
  {
    assert (ids + [id])[..|ids|] == ids;
    EntriesAppend(Saved(m, ids), Persist(Info(m, id)));
  }

  lemma NewOfNext(m: Infos, order: seq<int>, i: int)
    requires 0 <= i < |order|
    ensures NewOf(m, order[..i + 1]) ==
            if Info(m, order[i]).refCount != 0 then NewOf(m, order[..i]) + [order[i]] else NewOf(m, order[..i])
  {
    assert order[..i + 1][..i] == order[..i];
  }

  lemma TriedOfNext(m: Infos, order: seq<int>, i: int)
    requires 0 <= i < |order|
    ensures TriedOf(m, order[..i + 1]) ==
            if Info(m, order[i]).inTried then TriedOf(m, order[..i]) + [order[i]] else TriedOf(m, order[..i])
  {
    assert order[..i + 1][..i] == order[..i];
  }

  /** The i-th id of a listing is known and has not come before. */
  lemma ListedAt(m: Infos, order: seq<int>, i: int)
    requires Lists(order, m) && 0 <= i < |order|
    ensures order[i] in m && order[i] !in NewOf(m, order[..i])
  {
    assert order[i] in order;
    NewOfExact(m, order[..i]);
  }

  lemma NothingWritten(m: Infos)
    ensures Entries(Saved(m, NewOf(m, []))) == [] && NewOf(m, []) == []
    ensures Entries(Saved(m, TriedOf(m, []))) == [] && TriedOf(m, []) == []
    ensures Numbered(map[], [])
  {
  }

  method WriteNew(am: AddrManImpl, order: seq<int>) returns (w: seq<Item>, unkIds: map<int, int>)
    requires am.Shaped() && Partial(am.e, am.Abs(), {}, {}) && Lists(order, am.mapInfo)
    ensures w == Entries(Saved(am.mapInfo, NewOf(am.mapInfo, order)))
    ensures Numbered(unkIds, NewOf(am.mapInfo, order))
  {
    hide Partial, Numbered, NewOf, TriedOf, Saved, Entries, Lists, Partition, Refers, TableOf;
    ghost var m := am.mapInfo;
    var nIds := 0;
    w, unkIds := [], map[];
    NothingWritten(m);
    WrittenIds(am.e, am.Abs(), order);
    assert order[..0] == [];
    for i := 0 to |order|
      invariant w == Entries(Saved(m, NewOf(m, order[..i])))
      invariant nIds == |NewOf(m, order[..i])|
      invariant Numbered(unkIds, NewOf(m, order[..i]))
    {
      var id := order[i];
      ghost var ids := NewOf(m, order[..i]);
      ListedAt(m, order, i);
      NewOfNext(m, order, i);
      NumberedNext(unkIds, ids, id);
      unkIds := unkIds[id := nIds];
      var info := am.mapInfo[id];
      if info.refCount != 0 {
        NewOfPrefix(m, order, i + 1);
        assert nIds != am.nNew;
        SavedNext(m, ids, id);
        w := w + [Entry(Persist(info))];
        nIds := nIds + 1;
      }
    }
    assert order[..|order|] == order;
  }

  lemma {:induction false} NewOfPrefix(m: Infos, order: seq<int>, i: nat)
    requires i <= |order|
    ensures |NewOf(m, order[..i])| <= |NewOf(m, order)|
    decreases |order| - i
  {
    if i < |order| {
      NewOfPrefix(m, order, i + 1);
      assert order[..i + 1][..i] == order[..i];
    } else {
      assert order[..i] == order;
    }
  }

  lemma {:induction false} TriedOfPrefix(m: Infos, order: seq<int>, i: nat)
    requires i <= |order|
    ensures |TriedOf(m, order[..i])| <= |TriedOf(m, order)|
    decreases |order| - i
  {
    if i < |order| {
      TriedOfPrefix(m, order, i + 1);
      assert order[..i + 1][..i] == order[..i];
    } else {
      assert order[..i] == order;
    }
  }

  method WriteTried(am: AddrManImpl, order: seq<int>) returns (w: seq<Item>)
    requires am.Shaped() && Partial(am.e, am.Abs(), {}, {}) && Lists(order, am.mapInfo)
    ensures w == Entries(Saved(am.mapInfo, TriedOf(am.mapInfo, order)))
  {
    hide Partial, NewOf, TriedOf, Saved, Entries, Lists, Partition, Refers, TableOf;
    ghost var m := am.mapInfo;
    var nIds := 0;
    w := [];
    NothingWritten(m);
    WrittenIds(am.e, am.Abs(), order);
    assert order[..0] == [];
    for i := 0 to |order|
      invariant w == Entries(Saved(m, TriedOf(m, order[..i])))
      invariant nIds == |TriedOf(m, order[..i])|
    {
      var id := order[i];
      ListedAt(m, order, i);
      TriedOfNext(m, order, i);
      var info := am.mapInfo[id];
      if info.inTried {
        TriedOfPrefix(m, order, i + 1);
        assert nIds != am.nTried;
        SavedNext(m, TriedOf(m, order[..i]), id);
        w := w + [Entry(Persist(info))];
        nIds := nIds + 1;
      }
    }
    assert order[..|order|] == order;
  }

  lemma RefsNone(table: Table, ids: seq<int>, bucket: int)
    ensures Row(table, bucket, 0) == [] && Nums(Refs(table, ids, [])) == []
  {
  }

  lemma RowNext(table: Table, bucket: int, i: nat)
    ensures Row(table, bucket, i + 1) ==
            if Slot(bucket, i) in table then Row(table, bucket, i) + [Slot(bucket, i)] else Row(table, bucket, i)
  {
  }

  lemma RefsNext(table: Table, ids: seq<int>, slots: seq<Slot>, sl: Slot)
    requires sl in table
    ensures Nums(Refs(table, ids, slots + [sl])) == Nums(Refs(table, ids, slots)) + [Num(Rank(ids, table[sl]))]
  {
    assert (slots + [sl])[..|slots|] == slots;
    NumsAppend(Refs(table, ids, slots), Rank(ids, table[sl]));
  }

  method WriteBucket(am: AddrManImpl, bucket: int, unkIds: map<int, int>, ghost ids: seq<int>) returns (w: seq<Item>)
    requires am.Shaped() && 0 <= bucket < NEW_BUCKET_COUNT
    requires Numbered(unkIds, ids) && Refers(TableOf(am.vvNew), ids)
    ensures var b := Refs(TableOf(am.vvNew), ids, Row(TableOf(am.vvNew), bucket, BUCKET_SIZE));
            w == [Num(|b|)] + Nums(b)
  {
    hide TableOf, Numbered, Refers, Rank, Row, Refs, Nums;
    ghost var table := TableOf(am.vvNew);
    RefsNone(table, ids, bucket);
    var size := 0;
    for i := 0 to BUCKET_SIZE
      invariant size == |Row(table, bucket, i)|
    {
      SlotIn(am.vvNew, bucket, i);
      RowNext(table, bucket, i);
      if am.vvNew[bucket, i] != EMPTY { size := size + 1; }
    }
    var items := [];
    for i := 0 to BUCKET_SIZE
      invariant items == Nums(Refs(table, ids, Row(table, bucket, i)))
    {
      SlotIn(am.vvNew, bucket, i);
      RowNext(table, bucket, i);
      if am.vvNew[bucket, i] != EMPTY {
        NumberOf(unkIds, ids, table, Slot(bucket, i));
        RefsNext(table, ids, Row(table, bucket, i), Slot(bucket, i));
        items := items + [Num(unkIds[am.vvNew[bucket, i]])];
      }
    }
    RefsLength(table, ids, Row(table, bucket, BUCKET_SIZE));
    w := [Num(size)] + items;
  }

  lemma NumberOf(unkIds: map<int, int>, ids: seq<int>, table: Table, sl: Slot)
    requires Numbered(unkIds, ids) && Refers(table, ids) && sl in table
    ensures table[sl] in unkIds && unkIds[table[sl]] == Rank(ids, table[sl])
  {
    RankExact(ids, table[sl]);
  }

  lemma {:induction false} RefsLength(table: Table, ids: seq<int>, slots: seq<Slot>)
    ensures |Refs(table, ids, slots)| == |slots|
  {
    if slots != [] { RefsLength(table, ids, slots[..|slots| - 1]); }
  }

  /** Write the manager, the map being traversed in the order `order`. */
  method Serialize(am: AddrManImpl, order: seq<int>) returns (w: seq<Item>)
    requires am.Shaped() && Partial(am.e, am.Abs(), {}, {}) && Lists(order, am.mapInfo)
    ensures w == Render(Dump(am.e, am.Abs(), order))
  {
    hide Partial, TableOf, Numbered, NewOf, TriedOf, Saved, Entries, Row, Refs, Nums, Refers, Partition;
    ghost var s, ids := am.Abs(), NewOf(am.mapInfo, order);
    WrittenIds(am.e, s, order);
    var header := [Byte(FILE_FORMAT), Byte(INCOMPATIBILITY_BASE + FILE_FORMAT), Secret(am.key),
                   Num(am.nNew), Num(am.nTried), Num(Flip(NEW_BUCKET_COUNT))];
    var news, unkIds := WriteNew(am, order);
    var tried := WriteTried(am, order);
    var buckets := [];
    for n := 0 to NEW_BUCKET_COUNT
      invariant buckets == Buckets(BucketRefs(s.vvNew, ids, n))
    {
      var b := WriteBucket(am, n, unkIds, ids);
      buckets := buckets + b;
      BucketsAppend(BucketRefs(s.vvNew, ids, n), Refs(s.vvNew, ids, Row(s.vvNew, n, BUCKET_SIZE)));
    }
    w := header + news + tried + buckets + [Checksum(am.e.asmapChecksum)];
  }

  // ---- reading ----

  method InsertInPlace(am: AddrManImpl, id: int, info: AddrInfo)
    requires am.Shaped()
    modifies am
    ensures am.Abs() == Insert(am.e, old(am.Abs()), id, info.(randomPos := |old(am.vRandom)|))
  {
    hide TableOf;
    am.mapInfo := am.mapInfo[id := info.(randomPos := |am.vRandom|)];
    am.mapAddr := am.mapAddr[info.addr := id];
    am.vRandom := am.vRandom + [id];
    if info.inTried { am.BumpCount(info.addr, 0, 1); } else { am.BumpCount(info.addr, 1, 0); }
  }

  method LoadTriedInPlace(am: AddrManImpl, d: Disk) returns (lost: bool)
    requires am.Shaped() && 0 <= am.idCount
    modifies am, am.vvTried
    ensures am.Abs().(nTried := am.nTried - if lost then 1 else 0) == LoadTriedOne(am.e, old(am.Abs()), d)
    ensures 0 <= am.idCount
  {
    hide TableOf;
    var sl := am.e.TriedSlot(am.key, d.addr);
    SlotIn(am.vvTried, sl.bucket, sl.position);
    if am.e.valid(d.addr) && am.vvTried[sl.bucket, sl.position] == EMPTY {
      InsertInPlace(am, am.idCount, Revive(d, -1).(inTried := true));
      Put(am.vvTried, sl, am.idCount);
      am.idCount := am.idCount + 1;
      lost := false;
    } else {
      lost := true;
    }
  }

  method CollectBucket(bucket: int, b: seq<int>, nNew: int) returns (ps: seq<(int, int)>)
    ensures ps == InRange(bucket, b, nNew)
  {
    ps := [];
    for n := 0 to |b|
      invariant ps == InRange(bucket, b[..n], nNew)
    {
      if 0 <= b[n] < nNew {
        ps := ps + [(bucket, b[n])];
      }
      assert b[..n + 1][..n] == b[..n];
    }
    assert b[..|b|] == b;
  }

  method CollectPairs(bs: seq<seq<int>>, nNew: int) returns (ps: seq<(int, int)>)
    ensures ps == Pairs(bs, nNew)
  {
    ps := [];
    for bucket := 0 to |bs|
      invariant ps == Pairs(bs[..bucket], nNew)
    {
      var more := CollectBucket(bucket, bs[bucket], nNew);
      ps := ps + more;
      assert bs[..bucket + 1][..bucket] == bs[..bucket];
    }
    assert bs[..|bs|] == bs;
  }

  method AddRefInPlace(am: AddrManImpl, id: int, sl: Slot)
    requires am.Shaped() && id in am.mapInfo && id >= 0 && sl in Slots(NEW_BUCKET_COUNT)
    modifies am, am.vvNew
    ensures am.Abs() == Ops.AddRef(old(am.Abs()), id, sl)
  {
    hide TableOf;
    Put(am.vvNew, sl, id);
    am.mapInfo := am.mapInfo[id := am.mapInfo[id].(refCount := am.mapInfo[id].refCount + 1)];
  }

  method PlaceInPlace(am: AddrManImpl, p: (int, int), restore: bool)
    requires am.Shaped() && p.1 in am.mapInfo && p.1 >= 0
    requires restore ==> 0 <= p.0 < NEW_BUCKET_COUNT
    modifies am, am.vvNew
    ensures am.Abs() == PlaceOne(am.e, old(am.Abs()), p, restore)
  {
    hide TableOf;
    var info := am.mapInfo[p.1];
    if !am.e.valid(info.addr) { return; }
    if info.refCount >= NEW_BUCKETS_PER_ADDRESS { return; }
    var position := am.e.bucketPosition(am.key, true, p.0, info.addr);
    if restore { SlotIn(am.vvNew, p.0, position); }
    if restore && am.vvNew[p.0, position] == EMPTY {
      InSlots(Slot(p.0, position));
      AddRefInPlace(am, p.1, Slot(p.0, position));
    } else {
      var home := am.e.NewSlot(am.key, info.addr, info.source);
      SlotIn(am.vvNew, home.bucket, home.position);
      if am.vvNew[home.bucket, home.position] == EMPTY {
        InSlots(home);
        AddRefInPlace(am, p.1, home);
      }
    }
  }

  method PruneInPlace(am: AddrManImpl) returns (ghost order: seq<int>)
    requires am.Shaped() && Loose(am.e, am.Abs(), am.idCount)
    modifies am
    ensures Lists(order, old(am.mapInfo))
    ensures am.Abs() == Prune(am.e, old(am.Abs()), order)
  {
    hide Loose, TableOf, Ops.Delete, Kin;
    ghost var s := am.Abs();
    order := [];
    var todo := am.mapInfo.Keys;
    while todo != {}
      invariant am.Abs() == Prune(am.e, s, order)
      invariant forall id :: id in s.mapInfo <==> id in order || id in todo
      invariant forall i :: 0 <= i < |order| ==> order[i] !in todo
      invariant forall i, j :: 0 <= i < j < |order| ==> order[i] != order[j]
      invariant todo <= am.mapInfo.Keys
      decreases |todo|
    {
      var id := Sets.Pick(todo);
      PruneLoose(am.e, s, order, s.idCount);
      if !am.mapInfo[id].inTried && am.mapInfo[id].refCount == 0 {
        LooseOrdered(am.e, am.Abs(), s.idCount);
        DeleteLoose(am.e, am.Abs(), id, s.idCount);
        am.Delete(id);
      }
      assert (order + [id])[..|order|] == order;
      order := order + [id];
      todo := todo - {id};
    }
  }

  lemma LooseOrdered(e: Env, s: State, bound: int)
    requires Loose(e, s, bound)
    ensures Ordered(s.mapInfo, s.vRandom)
  {
  }

  /** Rebuild an empty manager from a stream; `ok` is false where an exception is thrown. */
  method Unserialize(am: AddrManImpl, w: seq<Item>) returns (ok: bool, ghost order: seq<int>)
    requires am.Shaped() && am.Abs() == Empty(am.key)
    modifies am, am.vvNew, am.vvTried
    ensures Parse(w).Some? ==> Lists(order, Placed(am.e, Parse(w).value).mapInfo)
    ensures ok <==> Load(am.e, w, order).Some?
    ensures ok ==> am.Abs() == Load(am.e, w, order).value && Consistent(am.e, am.Abs())
  {
    hide TableOf, Loose, Checked, Parse, Partial, Prune, Lists, Pairs, LoadTriedOne, PlaceOne, Insert;
    var parsed := Parse(w);
    if parsed.None? { return false, []; }
    var f := parsed.value;
    ParsedShape(w);
    LoadEntries(am, f);
    PlacedLoose(am.e, f);
    PlaceEntries(am, f);
    order := PruneInPlace(am);
    var code := CheckAddrman(am);
    ok := code == 0;
    LoadConsistent(am.e, w, order);
  }

  method LoadEntries(am: AddrManImpl, f: File)
    requires am.Shaped() && am.Abs() == Empty(am.key)
    requires f.nNew == |f.newEntries| && f.nTried == |f.triedEntries|
    modifies am, am.vvTried
    ensures am.Abs() == Loaded(am.e, f)
  {
    hide TableOf, LoadNew, LoadTried;
    am.key, am.nNew, am.nTried := f.key, f.nNew, f.nTried;
    LoadNewEntries(am, f.newEntries);
    am.idCount := f.nNew;
    LoadTriedEntries(am, f.triedEntries);
  }

  method LoadNewEntries(am: AddrManImpl, ds: seq<Disk>)
    requires am.Shaped()
    modifies am
    ensures am.Abs() == LoadNew(am.e, old(am.Abs()), ds)
  {
    hide TableOf, Insert;
    ghost var s := am.Abs();
    for n := 0 to |ds|
      invariant am.Abs() == LoadNew(am.e, s, ds[..n])
    {
      InsertInPlace(am, n, Revive(ds[n], -1));
      assert ds[..n + 1][..n] == ds[..n];
    }
    assert ds[..|ds|] == ds;
  }

  method LoadTriedEntries(am: AddrManImpl, ds: seq<Disk>)
    requires am.Shaped() && 0 <= am.idCount
    modifies am, am.vvTried
    ensures am.Abs() == LoadTried(am.e, old(am.Abs()), ds)
  {
    hide TableOf, LoadTriedOne;
    ghost var s := am.Abs();
    var lost := 0;
    for n := 0 to |ds|
      invariant 0 <= am.idCount
      invariant am.Abs().(nTried := am.nTried - lost) == LoadTried(am.e, s, ds[..n])
    {
      TriedCountApart(am.e, am.Abs(), ds[n], lost);
      var gone := LoadTriedInPlace(am, ds[n]);
      if gone { lost := lost + 1; }
      assert ds[..n + 1][..n] == ds[..n];
    }
    assert ds[..|ds|] == ds;
    am.nTried := am.nTried - lost;
  }

  method PlaceEntries(am: AddrManImpl, f: File)
    requires am.Shaped() && am.Abs() == Loaded(am.e, f)
    requires f.nNew == |f.newEntries| && |f.buckets| == if f.nBuckets <= 0 then 0 else f.nBuckets
    modifies am, am.vvNew
    ensures am.Abs() == Placed(am.e, f)
  {
    hide TableOf, PlaceOne, Loaded, Pairs;
    ghost var s := am.Abs();
    var restore := f.nBuckets == NEW_BUCKET_COUNT && f.checksum == am.e.asmapChecksum;
    var ps := CollectPairs(f.buckets, f.nNew);
    LoadedNew(am.e, f);
    PairsInRange(f.buckets, f.nNew);
    for k := 0 to |ps|
      invariant am.Abs() == PlaceAll(am.e, s, ps[..k], restore)
      invariant forall id :: 0 <= id < f.nNew ==> id in am.mapInfo
    {
      PlaceOneKeys(am.e, am.Abs(), ps[k], restore);
      PlaceInPlace(am, ps[k], restore);
      assert ps[..k + 1][..k] == ps[..k];
    }
    assert ps[..|ps|] == ps;
  }

  lemma LoadedNew(e: Env, f: File)
    requires f.nNew == |f.newEntries|
    ensures forall id :: 0 <= id < f.nNew ==> id in Loaded(e, f).mapInfo
  {
    LoadNewKeys(e, Start(f), f.newEntries);
    LoadTriedKeys(e, LoadNew(e, Start(f), f.newEntries).(idCount := f.nNew), f.triedEntries);
    hide LoadNew, LoadTried;
  }

  lemma PlaceOneKeys(e: Env, s: State, p: (int, int), restore: bool)
    ensures forall id <- s.mapInfo :: id in PlaceOne(e, s, p, restore).mapInfo
  {
  }
}
