/**
 The layout of the stream an address manager is written to, which streams are
 refused at once, and what becomes of the new table under another ASN map.
 */
module AddrManReload {
  import opened Basics
  import opened AddrManState
  import opened AddrManRuns
  import opened AddrManCheck
  import opened AddrManDisk
  import opened AddrManRoundTrip
  import Sets
  import Ops = AddrManOps

  // ---- layout ----

  lemma {:induction false} EntriesAt(ds: seq<Disk>)
    ensures |Entries(ds)| == |ds| && forall i :: 0 <= i < |ds| ==> Entries(ds)[i] == Entry(ds[i])
  {
    if ds != [] { EntriesAt(ds[1..]); }
  }

  /** An entry as stored: no last try, no reference count, no place in a table. */
  predicate Stored(m: Infos, id: int, item: Item) {
    id in m && item == Entry(Disk(m[id].addr, m[id].time, m[id].services, m[id].source, m[id].lastSuccess,
                                  m[id].attempts))
  }

  /**
   The stream starts with the format, the oldest compatible one, the key and the counts,
   then holds every entry once, the new ones before the tried, and the map's checksum last.
   */
  lemma StreamLayout(e: Env, s: State, order: seq<int>) returns (ids: seq<int>)
    requires Consistent(e, s) && Lists(order, s.mapInfo)
    ensures var w := Render(Dump(e, s, order));
            && Lists(ids, s.mapInfo) && |ids| == s.nNew + s.nTried && 7 + |ids| <= |w|
            && w[..6] == [Byte(4), Byte(36), Secret(s.key), Num(s.nNew), Num(s.nTried), Num(1024 + 0x4000_0000)]
            && (forall i :: 0 <= i < |ids| ==>
                  Stored(s.mapInfo, ids[i], w[6 + i]) && (s.mapInfo[ids[i]].inTried <==> i >= s.nNew))
            && w[|w| - 1] == Checksum(e.asmapChecksum)
  {
    hide Keyed, Ordered, TriedTable, NewSlots, RefCounts, Counted, Sound, NewOf, TriedOf, Lists, Refers, Saved,
      BucketRefs, Entries, Buckets, Partition;
    var new_, tried, f := NewOf(s.mapInfo, order), TriedOf(s.mapInfo, order), Dump(e, s, order);
    WrittenIds(e, s, order);
    ids := new_ + tried;
    PartitionLists(s.mapInfo, new_, tried);
    SavedExact(s.mapInfo, new_);
    SavedExact(s.mapInfo, tried);
    EntriesAt(f.newEntries);
    EntriesAt(f.triedEntries);
    var w := Render(f);
    forall i | 0 <= i < |ids|
      ensures w[6 + i] == Entry(Persist(Info(s.mapInfo, ids[i])))
    {
    }
  }

  lemma PartitionLists(m: Infos, ids: seq<int>, tried: seq<int>)
    requires Partition(m, ids, tried)
    ensures Lists(ids + tried, m)
    ensures forall i :: 0 <= i < |ids + tried| ==>
              (ids + tried)[i] in m && (m[(ids + tried)[i]].inTried <==> i >= |ids|)
  {
    forall i | 0 <= i < |ids + tried|
      ensures (ids + tried)[i] in m && (m[(ids + tried)[i]].inTried <==> i >= |ids|)
    {
      if i < |ids| {
        assert ids[i] in ids && (ids + tried)[i] == ids[i];
      } else {
        assert tried[i - |ids|] in tried && (ids + tried)[i] == tried[i - |ids|];
      }
    }
  }

  // ---- what is refused ----

  /** The oldest compatible format must be known and the counts must fit the tables. */
  lemma HeaderExactly(w: seq<Item>)
    ensures Parse(w).Some? ==>
              && |w| >= 6 && w[1].Byte? && 32 <= w[1].b <= 36
              && w[3].Num? && 0 <= w[3].n <= 65536 && w[4].Num? && 0 <= w[4].n <= 16384
    ensures |w| >= 6 && w[0].Byte? && w[1].Byte? && w[2].Secret? && w[3] == w[4] == Num(0) && w[5].Num? &&
            32 <= w[1].b <= 36 && w[0].b == 0 && w[5].n <= 0 ==>
              Parse(w) == Some(File(0, w[1].b, w[2].key, 0, 0, w[5].n, [], [], [], 0))
  {
  }

  // ---- another ASN map ----

  /** Every occupied new slot is the one its occupant's own source leads to. */
  ghost predicate AtHome(e: Env, s: State) {
    forall sl <- s.vvNew :: s.vvNew[sl] in s.mapInfo ==>
      var info := s.mapInfo[s.vvNew[sl]]; sl == e.NewSlot(s.key, info.addr, info.source)
  }

  lemma {:induction false} LoadNewEmpty(e: Env, s: State, ds: seq<Disk>)
    ensures LoadNew(e, s, ds).vvNew == s.vvNew
  {
    if ds != [] { LoadNewEmpty(e, s, ds[..|ds| - 1]); }
  }

  lemma {:induction false} LoadTriedEmpty(e: Env, s: State, ds: seq<Disk>)
    ensures LoadTried(e, s, ds).vvNew == s.vvNew
  {
    if ds != [] { LoadTriedEmpty(e, s, ds[..|ds| - 1]); }
  }

  lemma PlaceOneHome(e: Env, s: State, p: (int, int))
    requires AtHome(e, s) && p.1 in s.mapInfo
    ensures AtHome(e, PlaceOne(e, s, p, false))
    ensures PlaceOne(e, s, p, false).mapInfo.Keys == s.mapInfo.Keys
  {
    var t := PlaceOne(e, s, p, false);
    forall sl | sl in t.vvNew && t.vvNew[sl] in t.mapInfo
      ensures sl == e.NewSlot(t.key, t.mapInfo[t.vvNew[sl]].addr, t.mapInfo[t.vvNew[sl]].source)
    {
      if sl in s.vvNew { assert s.vvNew[sl] in s.mapInfo; }
    }
  }

  lemma {:induction false} PlaceAllHome(e: Env, s: State, ps: seq<(int, int)>)
    requires AtHome(e, s) && forall i :: 0 <= i < |ps| ==> ps[i].1 in s.mapInfo
    ensures AtHome(e, PlaceAll(e, s, ps, false))
    ensures PlaceAll(e, s, ps, false).mapInfo.Keys == s.mapInfo.Keys
  {
    hide AtHome, PlaceOne;
    if ps != [] {
      PlaceAllHome(e, s, ps[..|ps| - 1]);
      PlaceOneHome(e, PlaceAll(e, s, ps[..|ps| - 1], false), ps[|ps| - 1]);
    }
  }

  lemma {:induction false} PruneSlots(e: Env, s: State, ids: seq<int>)
    ensures Prune(e, s, ids).vvNew == s.vvNew
  {
    if ids != [] { PruneSlots(e, s, ids[..|ids| - 1]); }
  }

  /**
   A file written under another ASN map, or with another number of buckets, loads into a
   manager whose new entries each have one slot, found afresh from their first source.
   */
  lemma Rebucketed(e: Env, w: seq<Item>, order: seq<int>)
    requires Load(e, w, order).Some? && Lists(order, Placed(e, Parse(w).value).mapInfo)
    requires Parse(w).value.nBuckets != 1024 || Parse(w).value.checksum != e.asmapChecksum
    ensures var t := Load(e, w, order).value;
            && (forall sl <- t.vvNew ::
                  && IsNew(t.mapInfo, {}, t.vvNew[sl])
                  && var info := t.mapInfo[t.vvNew[sl]]; sl == e.NewSlot(t.key, info.addr, info.source))
            && forall id <- t.mapInfo :: !t.mapInfo[id].inTried ==> t.mapInfo[id].refCount == 1
  {
    hide Loose, Checked, Placed, Prune, PlaceAll, LoadNew, LoadTried, Parse, Keyed, Ordered, TriedTable, Counted, Sound;
    var f := Parse(w).value;
    ParsedShape(w);
    PlacedLoose(e, f);
    LoadConsistent(e, w, order);
    PlacedHome(e, f);
    var s, t := Placed(e, f), Prune(e, Placed(e, f), order);
    PruneLoose(e, s, order, s.idCount);
    PruneSlots(e, s, order);
    KinHome(e, s, t);
    SingleSlots(e, t);
  }

  lemma PlacedHome(e: Env, f: File)
    requires f.nNew == |f.newEntries| && (f.nBuckets != 1024 || f.checksum != e.asmapChecksum)
    ensures AtHome(e, Placed(e, f))
  {
    hide PlaceAll, LoadNew, LoadTried, Pairs;
    LoadNewKeys(e, Start(f), f.newEntries);
    LoadTriedKeys(e, LoadNew(e, Start(f), f.newEntries).(idCount := f.nNew), f.triedEntries);
    PairsInRange(f.buckets, f.nNew);
    LoadNewEmpty(e, Start(f), f.newEntries);
    LoadTriedEmpty(e, LoadNew(e, Start(f), f.newEntries).(idCount := f.nNew), f.triedEntries);
    PlaceAllHome(e, Loaded(e, f), Pairs(f.buckets, f.nNew));
  }

  lemma KinHome(e: Env, s: State, t: State)
    requires AtHome(e, s) && Kin(s, t) && t.vvNew == s.vvNew
    ensures AtHome(e, t)
  {
    forall sl | sl in t.vvNew && t.vvNew[sl] in t.mapInfo
      ensures sl == e.NewSlot(t.key, t.mapInfo[t.vvNew[sl]].addr, t.mapInfo[t.vvNew[sl]].source)
    {
      var id := s.vvNew[sl];
      assert id in s.mapInfo && id in t.mapInfo;
      assert t.mapInfo[id].addr == s.mapInfo[id].addr && t.mapInfo[id].source == s.mapInfo[id].source;
    }
  }

  lemma SingleSlots(e: Env, s: State)
    requires Partial(e, s, {}, {}) && AtHome(e, s)
    ensures forall sl <- s.vvNew :: IsNew(s.mapInfo, {}, s.vvNew[sl])
    ensures forall id <- s.mapInfo :: !s.mapInfo[id].inTried ==> s.mapInfo[id].refCount == 1
  {
    hide Keyed, Ordered, TriedTable, Counted, Sound;
    forall sl | sl in s.vvNew ensures IsNew(s.mapInfo, {}, s.vvNew[sl]) {
      Ops.SlotHolder(e, s.key, s.mapInfo, s.vvNew, {}, sl);
    }
    forall id | id in s.mapInfo && !s.mapInfo[id].inTried ensures s.mapInfo[id].refCount == 1 {
      var home := e.NewSlot(s.key, s.mapInfo[id].addr, s.mapInfo[id].source);
      forall sl | sl in SlotsOf(s.vvNew, id) ensures sl == home { assert s.vvNew[sl] == id; }
      Sets.SubsetSize(SlotsOf(s.vvNew, id), {home});
    }
  }
}
