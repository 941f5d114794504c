/**
 Which files load: every one without a repeated address or an impossible statistic,
 whatever its buckets and the ASN map, and what such a load may lose.
 */
module AddrManLoads {
  import opened Basics
  import opened AddrManState
  import opened AddrManRuns
  import opened AddrManCheck
  import opened AddrManDisk
  import opened AddrManOps

  // ---- loading, with validity of addresses left for later ----

  /** The same world, in which every address is valid. */
  function Lenient(e: Env): Env {
    e.(valid := (_: Service) => true)
  }

  function Addresses(ds: seq<Disk>): set<Service> {
    if ds == [] then {} else Addresses(ds[..|ds| - 1]) + {ds[|ds| - 1].addr}
  }

  lemma {:induction false} AddressesExactly(ds: seq<Disk>, a: Service)
    ensures a in Addresses(ds) <==> exists i :: 0 <= i < |ds| && ds[i].addr == a
  {
    if ds != [] {
      var n := |ds| - 1;
      AddressesExactly(ds[..n], a);
      if i :| 0 <= i < |ds| && ds[i].addr == a {
        if i < n { assert ds[..n][i].addr == a; }
      }
    }
  }

  /** No address twice, no success before the epoch, and no tried entry without one. */
  ghost predicate Plausible(f: File) {
    && f.key != 0
    && (forall i, j :: 0 <= i < j < |f.newEntries| ==> f.newEntries[i].addr != f.newEntries[j].addr)
    && (forall i, j :: 0 <= i < j < |f.triedEntries| ==> f.triedEntries[i].addr != f.triedEntries[j].addr)
    && (forall i, j :: 0 <= i < |f.newEntries| && 0 <= j < |f.triedEntries| ==>
          f.newEntries[i].addr != f.triedEntries[j].addr)
    && (forall i :: 0 <= i < |f.newEntries| ==> f.newEntries[i].lastSuccess >= 0)
    && (forall i :: 0 <= i < |f.triedEntries| ==> f.triedEntries[i].lastSuccess > 0)
  }

  /** A new entry from the file is a created entry with its statistics set. */
  lemma InsertNewKeeps(e: Env, s: State, d: Disk, limbo: set<int>)
    requires Partial(Lenient(e), s, limbo, {}) && 0 <= s.idCount && d.addr !in s.mapAddr && d.lastSuccess >= 0
    ensures var t := Insert(e, s, s.idCount, Revive(d, |s.vRandom|));
            Partial(Lenient(e), t.(idCount := s.idCount + 1, nNew := s.nNew + 1), limbo + {s.idCount}, {})
  {
    hide Keyed, Ordered, TriedTable, NewSlots, RefCounts, Counted, Sound;
    var l, id := Lenient(e), s.idCount;
    var a := Address(d.addr, d.time, d.services);
    CreateIn(l, s, a, d.source, limbo);
    var c := Create(l, s, a, d.source);
    var info := Revive(d, |s.vRandom|);
    SetInfoKeeps(l, c, id, info, limbo + {id}, {});
    assert s.mapInfo[id := NewInfo(a, d.source, |s.vRandom|)][id := info] == s.mapInfo[id := info];
    assert SetInfo(c, id, info) == Insert(e, s, id, info).(idCount := id + 1, nNew := s.nNew + 1);
  }

  function Upto(n: nat): set<int> {
    if n == 0 then {} else Upto(n - 1) + {n - 1}
  }

  lemma {:induction false} UptoExactly(n: nat, i: int)
    ensures i in Upto(n) <==> 0 <= i < n
  {
    if n > 0 { UptoExactly(n - 1, i); }
  }

  /** The new entries as if they had been counted one by one. */
  function Counting(s: State, n: nat): State {
    s.(idCount := n, nNew := n, nTried := 0)
  }

  lemma InsertCounting(e: Env, s: State, n: nat, info: AddrInfo)
    ensures Insert(e, Counting(s, n), n, info).(idCount := n + 1, nNew := n + 1) ==
            Counting(Insert(e, s, n, info), n + 1)
  {
    hide Bump;
  }

  lemma {:induction false} LoadNewKeeps(e: Env, f: File, ds: seq<Disk>)
    requires forall i, j :: 0 <= i < j < |ds| ==> ds[i].addr != ds[j].addr
    requires forall i :: 0 <= i < |ds| ==> ds[i].lastSuccess >= 0
    ensures var s := LoadNew(e, Start(f), ds);
            && Partial(Lenient(e), Counting(s, |ds|), Upto(|ds|), {}) && s.mapAddr.Keys == Addresses(ds)
            && forall i :: 0 <= i < |ds| ==> IsBack(s.mapInfo, i, ds[i])
  {
    hide Partial, Lenient, Insert, Revive, IsBack;
    if ds == [] {
      NothingLoaded(e, f);
    } else {
      var n := |ds| - 1;
      LoadNewKeeps(e, f, ds[..n]);
      var s, info := LoadNew(e, Start(f), ds[..n]), Revive(ds[n], |LoadNew(e, Start(f), ds[..n]).vRandom|);
      AddressesExactly(ds[..n], ds[n].addr);
      InsertNewKeeps(e, Counting(s, n), ds[n], Upto(n));
      InsertCounting(e, s, n, info);
      InsertKnows(e, s, n, info);
      RevivedAddress(ds[n], |s.vRandom|);
      forall i | 0 <= i < |ds| ensures IsBack(Insert(e, s, n, info).mapInfo, i, ds[i]) {
        if i < n { assert IsBack(s.mapInfo, i, ds[..n][i]); }
        StaysBack(e, s, ds[n], n, i, ds[i]);
      }
    }
  }

  /** The i-th entry of the file is back as a new entry. */
  predicate IsBack(m: Infos, i: int, d: Disk) {
    i in m && m[i].addr == d.addr && m[i].source == d.source && !m[i].inTried
  }

  lemma StaysBack(e: Env, s: State, d: Disk, n: nat, i: int, c: Disk)
    requires if i == n then c == d else IsBack(s.mapInfo, i, c)
    ensures IsBack(Insert(e, s, n, Revive(d, |s.vRandom|)).mapInfo, i, c)
  {
    hide Bump;
  }

  lemma NothingLoaded(e: Env, f: File)
    ensures Partial(Lenient(e), Counting(LoadNew(e, Start(f), []), 0), Upto(0), {})
    ensures LoadNew(e, Start(f), []).mapAddr.Keys == Addresses([])
  {
    assert NewIds(map[], {}) == {} && TriedIds(map[]) == {};
    forall net
      ensures InNetwork(Lenient(e), map[], {}, net) == {}
    {
    }
  }

  lemma InsertKnows(e: Env, s: State, id: int, info: AddrInfo)
    ensures Insert(e, s, id, info).mapAddr.Keys == s.mapAddr.Keys + {info.addr}
  {
    hide Bump;
  }

  lemma RevivedAddress(d: Disk, randomPos: int)
    ensures Revive(d, randomPos).addr == d.addr
  {
  }

  /** A tried entry from the file is a created entry with its statistics set, moved to its tried slot. */
  lemma InsertTriedKeeps(e: Env, s: State, d: Disk, limbo: set<int>)
    requires Partial(Lenient(e), s, limbo, {}) && 0 <= s.idCount && s.idCount !in limbo && d.addr !in s.mapAddr
    requires d.lastSuccess > 0 && e.valid(d.addr) && e.TriedSlot(s.key, d.addr) !in s.vvTried
    ensures var t := LoadTriedOne(e, s, d); Partial(Lenient(e), t.(nTried := t.nTried + 1), limbo, {})
  {
    hide Partial, LoadTriedOne, Withdraw, Promote, Insert, Revive;
    var l, id := Lenient(e), s.idCount;
    InsertNewKeeps(e, s, d, limbo);
    var c := Inserted(e, s, d);
    WithdrawnFresh(e, s, d);
    WithdrawKeeps(l, c, id, limbo + {id}, {});
    assert {} + {id} == {id} && limbo + {id} + {id} == limbo + {id};
    PromoteKeeps(l, Withdraw(l, c, id), id, limbo + {id}, {id});
    assert limbo + {id} - {id} == limbo && {id} - {id} == {};
    FreshSlots(e, s, limbo);
    TriedInserted(e, s, d);
  }

  function Inserted(e: Env, s: State, d: Disk): State {
    Insert(e, s, s.idCount, Revive(d, |s.vRandom|)).(idCount := s.idCount + 1, nNew := s.nNew + 1)
  }

  lemma WithdrawnFresh(e: Env, s: State, d: Disk)
    ensures var (id, c) := (s.idCount, Inserted(e, s, d));
            var w := Withdraw(Lenient(e), c, id);
            && id in c.mapInfo && !c.mapInfo[id].inTried
            && id in w.mapInfo && w.mapInfo[id].lastSuccess == d.lastSuccess && w.mapInfo[id].addr == d.addr
            && w.vvTried == s.vvTried && w.key == s.key
  {
    hide Bump, SlotsOf;
  }

  lemma FreshSlots(e: Env, s: State, limbo: set<int>)
    requires Partial(Lenient(e), s, limbo, {})
    ensures SlotsOf(s.vvNew, s.idCount) == {}
  {
    hide Ordered, TriedTable, RefCounts, Counted, Sound;
    forall sl | sl in s.vvNew ensures s.vvNew[sl] != s.idCount { assert IsNew(s.mapInfo, {}, s.vvNew[sl]); }
  }

  lemma CountedOver(e: Env, counts: map<int, NewTriedCount>, a: Service)
    ensures Bump(Lenient(e), Bump(Lenient(e), Bump(e, counts, a, 1, 0), a, -1, 0), a, 0, 1) == Bump(e, counts, a, 0, 1)
  {
  }

  lemma EnteredOver(m: Infos, id: int, info: AddrInfo)
    requires info.refCount == 0
    ensures SetTried(SetRefs(m[id := info], id, 0), id, true) == m[id := info.(inTried := true)]
    ensures Info(m[id := info], id) == info && Info(SetRefs(m[id := info], id, 0), id).addr == info.addr
  {
  }

  lemma TriedInserted(e: Env, s: State, d: Disk)
    requires e.valid(d.addr) && e.TriedSlot(s.key, d.addr) !in s.vvTried && SlotsOf(s.vvNew, s.idCount) == {}
    ensures var (id, t) := (s.idCount, LoadTriedOne(e, s, d));
            Promote(Lenient(e), Withdraw(Lenient(e), Inserted(e, s, d), id), id) == t.(nTried := t.nTried + 1)
  {
    hide Bump, SetRefs, SetTried, SlotsOf, Info;
    assert s.vvNew - {} == s.vvNew;
    CountedOver(e, s.counts, d.addr);
    EnteredOver(s.mapInfo, s.idCount, Revive(d, |s.vRandom|));
  }

  /** With `k` tried entries not yet looked at. */
  function Short(s: State, k: int): State {
    s.(nTried := s.nTried - k)
  }

  lemma LoadTriedOneKeeps(e: Env, s: State, d: Disk, k: int, limbo: set<int>)
    requires Partial(Lenient(e), Short(s, k + 1), limbo, {}) && 0 <= s.idCount && s.idCount !in limbo
    requires d.addr !in s.mapAddr && d.lastSuccess > 0
    ensures Partial(Lenient(e), Short(LoadTriedOne(e, s, d), k), limbo, {})
  {
    hide Partial, Insert, Revive;
    TriedCountApart(e, s, d, k + 1);
    if e.valid(d.addr) && e.TriedSlot(s.key, d.addr) !in s.vvTried {
      InsertTriedKeeps(e, Short(s, k + 1), d, limbo);
      hide LoadTriedOne;
    }
  }

  lemma LoadTriedOneFrame(e: Env, s: State, d: Disk)
    ensures var t := LoadTriedOne(e, s, d);
            && t.key == s.key && s.idCount <= t.idCount && t.vvNew == s.vvNew && t.collisions == s.collisions
            && t.mapAddr.Keys <= s.mapAddr.Keys + {d.addr}
            && (forall id :: id < s.idCount ==> Kept(s.mapInfo, t.mapInfo, id))
            && s.vvTried.Keys <= t.vvTried.Keys
            && (e.valid(d.addr) ==> e.TriedSlot(s.key, d.addr) in t.vvTried)
  {
    hide Bump;
  }

  predicate Kept(m: Infos, n: Infos, id: int) {
    (id in n <==> id in m) && (id in m ==> n[id] == m[id])
  }

  /** What the tried entries of a file leave alone, and that each valid one finds its slot taken afterwards. */
  ghost predicate Extends(e: Env, s: State, ds: seq<Disk>, t: State) {
    && t.key == s.key && s.idCount <= t.idCount && t.vvNew == s.vvNew && t.collisions == s.collisions
    && t.mapAddr.Keys <= s.mapAddr.Keys + Addresses(ds)
    && (forall id :: id < s.idCount ==> Kept(s.mapInfo, t.mapInfo, id))
    && s.vvTried.Keys <= t.vvTried.Keys
    && forall i :: 0 <= i < |ds| && e.valid(ds[i].addr) ==> e.TriedSlot(s.key, ds[i].addr) in t.vvTried
  }

  lemma LoadTriedOneExtends(e: Env, s: State, ds: seq<Disk>, t: State)
    requires ds != [] && Extends(e, s, ds[..|ds| - 1], t)
    ensures Extends(e, s, ds, LoadTriedOne(e, t, ds[|ds| - 1]))
  {
    hide LoadTriedOne;
    var n := |ds| - 1;
    LoadTriedOneFrame(e, t, ds[n]);
    var r := LoadTriedOne(e, t, ds[n]);
    forall id | id < s.idCount ensures Kept(s.mapInfo, r.mapInfo, id) {
      assert Kept(s.mapInfo, t.mapInfo, id) && Kept(t.mapInfo, r.mapInfo, id);
    }
    forall i | 0 <= i < |ds| && e.valid(ds[i].addr) ensures e.TriedSlot(s.key, ds[i].addr) in r.vvTried {
      if i < n { assert ds[..n][i] == ds[i]; }
    }
  }

  lemma {:induction false} LoadTriedKeeps(e: Env, s: State, ds: seq<Disk>, k: int, limbo: set<int>)
    requires Partial(Lenient(e), Short(s, k + |ds|), limbo, {}) && 0 <= s.idCount
    requires forall id <- limbo :: id < s.idCount
    requires forall i, j :: 0 <= i < j < |ds| ==> ds[i].addr != ds[j].addr
    requires forall i :: 0 <= i < |ds| ==> ds[i].addr !in s.mapAddr && ds[i].lastSuccess > 0
    ensures Partial(Lenient(e), Short(LoadTried(e, s, ds), k), limbo, {})
    ensures Extends(e, s, ds, LoadTried(e, s, ds))
  {
    hide Partial, LoadTriedOne;
    if ds != [] {
      var n := |ds| - 1;
      LoadTriedKeeps(e, s, ds[..n], k + 1, limbo);
      var t := LoadTried(e, s, ds[..n]);
      AddressesExactly(ds[..n], ds[n].addr);
      LoadTriedOneKeeps(e, t, ds[n], k, limbo);
      LoadTriedOneExtends(e, s, ds, t);
    }
  }

  // ---- the new table ----

  /** A valid entry that is given a reference has one afterwards, unless the slot of its first source is taken. */
  predicate Served(e: Env, s: State, id: int) {
    id in s.mapInfo && (!e.valid(s.mapInfo[id].addr) || s.mapInfo[id].refCount > 0
                        || e.NewSlot(s.key, s.mapInfo[id].addr, s.mapInfo[id].source) in s.vvNew)
  }

  /** The same entries but for their reference counts, of which none has gone down. */
  ghost predicate Grows(s: State, t: State) {
    && t == s.(mapInfo := t.mapInfo, vvNew := t.vvNew) && t.mapInfo.Keys == s.mapInfo.Keys
    && (forall id <- s.mapInfo :: t.mapInfo[id] == s.mapInfo[id].(refCount := t.mapInfo[id].refCount) &&
                                  s.mapInfo[id].refCount <= t.mapInfo[id].refCount)
    && s.vvNew.Keys <= t.vvNew.Keys
  }

  lemma GrowsAt(e: Env, s: State, t: State, id: int)
    requires Grows(s, t) && id in s.mapInfo
    ensures id in t.mapInfo && t.mapInfo[id].inTried == s.mapInfo[id].inTried
    ensures Served(e, s, id) ==> Served(e, t, id)
  {
  }

  lemma GrowsOn(s: State, t: State, r: State)
    requires Grows(s, t) && Grows(t, r)
    ensures Grows(s, r)
  {
  }

  lemma PlaceOneKeeps(e: Env, s: State, p: (int, int), restore: bool, limbo: set<int>)
    requires Partial(Lenient(e), s, limbo, {}) && p.1 in s.mapInfo && !s.mapInfo[p.1].inTried
    requires restore ==> 0 <= p.0 < NEW_BUCKET_COUNT
    ensures Partial(Lenient(e), PlaceOne(e, s, p, restore), limbo, {})
    ensures Grows(s, PlaceOne(e, s, p, restore)) && Served(e, PlaceOne(e, s, p, restore), p.1)
  {
    hide Keyed, Ordered, TriedTable, NewSlots, RefCounts, Counted, Sound;
    var info := s.mapInfo[p.1];
    if e.valid(info.addr) && info.refCount < NEW_BUCKETS_PER_ADDRESS {
      var here := Slot(p.0, e.bucketPosition(s.key, true, p.0, info.addr));
      if restore && here !in s.vvNew {
        PlacedAt(e, s, p.1, here, limbo);
      } else {
        var home := e.NewSlot(s.key, info.addr, info.source);
        if home !in s.vvNew { PlacedAt(e, s, p.1, home, limbo); }
      }
    }
  }

  lemma PlacedAt(e: Env, s: State, id: int, sl: Slot, limbo: set<int>)
    requires Partial(Lenient(e), s, limbo, {}) && id in s.mapInfo && !s.mapInfo[id].inTried && sl !in s.vvNew
    requires s.mapInfo[id].refCount < NEW_BUCKETS_PER_ADDRESS && 0 <= sl.bucket < NEW_BUCKET_COUNT
    requires sl.position == e.bucketPosition(s.key, true, sl.bucket, s.mapInfo[id].addr)
    ensures Partial(Lenient(e), AddRef(s, id, sl), limbo, {})
    ensures s.mapInfo[id].refCount >= 0
  {
    hide Keyed, Ordered, TriedTable, NewSlots, Counted, Sound;
    AddRefKeeps(Lenient(e), s, id, sl, limbo, {});
    hide RefCounts;
    var t := AddRef(s, id, sl);
    LimboTo(t.mapInfo, t.vvNew, limbo - {id}, limbo);
  }

  lemma {:induction false} PlaceAllKeeps(e: Env, s: State, ps: seq<(int, int)>, restore: bool, limbo: set<int>)
    requires Partial(Lenient(e), s, limbo, {})
    requires forall i :: 0 <= i < |ps| ==> ps[i].1 in s.mapInfo && !s.mapInfo[ps[i].1].inTried
    requires restore ==> forall i :: 0 <= i < |ps| ==> 0 <= ps[i].0 < NEW_BUCKET_COUNT
    ensures Partial(Lenient(e), PlaceAll(e, s, ps, restore), limbo, {}) && Grows(s, PlaceAll(e, s, ps, restore))
    ensures forall i :: 0 <= i < |ps| ==> Served(e, PlaceAll(e, s, ps, restore), ps[i].1)
  {
    hide Partial, PlaceOne, Grows, Served;
    if ps == [] {
      NoneGrown(s);
    } else {
      var n := |ps| - 1;
      PlaceAllKeeps(e, s, ps[..n], restore, limbo);
      var t := PlaceAll(e, s, ps[..n], restore);
      GrowsAt(e, s, t, ps[n].1);
      PlaceOneKeeps(e, t, ps[n], restore, limbo);
      var r := PlaceOne(e, t, ps[n], restore);
      GrowsOn(s, t, r);
      forall i | 0 <= i < n ensures Served(e, r, ps[i].1) {
        assert Served(e, t, ps[..n][i].1);
        GrowsAt(e, s, t, ps[i].1);
        GrowsAt(e, t, r, ps[i].1);
      }
    }
  }

  lemma NoneGrown(s: State)
    ensures Grows(s, s)
  {
  }

  lemma DeleteSame(e: Env, s: State, id: int)
    ensures Delete(Lenient(e), s, id) == Delete(e, s, id)
  {
    hide SwapRandom;
  }

  /** Pruning forgets exactly the strays among those visited. */
  ghost predicate Pruned(s: State, t: State) {
    && Kin(s, t) && t.vvNew == s.vvNew
    && forall x <- s.mapInfo :: !Stray(s, x) ==> x in t.mapInfo && t.mapInfo[x].refCount == s.mapInfo[x].refCount
  }

  lemma {:induction false} PruneKeeps(e: Env, s: State, ids: seq<int>, limbo: set<int>)
    requires Partial(Lenient(e), s, limbo, {})
    ensures Partial(Lenient(e), Prune(e, s, ids), limbo, {}) && Pruned(s, Prune(e, s, ids))
  {
    hide Partial, Delete;
    if ids != [] {
      var n := |ids| - 1;
      PruneKeeps(e, s, ids[..n], limbo);
      var t := Prune(e, s, ids[..n]);
      if Stray(t, ids[n]) { DeleteStray(e, s, t, ids[n], limbo); }
    }
  }

  lemma DeleteStray(e: Env, s: State, t: State, id: int, limbo: set<int>)
    requires Partial(Lenient(e), t, limbo, {}) && Pruned(s, t) && Stray(t, id)
    ensures Partial(Lenient(e), Delete(e, t, id), limbo, {}) && Pruned(s, Delete(e, t, id))
  {
    hide Keyed, Ordered, TriedTable, NewSlots, RefCounts, Counted, Sound, Delete;
    DeleteSame(e, t, id);
    DeleteKeeps(Lenient(e), t, id, limbo, {});
    DeleteKin(e, t, id);
    var r := Delete(e, t, id);
    LimboTo(r.mapInfo, r.vvNew, limbo - {id}, limbo);
  }

  // ---- the whole load ----

  /** Some bucket of the file refers to its i-th new entry. */
  ghost predicate Referred(f: File, i: int) {
    exists b :: 0 <= b < |f.buckets| && i in f.buckets[b]
  }

  lemma {:induction false} InRangeHas(bucket: int, b: seq<int>, nNew: int, x: int)
    requires x in b && 0 <= x < nNew
    ensures (bucket, x) in InRange(bucket, b, nNew)
  {
    var n := |b| - 1;
    if b[n] != x {
      assert x in b[..n];
      InRangeHas(bucket, b[..n], nNew, x);
    }
  }

  lemma {:induction false} PairsHave(bs: seq<seq<int>>, nNew: int, b: int, x: int)
    requires 0 <= b < |bs| && x in bs[b] && 0 <= x < nNew
    ensures (b, x) in Pairs(bs, nNew)
  {
    var n := |bs| - 1;
    if b == n { InRangeHas(b, bs[b], nNew, x); } else { PairsHave(bs[..n], nNew, b, x); }
  }

  lemma LoadedKeeps(e: Env, f: File)
    requires Plausible(f) && f.nNew == |f.newEntries| && f.nTried == |f.triedEntries|
    ensures var s := Loaded(e, f);
            && Partial(Lenient(e), s, Upto(f.nNew), {}) && s.key == f.key != 0
            && (forall i :: 0 <= i < f.nNew ==> IsBack(s.mapInfo, i, f.newEntries[i]))
            && forall i :: 0 <= i < f.nTried && e.valid(f.triedEntries[i].addr) ==>
                 e.TriedSlot(f.key, f.triedEntries[i].addr) in s.vvTried
  {
    hide Partial, LoadNew, LoadTried, IsBack;
    LoadNewKeeps(e, f, f.newEntries);
    LoadNewLoose(e, f, f.newEntries);
    LoadNewCount(e, Start(f), f.newEntries);
    var u := LoadNew(e, Start(f), f.newEntries);
    var s := u.(idCount := f.nNew);
    assert Short(s, 0 + f.nTried) == Counting(u, f.nNew);
    forall id | id in Upto(f.nNew) ensures id < f.nNew { UptoExactly(f.nNew, id); }
    forall i | 0 <= i < f.nTried ensures f.triedEntries[i].addr !in s.mapAddr {
      AddressesExactly(f.newEntries, f.triedEntries[i].addr);
    }
    LoadTriedKeeps(e, s, f.triedEntries, 0, Upto(f.nNew));
    var t := LoadTried(e, s, f.triedEntries);
    assert Short(t, 0) == t;
    forall i | 0 <= i < f.nNew ensures IsBack(t.mapInfo, i, f.newEntries[i]) {
      assert Kept(s.mapInfo, t.mapInfo, i) && IsBack(s.mapInfo, i, f.newEntries[i]);
      KeptBack(s.mapInfo, t.mapInfo, i, f.newEntries[i]);
    }
  }

  lemma KeptBack(m: Infos, n: Infos, i: int, d: Disk)
    requires Kept(m, n, i) && IsBack(m, i, d)
    ensures IsBack(n, i, d)
  {
  }

  lemma {:induction false} LoadNewCount(e: Env, s: State, ds: seq<Disk>)
    ensures LoadNew(e, s, ds).nNew == s.nNew && LoadNew(e, s, ds).nTried == s.nTried
  {
    if ds != [] { LoadNewCount(e, s, ds[..|ds| - 1]); }
  }

  lemma PlacedKeeps(e: Env, f: File)
    requires Plausible(f) && f.nNew == |f.newEntries| && f.nTried == |f.triedEntries|
    requires |f.buckets| == if f.nBuckets <= 0 then 0 else f.nBuckets
    ensures var s := Placed(e, f);
            && Partial(Lenient(e), s, Upto(f.nNew), {}) && s.key == f.key != 0
            && (forall i :: 0 <= i < f.nNew ==> IsBack(s.mapInfo, i, f.newEntries[i]))
            && (forall i :: 0 <= i < f.nNew && Referred(f, i) ==> Served(e, s, i))
            && forall i :: 0 <= i < f.nTried && e.valid(f.triedEntries[i].addr) ==>
                 e.TriedSlot(f.key, f.triedEntries[i].addr) in s.vvTried
  {
    hide Partial, Loaded, PlaceAll, Pairs, Served, Referred, Plausible;
    LoadedKeeps(e, f);
    var s, ps, restore := Loaded(e, f), Pairs(f.buckets, f.nNew), Restore(e, f);
    PairsInRange(f.buckets, f.nNew);
    forall i | 0 <= i < |ps| ensures ps[i].1 in s.mapInfo && !s.mapInfo[ps[i].1].inTried {
      assert IsBack(s.mapInfo, ps[i].1, f.newEntries[ps[i].1]);
    }
    PlaceAllKeeps(e, s, ps, restore, Upto(f.nNew));
    var t := PlaceAll(e, s, ps, restore);
    forall i | 0 <= i < f.nNew ensures IsBack(t.mapInfo, i, f.newEntries[i]) {
      assert IsBack(s.mapInfo, i, f.newEntries[i]);
    }
    forall i | 0 <= i < f.nNew && Referred(f, i) ensures Served(e, t, i) { ReferredServed(e, f, t, i); }
  }

  lemma ReferredServed(e: Env, f: File, t: State, i: int)
    requires 0 <= i < f.nNew && Referred(f, i)
    requires var ps := Pairs(f.buckets, f.nNew); forall k :: 0 <= k < |ps| ==> Served(e, t, ps[k].1)
    ensures Served(e, t, i)
  {
    hide Served, Pairs;
    var b :| 0 <= b < |f.buckets| && i in f.buckets[b];
    PairsHave(f.buckets, f.nNew, b, i);
    var k :| 0 <= k < |Pairs(f.buckets, f.nNew)| && Pairs(f.buckets, f.nNew)[k] == (b, i);
    assert Served(e, t, Pairs(f.buckets, f.nNew)[k].1);
  }

  lemma FromLenient(e: Env, s: State, limbo: set<int>)
    requires Partial(Lenient(e), s, limbo, {})
    requires forall id <- s.mapInfo :: e.valid(s.mapInfo[id].addr) && !Stray(s, id)
    ensures Partial(e, s, {}, {})
  {
    hide Keyed, Ordered;
    forall id | id in limbo && id in s.mapInfo && !s.mapInfo[id].inTried ensures s.mapInfo[id].refCount != 0 {
      assert !Stray(s, id);
    }
    LimboTo(s.mapInfo, s.vvNew, limbo, {});
    assert Counted(e, s.mapInfo, s.nNew, s.nTried, s.counts, {}) by {
      forall net ensures CountOf(s.counts, net) == NewTriedCount(|InNetwork(e, s.mapInfo, NewIds(s.mapInfo, {}), net)|,
                                                                  |InNetwork(e, s.mapInfo, TriedIds(s.mapInfo), net)|) {
        assert InNetwork(e, s.mapInfo, NewIds(s.mapInfo, {}), net) ==
               InNetwork(Lenient(e), s.mapInfo, NewIds(s.mapInfo, {}), net);
        assert InNetwork(e, s.mapInfo, TriedIds(s.mapInfo), net) ==
               InNetwork(Lenient(e), s.mapInfo, TriedIds(s.mapInfo), net);
      }
    }
  }

  /**
   A file that can be read, with no address twice and no impossible statistic, loads,
   whatever its buckets and the ASN map. No valid tried entry is lost unless its slot is
   held by another, and no valid new entry some bucket refers to unless the slot of its
   first source is taken.
   */
  lemma PlausibleLoads(e: Env, w: seq<Item>, order: seq<int>)
    requires Parse(w).Some? && Plausible(Parse(w).value) && Lists(order, Placed(e, Parse(w).value).mapInfo)
    ensures Load(e, w, order).Some?
    ensures var (f, t) := (Parse(w).value, Load(e, w, order).value);
            && f.nNew == |f.newEntries| && f.nTried == |f.triedEntries| && t.key == f.key
            && (forall i :: 0 <= i < f.nTried && e.valid(f.triedEntries[i].addr) ==>
                  e.TriedSlot(f.key, f.triedEntries[i].addr) in t.vvTried)
            && forall i :: 0 <= i < f.nNew && e.valid(f.newEntries[i].addr) && Referred(f, i) ==>
                 || f.newEntries[i].addr in t.mapAddr
                 || e.NewSlot(f.key, f.newEntries[i].addr, f.newEntries[i].source) in t.vvNew
  {
    hide Partial, Loose, Checked, Unchecked, Placed, Prune, Parse, Plausible, Referred, Served;
    var f := Parse(w).value;
    ParsedShape(w);
    PlacedLoose(e, f);
    PlacedKeeps(e, f);
    var s := Placed(e, f);
    PruneLoose(e, s, order, s.idCount);
    PruneKeeps(e, s, order, Upto(f.nNew));
    var t := Prune(e, s, order);
    NoStraysLeft(e, s, t, order);
    FromLenient(e, t, Upto(f.nNew));
    TablesCheckedExactly(e, t);
    forall i | 0 <= i < f.nNew && e.valid(f.newEntries[i].addr) && Referred(f, i)
      ensures f.newEntries[i].addr in t.mapAddr ||
              e.NewSlot(f.key, f.newEntries[i].addr, f.newEntries[i].source) in t.vvNew
    {
      assert IsBack(s.mapInfo, i, f.newEntries[i]);
      ServedStays(e, s, t, i);
    }
  }

  lemma NoStraysLeft(e: Env, s: State, t: State, order: seq<int>)
    requires Lists(order, s.mapInfo) && Kin(s, t) && Loose(e, t, s.idCount)
    requires forall i :: 0 <= i < |order| ==> !Stray(t, order[i])
    ensures forall id <- t.mapInfo :: e.valid(t.mapInfo[id].addr) && !Stray(t, id)
    ensures Unchecked(e, t)
  {
    forall id | id in t.mapInfo ensures e.valid(t.mapInfo[id].addr) && !Stray(t, id) {
      assert id in s.mapInfo && id in order;
      var i :| 0 <= i < |order| && order[i] == id;
      assert !Stray(t, order[i]);
    }
    LooseUnchecked(e, t);
  }

  lemma ServedStays(e: Env, s: State, t: State, id: int)
    requires Served(e, s, id) && e.valid(s.mapInfo[id].addr) && Pruned(s, t) && Partial(e, t, {}, {})
    ensures s.mapInfo[id].addr in t.mapAddr || e.NewSlot(s.key, s.mapInfo[id].addr, s.mapInfo[id].source) in t.vvNew
  {
    hide Ordered, TriedTable, NewSlots, RefCounts, Counted, Sound;
  }
}
