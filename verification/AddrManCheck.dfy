/**
 The manager's own consistency check, as the loops it runs, proved to pass
 exactly on the states it is meant to accept, and compared with the invariant.
 */
module AddrManCheck {
  import opened AddrManState
  import opened AddrManager
  import Sets
  import Ops = AddrManOps
  import Spec = AddrManRuns

  // ---- what the check accepts ----

  ghost predicate EntryOk(s: State, id: int)
    requires id in s.mapInfo
  {
    var info := s.mapInfo[id];
    && (info.inTried ==> info.lastSuccess != 0 && info.refCount == 0)
    && (!info.inTried ==> 0 < info.refCount <= NEW_BUCKETS_PER_ADDRESS)
    && info.addr in s.mapAddr && s.mapAddr[info.addr] == id
    && 0 <= info.randomPos < |s.vRandom| && s.vRandom[info.randomPos] == id
    && info.lastTry >= 0 && info.lastSuccess >= 0
  }

  ghost predicate TriedOk(e: Env, key: Key, m: Infos, table: Table) {
    && (forall sl <- table :: TriedSlotOk(e, key, m, table, sl))
    && (forall id <- m :: m[id].inTried ==> Holds(table, e.TriedSlot(key, m[id].addr), id))
  }

  predicate TriedSlotOk(e: Env, key: Key, m: Infos, table: Table, sl: Slot)
    requires sl in table
  {
    IsTried(m, table[sl]) && sl == e.TriedSlot(key, m[table[sl]].addr)
  }

  ghost predicate NewOk(e: Env, key: Key, m: Infos, table: Table) {
    && (forall sl <- table :: NewSlotOk(e, key, m, table, sl))
    && (forall id <- m :: !m[id].inTried ==> m[id].refCount == |SlotsOf(table, id)|)
  }

  predicate NewSlotOk(e: Env, key: Key, m: Infos, table: Table, sl: Slot)
    requires sl in table
  {
    IsNew(m, {}, table[sl]) && sl.position == e.bucketPosition(key, true, sl.bucket, m[table[sl]].addr)
  }

  function Networks(e: Env, m: Infos): set<int> {
    set id | id in m :: e.network(m[id].addr)
  }

  ghost function Exact(e: Env, m: Infos, net: int): NewTriedCount {
    NewTriedCount(|InNetwork(e, m, NewIds(m, {}), net)|, |InNetwork(e, m, TriedIds(m), net)|)
  }

  /** The recorded networks have exact counts, and there are at least as many of them as there should be. */
  ghost predicate CountsOk(e: Env, m: Infos, counts: map<int, NewTriedCount>) {
    && |counts| >= |Networks(e, m)|
    && forall net <- counts :: counts[net] == Exact(e, m, net)
  }

  ghost predicate Checked(e: Env, s: State) {
    && |s.vRandom| == s.nTried + s.nNew
    && (forall id <- s.mapInfo :: EntryOk(s, id))
    && |TriedIds(s.mapInfo)| == s.nTried
    && |NewIds(s.mapInfo, {})| == s.nNew
    && TriedOk(e, s.key, s.mapInfo, s.vvTried)
    && NewOk(e, s.key, s.mapInfo, s.vvNew)
    && s.key != 0
    && CountsOk(e, s.mapInfo, s.counts)
  }

  // ---- first loop: entries ----

  function RefMap(m: Infos): map<int, int> {
    map id | id in m && IsNew(m, {}, id) :: m[id].refCount
  }

  /** What the first loop has collected from the entries in `m`. */
  ghost predicate Collected(e: Env, m: Infos, setTried: set<int>, mapNew: map<int, int>,
                            local: map<int, NewTriedCount>) {
    && setTried == TriedIds(m)
    && mapNew == RefMap(m)
    && local.Keys == Networks(e, m)
    && Counted(e, m, |NewIds(m, {})|, |TriedIds(m)|, local, {})
  }

  lemma CollectedNone(e: Env)
    ensures Collected(e, map[], {}, map[], map[])
  {
    assert NewIds(map[], {}) == {} && TriedIds(map[]) == {};
    forall net
      ensures InNetwork(e, map[], NewIds(map[], {}), net) == {}
      ensures InNetwork(e, map[], TriedIds(map[]), net) == {}
    {
    }
  }

  lemma CollectSets(e: Env, m: Infos, id: int, info: AddrInfo)
    requires id !in m
    ensures var n := m[id := info];
            && TriedIds(n) == (if info.inTried then TriedIds(m) + {id} else TriedIds(m))
            && NewIds(n, {}) == (if info.inTried then NewIds(m, {}) else NewIds(m, {}) + {id})
            && RefMap(n) == (if info.inTried then RefMap(m) else RefMap(m)[id := info.refCount])
            && Networks(e, n) == Networks(e, m) + {e.network(info.addr)}
  {
    var n := m[id := info];
    forall x
      ensures IsTried(n, x) <==> if x == id then info.inTried else IsTried(m, x)
      ensures IsNew(n, {}, x) <==> if x == id then !info.inTried else IsNew(m, {}, x)
    {
    }
    assert forall x :: x in RefMap(n) <==> IsNew(n, {}, x);
    assert forall x :: x in RefMap(m) <==> IsNew(m, {}, x);
    NetworksGrow(e, m, id, info);
  }

  lemma NetworksGrow(e: Env, m: Infos, id: int, info: AddrInfo)
    requires id !in m
    ensures Networks(e, m[id := info]) == Networks(e, m) + {e.network(info.addr)}
  {
    var n := m[id := info];
    forall net
      ensures net in Networks(e, n) <==> net in Networks(e, m) || net == e.network(info.addr)
    {
      if net in Networks(e, m) {
        var x :| x in m && e.network(m[x].addr) == net;
        assert x in n && e.network(n[x].addr) == net;
      }
      if net == e.network(info.addr) {
        assert id in n && e.network(n[id].addr) == net;
      }
    }
  }

  lemma CollectCounts(e: Env, m: Infos, local: map<int, NewTriedCount>, id: int, info: AddrInfo)
    requires Counted(e, m, |NewIds(m, {})|, |TriedIds(m)|, local, {}) && id !in m
    ensures var n := m[id := info];
            var bumped := if info.inTried then Ops.Bump(e, local, info.addr, 0, 1)
                          else Ops.Bump(e, local, info.addr, 1, 0);
            Counted(e, n, |NewIds(n, {})|, |TriedIds(n)|, bumped, {})
  {
    hide Counted, NewIds, TriedIds, Ops.Moved, Ops.Bump;
    var n := m[id := info];
    var dNew, dTried := if info.inTried then 0 else 1, if info.inTried then 1 else 0;
    Ops.Elsewhere(m, n, id);
    Ops.NewIdsMoved(m, n, {}, {}, id, dNew);
    Ops.TriedIdsMoved(m, n, id, dTried);
    Ops.MovedSize(NewIds(m, {}), NewIds(n, {}), id, dNew);
    Ops.MovedSize(TriedIds(m), TriedIds(n), id, dTried);
    Ops.Recount(e, m, n, |NewIds(m, {})|, |TriedIds(m)|, local, {}, {}, id, info.addr, dNew, dTried);
  }

  lemma Collect(e: Env, m: Infos, setTried: set<int>, mapNew: map<int, int>, local: map<int, NewTriedCount>,
                id: int, info: AddrInfo)
    requires Collected(e, m, setTried, mapNew, local) && id !in m
    ensures info.inTried ==>
              Collected(e, m[id := info], setTried + {id}, mapNew, Ops.Bump(e, local, info.addr, 0, 1))
    ensures !info.inTried ==>
              Collected(e, m[id := info], setTried, mapNew[id := info.refCount], Ops.Bump(e, local, info.addr, 1, 0))
  {
    hide Counted, TriedIds, NewIds, RefMap, Networks;
    CollectSets(e, m, id, info);
    CollectCounts(e, m, local, id, info);
  }

  // ---- second loop: the tried table ----

  predicate Before(sl: Slot, n: int, i: int) {
    sl.bucket < n || (sl.bucket == n && sl.position < i)
  }

  /** After the slots before (n, i): those were fine, and `left` are the tried entries not met yet. */
  ghost predicate TriedSeen(e: Env, key: Key, m: Infos, table: Table, left: set<int>, n: int, i: int) {
    && (forall sl <- table :: Before(sl, n, i) ==> TriedSlotOk(e, key, m, table, sl))
    && (forall id :: id in left <==> IsTried(m, id) && !Met(e, key, m, table, id, n, i))
  }

  ghost predicate Met(e: Env, key: Key, m: Infos, table: Table, id: int, n: int, i: int) {
    id in m && var sl := e.TriedSlot(key, m[id].addr); Holds(table, sl, id) && Before(sl, n, i)
  }

  lemma TriedStart(e: Env, key: Key, m: Infos, table: Table)
    requires forall sl <- table :: 0 <= sl.bucket && 0 <= sl.position
    ensures TriedSeen(e, key, m, table, TriedIds(m), 0, 0)
  {
  }

  lemma TriedStep(e: Env, key: Key, m: Infos, table: Table, left: set<int>, n: int, i: int)
    requires TriedSeen(e, key, m, table, left, n, i)
    ensures Slot(n, i) !in table ==> TriedSeen(e, key, m, table, left, n, i + 1)
    ensures Slot(n, i) in table && table[Slot(n, i)] in left && TriedSlotOk(e, key, m, table, Slot(n, i)) ==>
              TriedSeen(e, key, m, table, left - {table[Slot(n, i)]}, n, i + 1)
    ensures Slot(n, i) in table && table[Slot(n, i)] !in left ==> !TriedSlotOk(e, key, m, table, Slot(n, i))
  {
    forall id | id in m
      ensures Met(e, key, m, table, id, n, i + 1) <==>
              || Met(e, key, m, table, id, n, i)
              || (e.TriedSlot(key, m[id].addr) == Slot(n, i) && Holds(table, Slot(n, i), id))
    {
    }
  }

  lemma TriedRow(e: Env, key: Key, m: Infos, table: Table, left: set<int>, n: int)
    requires TriedSeen(e, key, m, table, left, n, BUCKET_SIZE)
    requires forall sl <- table :: 0 <= sl.position < BUCKET_SIZE
    ensures TriedSeen(e, key, m, table, left, n + 1, 0)
  {
    forall sl | sl in table
      ensures Before(sl, n + 1, 0) <==> Before(sl, n, BUCKET_SIZE)
    {
    }
  }

  lemma TriedEnd(e: Env, key: Key, m: Infos, table: Table, left: set<int>, n: int)
    requires TriedSeen(e, key, m, table, left, n, 0) && forall sl <- table :: sl.bucket < n
    ensures left == {} <==> TriedOk(e, key, m, table)
    ensures |left| == 0 <==> TriedOk(e, key, m, table)
  {
    if left == {} {
      forall id | id in m && m[id].inTried ensures Holds(table, e.TriedSlot(key, m[id].addr), id) {
        assert id !in left;
      }
    }
    if TriedOk(e, key, m, table) {
      assert forall id :: id !in left;
    }
  }

  // ---- third loop: the new table ----

  ghost function MetSlots(table: Table, id: int, n: int, i: int): set<Slot> {
    set sl | sl in SlotsOf(table, id) && Before(sl, n, i)
  }

  /** After the slots before (n, i): those were fine, and `left` counts the references not met yet. */
  ghost predicate NewSeen(e: Env, key: Key, m: Infos, table: Table, left: map<int, int>, n: int, i: int) {
    && (forall sl <- table :: Before(sl, n, i) ==> NewSlotOk(e, key, m, table, sl))
    && (forall id <- left :: IsNew(m, {}, id) && left[id] == m[id].refCount - |MetSlots(table, id, n, i)| > 0)
    && (forall id :: IsNew(m, {}, id) && id !in left ==> m[id].refCount == |MetSlots(table, id, n, i)|)
  }

  lemma NewStart(e: Env, key: Key, m: Infos, table: Table)
    requires forall sl <- table :: 0 <= sl.bucket && 0 <= sl.position
    requires forall id <- m :: !m[id].inTried ==> m[id].refCount > 0
    ensures NewSeen(e, key, m, table, RefMap(m), 0, 0)
  {
    forall id ensures MetSlots(table, id, 0, 0) == {} {
    }
  }

  lemma MetNext(table: Table, id: int, n: int, i: int)
    ensures var sl := Slot(n, i);
            && sl !in MetSlots(table, id, n, i)
            && MetSlots(table, id, n, i + 1) == MetSlots(table, id, n, i) + (if Holds(table, sl, id) then {sl} else {})
  {
    var sl := Slot(n, i);
    forall x
      ensures x in MetSlots(table, id, n, i + 1) <==>
              x in MetSlots(table, id, n, i) || (x == sl && Holds(table, sl, id))
    {
      assert x in SlotsOf(table, id) <==> Holds(table, x, id);
      assert Before(x, n, i + 1) <==> Before(x, n, i) || x == sl;
    }
  }

  /** One more reference of `id` met; erased from the map when it was the last. */
  function Tick(left: map<int, int>, id: int): map<int, int>
    requires id in left
  {
    if left[id] == 1 then left - {id} else left[id := left[id] - 1]
  }

  lemma NewSkip(e: Env, key: Key, m: Infos, table: Table, left: map<int, int>, n: int, i: int)
    requires NewSeen(e, key, m, table, left, n, i) && Slot(n, i) !in table
    ensures NewSeen(e, key, m, table, left, n, i + 1)
  {
    forall id ensures MetSlots(table, id, n, i + 1) == MetSlots(table, id, n, i) {
      MetNext(table, id, n, i);
    }
  }

  lemma NewStep(e: Env, key: Key, m: Infos, table: Table, left: map<int, int>, n: int, i: int)
    requires NewSeen(e, key, m, table, left, n, i) && Slot(n, i) in table
    requires table[Slot(n, i)] in left && NewSlotOk(e, key, m, table, Slot(n, i))
    ensures NewSeen(e, key, m, table, Tick(left, table[Slot(n, i)]), n, i + 1)
  {
    var k := table[Slot(n, i)];
    forall id
      ensures |MetSlots(table, id, n, i + 1)| == |MetSlots(table, id, n, i)| + if id == k then 1 else 0
    {
      MetNext(table, id, n, i);
    }
  }

  lemma NewTooMany(e: Env, key: Key, m: Infos, table: Table, left: map<int, int>, n: int, i: int)
    requires NewSeen(e, key, m, table, left, n, i) && Slot(n, i) in table && table[Slot(n, i)] !in left
    ensures !NewOk(e, key, m, table)
  {
    var sl := Slot(n, i);
    var k := table[sl];
    if IsNew(m, {}, k) {
      MetNext(table, k, n, i);
      assert Holds(table, sl, k);
      Sets.SubsetSize(MetSlots(table, k, n, i + 1), SlotsOf(table, k));
    } else {
      assert !NewSlotOk(e, key, m, table, sl);
    }
  }

  lemma NewRow(e: Env, key: Key, m: Infos, table: Table, left: map<int, int>, n: int)
    requires NewSeen(e, key, m, table, left, n, BUCKET_SIZE)
    requires forall sl <- table :: 0 <= sl.position < BUCKET_SIZE
    ensures NewSeen(e, key, m, table, left, n + 1, 0)
  {
    forall sl | sl in table ensures Before(sl, n + 1, 0) <==> Before(sl, n, BUCKET_SIZE) {
    }
    forall id ensures MetSlots(table, id, n + 1, 0) == MetSlots(table, id, n, BUCKET_SIZE) {
    }
  }

  lemma NewEnd(e: Env, key: Key, m: Infos, table: Table, left: map<int, int>, n: int)
    requires NewSeen(e, key, m, table, left, n, 0) && forall sl <- table :: sl.bucket < n
    ensures |left| == 0 <==> NewOk(e, key, m, table)
  {
    forall id ensures MetSlots(table, id, n, 0) == SlotsOf(table, id) {
    }
    if |left| == 0 {
      assert left == map[];
      forall id | id in m && !m[id].inTried ensures m[id].refCount == |SlotsOf(table, id)| {
        assert IsNew(m, {}, id);
      }
    } else {
      var id := Sets.Any(left.Keys);
      assert id in left && IsNew(m, {}, id);
    }
  }

  // ---- the check ----

  lemma TableRange(table: array2<int>)
    requires table.Length1 == BUCKET_SIZE
    ensures forall sl <- TableOf(table) :: 0 <= sl.bucket < table.Length0 && 0 <= sl.position < BUCKET_SIZE
  {
  }

  method CheckEntry(am: AddrManImpl, id: int) returns (code: int)
    requires am.Shaped() && id in am.mapInfo
    ensures code == 0 <==> EntryOk(am.Abs(), id)
  {
    hide TableOf;
    var info := am.mapInfo[id];
    if info.inTried {
      if info.lastSuccess == 0 { return -1; }
      if info.refCount != 0 { return -2; }
    } else {
      if info.refCount < 0 || info.refCount > NEW_BUCKETS_PER_ADDRESS { return -3; }
      if info.refCount == 0 { return -4; }
    }
    if info.addr !in am.mapAddr || am.mapAddr[info.addr] != id { return -5; }
    if info.randomPos < 0 || info.randomPos >= |am.vRandom| || am.vRandom[info.randomPos] != id { return -14; }
    if info.lastTry < 0 { return -6; }
    if info.lastSuccess < 0 { return -8; }
    return 0;
  }

  method CheckEntries(am: AddrManImpl)
      returns (code: int, setTried: set<int>, mapNew: map<int, int>, local: map<int, NewTriedCount>)
    requires am.Shaped()
    ensures code == 0 <==> forall id <- am.mapInfo :: EntryOk(am.Abs(), id)
    ensures code == 0 ==> Collected(am.e, am.mapInfo, setTried, mapNew, local)
  {
    hide TableOf, Collected, EntryOk;
    ghost var s := am.Abs();
    ghost var m: Infos := map[];
    var todo := am.mapInfo.Keys;
    setTried, mapNew, local := {}, map[], map[];
    CollectedNone(am.e);
    while todo != {}
      invariant forall id :: id in am.mapInfo <==> id in todo || id in m
      invariant forall id <- m :: id !in todo && m[id] == am.mapInfo[id] && EntryOk(s, id)
      invariant Collected(am.e, m, setTried, mapNew, local)
      decreases |todo|
    {
      var id := Sets.Pick(todo);
      var info := am.mapInfo[id];
      code := CheckEntry(am, id);
      if code != 0 { return; }
      Collect(am.e, m, setTried, mapNew, local, id, info);
      var net := am.e.network(info.addr);
      var c := if net in local then local[net] else NewTriedCount(0, 0);
      if info.inTried {
        setTried := setTried + {id};
        local := local[net := NewTriedCount(c.new_, c.tried + 1)];
      } else {
        mapNew := mapNew[id := info.refCount];
        local := local[net := NewTriedCount(c.new_ + 1, c.tried)];
      }
      m := m[id := info];
      todo := todo - {id};
    }
    Sets.SameMap(m, am.mapInfo);
    code := 0;
  }

  method CheckTried(am: AddrManImpl, setTried: set<int>) returns (code: int, left: set<int>)
    requires am.Shaped() && setTried == TriedIds(am.mapInfo)
    ensures code == 0 && |left| == 0 <==> TriedOk(am.e, am.key, am.mapInfo, TableOf(am.vvTried))
  {
    hide TableOf, TriedIds, TriedSeen;
    ghost var table := TableOf(am.vvTried);
    TableRange(am.vvTried);
    TriedStart(am.e, am.key, am.mapInfo, table);
    left := setTried;
    for n := 0 to TRIED_BUCKET_COUNT
      invariant TriedSeen(am.e, am.key, am.mapInfo, table, left, n, 0)
    {
      for i := 0 to BUCKET_SIZE
        invariant TriedSeen(am.e, am.key, am.mapInfo, table, left, n, i)
      {
        SlotIn(am.vvTried, n, i);
        TriedStep(am.e, am.key, am.mapInfo, table, left, n, i);
        var id := am.vvTried[n, i];
        if id != EMPTY {
          if id !in left { return -11, left; }
          if id !in am.mapInfo || am.e.triedBucket(am.key, am.mapInfo[id].addr) != n { return -17, left; }
          if am.e.bucketPosition(am.key, false, n, am.mapInfo[id].addr) != i { return -18, left; }
          TriedLeft(am.e, am.key, am.mapInfo, table, left, n, i);
          left := left - {id};
        }
      }
      TriedRow(am.e, am.key, am.mapInfo, table, left, n);
    }
    TriedEnd(am.e, am.key, am.mapInfo, table, left, TRIED_BUCKET_COUNT);
    code := 0;
  }

  lemma TriedLeft(e: Env, key: Key, m: Infos, table: Table, left: set<int>, n: int, i: int)
    requires TriedSeen(e, key, m, table, left, n, i)
    ensures forall id <- left :: IsTried(m, id)
  {
  }

  method CheckNew(am: AddrManImpl, mapNew: map<int, int>) returns (code: int, left: map<int, int>)
    requires am.Shaped() && mapNew == RefMap(am.mapInfo)
    requires forall id <- am.mapInfo :: !am.mapInfo[id].inTried ==> am.mapInfo[id].refCount > 0
    ensures code == 0 && |left| == 0 <==> NewOk(am.e, am.key, am.mapInfo, TableOf(am.vvNew))
  {
    hide TableOf, RefMap, NewSeen, MetSlots, SlotsOf;
    ghost var table := TableOf(am.vvNew);
    TableRange(am.vvNew);
    NewStart(am.e, am.key, am.mapInfo, table);
    left := mapNew;
    for n := 0 to NEW_BUCKET_COUNT
      invariant NewSeen(am.e, am.key, am.mapInfo, table, left, n, 0)
    {
      for i := 0 to BUCKET_SIZE
        invariant NewSeen(am.e, am.key, am.mapInfo, table, left, n, i)
      {
        SlotIn(am.vvNew, n, i);
        var id := am.vvNew[n, i];
        if id != EMPTY {
          if id !in left {
            NewTooMany(am.e, am.key, am.mapInfo, table, left, n, i);
            return -12, left;
          }
          NewLeft(am.e, am.key, am.mapInfo, table, left, n, i, id);
          if id !in am.mapInfo || am.e.bucketPosition(am.key, true, n, am.mapInfo[id].addr) != i { return -19, left; }
          NewStep(am.e, am.key, am.mapInfo, table, left, n, i);
          left := Tick(left, id);
        } else {
          NewSkip(am.e, am.key, am.mapInfo, table, left, n, i);
        }
      }
      NewRow(am.e, am.key, am.mapInfo, table, left, n);
    }
    NewEnd(am.e, am.key, am.mapInfo, table, left, NEW_BUCKET_COUNT);
    code := 0;
  }

  lemma NewLeft(e: Env, key: Key, m: Infos, table: Table, left: map<int, int>, n: int, i: int, id: int)
    requires NewSeen(e, key, m, table, left, n, i) && id in left
    ensures IsNew(m, {}, id)
  {
  }

  method CheckCounts(am: AddrManImpl, local: map<int, NewTriedCount>) returns (code: int)
    requires local.Keys == Networks(am.e, am.mapInfo)
    requires Counted(am.e, am.mapInfo, |NewIds(am.mapInfo, {})|, |TriedIds(am.mapInfo)|, local, {})
    ensures code == 0 <==> CountsOk(am.e, am.mapInfo, am.counts)
  {
    if |am.counts| < |local| { assert |local| == |local.Keys|; return -20; }
    assert |local| == |local.Keys|;
    var todo := am.counts.Keys;
    while todo != {}
      invariant todo <= am.counts.Keys
      invariant forall net <- am.counts :: net in todo || am.counts[net] == Exact(am.e, am.mapInfo, net)
      decreases |todo|
    {
      var net := Sets.Pick(todo);
      var mine := if net in local then local[net] else NewTriedCount(0, 0);
      assert mine == CountOf(local, net);
      if mine.new_ != am.counts[net].new_ || mine.tried != am.counts[net].tried { return -21; }
      todo := todo - {net};
    }
    code := 0;
  }

  method CheckAddrman(am: AddrManImpl) returns (code: int)
    requires am.Shaped()
    ensures code == 0 <==> Checked(am.e, am.Abs())
  {
    hide TableOf, EntryOk, TriedOk, NewOk, CountsOk, Counted, TriedIds, NewIds, Networks;
    if |am.vRandom| != am.nTried + am.nNew { return -7; }
    var setTried, mapNew, local;
    code, setTried, mapNew, local := CheckEntries(am);
    if code != 0 { return; }
    RefMapSize(am.mapInfo);
    if |setTried| != am.nTried { return -9; }
    if |mapNew| != am.nNew { return -10; }
    var leftTried, leftNew;
    code, leftTried := CheckTried(am, setTried);
    if code != 0 { return; }
    EntriesReferenced(am.Abs());
    code, leftNew := CheckNew(am, mapNew);
    if code != 0 { return; }
    if |leftTried| != 0 { return -13; }
    if |leftNew| != 0 { return -15; }
    if am.key == 0 { return -16; }
    code := CheckCounts(am, local);
  }

  lemma RefMapSize(m: Infos)
    ensures |RefMap(m)| == |NewIds(m, {})|
  {
    assert RefMap(m).Keys == NewIds(m, {});
  }

  lemma EntriesReferenced(s: State)
    requires forall id <- s.mapInfo :: EntryOk(s, id)
    ensures forall id <- s.mapInfo :: !s.mapInfo[id].inTried ==> s.mapInfo[id].refCount > 0
  {
    forall id | id in s.mapInfo && !s.mapInfo[id].inTried ensures s.mapInfo[id].refCount > 0 {
      assert EntryOk(s, id);
    }
  }

  // ---- the check and the invariant ----

  /**
   What the check does not look at: the range of ids and buckets, addresses in
   mapAddr that belong to no entry, networks missing from the counts, and the
   validity of addresses.
   */
  ghost predicate Unchecked(e: Env, s: State) {
    && (forall id <- s.mapInfo :: 0 <= id < s.idCount)
    && (forall sl <- s.vvNew :: 0 <= sl.bucket < NEW_BUCKET_COUNT)
    && (forall a <- s.mapAddr :: s.mapAddr[a] in s.mapInfo && s.mapInfo[s.mapAddr[a]].addr == a)
    && Networks(e, s.mapInfo) <= s.counts.Keys
    && (forall id <- s.mapInfo :: e.valid(s.mapInfo[id].addr))
  }

  function Elements(v: seq<int>): set<int> {
    set x | x in v
  }

  lemma {:induction false} ElementsSize(v: seq<int>)
    ensures |Elements(v)| <= |v|
    ensures (forall i, j :: 0 <= i < j < |v| ==> v[i] != v[j]) ==> |Elements(v)| == |v|
  {
    if v != [] {
      var w := v[..|v| - 1];
      ElementsSize(w);
      assert v == w + [v[|v| - 1]];
      assert forall x :: x in v <==> x in w || x == v[|v| - 1];
      assert Elements(v) == Elements(w) + {v[|v| - 1]};
    } else {
      assert Elements(v) == {};
    }
  }

  lemma OrderedSize(m: Infos, v: seq<int>)
    requires Ordered(m, v)
    ensures |v| == |m|
  {
    ElementsSize(v);
    assert forall x :: x in Elements(v) <==> x in m;
    var a, b := Elements(v), m.Keys;
    assert a == b;
  }

  /** If every entry has its place in vRandom and the sizes agree, every place has its entry. */
  lemma Pigeonhole(m: Infos, v: seq<int>, i: int)
    requires |v| == |m| && 0 <= i < |v|
    requires forall id <- m :: 0 <= m[id].randomPos < |v| && v[m[id].randomPos] == id
    ensures v[i] in m && m[v[i]].randomPos == i
  {
    if !(v[i] in m && m[v[i]].randomPos == i) {
      var w := v[..i] + v[i + 1..];
      ElementsSize(w);
      forall id | id in m
        ensures id in Elements(w)
      {
        var p := m[id].randomPos;
        assert p != i;
        assert w[if p < i then p else p - 1] == id;
      }
      var a, b := m.Keys, Elements(w);
      assert forall x :: x in a ==> x in b;
      assert a <= b;
      Sets.SubsetSize(a, b);
      assert false;
    }
  }

  lemma SplitSize(m: Infos)
    ensures |m| == |NewIds(m, {})| + |TriedIds(m)|
  {
    var a, b, c := m.Keys, NewIds(m, {}), TriedIds(m);
    assert forall x :: x in a <==> IsNew(m, {}, x) || IsTried(m, x);
    assert forall x :: x in a <==> x in b + c;
    assert a == b + c;
    assert forall x :: x in b ==> x !in c;
    assert b * c == {};
  }

  lemma InNetworks(e: Env, m: Infos, id: int)
    requires id in m
    ensures e.network(m[id].addr) in Networks(e, m)
    ensures Exact(e, m, e.network(m[id].addr)) != NewTriedCount(0, 0)
  {
    var net := e.network(m[id].addr);
    assert IsIn(e, m, id, net);
    if m[id].inTried {
      assert IsTried(m, id);
      assert id in InNetwork(e, m, TriedIds(m), net);
    } else {
      assert IsNew(m, {}, id);
      assert id in InNetwork(e, m, NewIds(m, {}), net);
    }
  }

  lemma CountsFromInvariant(e: Env, m: Infos, nNew: int, nTried: int, counts: map<int, NewTriedCount>)
    requires Counted(e, m, nNew, nTried, counts, {})
    ensures CountsOk(e, m, counts) && Networks(e, m) <= counts.Keys
  {
    hide InNetwork, NewIds, TriedIds;
    forall net | net in Networks(e, m)
      ensures net in counts
    {
      var id :| id in m && e.network(m[id].addr) == net;
      InNetworks(e, m, id);
      assert CountOf(counts, net) == Exact(e, m, net);
    }
    var a, b := Networks(e, m), counts.Keys;
    assert a <= b;
    Sets.SubsetSize(a, b);
    forall net | net in counts
      ensures counts[net] == Exact(e, m, net)
    {
      assert CountOf(counts, net) == Exact(e, m, net);
    }
  }

  lemma CountsFromCheck(e: Env, m: Infos, counts: map<int, NewTriedCount>)
    requires CountsOk(e, m, counts) && Networks(e, m) <= counts.Keys
    ensures Counted(e, m, |NewIds(m, {})|, |TriedIds(m)|, counts, {})
  {
    forall net
      ensures CountOf(counts, net) == Exact(e, m, net)
    {
      if net !in counts {
        forall id
          ensures id !in InNetwork(e, m, NewIds(m, {}), net) && id !in InNetwork(e, m, TriedIds(m), net)
        {
          if id in m { InNetworks(e, m, id); }
        }
        assert InNetwork(e, m, NewIds(m, {}), net) == {};
        assert InNetwork(e, m, TriedIds(m), net) == {};
      }
    }
  }

  lemma EntriesFromInvariant(e: Env, s: State)
    requires Partial(e, s, {}, {})
    ensures forall id <- s.mapInfo :: EntryOk(s, id)
  {
    hide NewSlots, Counted, SlotsOf;
  }

  lemma TablesAgree(e: Env, s: State)
    requires forall id <- s.mapInfo :: EntryOk(s, id)
    ensures TriedTable(e, s.key, s.mapInfo, s.vvTried) <==> TriedOk(e, s.key, s.mapInfo, s.vvTried)
    ensures NewSlots(e, s.key, s.mapInfo, s.vvNew) && RefCounts(s.mapInfo, s.vvNew, {}) <==>
            NewOk(e, s.key, s.mapInfo, s.vvNew) && forall sl <- s.vvNew :: 0 <= sl.bucket < NEW_BUCKET_COUNT
  {
    hide SlotsOf;
    assert forall id <- s.mapInfo :: s.mapInfo[id].inTried ==> EntryOk(s, id) && s.mapInfo[id].lastSuccess > 0;
    assert forall sl <- s.vvTried :: TriedSlotOk(e, s.key, s.mapInfo, s.vvTried, sl) <==>
        IsTried(s.mapInfo, s.vvTried[sl]) && sl == e.TriedSlot(s.key, s.mapInfo[s.vvTried[sl]].addr);
    NewTablesAgree(e, s);
  }

  lemma NewTablesAgree(e: Env, s: State)
    requires forall id <- s.mapInfo :: EntryOk(s, id)
    ensures NewSlots(e, s.key, s.mapInfo, s.vvNew) && RefCounts(s.mapInfo, s.vvNew, {}) <==>
            NewOk(e, s.key, s.mapInfo, s.vvNew) && forall sl <- s.vvNew :: 0 <= sl.bucket < NEW_BUCKET_COUNT
  {
    hide SlotsOf;
    assert forall id <- s.mapInfo :: EntryOk(s, id) ==> s.mapInfo[id].inTried || 0 < s.mapInfo[id].refCount <= 8;
    assert forall sl <- s.vvNew :: NewSlotOk(e, s.key, s.mapInfo, s.vvNew, sl) <==>
        IsNew(s.mapInfo, {}, s.vvNew[sl]) &&
        sl.position == e.bucketPosition(s.key, true, sl.bucket, s.mapInfo[s.vvNew[sl]].addr);
  }

  /** The tables and counts are exact if and only if the check passes and so does what it does not look at. */
  lemma TablesCheckedExactly(e: Env, s: State)
    ensures s.key != 0 && Partial(e, s, {}, {}) <==> Checked(e, s) && Unchecked(e, s)
  {
    hide Keyed, Ordered, TriedTable, NewSlots, RefCounts, Counted, Sound, EntryOk, TriedOk, NewOk, CountsOk, Networks;
    if s.key != 0 && Partial(e, s, {}, {}) {
      EntriesFromInvariant(e, s);
      TablesAgree(e, s);
      OrderedSize(s.mapInfo, s.vRandom);
      SplitSize(s.mapInfo);
      CountedSizes(e, s);
      CountsFromInvariant(e, s.mapInfo, s.nNew, s.nTried, s.counts);
      KeyedUnchecked(e, s);
    }
    if Checked(e, s) && Unchecked(e, s) {
      TablesAgree(e, s);
      SplitSize(s.mapInfo);
      CountsFromCheck(e, s.mapInfo, s.counts);
      KeyedFromCheck(e, s);
    }
  }

  lemma CountedSizes(e: Env, s: State)
    requires Counted(e, s.mapInfo, s.nNew, s.nTried, s.counts, {})
    ensures s.nNew == |NewIds(s.mapInfo, {})| && s.nTried == |TriedIds(s.mapInfo)|
  {
  }

  lemma KeyedUnchecked(e: Env, s: State)
    requires Keyed(s.mapInfo, s.mapAddr, s.idCount) && Sound(e, s.mapInfo)
    ensures forall id <- s.mapInfo :: 0 <= id < s.idCount
    ensures forall a <- s.mapAddr :: s.mapAddr[a] in s.mapInfo && s.mapInfo[s.mapAddr[a]].addr == a
    ensures forall id <- s.mapInfo :: e.valid(s.mapInfo[id].addr)
  {
  }

  lemma KeyedFromCheck(e: Env, s: State)
    requires forall id <- s.mapInfo :: EntryOk(s, id)
    requires |s.vRandom| == |s.mapInfo|
    requires Unchecked(e, s)
    ensures Keyed(s.mapInfo, s.mapAddr, s.idCount) && Ordered(s.mapInfo, s.vRandom) && Sound(e, s.mapInfo)
  {
    hide Networks;
    assert forall id <- s.mapInfo :: EntryOk(s, id);
    forall i | 0 <= i < |s.vRandom|
      ensures s.vRandom[i] in s.mapInfo && s.mapInfo[s.vRandom[i]].randomPos == i
    {
      Pigeonhole(s.mapInfo, s.vRandom, i);
    }
  }

  /** A manager with one entry, counted under the wrong network. */
  function Miscounted(e: Env, a: Service): State {
    State(1, 1, map[0 := AddrInfo(a, 0, {}, a.ip, 0, 0, 0, 0, 1, false, 0)], map[a := 0], [0], 0, map[],
          1, map[e.NewSlot(1, a, a.ip) := 0], 1, {}, map[e.network(a) + 1 := NewTriedCount(0, 0)])
  }

  lemma MiscountedCounts(e: Env, a: Service)
    ensures var s := Miscounted(e, a);
            && NewIds(s.mapInfo, {}) == {0} && TriedIds(s.mapInfo) == {}
            && CountsOk(e, s.mapInfo, s.counts)
            && !(Networks(e, s.mapInfo) <= s.counts.Keys)
  {
    var s, net := Miscounted(e, a), e.network(a);
    var m, none: Infos := s.mapInfo, map[];
    assert NewIds(m, {}) == {0};
    assert TriedIds(m) == {};
    NetworksGrow(e, none, 0, m[0]);
    assert m == none[0 := m[0]] && Networks(e, none) == {};
    assert s.counts.Keys == {net + 1};
    assert !IsIn(e, m, 0, net + 1);
    assert InNetwork(e, m, {0}, net + 1) == {} && InNetwork(e, m, {}, net + 1) == {};
  }

  /**
   A manager is consistent if and only if the check passes on it, what it does not
   look at in the tables is right, and its pending collisions are real.
   */
  lemma CheckedExactly(e: Env, s: State)
    ensures Consistent(e, s) <==> Checked(e, s) && Unchecked(e, s) && 0 <= s.idCount && Pending(e, s, {})
  {
    hide Partial, Checked, Unchecked, Pending;
    TablesCheckedExactly(e, s);
  }

  /** The check does miss such faults: this manager passes and is not consistent. */
  lemma CheckMisses(e: Env, a: Service)
    ensures Checked(e, Miscounted(e, a)) && !Partial(e, Miscounted(e, a), {}, {})
  {
    hide CountsOk, Networks, Partial, NewIds, TriedIds;
    var s := Miscounted(e, a);
    MiscountedCounts(e, a);
    assert SlotsOf(s.vvNew, 0) == {e.NewSlot(1, a, a.ip)};
    assert Checked(e, s);
    TablesCheckedExactly(e, s);
  }

  /** After every run of a new manager the check passes. */
  lemma EveryRunPasses(e: Env, key: Key, ops: seq<Spec.Op>)
    requires key != 0 && forall op <- ops :: Spec.Timely(op)
    ensures Checked(e, Spec.Run(e, Empty(key), ops))
  {
    hide Checked, Unchecked, Spec.Run;
    Spec.EveryRunConsistent(e, key, ops);
    TablesCheckedExactly(e, Spec.Run(e, Empty(key), ops));
  }
}
