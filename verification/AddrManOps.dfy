/**
 The address manager's internal moves as functions from state to state, and the
 part of the invariant each of them breaks and restores.
 */
module AddrManOps {
  import opened AddrManState

  function Bump(e: Env, counts: map<int, NewTriedCount>, a: Service, dNew: int, dTried: int): map<int, NewTriedCount> {
    var c := CountOf(counts, e.network(a));
    counts[e.network(a) := NewTriedCount(c.new_ + dNew, c.tried + dTried)]
  }

  // ---- moves ----

  function SwapRandom(s: State, i: int, j: int): State {
    if i == j || !(0 <= i < |s.vRandom| && 0 <= j < |s.vRandom|) then s else
    var a, b := s.vRandom[i], s.vRandom[j];
    s.(mapInfo := s.mapInfo[a := Info(s.mapInfo, a).(randomPos := j)][b := Info(s.mapInfo, b).(randomPos := i)],
       vRandom := s.vRandom[i := b][j := a])
  }

  function NewInfo(a: Address, source: NetAddr, randomPos: int): AddrInfo {
    AddrInfo(a.service, a.time, a.services, source, 0, 0, 0, 0, 0, false, randomPos)
  }

  function Create(e: Env, s: State, a: Address, source: NetAddr): State {
    s.(idCount := s.idCount + 1,
       mapInfo := s.mapInfo[s.idCount := NewInfo(a, source, |s.vRandom|)],
       mapAddr := s.mapAddr[a.service := s.idCount],
       vRandom := s.vRandom + [s.idCount],
       nNew := s.nNew + 1,
       counts := Bump(e, s.counts, a.service, 1, 0))
  }

  /** Forget the entry that is last in vRandom. */
  function DropLast(e: Env, s: State, id: int): State {
    var a := Info(s.mapInfo, id).addr;
    s.(counts := Bump(e, s.counts, a, -1, 0),
       vRandom := if s.vRandom == [] then [] else s.vRandom[..|s.vRandom| - 1],
       mapAddr := s.mapAddr - {a},
       mapInfo := s.mapInfo - {id},
       nNew := s.nNew - 1)
  }

  function Delete(e: Env, s: State, id: int): State {
    DropLast(e, SwapRandom(s, Info(s.mapInfo, id).randomPos, |s.vRandom| - 1), id)
  }

  function SetRefs(m: Infos, id: int, refCount: int): Infos {
    m[id := Info(m, id).(refCount := refCount)]
  }

  function SetTried(m: Infos, id: int, inTried: bool): Infos {
    m[id := Info(m, id).(inTried := inTried)]
  }

  function DropRef(s: State, sl: Slot): State
    requires sl in s.vvNew
  {
    s.(mapInfo := SetRefs(s.mapInfo, s.vvNew[sl], Info(s.mapInfo, s.vvNew[sl]).refCount - 1),
       vvNew := s.vvNew - {sl})
  }

  function ClearNew(e: Env, s: State, sl: Slot): State {
    if sl !in s.vvNew then s else
    var t := DropRef(s, sl);
    if Info(t.mapInfo, s.vvNew[sl]).refCount == 0 then Delete(e, t, s.vvNew[sl]) else t
  }

  function AddRef(s: State, id: int, sl: Slot): State {
    s.(mapInfo := SetRefs(s.mapInfo, id, Info(s.mapInfo, id).refCount + 1),
       vvNew := s.vvNew[sl := id])
  }

  /** Take a new entry out of every new bucket and out of the new count. */
  function Withdraw(e: Env, s: State, id: int): State {
    s.(mapInfo := SetRefs(s.mapInfo, id, 0),
       vvNew := s.vvNew - SlotsOf(s.vvNew, id),
       nNew := s.nNew - 1,
       counts := Bump(e, s.counts, Info(s.mapInfo, id).addr, -1, 0))
  }

  /** Take the tried entry at `sl` out of the tried table and count. */
  function Evict(e: Env, s: State, sl: Slot): State
    requires sl in s.vvTried
  {
    var id := s.vvTried[sl];
    s.(mapInfo := SetTried(s.mapInfo, id, false),
       vvTried := s.vvTried - {sl},
       nTried := s.nTried - 1,
       counts := Bump(e, s.counts, Info(s.mapInfo, id).addr, 0, -1))
  }

  /** Put an uncounted entry into one new slot. */
  function Enlist(e: Env, s: State, id: int, sl: Slot): State {
    s.(mapInfo := SetRefs(s.mapInfo, id, 1),
       vvNew := s.vvNew[sl := id],
       nNew := s.nNew + 1,
       counts := Bump(e, s.counts, Info(s.mapInfo, id).addr, 1, 0))
  }

  /** Put an uncounted entry into its tried slot. */
  function Promote(e: Env, s: State, id: int): State {
    var a := Info(s.mapInfo, id).addr;
    s.(mapInfo := SetTried(s.mapInfo, id, true),
       vvTried := s.vvTried[e.TriedSlot(s.key, a) := id],
       nTried := s.nTried + 1,
       counts := Bump(e, s.counts, a, 0, 1))
  }

  // ---- the pieces of the invariant, one at a time ----

  /** The same entries, whatever their statistics. */
  ghost predicate SameEntries(m: Infos, n: Infos) {
    n.Keys == m.Keys && forall id <- m :: n[id].addr == m[id].addr
  }

  lemma KeyedKept(m: Infos, n: Infos, mapAddr: map<Service, int>, idCount: int)
    requires Keyed(m, mapAddr, idCount) && SameEntries(m, n)
    ensures Keyed(n, mapAddr, idCount)
  {
    forall id | id in n
      ensures 0 <= id < idCount && n[id].addr in mapAddr && mapAddr[n[id].addr] == id
    {
      assert id in m;
    }
  }

  lemma OrderedKept(m: Infos, n: Infos, vRandom: seq<int>)
    requires Ordered(m, vRandom) && n.Keys == m.Keys
    requires forall id <- m :: n[id].randomPos == m[id].randomPos
    ensures Ordered(n, vRandom)
  {
    forall id | id in n
      ensures 0 <= n[id].randomPos < |vRandom| && vRandom[n[id].randomPos] == id
    {
      assert id in m;
    }
  }

  lemma TriedKept(e: Env, key: Key, m: Infos, n: Infos, vvTried: Table)
    requires TriedTable(e, key, m, vvTried) && SameEntries(m, n)
    requires forall id <- m :: n[id].inTried == m[id].inTried
    requires forall id <- m :: m[id].inTried ==> n[id].refCount == 0 && n[id].lastSuccess > 0
    ensures TriedTable(e, key, n, vvTried)
  {
    forall id | id in n && n[id].inTried
      ensures Holds(vvTried, e.TriedSlot(key, n[id].addr), id) && n[id].refCount == 0 && n[id].lastSuccess > 0
    {
      assert id in m;
    }
    forall sl | sl in vvTried
      ensures IsTried(n, vvTried[sl]) && sl == e.TriedSlot(key, n[vvTried[sl]].addr)
    {
      assert IsTried(m, vvTried[sl]);
    }
  }

  /** One entry's slots change, the others' do not. */
  lemma RefCountsAt(m: Infos, n: Infos, table: Table, table': Table, id: int, limbo: set<int>, limbo': set<int>)
    requires RefCounts(m, table, limbo)
    requires id in n ==> !n[id].inTried ==>
               && n[id].refCount == |SlotsOf(table', id)| <= NEW_BUCKETS_PER_ADDRESS
               && (n[id].refCount > 0 || id in limbo')
    requires forall x <- n :: x != id ==> x in m && n[x].inTried == m[x].inTried && n[x].refCount == m[x].refCount
    requires forall sl :: sl in table && table[sl] != id ==> Holds(table', sl, table[sl])
    requires forall sl :: sl in table' && table'[sl] != id ==> Holds(table, sl, table'[sl])
    requires limbo - {id} <= limbo'
    ensures RefCounts(n, table', limbo')
  {
    forall x | x in n && x != id
      ensures SlotsOf(table', x) == SlotsOf(table, x)
    {
    }
  }

  lemma SoundKept(e: Env, m: Infos, n: Infos)
    requires Sound(e, m) && n.Keys <= m.Keys
    requires forall id <- n ::
               n[id].addr == m[id].addr && n[id].lastTry == m[id].lastTry && n[id].lastSuccess == m[id].lastSuccess
    ensures Sound(e, n)
  {
  }

  // ---- counting ----

  /** `ts` is `ss` with `id` added (1), removed (-1) or untouched (0). */
  ghost predicate Moved(ss: set<int>, ts: set<int>, id: int, d: int) {
    && -1 <= d <= 1
    && (d == 1 ==> id !in ss && ts == ss + {id})
    && (d == -1 ==> id in ss && ts == ss - {id})
    && (d == 0 ==> ts == ss)
  }

  /** Entries keep their address; only `id` may come or go. */
  ghost predicate SameBut(m: Infos, n: Infos, id: int, a: Service) {
    && (forall x <- m :: x != id ==> x in n && n[x].addr == m[x].addr)
    && (forall x <- n :: x != id ==> x in m)
    && (id in m ==> m[id].addr == a)
    && (id in n ==> n[id].addr == a)
  }

  lemma InNetworkBut(e: Env, m: Infos, n: Infos, ids: set<int>, id: int, a: Service, net: int)
    requires SameBut(m, n, id, a) && id !in ids && ids <= m.Keys
    ensures InNetwork(e, n, ids, net) == InNetwork(e, m, ids, net)
  {
    forall x | x in ids
      ensures IsIn(e, n, x, net) == IsIn(e, m, x, net)
    {
      assert x in m;
    }
  }

  lemma InNetworkWith(e: Env, m: Infos, ids: set<int>, id: int, net: int)
    requires id in m && id in ids
    ensures |InNetwork(e, m, ids, net)| ==
            |InNetwork(e, m, ids - {id}, net)| + if net == e.network(m[id].addr) then 1 else 0
  {
    var whole, rest := InNetwork(e, m, ids, net), InNetwork(e, m, ids - {id}, net);
    if net == e.network(m[id].addr) {
      assert IsIn(e, m, id, net);
      assert whole == rest + {id};
    } else {
      assert !IsIn(e, m, id, net);
      assert whole == rest;
    }
  }

  lemma NetworkMoved(e: Env, m: Infos, n: Infos, ss: set<int>, ts: set<int>, id: int, a: Service, d: int, net: int)
    requires ss <= m.Keys && ts <= n.Keys
    requires SameBut(m, n, id, a) && Moved(ss, ts, id, d)
    ensures |InNetwork(e, n, ts, net)| == |InNetwork(e, m, ss, net)| + if net == e.network(a) then d else 0
  {
    InNetworkBut(e, m, n, ss - {id}, id, a, net);
    assert ts - {id} == ss - {id};
    if id in ts { InNetworkWith(e, n, ts, id, net); } else { assert ts - {id} == ts; }
    if id in ss { InNetworkWith(e, m, ss, id, net); } else { assert ss - {id} == ss; }
  }

  /** The counters stay exact when one entry moves and they are bumped to match. */
  lemma Recount(e: Env, m: Infos, n: Infos, nNew: int, nTried: int, counts: map<int, NewTriedCount>,
                out: set<int>, out': set<int>, id: int, a: Service, dNew: int, dTried: int)
    requires Counted(e, m, nNew, nTried, counts, out)
    requires SameBut(m, n, id, a)
    requires Moved(NewIds(m, out), NewIds(n, out'), id, dNew)
    requires Moved(TriedIds(m), TriedIds(n), id, dTried)
    ensures Counted(e, n, nNew + dNew, nTried + dTried, Bump(e, counts, a, dNew, dTried), out')
  {
    hide InNetwork, NewIds, TriedIds, Moved, SameBut, Bump;
    IdsKnown(m, out);
    IdsKnown(n, out');
    MovedSize(NewIds(m, out), NewIds(n, out'), id, dNew);
    MovedSize(TriedIds(m), TriedIds(n), id, dTried);
    forall net
      ensures CountOf(Bump(e, counts, a, dNew, dTried), net) ==
              NewTriedCount(|InNetwork(e, n, NewIds(n, out'), net)|, |InNetwork(e, n, TriedIds(n), net)|)
    {
      BumpAt(e, counts, a, dNew, dTried, net);
      NetworkMoved(e, m, n, NewIds(m, out), NewIds(n, out'), id, a, dNew, net);
      NetworkMoved(e, m, n, TriedIds(m), TriedIds(n), id, a, dTried, net);
    }
  }

  lemma IdsKnown(m: Infos, out: set<int>)
    ensures NewIds(m, out) <= m.Keys && TriedIds(m) <= m.Keys
  {
  }

  lemma MovedSize(ss: set<int>, ts: set<int>, id: int, d: int)
    requires Moved(ss, ts, id, d)
    ensures |ts| == |ss| + d
  {
  }

  lemma BumpAt(e: Env, counts: map<int, NewTriedCount>, a: Service, dNew: int, dTried: int, net: int)
    ensures var c := CountOf(counts, net);
            CountOf(Bump(e, counts, a, dNew, dTried), net) ==
            if net == e.network(a) then NewTriedCount(c.new_ + dNew, c.tried + dTried) else c
  {
  }

  lemma CountedKept(e: Env, m: Infos, n: Infos, nNew: int, nTried: int, counts: map<int, NewTriedCount>, out: set<int>)
    requires Counted(e, m, nNew, nTried, counts, out) && SameEntries(m, n)
    requires forall id <- m :: n[id].inTried == m[id].inTried
    ensures Counted(e, n, nNew, nTried, counts, out)
  {
    assert forall x :: x in n <==> x in m;
    assert NewIds(n, out) == NewIds(m, out);
    assert TriedIds(n) == TriedIds(m);
    forall net
      ensures InNetwork(e, n, NewIds(m, out), net) == InNetwork(e, m, NewIds(m, out), net)
      ensures InNetwork(e, n, TriedIds(m), net) == InNetwork(e, m, TriedIds(m), net)
    {
    }
  }

  // ---- one entry changes its place in the tables ----

  ghost predicate Replaced(m: Infos, n: Infos, id: int) {
    && id in m && id in n && n == m[id := n[id]]
    && n[id] == m[id].(refCount := n[id].refCount, inTried := n[id].inTried)
  }

  lemma ReplacedKeeps(e: Env, s: State, n: Infos, id: int)
    requires Keyed(s.mapInfo, s.mapAddr, s.idCount) && Ordered(s.mapInfo, s.vRandom) && Sound(e, s.mapInfo)
    requires Replaced(s.mapInfo, n, id)
    ensures Keyed(n, s.mapAddr, s.idCount) && Ordered(n, s.vRandom) && Sound(e, n)
  {
    var m := s.mapInfo;
    KeyedKept(m, n, s.mapAddr, s.idCount);
    OrderedKept(m, n, s.vRandom);
    SoundKept(e, m, n);
  }

  lemma TriedSame(e: Env, key: Key, m: Infos, n: Infos, vvTried: Table, id: int)
    requires TriedTable(e, key, m, vvTried)
    requires Replaced(m, n, id) && !m[id].inTried && !n[id].inTried
    ensures TriedTable(e, key, n, vvTried)
  {
    TriedKept(e, key, m, n, vvTried);
  }

  lemma EvictTried(e: Env, key: Key, m: Infos, n: Infos, vvTried: Table, sl: Slot)
    requires TriedTable(e, key, m, vvTried) && sl in vvTried
    requires Replaced(m, n, vvTried[sl]) && !n[vvTried[sl]].inTried
    ensures TriedTable(e, key, n, vvTried - {sl})
  {
    forall x | x in vvTried && x != sl
      ensures vvTried[x] != vvTried[sl]
    {
      assert IsTried(m, vvTried[x]) && IsTried(m, vvTried[sl]);
    }
  }

  lemma PromoteTried(e: Env, key: Key, m: Infos, n: Infos, vvTried: Table, id: int)
    requires TriedTable(e, key, m, vvTried)
    requires Replaced(m, n, id) && n[id].inTried && n[id].refCount == 0 && n[id].lastSuccess > 0
    requires e.TriedSlot(key, m[id].addr) !in vvTried
    ensures TriedTable(e, key, n, vvTried[e.TriedSlot(key, m[id].addr) := id])
  {
  }

  lemma NewSlotsShrink(e: Env, key: Key, m: Infos, n: Infos, table: Table, table': Table, id: int)
    requires NewSlots(e, key, m, table) && Replaced(m, n, id)
    requires table'.Keys <= table.Keys && forall sl <- table' :: table'[sl] == table[sl]
    requires !n[id].inTried || forall sl <- table' :: table'[sl] != id
    ensures NewSlots(e, key, n, table')
  {
    forall sl | sl in table'
      ensures 0 <= sl.bucket < NEW_BUCKET_COUNT && IsNew(n, {}, table'[sl])
      ensures sl.position == e.bucketPosition(key, true, sl.bucket, n[table'[sl]].addr)
    {
      assert sl in table && IsNew(m, {}, table[sl]);
    }
  }

  lemma NewSlotsGrow(e: Env, key: Key, m: Infos, n: Infos, table: Table, id: int, sl: Slot)
    requires NewSlots(e, key, m, table) && Replaced(m, n, id) && !n[id].inTried
    requires 0 <= sl.bucket < NEW_BUCKET_COUNT
    requires sl.position == e.bucketPosition(key, true, sl.bucket, m[id].addr)
    ensures NewSlots(e, key, n, table[sl := id])
  {
    NewSlotsShrink(e, key, m, n, table, table, id);
    assert IsNew(n, {}, id);
  }

  lemma NoSlots(table: Table, id: int)
    requires SlotsOf(table, id) == {}
    ensures forall sl <- table :: table[sl] != id
  {
    forall sl | sl in table ensures table[sl] != id {
      assert Holds(table, sl, id) ==> sl in SlotsOf(table, id);
    }
  }

  lemma NoRefNoSlots(m: Infos, table: Table, limbo: set<int>, id: int)
    requires RefCounts(m, table, limbo) && id in m && !m[id].inTried && m[id].refCount == 0
    ensures forall sl <- table :: table[sl] != id
  {
    assert SlotsOf(table, id) == {};
    NoSlots(table, id);
  }

  /** What an occupied new slot says about its entry. */
  lemma SlotHolder(e: Env, key: Key, m: Infos, table: Table, limbo: set<int>, sl: Slot)
    requires NewSlots(e, key, m, table) && RefCounts(m, table, limbo) && sl in table
    ensures IsNew(m, {}, table[sl]) && m[table[sl]].refCount > 0
    ensures sl.position == e.bucketPosition(key, true, sl.bucket, m[table[sl]].addr)
  {
    assert IsNew(m, {}, table[sl]);
    assert Holds(table, sl, table[sl]) && sl in SlotsOf(table, table[sl]);
  }

  lemma RefDrop(m: Infos, n: Infos, table: Table, sl: Slot, limbo: set<int>)
    requires RefCounts(m, table, limbo) && sl in table
    requires Replaced(m, n, table[sl]) && !m[table[sl]].inTried && n[table[sl]].refCount == m[table[sl]].refCount - 1
    ensures RefCounts(n, table - {sl}, limbo + {table[sl]})
  {
    var id := table[sl];
    assert Holds(table, sl, id);
    assert SlotsOf(table - {sl}, id) == SlotsOf(table, id) - {sl};
    RefCountsAt(m, n, table, table - {sl}, id, limbo, limbo + {id});
  }

  lemma SlotsAdded(table: Table, id: int, sl: Slot)
    requires sl !in table
    ensures |SlotsOf(table[sl := id], id)| == |SlotsOf(table, id)| + 1
  {
    assert SlotsOf(table[sl := id], id) == SlotsOf(table, id) + {sl};
  }

  lemma RefAdd(m: Infos, n: Infos, table: Table, id: int, sl: Slot, limbo: set<int>)
    requires RefCounts(m, table, limbo) && sl !in table
    requires Replaced(m, n, id) && !m[id].inTried && m[id].refCount < NEW_BUCKETS_PER_ADDRESS
    requires n[id].refCount == m[id].refCount + 1
    ensures RefCounts(n, table[sl := id], limbo - {id})
  {
    SlotsAdded(table, id, sl);
    hide SlotsOf;
    RefCountsAt(m, n, table, table[sl := id], id, limbo, limbo - {id});
  }

  lemma RefClear(m: Infos, n: Infos, table: Table, id: int, limbo: set<int>)
    requires RefCounts(m, table, limbo) && Replaced(m, n, id) && n[id].refCount == 0
    ensures RefCounts(n, table - SlotsOf(table, id), limbo + {id})
  {
    var table' := table - SlotsOf(table, id);
    forall sl | sl in table
      ensures sl in table' <==> table[sl] != id
    {
      assert sl in SlotsOf(table, id) <==> Holds(table, sl, id);
    }
    assert SlotsOf(table', id) == {};
    RefCountsAt(m, n, table, table', id, limbo, limbo + {id});
  }

  lemma RefEvict(e: Env, key: Key, m: Infos, n: Infos, table: Table, id: int, limbo: set<int>)
    requires RefCounts(m, table, limbo) && NewSlots(e, key, m, table)
    requires Replaced(m, n, id) && m[id].inTried && n[id].refCount == 0
    ensures RefCounts(n, table, limbo + {id})
  {
    forall sl | sl in table
      ensures table[sl] != id
    {
      assert IsNew(m, {}, table[sl]);
    }
    assert SlotsOf(table, id) == {};
    RefCountsAt(m, n, table, table, id, limbo, limbo + {id});
  }

  lemma RefPromote(m: Infos, n: Infos, table: Table, id: int, limbo: set<int>)
    requires RefCounts(m, table, limbo) && Replaced(m, n, id) && n[id].inTried
    ensures RefCounts(n, table, limbo - {id})
  {
    RefCountsAt(m, n, table, table, id, limbo, limbo - {id});
  }

  /** A new entry stops being counted, an uncounted one starts, and so on for tried. */
  lemma CountMove(e: Env, m: Infos, n: Infos, nNew: int, nTried: int, counts: map<int, NewTriedCount>,
                  out: set<int>, out': set<int>, id: int)
    requires Counted(e, m, nNew, nTried, counts, out) && Replaced(m, n, id)
    requires out' - {id} == out - {id}
    ensures var dNew := (if IsNew(n, out', id) then 1 else 0) - (if IsNew(m, out, id) then 1 else 0);
            var dTried := (if IsTried(n, id) then 1 else 0) - (if IsTried(m, id) then 1 else 0);
            Counted(e, n, nNew + dNew, nTried + dTried, Bump(e, counts, m[id].addr, dNew, dTried), out')
  {
    var dNew := (if IsNew(n, out', id) then 1 else 0) - (if IsNew(m, out, id) then 1 else 0);
    var dTried := (if IsTried(n, id) then 1 else 0) - (if IsTried(m, id) then 1 else 0);
    forall x | x != id
      ensures IsNew(n, out', x) == IsNew(m, out, x) && IsTried(n, x) == IsTried(m, x)
    {
      assert x in out' <==> x in out by { assert x in out' - {id} <==> x in out - {id}; }
    }
    NewIdsMoved(m, n, out, out', id, dNew);
    TriedIdsMoved(m, n, id, dTried);
    Recount(e, m, n, nNew, nTried, counts, out, out', id, m[id].addr, dNew, dTried);
  }

  lemma NewIdsMoved(m: Infos, n: Infos, out: set<int>, out': set<int>, id: int, d: int)
    requires forall x :: x != id ==> IsNew(n, out', x) == IsNew(m, out, x)
    requires d == (if IsNew(n, out', id) then 1 else 0) - (if IsNew(m, out, id) then 1 else 0)
    ensures Moved(NewIds(m, out), NewIds(n, out'), id, d)
  {
    var ss, ts := NewIds(m, out), NewIds(n, out');
    assert forall x :: x in ts <==> IsNew(n, out', x);
    assert forall x :: x in ss <==> IsNew(m, out, x);
    if d == 1 { assert ts == ss + {id}; }
    if d == -1 { assert ts == ss - {id}; }
    if d == 0 { assert ts == ss; }
  }

  lemma Elsewhere(m: Infos, n: Infos, id: int)
    requires id in n && n == m[id := n[id]]
    ensures forall x :: x != id ==> IsNew(n, {}, x) == IsNew(m, {}, x) && IsTried(n, x) == IsTried(m, x)
  {
  }

  lemma TriedIdsMoved(m: Infos, n: Infos, id: int, d: int)
    requires forall x :: x != id ==> IsTried(n, x) == IsTried(m, x)
    requires d == (if IsTried(n, id) then 1 else 0) - (if IsTried(m, id) then 1 else 0)
    ensures Moved(TriedIds(m), TriedIds(n), id, d)
  {
    var ss, ts := TriedIds(m), TriedIds(n);
    assert forall x :: x in ts <==> IsTried(n, x);
    assert forall x :: x in ss <==> IsTried(m, x);
    if d == 1 { assert ts == ss + {id}; }
    if d == -1 { assert ts == ss - {id}; }
    if d == 0 { assert ts == ss; }
  }

  // ---- what each move keeps ----

  lemma CreateIndexes(m: Infos, n: Infos, mapAddr: map<Service, int>, vRandom: seq<int>, id: int)
    requires Keyed(m, mapAddr, id) && Ordered(m, vRandom) && 0 <= id
    requires id in n && n == m[id := n[id]] && n[id].addr !in mapAddr && n[id].randomPos == |vRandom|
    ensures id !in m
    ensures Keyed(n, mapAddr[n[id].addr := id], id + 1)
    ensures Ordered(n, vRandom + [id])
  {
  }

  lemma CreateTables(e: Env, key: Key, m: Infos, n: Infos, vvTried: Table, vvNew: Table, limbo: set<int>, id: int)
    requires TriedTable(e, key, m, vvTried) && NewSlots(e, key, m, vvNew) && RefCounts(m, vvNew, limbo)
    requires id !in m && id in n && n == m[id := n[id]] && !n[id].inTried && n[id].refCount == 0
    ensures TriedTable(e, key, n, vvTried) && NewSlots(e, key, n, vvNew) && RefCounts(n, vvNew, limbo + {id})
  {
    forall sl | sl in vvTried
      ensures IsTried(n, vvTried[sl]) && sl == e.TriedSlot(key, n[vvTried[sl]].addr)
    {
      assert IsTried(m, vvTried[sl]);
    }
    forall sl | sl in vvNew
      ensures IsNew(n, {}, vvNew[sl]) && vvNew[sl] != id
      ensures sl.position == e.bucketPosition(key, true, sl.bucket, n[vvNew[sl]].addr)
    {
      assert IsNew(m, {}, vvNew[sl]);
    }
    assert SlotsOf(vvNew, id) == {};
    RefCountsAt(m, n, vvNew, vvNew, id, limbo, limbo + {id});
  }

  lemma CreateCounts(e: Env, m: Infos, n: Infos, nNew: int, nTried: int, counts: map<int, NewTriedCount>, id: int)
    requires Counted(e, m, nNew, nTried, counts, {})
    requires id !in m && id in n && n == m[id := n[id]] && !n[id].inTried
    ensures Counted(e, n, nNew + 1, nTried, Bump(e, counts, n[id].addr, 1, 0), {})
  {
    NewIdsMoved(m, n, {}, {}, id, 1);
    TriedIdsMoved(m, n, id, 0);
    Recount(e, m, n, nNew, nTried, counts, {}, {}, id, n[id].addr, 1, 0);
  }

  lemma CreateIn(e: Env, s: State, a: Address, source: NetAddr, limbo: set<int>)
    requires Partial(e, s, limbo, {}) && 0 <= s.idCount
    requires a.service !in s.mapAddr && e.valid(a.service)
    ensures Partial(e, Create(e, s, a, source), limbo + {s.idCount}, {})
  {
    hide Keyed, Ordered, TriedTable, NewSlots, RefCounts, Counted;
    var m, id := s.mapInfo, s.idCount;
    var n := m[id := NewInfo(a, source, |s.vRandom|)];
    CreateIndexes(m, n, s.mapAddr, s.vRandom, id);
    CreateTables(e, s.key, m, n, s.vvTried, s.vvNew, limbo, id);
    CreateCounts(e, m, n, s.nNew, s.nTried, s.counts, id);
  }

  lemma CreateKeeps(e: Env, s: State, a: Address, source: NetAddr)
    requires Partial(e, s, {}, {}) && 0 <= s.idCount
    requires a.service !in s.mapAddr && e.valid(a.service)
    ensures Partial(e, Create(e, s, a, source), {s.idCount}, {})
  {
    hide Partial, Create;
    CreateIn(e, s, a, source, {});
    assert {} + {s.idCount} == {s.idCount};
  }

  lemma SwapFrame(s: State, i: int, j: int)
    requires Ordered(s.mapInfo, s.vRandom)
    requires i == j || (0 <= i < |s.vRandom| && 0 <= j < |s.vRandom|)
    ensures SwapRandom(s, i, j) == s.(mapInfo := SwapRandom(s, i, j).mapInfo, vRandom := SwapRandom(s, i, j).vRandom)
    ensures SwapRandom(s, i, j).mapInfo.Keys == s.mapInfo.Keys
    ensures |SwapRandom(s, i, j).vRandom| == |s.vRandom|
    ensures 0 <= i < |s.vRandom| && 0 <= j < |s.vRandom| ==> SwapRandom(s, i, j).vRandom[j] == s.vRandom[i]
    ensures forall id <- s.mapInfo :: SwapRandom(s, i, j).mapInfo[id] ==
              s.mapInfo[id].(randomPos := SwapRandom(s, i, j).mapInfo[id].randomPos)
  {
  }

  lemma SwapPlaces(s: State, i: int, j: int)
    requires Ordered(s.mapInfo, s.vRandom)
    requires i == j || (0 <= i < |s.vRandom| && 0 <= j < |s.vRandom|)
    ensures Ordered(SwapRandom(s, i, j).mapInfo, SwapRandom(s, i, j).vRandom)
  {
  }

  lemma SwapOrdered(s: State, i: int, j: int)
    requires Ordered(s.mapInfo, s.vRandom)
    requires i == j || (0 <= i < |s.vRandom| && 0 <= j < |s.vRandom|)
    ensures Ordered(SwapRandom(s, i, j).mapInfo, SwapRandom(s, i, j).vRandom)
    ensures SwapRandom(s, i, j) == s.(mapInfo := SwapRandom(s, i, j).mapInfo, vRandom := SwapRandom(s, i, j).vRandom)
    ensures SwapRandom(s, i, j).mapInfo.Keys == s.mapInfo.Keys
    ensures |SwapRandom(s, i, j).vRandom| == |s.vRandom|
    ensures 0 <= i < |s.vRandom| && 0 <= j < |s.vRandom| ==> SwapRandom(s, i, j).vRandom[j] == s.vRandom[i]
    ensures forall id <- s.mapInfo :: SwapRandom(s, i, j).mapInfo[id] ==
              s.mapInfo[id].(randomPos := SwapRandom(s, i, j).mapInfo[id].randomPos)
  {
    SwapFrame(s, i, j);
    SwapPlaces(s, i, j);
    hide SwapRandom;
  }

  /** The same entries with the same statistics except for their places in vRandom. */
  ghost predicate SameStatistics(m: Infos, n: Infos) {
    n.Keys == m.Keys && forall id <- m :: n[id] == m[id].(randomPos := n[id].randomPos)
  }

  lemma SameStatisticsKeep(e: Env, s: State, n: Infos)
    requires TriedTable(e, s.key, s.mapInfo, s.vvTried) && Sound(e, s.mapInfo)
    requires SameStatistics(s.mapInfo, n)
    ensures Sound(e, n)
    ensures forall id <- n :: n[id].inTried ==> n[id].lastSuccess > 0
  {
    SoundKept(e, s.mapInfo, n);
  }

  lemma SwapKeeps(e: Env, s: State, i: int, j: int, limbo: set<int>, out: set<int>)
    requires Partial(e, s, limbo, out)
    requires i == j || (0 <= i < |s.vRandom| && 0 <= j < |s.vRandom|)
    ensures Partial(e, SwapRandom(s, i, j), limbo, out)
  {
    hide Keyed, Ordered, TriedTable, NewSlots, RefCounts, Counted, Sound;
    SwapOrdered(s, i, j);
    SameStatisticsKeep(e, s, SwapRandom(s, i, j).mapInfo);
    StatisticsKeep(e, s, SwapRandom(s, i, j).mapInfo, limbo, out);
  }

  lemma StatisticsTables(e: Env, s: State, n: Infos, limbo: set<int>)
    requires SameEntries(s.mapInfo, n)
    requires TriedTable(e, s.key, s.mapInfo, s.vvTried) && NewSlots(e, s.key, s.mapInfo, s.vvNew)
    requires RefCounts(s.mapInfo, s.vvNew, limbo)
    requires forall id <- s.mapInfo ::
               n[id].inTried == s.mapInfo[id].inTried && n[id].refCount == s.mapInfo[id].refCount
    requires forall id <- n :: n[id].inTried ==> n[id].lastSuccess > 0
    ensures TriedTable(e, s.key, n, s.vvTried) && NewSlots(e, s.key, n, s.vvNew)
    ensures RefCounts(n, s.vvNew, limbo)
  {
    TriedKept(e, s.key, s.mapInfo, n, s.vvTried);
    forall sl | sl in s.vvNew
      ensures IsNew(n, {}, s.vvNew[sl])
      ensures sl.position == e.bucketPosition(s.key, true, sl.bucket, n[s.vvNew[sl]].addr)
    {
      assert IsNew(s.mapInfo, {}, s.vvNew[sl]);
    }
  }

  /** Statistics and vRandom places may change freely. */
  lemma StatisticsKeep(e: Env, s: State, n: Infos, limbo: set<int>, out: set<int>)
    requires Partial(e, s, limbo, out) && SameEntries(s.mapInfo, n)
    requires forall id <- s.mapInfo ::
               n[id].inTried == s.mapInfo[id].inTried && n[id].refCount == s.mapInfo[id].refCount
    requires forall id <- n :: n[id].inTried ==> n[id].lastSuccess > 0
    ensures Keyed(n, s.mapAddr, s.idCount)
    ensures TriedTable(e, s.key, n, s.vvTried) && NewSlots(e, s.key, n, s.vvNew)
    ensures RefCounts(n, s.vvNew, limbo)
    ensures Counted(e, n, s.nNew, s.nTried, s.counts, out)
    ensures InTransit(n, out)
  {
    hide Keyed, Ordered, TriedTable, NewSlots, RefCounts, Counted, Sound;
    KeyedKept(s.mapInfo, n, s.mapAddr, s.idCount);
    StatisticsTables(e, s, n, limbo);
    CountedKept(e, s.mapInfo, n, s.nNew, s.nTried, s.counts, out);
  }

  lemma DropLastIndexes(m: Infos, n: Infos, mapAddr: map<Service, int>, vRandom: seq<int>, idCount: int, id: int)
    requires Keyed(m, mapAddr, idCount) && Ordered(m, vRandom)
    requires id in m && n == m - {id} && |vRandom| > 0 && vRandom[|vRandom| - 1] == id
    ensures Keyed(n, mapAddr - {m[id].addr}, idCount)
    ensures Ordered(n, vRandom[..|vRandom| - 1])
  {
  }

  lemma DropLastTables(e: Env, key: Key, m: Infos, n: Infos, vvTried: Table, vvNew: Table, limbo: set<int>, id: int)
    requires TriedTable(e, key, m, vvTried) && NewSlots(e, key, m, vvNew) && RefCounts(m, vvNew, limbo)
    requires id in m && n == m - {id} && !m[id].inTried && m[id].refCount == 0
    ensures TriedTable(e, key, n, vvTried) && NewSlots(e, key, n, vvNew) && RefCounts(n, vvNew, limbo - {id})
  {
    NoRefNoSlots(m, vvNew, limbo, id);
    forall sl | sl in vvTried
      ensures IsTried(n, vvTried[sl]) && sl == e.TriedSlot(key, n[vvTried[sl]].addr)
    {
      assert IsTried(m, vvTried[sl]);
    }
    forall sl | sl in vvNew
      ensures IsNew(n, {}, vvNew[sl])
      ensures sl.position == e.bucketPosition(key, true, sl.bucket, n[vvNew[sl]].addr)
    {
      assert IsNew(m, {}, vvNew[sl]);
    }
    RefCountsAt(m, n, vvNew, vvNew, id, limbo, limbo - {id});
  }

  lemma DropLastCounts(e: Env, m: Infos, n: Infos, nNew: int, nTried: int, counts: map<int, NewTriedCount>,
                       out: set<int>, id: int)
    requires Counted(e, m, nNew, nTried, counts, out)
    requires id in m && n == m - {id} && !m[id].inTried && id !in out
    ensures Counted(e, n, nNew - 1, nTried, Bump(e, counts, m[id].addr, -1, 0), out)
  {
    NewIdsMoved(m, n, out, out, id, -1);
    TriedIdsMoved(m, n, id, 0);
    Recount(e, m, n, nNew, nTried, counts, out, out, id, m[id].addr, -1, 0);
  }

  lemma DropLastKeeps(e: Env, s: State, id: int, limbo: set<int>, out: set<int>)
    requires Partial(e, s, limbo, out)
    requires id in s.mapInfo && !s.mapInfo[id].inTried && s.mapInfo[id].refCount == 0 && id !in out
    requires |s.vRandom| > 0 && s.vRandom[|s.vRandom| - 1] == id
    ensures Partial(e, DropLast(e, s, id), limbo - {id}, out)
  {
    hide Keyed, Ordered, TriedTable, NewSlots, RefCounts, Counted, Sound;
    var m, n := s.mapInfo, s.mapInfo - {id};
    DropLastIndexes(m, n, s.mapAddr, s.vRandom, s.idCount, id);
    DropLastTables(e, s.key, m, n, s.vvTried, s.vvNew, limbo, id);
    DropLastCounts(e, m, n, s.nNew, s.nTried, s.counts, out, id);
    SoundKept(e, m, n);
  }

  lemma OrderedAt(m: Infos, vRandom: seq<int>, id: int)
    requires Ordered(m, vRandom) && id in m
    ensures 0 <= m[id].randomPos < |vRandom| && vRandom[m[id].randomPos] == id
  {
  }

  lemma DeleteKeeps(e: Env, s: State, id: int, limbo: set<int>, out: set<int>)
    requires Partial(e, s, limbo, out)
    requires id in s.mapInfo && !s.mapInfo[id].inTried && s.mapInfo[id].refCount == 0 && id !in out
    ensures Partial(e, Delete(e, s, id), limbo - {id}, out)
  {
    hide Keyed, Ordered, TriedTable, NewSlots, RefCounts, Counted, Sound, SwapRandom, DropLast;
    OrderedAt(s.mapInfo, s.vRandom, id);
    var pos, last := s.mapInfo[id].randomPos, |s.vRandom| - 1;
    SwapKeeps(e, s, pos, last, limbo, out);
    SwapOrdered(s, pos, last);
    DropLastKeeps(e, SwapRandom(s, pos, last), id, limbo, out);
  }

  lemma DropRefKeeps(e: Env, s: State, sl: Slot, limbo: set<int>, out: set<int>)
    requires Partial(e, s, limbo, out) && sl in s.vvNew
    ensures IsNew(s.mapInfo, {}, s.vvNew[sl]) && s.mapInfo[s.vvNew[sl]].refCount > 0 && s.vvNew[sl] !in out
    ensures Partial(e, DropRef(s, sl), limbo + {s.vvNew[sl]}, out)
  {
    hide Keyed, Ordered, TriedTable, NewSlots, RefCounts, Counted, Sound;
    var id := s.vvNew[sl];
    SlotHolder(e, s.key, s.mapInfo, s.vvNew, limbo, sl);
    var m, n := s.mapInfo, DropRef(s, sl).mapInfo;
    ReplacedKeeps(e, s, n, id);
    TriedSame(e, s.key, m, n, s.vvTried, id);
    NewSlotsShrink(e, s.key, m, n, s.vvNew, s.vvNew - {sl}, id);
    RefDrop(m, n, s.vvNew, sl, limbo);
    CountedKept(e, m, n, s.nNew, s.nTried, s.counts, out);
  }

  lemma LimboTo(m: Infos, table: Table, limbo: set<int>, limbo': set<int>)
    requires RefCounts(m, table, limbo)
    requires forall id <- limbo :: id in m && !m[id].inTried && m[id].refCount == 0 ==> id in limbo'
    ensures RefCounts(m, table, limbo')
  {
  }

  lemma ClearNewKeeps(e: Env, s: State, sl: Slot, limbo: set<int>, out: set<int>)
    requires Partial(e, s, limbo, out)
    ensures Partial(e, ClearNew(e, s, sl), limbo, out)
    ensures sl !in ClearNew(e, s, sl).vvNew
  {
    hide Keyed, Ordered, TriedTable, NewSlots, RefCounts, Counted, Sound;
    if sl in s.vvNew {
      var id := s.vvNew[sl];
      DropRefKeeps(e, s, sl, limbo, out);
      var t := DropRef(s, sl);
      if t.mapInfo[id].refCount == 0 {
        DeleteKeeps(e, t, id, limbo + {id}, out);
        LimboTo(Delete(e, t, id).mapInfo, t.vvNew, limbo + {id} - {id}, limbo);
      } else {
        LimboTo(t.mapInfo, t.vvNew, limbo + {id}, limbo);
      }
    }
  }

  lemma AddRefKeeps(e: Env, s: State, id: int, sl: Slot, limbo: set<int>, out: set<int>)
    requires Partial(e, s, limbo, out) && sl !in s.vvNew
    requires id in s.mapInfo && !s.mapInfo[id].inTried && id !in out
    requires s.mapInfo[id].refCount < NEW_BUCKETS_PER_ADDRESS
    requires 0 <= sl.bucket < NEW_BUCKET_COUNT
    requires sl.position == e.bucketPosition(s.key, true, sl.bucket, s.mapInfo[id].addr)
    ensures Partial(e, AddRef(s, id, sl), limbo - {id}, out)
  {
    hide Keyed, Ordered, TriedTable, NewSlots, RefCounts, Counted, Sound;
    var m, n := s.mapInfo, AddRef(s, id, sl).mapInfo;
    ReplacedKeeps(e, s, n, id);
    TriedSame(e, s.key, m, n, s.vvTried, id);
    NewSlotsGrow(e, s.key, m, n, s.vvNew, id, sl);
    RefAdd(m, n, s.vvNew, id, sl, limbo);
    CountedKept(e, m, n, s.nNew, s.nTried, s.counts, out);
  }

  lemma WithdrawKeeps(e: Env, s: State, id: int, limbo: set<int>, out: set<int>)
    requires Partial(e, s, limbo, out)
    requires id in s.mapInfo && !s.mapInfo[id].inTried && id !in out
    ensures Partial(e, Withdraw(e, s, id), limbo + {id}, out + {id})
  {
    hide Keyed, Ordered, TriedTable, NewSlots, RefCounts, Counted, Sound;
    var m, n := s.mapInfo, Withdraw(e, s, id).mapInfo;
    ReplacedKeeps(e, s, n, id);
    TriedSame(e, s.key, m, n, s.vvTried, id);
    NewSlotsShrink(e, s.key, m, n, s.vvNew, s.vvNew - SlotsOf(s.vvNew, id), id);
    RefClear(m, n, s.vvNew, id, limbo);
    CountMove(e, m, n, s.nNew, s.nTried, s.counts, out, out + {id}, id);
  }

  lemma EvictKeeps(e: Env, s: State, sl: Slot, limbo: set<int>, out: set<int>)
    requires Partial(e, s, limbo, out) && sl in s.vvTried
    ensures IsTried(s.mapInfo, s.vvTried[sl]) && s.vvTried[sl] !in out
    ensures Partial(e, Evict(e, s, sl), limbo + {s.vvTried[sl]}, out + {s.vvTried[sl]})
  {
    hide Keyed, Ordered, TriedTable, NewSlots, RefCounts, Counted, Sound;
    var id := s.vvTried[sl];
    TriedHolder(e, s.key, s.mapInfo, s.vvTried, sl);
    var m, n := s.mapInfo, Evict(e, s, sl).mapInfo;
    ReplacedKeeps(e, s, n, id);
    EvictTried(e, s.key, m, n, s.vvTried, sl);
    NewSlotsShrink(e, s.key, m, n, s.vvNew, s.vvNew, id);
    RefEvict(e, s.key, m, n, s.vvNew, id, limbo);
    CountMove(e, m, n, s.nNew, s.nTried, s.counts, out, out + {id}, id);
  }

  lemma TriedHolder(e: Env, key: Key, m: Infos, vvTried: Table, sl: Slot)
    requires TriedTable(e, key, m, vvTried) && sl in vvTried
    ensures IsTried(m, vvTried[sl]) && m[vvTried[sl]].refCount == 0
    ensures sl == e.TriedSlot(key, m[vvTried[sl]].addr)
  {
    assert IsTried(m, vvTried[sl]);
  }

  lemma EnlistKeeps(e: Env, s: State, id: int, sl: Slot, limbo: set<int>, out: set<int>)
    requires Partial(e, s, limbo, out) && sl !in s.vvNew && id in out
    requires 0 <= sl.bucket < NEW_BUCKET_COUNT
    requires sl.position == e.bucketPosition(s.key, true, sl.bucket, s.mapInfo[id].addr)
    ensures Partial(e, Enlist(e, s, id, sl), limbo - {id}, out - {id})
  {
    hide Keyed, Ordered, TriedTable, NewSlots, RefCounts, Counted, Sound;
    var m, n := s.mapInfo, Enlist(e, s, id, sl).mapInfo;
    ReplacedKeeps(e, s, n, id);
    TriedSame(e, s.key, m, n, s.vvTried, id);
    NewSlotsGrow(e, s.key, m, n, s.vvNew, id, sl);
    RefAdd(m, n, s.vvNew, id, sl, limbo);
    CountMove(e, m, n, s.nNew, s.nTried, s.counts, out, out - {id}, id);
  }

  lemma PromoteKeeps(e: Env, s: State, id: int, limbo: set<int>, out: set<int>)
    requires Partial(e, s, limbo, out) && id in out
    requires s.mapInfo[id].lastSuccess > 0
    requires e.TriedSlot(s.key, s.mapInfo[id].addr) !in s.vvTried
    ensures Partial(e, Promote(e, s, id), limbo - {id}, out - {id})
  {
    hide Keyed, Ordered, TriedTable, NewSlots, RefCounts, Counted, Sound;
    var m, n := s.mapInfo, Promote(e, s, id).mapInfo;
    ReplacedKeeps(e, s, n, id);
    PromoteTried(e, s.key, m, n, s.vvTried, id);
    NoRefNoSlots(m, s.vvNew, limbo, id);
    NewSlotsShrink(e, s.key, m, n, s.vvNew, s.vvNew, id);
    RefPromote(m, n, s.vvNew, id, limbo);
    CountMove(e, m, n, s.nNew, s.nTried, s.counts, out, out - {id}, id);
  }
}
