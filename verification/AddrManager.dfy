/**
 The address manager object: fields updated in place, bucket scans and loops,
 each method proved to make exactly the move its specification describes.
 */
module AddrManager {
  import opened Basics
  import opened AddrManState
  import Sets
  import Ops = AddrManOps
  import Spec = AddrManRuns

  const EMPTY := -1

  function Slots(buckets: nat): set<Slot> {
    set b, p | 0 <= b < buckets && 0 <= p < BUCKET_SIZE :: Slot(b, p)
  }

  predicate Occupied(table: array2<int>, sl: Slot)
    reads table
  {
    && 0 <= sl.bucket < table.Length0 && 0 <= sl.position < table.Length1
    && table[sl.bucket, sl.position] != EMPTY
  }

  /** The occupied slots of a table and their ids. */
  ghost function TableOf(table: array2<int>): Table
    requires table.Length1 == BUCKET_SIZE
    reads table
  {
    map sl | sl in Slots(table.Length0) && Occupied(table, sl) :: table[sl.bucket, sl.position]
  }

  lemma SlotIn(table: array2<int>, b: int, p: int)
    requires table.Length1 == BUCKET_SIZE && 0 <= b < table.Length0 && 0 <= p < BUCKET_SIZE
    ensures Slot(b, p) in TableOf(table) <==> table[b, p] != EMPTY
    ensures table[b, p] != EMPTY ==> TableOf(table)[Slot(b, p)] == table[b, p]
  {
    assert Slot(b, p) in Slots(table.Length0);
    assert Occupied(table, Slot(b, p)) <==> table[b, p] != EMPTY;
  }

  method Put(table: array2<int>, sl: Slot, id: int)
    requires table.Length1 == BUCKET_SIZE && sl in Slots(table.Length0) && id != EMPTY
    modifies table
    ensures TableOf(table) == old(TableOf(table))[sl := id]
  {
    table[sl.bucket, sl.position] := id;
    forall x | x in Slots(table.Length0)
      ensures x in TableOf(table) <==> x == sl || x in old(TableOf(table))
      ensures x in TableOf(table) ==> TableOf(table)[x] == if x == sl then id else old(TableOf(table))[x]
    {
      assert Occupied(table, x) <==> x == sl || old(Occupied(table, x));
    }
  }

  method Clear(table: array2<int>, sl: Slot)
    requires table.Length1 == BUCKET_SIZE && sl in Slots(table.Length0)
    modifies table
    ensures TableOf(table) == old(TableOf(table)) - {sl}
  {
    table[sl.bucket, sl.position] := EMPTY;
    forall x | x in Slots(table.Length0)
      ensures x in TableOf(table) <==> x != sl && x in old(TableOf(table))
    {
      assert Occupied(table, x) <==> x != sl && old(Occupied(table, x));
    }
  }

  class AddrManImpl {
    const e: Env
    var key: Key
    var idCount: int
    var mapInfo: Infos
    var mapAddr: map<Service, int>
    var vRandom: seq<int>
    var nTried: int
    const vvTried: array2<int>
    var nNew: int
    const vvNew: array2<int>
    var lastGood: int
    var collisions: set<int>
    var counts: map<int, NewTriedCount>

    ghost predicate Shaped() {
      && vvTried != vvNew
      && vvTried.Length0 == TRIED_BUCKET_COUNT && vvTried.Length1 == BUCKET_SIZE
      && vvNew.Length0 == NEW_BUCKET_COUNT && vvNew.Length1 == BUCKET_SIZE
    }

    ghost function Abs(): State
      requires Shaped()
      reads this, vvTried, vvNew
    {
      State(key, idCount, mapInfo, mapAddr, vRandom, nTried, TableOf(vvTried), nNew, TableOf(vvNew),
            lastGood, collisions, counts)
    }

    constructor (env: Env, key: Key)
      ensures Shaped() && fresh(vvTried) && fresh(vvNew) && e == env
      ensures Abs() == Empty(key)
    {
      e := env;
      this.key := key;
      idCount, mapInfo, mapAddr, vRandom := 0, map[], map[], [];
      nTried, nNew, lastGood, collisions, counts := 0, 0, 1, {}, map[];
      vvTried := new int[TRIED_BUCKET_COUNT, BUCKET_SIZE]((_, _) => EMPTY);
      vvNew := new int[NEW_BUCKET_COUNT, BUCKET_SIZE]((_, _) => EMPTY);
      new;
      assert forall sl :: !Occupied(vvTried, sl) && !Occupied(vvNew, sl);
    }

    method BumpCount(a: Service, dNew: int, dTried: int)
      modifies this`counts
      ensures counts == Ops.Bump(e, old(counts), a, dNew, dTried)
    {
      var c := if e.network(a) in counts then counts[e.network(a)] else NewTriedCount(0, 0);
      counts := counts[e.network(a) := NewTriedCount(c.new_ + dNew, c.tried + dTried)];
    }

    method SwapRandom(i: int, j: int)
      requires Shaped() && Ordered(mapInfo, vRandom)
      requires i == j || (0 <= i < |vRandom| && 0 <= j < |vRandom|)
      modifies this`mapInfo, this`vRandom
      ensures Abs() == Ops.SwapRandom(old(Abs()), i, j)
    {
      if i == j { return; }
      var id1, id2 := vRandom[i], vRandom[j];
      assert id1 in mapInfo && id2 in mapInfo;
      mapInfo := mapInfo[id1 := mapInfo[id1].(randomPos := j)];
      mapInfo := mapInfo[id2 := mapInfo[id2].(randomPos := i)];
      vRandom := vRandom[i := id2];
      vRandom := vRandom[j := id1];
    }

    method Create(a: Address, source: NetAddr) returns (id: int)
      requires Shaped()
      modifies this
      ensures id == old(idCount)
      ensures Abs() == Ops.Create(e, old(Abs()), a, source)
    {
      hide TableOf, Ops.Bump;
      id := idCount;
      idCount := idCount + 1;
      mapInfo := mapInfo[id := AddrInfo(a.service, a.time, a.services, source, 0, 0, 0, 0, 0, false, -1)];
      mapAddr := mapAddr[a.service := id];
      mapInfo := mapInfo[id := mapInfo[id].(randomPos := |vRandom|)];
      assert mapInfo == old(mapInfo)[id := Ops.NewInfo(a, source, |vRandom|)];
      hide Ops.NewInfo;
      vRandom := vRandom + [id];
      nNew := nNew + 1;
      BumpCount(a.service, 1, 0);
    }

    method Delete(id: int)
      requires Shaped() && Ordered(mapInfo, vRandom)
      requires id in mapInfo && !mapInfo[id].inTried && mapInfo[id].refCount == 0
      modifies this
      ensures Abs() == Ops.Delete(e, old(Abs()), id)
    {
      hide Ordered, TableOf, Ops.SwapRandom, Ops.Bump;
      ghost var s := Abs();
      Ops.OrderedAt(mapInfo, vRandom, id);
      Ops.SwapOrdered(s, mapInfo[id].randomPos, |vRandom| - 1);
      SwapRandom(mapInfo[id].randomPos, |vRandom| - 1);
      var a := mapInfo[id].addr;
      BumpCount(a, -1, 0);
      vRandom := vRandom[..|vRandom| - 1];
      mapAddr := mapAddr - {a};
      mapInfo := mapInfo - {id};
      nNew := nNew - 1;
    }

    method ClearNew(sl: Slot)
      requires Shaped() && Ordered(mapInfo, vRandom) && sl in Slots(NEW_BUCKET_COUNT)
      requires sl in TableOf(vvNew) ==>
                 IsNew(mapInfo, {}, TableOf(vvNew)[sl]) && mapInfo[TableOf(vvNew)[sl]].refCount > 0
      modifies this, vvNew
      ensures Abs() == Ops.ClearNew(e, old(Abs()), sl)
    {
      SlotIn(vvNew, sl.bucket, sl.position);
      if vvNew[sl.bucket, sl.position] != EMPTY {
        var id := vvNew[sl.bucket, sl.position];
        assert mapInfo[id].refCount > 0;
        ghost var m := mapInfo;
        mapInfo := mapInfo[id := mapInfo[id].(refCount := mapInfo[id].refCount - 1)];
        Ops.OrderedKept(m, mapInfo, vRandom);
        Clear(vvNew, sl);
        if mapInfo[id].refCount == 0 {
          Delete(id);
        }
      }
    }

    /** The first half of MakeTried: the scan of one position in every new bucket. */
    method ScanNew(id: int)
      requires Shaped() && id in mapInfo && id >= 0 && mapInfo[id].refCount > 0
      requires NewSlots(e, key, mapInfo, TableOf(vvNew))
      requires mapInfo[id].refCount == |SlotsOf(TableOf(vvNew), id)|
      modifies this`mapInfo, vvNew
      ensures TableOf(vvNew) == old(TableOf(vvNew)) - SlotsOf(old(TableOf(vvNew)), id)
      ensures mapInfo == Ops.SetRefs(old(mapInfo), id, 0)
    {
      hide NewSlots, TableOf, SlotsOf, Scanned;
      ghost var table, m := TableOf(vvNew), mapInfo;
      var a := mapInfo[id].addr;
      var start := e.newBucket(key, a, mapInfo[id].source);
      var n := 0;
      ScanStart(table, id, start);
      while n < NEW_BUCKET_COUNT
        invariant 0 <= n <= NEW_BUCKET_COUNT
        invariant Scanned(table, TableOf(vvNew), id, start, n)
        invariant mapInfo == Ops.SetRefs(m, id, |SlotsOf(TableOf(vvNew), id)|)
      {
        var bucket := (start + n) % NEW_BUCKET_COUNT;
        var pos := e.bucketPosition(key, true, bucket, a);
        SlotIn(vvNew, bucket, pos);
        ScanStep(e, key, m, table, TableOf(vvNew), id, start, n);
        if vvNew[bucket, pos] == id {
          Clear(vvNew, Slot(bucket, pos));
          mapInfo := mapInfo[id := mapInfo[id].(refCount := mapInfo[id].refCount - 1)];
          if mapInfo[id].refCount == 0 {
            ScanBack(table, TableOf(vvNew), id, start, n);
            break;
          }
        }
        n := n + 1;
      }
      ScanEnd(table, TableOf(vvNew), id, start, n);
      assert mapInfo[id].refCount == 0;
    }

    method Withdraw(id: int)
      requires Shaped() && id in mapInfo && id >= 0 && mapInfo[id].refCount > 0
      requires NewSlots(e, key, mapInfo, TableOf(vvNew))
      requires mapInfo[id].refCount == |SlotsOf(TableOf(vvNew), id)|
      modifies this, vvNew
      ensures Abs() == Ops.Withdraw(e, old(Abs()), id)
    {
      hide NewSlots, SlotsOf, TableOf;
      ScanNew(id);
      nNew := nNew - 1;
      BumpCount(mapInfo[id].addr, -1, 0);
    }

    /** Make room at a tried slot: its entry goes back to the new table. */
    method Displace(sl: Slot, ghost id: int)
      requires Shaped() && sl in Slots(TRIED_BUCKET_COUNT)
      requires Partial(e, Abs(), {id}, {id}) && 0 <= idCount
      modifies this, vvNew, vvTried
      ensures Abs() == Spec.Displace(e, old(Abs()), sl)
    {
      hide Keyed, Ordered, TriedTable, NewSlots, RefCounts, Counted, Sound, TableOf, Ops.ClearNew;
      ghost var s := Abs();
      SlotIn(vvTried, sl.bucket, sl.position);
      if vvTried[sl.bucket, sl.position] != EMPTY {
        var idEvict := vvTried[sl.bucket, sl.position];
        Ops.EvictKeeps(e, s, sl, {id}, {id});
        assert idEvict in mapInfo;
        var info := mapInfo[idEvict];
        var target := e.NewSlot(key, info.addr, info.source);
        ghost var r, both := Ops.Evict(e, s, sl), {id} + {idEvict};
        EvictInPlace(sl, idEvict);
        if target in r.vvNew { Ops.SlotHolder(e, r.key, r.mapInfo, r.vvNew, both, target); }
        Ops.ClearNewKeeps(e, r, target, both, both);
        InSlots(target);
        ClearNew(target);
        assert idEvict in mapInfo && target !in TableOf(vvNew);
        Ops.TriedHolder(e, s.key, s.mapInfo, s.vvTried, sl);
        EntryId(s, idEvict);
        EnlistInPlace(idEvict, target);
      }
    }

    method EvictInPlace(sl: Slot, id: int)
      requires Shaped() && sl in Slots(TRIED_BUCKET_COUNT) && Holds(TableOf(vvTried), sl, id) && id in mapInfo
      modifies this, vvTried
      ensures Abs() == Ops.Evict(e, old(Abs()), sl)
    {
      hide TableOf;
      mapInfo := mapInfo[id := mapInfo[id].(inTried := false)];
      Clear(vvTried, sl);
      nTried := nTried - 1;
      BumpCount(mapInfo[id].addr, 0, -1);
    }

    method EnlistInPlace(id: int, sl: Slot)
      requires Shaped() && sl in Slots(NEW_BUCKET_COUNT) && id in mapInfo && id >= 0
      modifies this, vvNew
      ensures Abs() == Ops.Enlist(e, old(Abs()), id, sl)
    {
      hide TableOf;
      mapInfo := mapInfo[id := mapInfo[id].(refCount := 1)];
      Put(vvNew, sl, id);
      nNew := nNew + 1;
      BumpCount(mapInfo[id].addr, 1, 0);
    }

    method PromoteInPlace(id: int)
      requires Shaped() && id in mapInfo && id >= 0
      modifies this, vvTried
      ensures Abs() == Ops.Promote(e, old(Abs()), id)
    {
      hide TableOf;
      var sl := e.TriedSlot(key, mapInfo[id].addr);
      Put(vvTried, sl, id);
      nTried := nTried + 1;
      mapInfo := mapInfo[id := mapInfo[id].(inTried := true)];
      BumpCount(mapInfo[id].addr, 0, 1);
    }

    method MakeTried(id: int)
      requires Shaped() && Partial(e, Abs(), {}, {}) && 0 <= idCount
      requires id in mapInfo && !mapInfo[id].inTried
      modifies this, vvNew, vvTried
      ensures Abs() == Spec.MakeTried(e, old(Abs()), id)
    {
      hide Keyed, Ordered, TriedTable, NewSlots, RefCounts, Counted, Sound, TableOf, Spec.Displace;
      ghost var s := Abs();
      EntryId(s, id);
      Spec.Referenced(s, id);
      ExactRefs(s, id);
      Ops.WithdrawKeeps(e, s, id, {}, {});
      Withdraw(id);
      ghost var r := Abs();
      assert {} + {id} == {id};
      var sl := e.TriedSlot(key, mapInfo[id].addr);
      Spec.DisplaceKeeps(e, r, sl, id);
      Displace(sl, id);
      assert Spec.SameIdentity(r.mapInfo, mapInfo, id);
      assert sl !in TableOf(vvTried);
      PromoteInPlace(id);
    }

    method PlaceNew(id: int, sl: Slot, now: int) returns (inserted: bool)
      requires Shaped() && Partial(e, Abs(), {id}, {})
      requires id in mapInfo && !mapInfo[id].inTried
      requires 0 <= sl.bucket < NEW_BUCKET_COUNT && 0 <= sl.position < BUCKET_SIZE
      modifies this, vvNew
      ensures (Abs(), inserted) == Spec.PlaceNew(e, old(Abs()), id, sl, now)
    {
      hide Keyed, Ordered, TriedTable, NewSlots, RefCounts, Counted, Sound, TableOf, Ops.ClearNew, Ops.Delete;
      ghost var s := Abs();
      EntryId(s, id);
      SlotIn(vvNew, sl.bucket, sl.position);
      if sl in s.vvNew { Ops.SlotHolder(e, s.key, s.mapInfo, s.vvNew, {id}, sl); }
      var occupant := vvNew[sl.bucket, sl.position];
      inserted := occupant == EMPTY;
      if occupant != id {
        if !inserted {
          var other := mapInfo[occupant];
          if Spec.IsTerrible(other, now) || (other.refCount > 1 && mapInfo[id].refCount == 0) {
            inserted := true;
          }
        }
        InSlots(sl);
        if inserted {
          Spec.ClearNewKin(e, s, sl);
          ClearNew(sl);
          mapInfo := mapInfo[id := mapInfo[id].(refCount := mapInfo[id].refCount + 1)];
          Put(vvNew, sl, id);
        } else if mapInfo[id].refCount == 0 {
          Delete(id);
        }
      }
    }

    method RefreshInPlace(id: int, a: Address, penalty: int, now: int)
      requires Shaped() && id in mapInfo
      modifies this`mapInfo
      ensures Abs() == Spec.SetInfo(old(Abs()), id, Spec.Refresh(old(mapInfo[id]), a, penalty, now))
    {
      hide TableOf;
      var interval := if now - a.time < DAY then HOUR else DAY;
      if mapInfo[id].time < a.time - interval - penalty {
        mapInfo := mapInfo[id := mapInfo[id].(time := Max(0, a.time - penalty))];
      }
      mapInfo := mapInfo[id := mapInfo[id].(services := mapInfo[id].services + a.services)];
    }

    method CreateAged(a: Address, source: NetAddr, penalty: int) returns (id: int)
      requires Shaped()
      modifies this
      ensures id == old(idCount)
      ensures Abs() == Spec.CreateAged(e, old(Abs()), a, source, penalty)
    {
      hide TableOf;
      id := Create(a, source);
      mapInfo := mapInfo[id := mapInfo[id].(time := Max(0, mapInfo[id].time - penalty))];
    }

    method AddSingle(a: Address, source: NetAddr, timePenalty: int, now: int, later: int, draw: int)
      returns (inserted: bool)
      requires Shaped() && Partial(e, Abs(), {}, {}) && 0 <= idCount
      modifies this, vvNew
      ensures (Abs(), inserted) == Spec.AddSingle(e, old(Abs()), a, source, timePenalty, now, later, draw)
    {
      hide Keyed, Ordered, TriedTable, NewSlots, RefCounts, Counted, Sound, TableOf, Spec.PlaceNew;
      ghost var s := Abs();
      if !e.Routable(a.service) { return false; }
      var penalty := if a.service.ip == source then 0 else timePenalty;
      var sl := e.NewSlot(key, a.service, source);
      Spec.FindKnown(s, a.service);
      if a.service in mapAddr && mapAddr[a.service] in mapInfo {
        var id := mapAddr[a.service];
        Spec.TriedSucceeded(e, s, id, {}, {});
        RefreshInPlace(id, a, penalty, now);
        ghost var info := Spec.Refresh(s.mapInfo[id], a, penalty, now);
        Spec.SetInfoKeeps(e, s, id, info, {}, {});
        if a.time <= mapInfo[id].time { return false; }
        if mapInfo[id].inTried { return false; }
        if mapInfo[id].refCount == NEW_BUCKETS_PER_ADDRESS { return false; }
        if mapInfo[id].refCount > 0 {
          if draw != 0 { return false; }
        }
        Ops.LimboTo(mapInfo, TableOf(vvNew), {}, {id});
        inserted := PlaceNew(id, sl, later);
      } else {
        ghost var aged := a.(time := Max(0, a.time - penalty));
        Ops.CreateKeeps(e, s, aged, source);
        var id := CreateAged(a, source, penalty);
        inserted := PlaceNew(id, sl, later);
      }
    }

    method Add(batch: seq<Spec.Announcement>, source: NetAddr, timePenalty: int) returns (added: bool)
      requires Shaped() && Consistent(e, Abs())
      modifies this, vvNew
      ensures (Abs(), added) == Spec.AddAll(e, old(Abs()), batch, source, timePenalty)
      ensures Consistent(e, Abs())
    {
      hide Partial, Spec.AddSingle;
      ghost var s := Abs();
      added := false;
      for i := 0 to |batch|
        invariant Consistent(e, Abs())
        invariant var (t, more) := Spec.AddAll(e, Abs(), batch[i..], source, timePenalty);
                  Spec.AddAll(e, s, batch, source, timePenalty) == (t, added || more)
      {
        ghost var t := Abs();
        Spec.AddSingleConsistent(e, t, batch[i].addr, source, timePenalty, batch[i].now, batch[i].later, batch[i].draw);
        var inserted := AddSingle(batch[i].addr, source, timePenalty, batch[i].now, batch[i].later, batch[i].draw);
        if inserted { added := true; }
        assert batch[i..][1..] == batch[i + 1..];
      }
      assert batch[|batch|..] == [];
    }

    method RecordSuccess(id: int, time: int)
      requires id in mapInfo
      modifies this`mapInfo
      ensures mapInfo == old(mapInfo)[id := old(mapInfo[id]).(lastSuccess := time, lastTry := time, attempts := 0)]
    {
      mapInfo := mapInfo[id := mapInfo[id].(lastSuccess := time)];
      mapInfo := mapInfo[id := mapInfo[id].(lastTry := time)];
      mapInfo := mapInfo[id := mapInfo[id].(attempts := 0)];
    }

    method Good(a: Service, testBeforeEvict: bool, time: int) returns (moved: bool)
      requires Shaped() && Partial(e, Abs(), {}, {}) && 0 <= idCount && time > 0
      modifies this, vvNew, vvTried
      ensures (Abs(), moved) == Spec.Good(e, old(Abs()), a, testBeforeEvict, time)
    {
      hide Partial, TableOf, Spec.MakeTried, Spec.Good, Spec.Succeeded;
      ghost var s := Abs();
      GoodCases(e, s, a, testBeforeEvict, time);
      lastGood := time;
      if !(a in mapAddr && mapAddr[a] in mapInfo) { return false; }
      var id := mapAddr[a];
      RecordSuccess(id, time);
      SucceededKeeps(e, s, id, time);
      if mapInfo[id].inTried { return false; }
      if mapInfo[id].refCount <= 0 { return false; }
      var sl := e.TriedSlot(key, mapInfo[id].addr);
      SlotIn(vvTried, sl.bucket, sl.position);
      if testBeforeEvict && vvTried[sl.bucket, sl.position] != EMPTY {
        if |collisions| < SET_TRIED_COLLISION_SIZE {
          collisions := collisions + {id};
        }
        return false;
      }
      MakeTried(id);
      return true;
    }

    method Attempt(a: Service, countFailure: bool, time: int)
      requires Shaped()
      modifies this
      ensures Abs() == Spec.Attempt(old(Abs()), a, countFailure, time)
    {
      hide TableOf;
      if !(a in mapAddr && mapAddr[a] in mapInfo) { return; }
      var id := mapAddr[a];
      mapInfo := mapInfo[id := mapInfo[id].(lastTry := time)];
      if countFailure && mapInfo[id].lastCountAttempt < lastGood {
        mapInfo := mapInfo[id := mapInfo[id].(lastCountAttempt := time)];
        mapInfo := mapInfo[id := mapInfo[id].(attempts := mapInfo[id].attempts + 1)];
      }
    }

    method Connected(a: Service, time: int)
      requires Shaped()
      modifies this
      ensures Abs() == Spec.Connected(old(Abs()), a, time)
    {
      hide TableOf;
      if !(a in mapAddr && mapAddr[a] in mapInfo) { return; }
      var id := mapAddr[a];
      assert mapInfo[id := mapInfo[id]] == mapInfo;
      if time - mapInfo[id].time > 20 * MINUTE {
        mapInfo := mapInfo[id := mapInfo[id].(time := time)];
      }
    }

    method SetServices(a: Service, services: set<int>)
      requires Shaped()
      modifies this
      ensures Abs() == Spec.SetServices(old(Abs()), a, services)
    {
      hide TableOf;
      if !(a in mapAddr && mapAddr[a] in mapInfo) { return; }
      var id := mapAddr[a];
      mapInfo := mapInfo[id := mapInfo[id].(services := services)];
    }

    /** One pending collision; the branch for a tried slot that has become free is dead. */
    method ResolveOne(id: int, now: int)
      requires Shaped() && Consistent(e, Abs()) && id in collisions && now > 0
      modifies this, vvNew, vvTried
      ensures Abs() == Spec.ResolveOne(e, old(Abs()), id, now)
    {
      hide Keyed, Ordered, TriedTable, NewSlots, RefCounts, Counted, Sound, TableOf, Spec.Good;
      ghost var s := Abs();
      var erase := false;
      if id !in mapInfo {
        erase := true;
      } else {
        Spec.CollisionsAreReal(e, s, id);
        var infoNew := mapInfo[id];
        var sl := e.TriedSlot(key, infoNew.addr);
        SlotIn(vvTried, sl.bucket, sl.position);
        if !e.valid(infoNew.addr) {
          erase := true;
        } else if vvTried[sl.bucket, sl.position] != EMPTY {
          var infoOld := mapInfo[vvTried[sl.bucket, sl.position]];
          if now - infoOld.lastSuccess < 4 * HOUR {
            erase := true;
          } else if now - infoOld.lastTry < 4 * HOUR {
            if now - infoOld.lastTry > 60 {
              var _ := Good(infoNew.addr, false, now);
              erase := true;
            }
          } else if now - infoNew.lastSuccess > 40 * MINUTE {
            var _ := Good(infoNew.addr, false, now);
            erase := true;
          }
        } else {
          assert false;
        }
      }
      if erase {
        collisions := collisions - {id};
      }
    }

    /** Pending collisions are taken in ascending order. */
    method ResolveCollisions(clock: int -> int) returns (ghost ids: seq<int>)
      requires Shaped() && Consistent(e, Abs()) && forall id :: clock(id) > 0
      modifies this, vvNew, vvTried
      ensures Ascending(ids) && forall id :: id in ids <==> id in old(collisions)
      ensures Abs() == Spec.ResolveAll(e, old(Abs()), ids, clock)
      ensures Consistent(e, Abs())
    {
      hide Consistent, Walked, Spec.ResolveOne, Spec.ResolveAll, TableOf;
      ghost var s := Abs();
      ids := [];
      var todo := collisions;
      WalkStart(e, s, clock);
      while todo != {}
        invariant Consistent(e, Abs()) && Abs() == Spec.ResolveAll(e, s, ids, clock)
        invariant todo <= collisions && Walked(s.collisions, ids, todo)
        decreases |todo|
      {
        var id := Least(todo);
        Spec.ResolveOneKeeps(e, Abs(), id, clock(id));
        Spec.ResolveOneCollisions(e, Abs(), id, clock(id));
        WalkNext(e, s, ids, todo, id, clock);
        ResolveOne(id, clock(id));
        todo := todo - {id};
        ids := ids + [id];
      }
      WalkEnd(s.collisions, ids);
    }

    /**
     A random sample without repetition of the addresses that qualify; if it
     falls short of what was asked for, it is all of them.
     */
    method GetAddr(maxAddresses: nat, maxPct: nat, network: Option<int>, filtered: bool, now: int, draw: int -> int)
        returns (addresses: seq<Address>, ghost n: nat)
      requires Shaped() && Consistent(e, Abs())
      requires forall i :: 0 <= i < |vRandom| ==> i <= draw(i) < |vRandom|
      modifies this`mapInfo, this`vRandom
      ensures Abs() == Spec.Sample(old(Abs()), n, draw) && Consistent(e, Abs())
      ensures n <= |vRandom| && addresses == Spec.Picked(e, mapInfo, vRandom[..n], network, filtered, now)
      ensures |addresses| <= Spec.Wanted(|vRandom|, maxAddresses, maxPct)
      ensures |addresses| < Spec.Wanted(|vRandom|, maxAddresses, maxPct) ==> n == |vRandom|
    {
      hide Consistent, Ordered, TableOf, Ops.SwapRandom, Spec.Picked, Spec.IsTerrible, Spec.Wanted, Spec.Sample;
      ghost var s := Abs();
      SampleStart(e, s, network, filtered, now, draw);
      assert vRandom[..0] == [];
      var size := |vRandom|;
      var nodes := Spec.Wanted(size, maxAddresses, maxPct);
      addresses := [];
      n := 0;
      var i := 0;
      while i < size
        invariant 0 <= i <= size == |vRandom| && n == i
        invariant Consistent(e, Abs()) && Ordered(mapInfo, vRandom) && Abs() == Spec.Sample(s, i, draw)
        invariant addresses == Spec.Picked(e, mapInfo, vRandom[..i], network, filtered, now)
        invariant |addresses| <= nodes
      {
        if |addresses| >= nodes { break; }
        ghost var t := Abs();
        Spec.SwapConsistent(e, t, i, draw(i));
        Spec.SwapPicked(e, t, i, draw(i), network, filtered, now);
        SampleNext(s, i, draw);
        SwapRandom(i, draw(i));
        Spec.PickedNext(e, mapInfo, vRandom, i, network, filtered, now);
        var ai := mapInfo[vRandom[i]];
        i, n := i + 1, n + 1;
        if network.Some? && e.netClass(ai.addr) != network.value { continue; }
        if Spec.IsTerrible(ai, now) && filtered { continue; }
        addresses := addresses + [Address(ai.addr, ai.time, ai.services)];
      }
    }

    method SelectTriedCollision(draw: int) returns (r: Option<(Service, int)>)
      requires Shaped() && Consistent(e, Abs())
      requires collisions != {} ==> draw in collisions
      modifies this`collisions
      ensures (Abs(), r) == Spec.SelectCollision(e, old(Abs()), draw)
      ensures Consistent(e, Abs())
    {
      hide Partial, Pending, TableOf;
      ghost var s := Abs();
      Spec.SelectCollisionKeeps(e, s, draw);
      if |collisions| == 0 { return None; }
      if draw !in mapInfo {
        collisions := collisions - {draw};
        return None;
      }
      Spec.CollisionsAreReal(e, s, draw);
      var sl := e.TriedSlot(key, mapInfo[draw].addr);
      SlotIn(vvTried, sl.bucket, sl.position);
      var infoOld := mapInfo[vvTried[sl.bucket, sl.position]];
      return Some((infoOld.addr, infoOld.lastTry));
    }
  }

  ghost predicate Ascending(ids: seq<int>) {
    forall i, j :: 0 <= i < j < |ids| ==> ids[i] < ids[j]
  }

  lemma SucceededKeeps(e: Env, s: State, id: int, time: int)
    requires Partial(e, s, {}, {}) && id in s.mapInfo && time > 0
    ensures Spec.Succeeded(s, id, time) ==
            s.(mapInfo := s.mapInfo[id := s.mapInfo[id].(lastSuccess := time, lastTry := time, attempts := 0)],
               lastGood := time)
    ensures Partial(e, Spec.Succeeded(s, id, time), {}, {})
  {
    hide Keyed, Ordered, TriedTable, NewSlots, RefCounts, Counted, Sound;
    Spec.TriedSucceeded(e, s, id, {}, {});
    Spec.SetInfoKeeps(e, s, id, s.mapInfo[id].(lastSuccess := time, lastTry := time, attempts := 0), {}, {});
  }

  lemma GoodCases(e: Env, s: State, a: Service, test: bool, time: int)
    ensures !(a in s.mapAddr && s.mapAddr[a] in s.mapInfo) ==>
              Spec.Good(e, s, a, test, time) == (s.(lastGood := time), false)
    ensures a in s.mapAddr && s.mapAddr[a] in s.mapInfo ==>
              var id := s.mapAddr[a];
              var (t, info) := (Spec.Succeeded(s, id, time), s.mapInfo[id]);
              Spec.Good(e, s, a, test, time) ==
              if info.inTried || info.refCount <= 0 then (t, false)
              else if test && e.TriedSlot(s.key, info.addr) in s.vvTried then
                (if |s.collisions| < SET_TRIED_COLLISION_SIZE then t.(collisions := s.collisions + {id}) else t, false)
              else (Spec.MakeTried(e, t, id), true)
  {
    hide Spec.Succeeded, Spec.MakeTried;
  }

  lemma SampleStart(e: Env, s: State, network: Option<int>, filtered: bool, now: int, draw: int -> int)
    requires Consistent(e, s)
    ensures Ordered(s.mapInfo, s.vRandom) && Spec.Sample(s, 0, draw) == s
    ensures Spec.Picked(e, s.mapInfo, [], network, filtered, now) == []
  {
  }

  lemma SampleNext(s: State, n: nat, draw: int -> int)
    ensures Spec.Sample(s, n + 1, draw) == Ops.SwapRandom(Spec.Sample(s, n, draw), n, draw(n))
  {
  }

  /** Of the set `all`, `ids` are done in order and `todo` are left. */
  ghost predicate Walked(all: set<int>, ids: seq<int>, todo: set<int>) {
    && Ascending(ids)
    && (forall i, x :: 0 <= i < |ids| && x in todo ==> ids[i] < x)
    && (forall id :: id in all <==> id in ids || id in todo)
  }

  lemma WalkStart(e: Env, s: State, clock: int -> int)
    ensures Walked(s.collisions, [], s.collisions) && Spec.ResolveAll(e, s, [], clock) == s
  {
  }

  lemma WalkNext(e: Env, s: State, ids: seq<int>, todo: set<int>, id: int, clock: int -> int)
    requires Walked(s.collisions, ids, todo) && id in todo && forall x <- todo :: id <= x
    ensures Walked(s.collisions, ids + [id], todo - {id})
    ensures Spec.ResolveAll(e, s, ids + [id], clock) ==
            Spec.ResolveOne(e, Spec.ResolveAll(e, s, ids, clock), id, clock(id))
  {
    hide Spec.ResolveOne;
    assert (ids + [id])[..|ids|] == ids;
  }

  lemma WalkEnd(all: set<int>, ids: seq<int>)
    requires Walked(all, ids, {})
    ensures Ascending(ids) && forall id :: id in ids <==> id in all
  {
  }

  method Least(xs: set<int>) returns (least: int)
    requires xs != {}
    ensures least in xs && forall x <- xs :: least <= x
  {
    least := Sets.Pick(xs);
    var rest := xs - {least};
    while rest != {}
      invariant least in xs && rest <= xs
      invariant forall x <- xs :: x in rest || least <= x
      decreases |rest|
    {
      var x := Sets.Pick(rest);
      if x < least { least := x; }
      rest := rest - {x};
    }
  }

  lemma InSlots(sl: Slot)
    requires 0 <= sl.bucket < NEW_BUCKET_COUNT && 0 <= sl.position < BUCKET_SIZE
    ensures sl in Slots(NEW_BUCKET_COUNT)
  {
  }

  lemma EntryId(s: State, id: int)
    requires Keyed(s.mapInfo, s.mapAddr, s.idCount) && id in s.mapInfo
    ensures 0 <= id < s.idCount
  {
  }

  lemma ExactRefs(s: State, id: int)
    requires RefCounts(s.mapInfo, s.vvNew, {}) && id in s.mapInfo && !s.mapInfo[id].inTried
    ensures s.mapInfo[id].refCount == |SlotsOf(s.vvNew, id)|
  {
  }

  /** How far bucket `b` is from `start`, going round the new table. */
  ghost function Distance(start: int, b: int): int {
    (b - start) % NEW_BUCKET_COUNT
  }

  /**
   `rest` is `table` without some of the slots of `id`, and those still there are
   in buckets at distance `n` or more.
   */
  ghost predicate Scanned(table: Table, rest: Table, id: int, start: int, n: int) {
    && rest.Keys <= table.Keys
    && (forall sl <- rest :: rest[sl] == table[sl])
    && (forall sl <- table :: sl in rest || table[sl] == id)
    && (forall sl <- rest :: rest[sl] == id ==> Distance(start, sl.bucket) >= n)
  }

  lemma ScanStart(table: Table, id: int, start: int)
    ensures Scanned(table, table, id, start, 0)
  {
  }

  /** At distance `n` there is one bucket, and one position in it where `id` can be. */
  lemma DistanceNext(start: int, n: int, b: int)
    requires 0 <= start < NEW_BUCKET_COUNT && 0 <= n < NEW_BUCKET_COUNT && 0 <= b < NEW_BUCKET_COUNT
    requires Distance(start, b) >= n && b != (start + n) % NEW_BUCKET_COUNT
    ensures Distance(start, b) >= n + 1
  {
  }

  lemma ScanStep(e: Env, key: Key, m: Infos, table: Table, rest: Table, id: int, start: int, n: int)
    requires NewSlots(e, key, m, table) && Scanned(table, rest, id, start, n) && id in m
    requires 0 <= start < NEW_BUCKET_COUNT && 0 <= n < NEW_BUCKET_COUNT
    ensures var bucket := (start + n) % NEW_BUCKET_COUNT;
            var sl := Slot(bucket, e.bucketPosition(key, true, bucket, m[id].addr));
            && (!Holds(rest, sl, id) ==> Scanned(table, rest, id, start, n + 1))
            && (Holds(rest, sl, id) ==> Scanned(table, rest - {sl}, id, start, n + 1)
                                        && |SlotsOf(rest - {sl}, id)| == |SlotsOf(rest, id)| - 1)
  {
    var bucket := (start + n) % NEW_BUCKET_COUNT;
    var sl := Slot(bucket, e.bucketPosition(key, true, bucket, m[id].addr));
    hide Distance;
    forall x | x in rest && rest[x] == id && x != sl
      ensures Distance(start, x.bucket) >= n + 1
    {
      assert 0 <= x.bucket < NEW_BUCKET_COUNT && x in table;
      assert x.bucket != bucket;
      DistanceNext(start, n, x.bucket);
    }
    if Holds(rest, sl, id) {
      assert sl in SlotsOf(rest, id);
      assert SlotsOf(rest - {sl}, id) == SlotsOf(rest, id) - {sl};
    }
  }

  lemma ScanBack(table: Table, rest: Table, id: int, start: int, n: int)
    requires Scanned(table, rest, id, start, n + 1)
    ensures Scanned(table, rest, id, start, n)
  {
  }

  lemma ScanEnd(table: Table, rest: Table, id: int, start: int, n: int)
    requires Scanned(table, rest, id, start, n)
    requires n == NEW_BUCKET_COUNT || |SlotsOf(rest, id)| == 0
    ensures rest == table - SlotsOf(table, id) && SlotsOf(rest, id) == {}
  {
    if |SlotsOf(rest, id)| == 0 { Ops.NoSlots(rest, id); }
    forall sl | sl in rest ensures rest[sl] != id {
      assert Distance(start, sl.bucket) < NEW_BUCKET_COUNT;
    }
    forall sl | sl in table
      ensures sl in rest <==> sl !in SlotsOf(table, id)
    {
      assert Holds(table, sl, id) <==> table[sl] == id;
    }
  }
}
