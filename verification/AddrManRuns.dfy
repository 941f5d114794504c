/**
 The address manager's public operations as functions from state to state, and
 what holds over every run of them.
 */
module AddrManRuns {
  import opened Basics
  import opened AddrManState
  import opened AddrManOps

  predicate IsTerrible(info: AddrInfo, now: int) {
    if now - info.lastTry <= MINUTE then false
    else if info.time > now + 10 * MINUTE then true
    else if now - info.time > 30 * DAY then true
    else if info.lastSuccess == 0 && info.attempts >= 3 then true
    else now - info.lastSuccess > 7 * DAY && info.attempts >= 10
  }

  function Find(s: State, a: Service): Option<int> {
    if a in s.mapAddr && s.mapAddr[a] in s.mapInfo then Some(s.mapAddr[a]) else None
  }

  function SetInfo(s: State, id: int, info: AddrInfo): State {
    s.(mapInfo := s.mapInfo[id := info])
  }

  // ---- operations ----

  /** Refresh what is known about an address that was announced again. */
  function Refresh(info: AddrInfo, a: Address, penalty: int, now: int): AddrInfo {
    var interval := if now - a.time < DAY then HOUR else DAY;
    var time := if info.time < a.time - interval - penalty then Max(0, a.time - penalty) else info.time;
    info.(time := time, services := info.services + a.services)
  }

  /** Whether an announcement of a known address may earn it another new slot. */
  predicate Welcome(info: AddrInfo, a: Address, draw: int) {
    && a.time > info.time
    && !info.inTried
    && info.refCount != NEW_BUCKETS_PER_ADDRESS
    && (info.refCount > 0 ==> draw == 0)
  }

  /** Whether the occupant of a new slot has to make way for entry `id`. */
  predicate Yields(s: State, id: int, sl: Slot, now: int)
    requires sl in s.vvNew
  {
    var other := Info(s.mapInfo, s.vvNew[sl]);
    IsTerrible(other, now) || (other.refCount > 1 && Info(s.mapInfo, id).refCount == 0)
  }

  function PlaceNew(e: Env, s: State, id: int, sl: Slot, now: int): (State, bool) {
    if sl in s.vvNew && s.vvNew[sl] == id then
      (s, false)
    else if sl !in s.vvNew || Yields(s, id, sl, now) then
      (AddRef(ClearNew(e, s, sl), id, sl), true)
    else
      (if Info(s.mapInfo, id).refCount == 0 then Delete(e, s, id) else s, false)
  }

  function AddSingle(e: Env, s: State, a: Address, source: NetAddr, timePenalty: int, now: int, later: int,
                     draw: int): (State, bool) {
    if !e.Routable(a.service) then (s, false) else
    var penalty := if a.service.ip == source then 0 else timePenalty;
    var sl := e.NewSlot(s.key, a.service, source);
    match Find(s, a.service)
    case Some(id) =>
      var info := Refresh(Info(s.mapInfo, id), a, penalty, now);
      if !Welcome(info, a, draw) then (SetInfo(s, id, info), false)
      else PlaceNew(e, SetInfo(s, id, info), id, sl, later)
    case None =>
      PlaceNew(e, CreateAged(e, s, a, source, penalty), s.idCount, sl, later)
  }

  function CreateAged(e: Env, s: State, a: Address, source: NetAddr, penalty: int): State {
    Create(e, s, a.(time := Max(0, a.time - penalty)), source)
  }

  /** Move the entry at a tried slot, if any, back into the new table. */
  function Displace(e: Env, s: State, sl: Slot): State {
    if sl !in s.vvTried then s else
    var holder := Info(s.mapInfo, s.vvTried[sl]);
    var target := e.NewSlot(s.key, holder.addr, holder.source);
    Enlist(e, ClearNew(e, Evict(e, s, sl), target), s.vvTried[sl], target)
  }

  function MakeTried(e: Env, s: State, id: int): State {
    Promote(e, Displace(e, Withdraw(e, s, id), e.TriedSlot(s.key, Info(s.mapInfo, id).addr)), id)
  }

  function Succeeded(s: State, id: int, time: int): State {
    SetInfo(s, id, Info(s.mapInfo, id).(lastSuccess := time, lastTry := time, attempts := 0)).(lastGood := time)
  }

  function Good(e: Env, s: State, a: Service, testBeforeEvict: bool, time: int): (State, bool) {
    match Find(s, a)
    case None => (s.(lastGood := time), false)
    case Some(id) =>
      var t := Succeeded(s, id, time);
      var info := Info(s.mapInfo, id);
      if info.inTried || info.refCount <= 0 then
        (t, false)
      else if testBeforeEvict && e.TriedSlot(s.key, info.addr) in s.vvTried then
        (if |s.collisions| < SET_TRIED_COLLISION_SIZE then t.(collisions := s.collisions + {id}) else t, false)
      else
        (MakeTried(e, t, id), true)
  }

  function Attempt(s: State, a: Service, countFailure: bool, time: int): State {
    match Find(s, a)
    case None => s
    case Some(id) =>
      var info := Info(s.mapInfo, id).(lastTry := time);
      SetInfo(s, id, if countFailure && info.lastCountAttempt < s.lastGood
                     then info.(lastCountAttempt := time, attempts := info.attempts + 1) else info)
  }

  function Connected(s: State, a: Service, time: int): State {
    match Find(s, a)
    case None => s
    case Some(id) =>
      var info := Info(s.mapInfo, id);
      SetInfo(s, id, if time - info.time > 20 * MINUTE then info.(time := time) else info)
  }

  function SetServices(s: State, a: Service, services: set<int>): State {
    match Find(s, a)
    case None => s
    case Some(id) => SetInfo(s, id, Info(s.mapInfo, id).(services := services))
  }

  function Forget(s: State, id: int): State {
    s.(collisions := s.collisions - {id})
  }

  /** What to do about one pending collision at time `now`. */
  datatype Verdict = Keep | Drop | Replace

  function Judge(e: Env, s: State, id: int, now: int): Verdict {
    if id !in s.mapInfo then Drop else
    var info := s.mapInfo[id];
    var sl := e.TriedSlot(s.key, info.addr);
    if !e.valid(info.addr) then Drop
    else if sl in s.vvTried then
      var holder := Info(s.mapInfo, s.vvTried[sl]);
      if now - holder.lastSuccess < 4 * HOUR then Drop
      else if now - holder.lastTry < 4 * HOUR then if now - holder.lastTry > 60 then Replace else Keep
      else if now - info.lastSuccess > 40 * MINUTE then Replace else Keep
    else Replace
  }

  function ResolveOne(e: Env, s: State, id: int, now: int): State {
    match Judge(e, s, id, now)
    case Keep => s
    case Drop => Forget(s, id)
    case Replace => Forget(Good(e, s, Info(s.mapInfo, id).addr, false, now).0, id)
  }

  /** Go through `ids` in order; the clock is read once for each of them. */
  function ResolveAll(e: Env, s: State, ids: seq<int>, clock: int -> int): State {
    if ids == [] then s else
    var id := ids[|ids| - 1];
    ResolveOne(e, ResolveAll(e, s, ids[..|ids| - 1], clock), id, clock(id))
  }

  /** The collided entry's address and last try, `id` being drawn from the pending set. */
  function SelectCollision(e: Env, s: State, id: int): (State, Option<(Service, int)>) {
    if id !in s.collisions then (s, None)
    else if id !in s.mapInfo then (Forget(s, id), None)
    else
      var sl := e.TriedSlot(s.key, s.mapInfo[id].addr);
      var occupant := if sl in s.vvTried then s.vvTried[sl] else -1;
      var holder := Info(s.mapInfo, occupant);
      (SetInfo(s, occupant, holder), Some((holder.addr, holder.lastTry)))
  }

  /** The first `n` draws of a random sample without replacement. */
  function Sample(s: State, n: nat, draw: int -> int): State {
    if n == 0 then s else
    var t := Sample(s, n - 1, draw);
    SwapRandom(t, n - 1, draw(n - 1))
  }

  /** How many addresses a GetAddr request may return. */
  function Wanted(known: nat, maxAddresses: nat, maxPct: nat): nat {
    var n := if maxPct != 0 then maxPct * known / 100 else known;
    if maxAddresses != 0 && maxAddresses < n then maxAddresses else n
  }

  predicate Qualifies(e: Env, info: AddrInfo, network: Option<int>, filtered: bool, now: int) {
    && (network.Some? ==> e.netClass(info.addr) == network.value)
    && !(filtered && IsTerrible(info, now))
  }

  function Picked(e: Env, m: Infos, ids: seq<int>, network: Option<int>, filtered: bool, now: int): seq<Address> {
    if ids == [] then [] else
    var rest := Picked(e, m, ids[..|ids| - 1], network, filtered, now);
    var info := Info(m, ids[|ids| - 1]);
    if Qualifies(e, info, network, filtered, now)
    then rest + [Address(info.addr, info.time, info.services)] else rest
  }

  // ---- entries and what happens to them ----

  /** Apart from order and reference counts, `t` has some of the entries of `s`, unchanged. */
  ghost predicate Kin(s: State, t: State) {
    && t.key == s.key && t.idCount == s.idCount && t.vvTried == s.vvTried
    && t.collisions == s.collisions && t.lastGood == s.lastGood
    && t.mapInfo.Keys <= s.mapInfo.Keys
    && forall id <- t.mapInfo ::
         t.mapInfo[id] == s.mapInfo[id].(randomPos := t.mapInfo[id].randomPos, refCount := t.mapInfo[id].refCount)
  }

  lemma DeleteKin(e: Env, s: State, id: int)
    requires Ordered(s.mapInfo, s.vRandom) && id in s.mapInfo
    ensures Kin(s, Delete(e, s, id))
    ensures Delete(e, s, id).mapInfo.Keys == s.mapInfo.Keys - {id}
    ensures Delete(e, s, id).vvNew == s.vvNew
    ensures forall x <- s.mapInfo :: x != id ==> Delete(e, s, id).mapInfo[x].refCount == s.mapInfo[x].refCount
  {
    hide Ordered, SwapRandom;
    OrderedAt(s.mapInfo, s.vRandom, id);
    SwapOrdered(s, s.mapInfo[id].randomPos, |s.vRandom| - 1);
  }

  /** Clearing a slot forgets its occupant if that was its only slot, and nobody else. */
  lemma ClearNewKin(e: Env, s: State, sl: Slot)
    requires Ordered(s.mapInfo, s.vRandom)
    requires sl in s.vvNew ==> s.vvNew[sl] in s.mapInfo
    ensures var t := ClearNew(e, s, sl);
            && Kin(s, t)
            && t.vvNew == s.vvNew - {sl}
            && t.mapInfo.Keys == s.mapInfo.Keys -
                                 (if sl in s.vvNew && s.mapInfo[s.vvNew[sl]].refCount == 1 then {s.vvNew[sl]} else {})
            && forall x <- t.mapInfo :: (sl in s.vvNew ==> x != s.vvNew[sl]) ==>
                 t.mapInfo[x].refCount == s.mapInfo[x].refCount
  {
    if sl in s.vvNew {
      var t, id := DropRef(s, sl), s.vvNew[sl];
      OrderedKept(s.mapInfo, t.mapInfo, s.vRandom);
      hide Ordered;
      if t.mapInfo[id].refCount == 0 {
        DeleteKin(e, t, id);
        hide Delete;
      }
    } else {
      assert s.vvNew - {sl} == s.vvNew;
    }
  }

  /**
   `t` is a later state: entries may have gone or come, tried slots stay
   occupied, and of the old entries only `promoted` may have become tried.
   */
  ghost predicate Descends(s: State, t: State, promoted: set<int>) {
    && t.key == s.key && s.idCount <= t.idCount
    && t.collisions == s.collisions
    && s.vvTried.Keys <= t.vvTried.Keys
    && forall id <- t.mapInfo :: id < s.idCount ==>
         && id in s.mapInfo
         && t.mapInfo[id].addr == s.mapInfo[id].addr
         && (t.mapInfo[id].inTried ==> s.mapInfo[id].inTried || id in promoted)
  }

  lemma PendingKept(e: Env, s: State, t: State, except: set<int>, promoted: set<int>)
    requires Pending(e, s, except) && Descends(s, t, promoted)
    ensures Pending(e, t, except + promoted)
  {
    forall id | id in t.collisions && id in t.mapInfo && id !in except + promoted
      ensures !t.mapInfo[id].inTried && e.TriedSlot(t.key, t.mapInfo[id].addr) in t.vvTried
    {
      assert id in s.collisions && id in s.mapInfo;
    }
  }

  // ---- AddSingle ----

  lemma PlaceNewKeeps(e: Env, s: State, id: int, sl: Slot, now: int)
    requires Partial(e, s, {id}, {})
    requires id in s.mapInfo && !s.mapInfo[id].inTried && s.mapInfo[id].refCount < NEW_BUCKETS_PER_ADDRESS
    requires 0 <= sl.bucket < NEW_BUCKET_COUNT
    requires sl.position == e.bucketPosition(s.key, true, sl.bucket, s.mapInfo[id].addr)
    ensures Partial(e, PlaceNew(e, s, id, sl, now).0, {}, {})
    ensures Descends(s, PlaceNew(e, s, id, sl, now).0, {})
  {
    hide Keyed, Ordered, TriedTable, NewSlots, RefCounts, Counted, Sound, ClearNew, Delete;
    if sl in s.vvNew {
      SlotHolder(e, s.key, s.mapInfo, s.vvNew, {id}, sl);
    }
    if sl in s.vvNew && s.vvNew[sl] == id {
      LimboTo(s.mapInfo, s.vvNew, {id}, {});
    } else if sl !in s.vvNew || Yields(s, id, sl, now) {
      ClearNewKeeps(e, s, sl, {id}, {});
      ClearNewKin(e, s, sl);
      AddRefKeeps(e, ClearNew(e, s, sl), id, sl, {id}, {});
      assert {id} - {id} == {};
    } else if s.mapInfo[id].refCount == 0 {
      DeleteKeeps(e, s, id, {id}, {});
      DeleteKin(e, s, id);
      assert {id} - {id} == {};
    } else {
      LimboTo(s.mapInfo, s.vvNew, {id}, {});
    }
  }

  lemma FindKnown(s: State, a: Service)
    requires Keyed(s.mapInfo, s.mapAddr, s.idCount)
    ensures Find(s, a).Some? <==> a in s.mapAddr
    ensures Find(s, a).Some? ==> Find(s, a).value in s.mapInfo && s.mapInfo[Find(s, a).value].addr == a
  {
  }

  /** Changing one entry's statistics keeps everything, given sane times. */
  lemma SetInfoKeeps(e: Env, s: State, id: int, info: AddrInfo, limbo: set<int>, out: set<int>)
    requires Partial(e, s, limbo, out) && id in s.mapInfo
    requires info == s.mapInfo[id].(time := info.time, services := info.services, lastTry := info.lastTry,
                                    lastCountAttempt := info.lastCountAttempt, lastSuccess := info.lastSuccess,
                                    attempts := info.attempts)
    requires info.lastTry >= 0 && info.lastSuccess >= 0 && (info.inTried ==> info.lastSuccess > 0)
    ensures Partial(e, SetInfo(s, id, info), limbo, out)
    ensures Descends(s, SetInfo(s, id, info), {})
  {
    hide Keyed, Ordered, NewSlots, RefCounts, Counted;
    var n := s.mapInfo[id := info];
    OrderedKept(s.mapInfo, n, s.vRandom);
    assert Sound(e, n);
    StatisticsKeep(e, s, n, limbo, out);
  }

  lemma TriedSucceeded(e: Env, s: State, id: int, limbo: set<int>, out: set<int>)
    requires Partial(e, s, limbo, out) && id in s.mapInfo
    ensures s.mapInfo[id].lastTry >= 0 && s.mapInfo[id].lastSuccess >= 0
    ensures s.mapInfo[id].inTried ==> s.mapInfo[id].lastSuccess > 0
    ensures !s.mapInfo[id].inTried ==> s.mapInfo[id].refCount <= NEW_BUCKETS_PER_ADDRESS
    ensures 0 <= id < s.idCount
  {
    hide Ordered, NewSlots, Counted;
  }

  lemma AddSingleKeeps(e: Env, s: State, a: Address, source: NetAddr, timePenalty: int, now: int, later: int, draw: int)
    requires Partial(e, s, {}, {}) && 0 <= s.idCount
    ensures Partial(e, AddSingle(e, s, a, source, timePenalty, now, later, draw).0, {}, {})
    ensures Descends(s, AddSingle(e, s, a, source, timePenalty, now, later, draw).0, {})
  {
    hide Keyed, Ordered, TriedTable, NewSlots, RefCounts, Counted, Sound, PlaceNew, Create;
    FindKnown(s, a.service);
    var penalty := if a.service.ip == source then 0 else timePenalty;
    var sl := e.NewSlot(s.key, a.service, source);
    if e.Routable(a.service) {
      match Find(s, a.service)
      case Some(id) =>
        TriedSucceeded(e, s, id, {}, {});
        var info := Refresh(s.mapInfo[id], a, penalty, now);
        SetInfoKeeps(e, s, id, info, {}, {});
        if Welcome(info, a, draw) {
          var t := SetInfo(s, id, info);
          LimboTo(t.mapInfo, t.vvNew, {}, {id});
          PlaceNewKeeps(e, t, id, sl, later);
        }
      case None =>
        AddCreatedKeeps(e, s, a.(time := Max(0, a.time - penalty)), source, sl, later);
    }
  }

  lemma AddCreatedKeeps(e: Env, s: State, a: Address, source: NetAddr, sl: Slot, now: int)
    requires Partial(e, s, {}, {}) && 0 <= s.idCount
    requires a.service !in s.mapAddr && e.valid(a.service)
    requires sl == e.NewSlot(s.key, a.service, source)
    ensures Partial(e, PlaceNew(e, Create(e, s, a, source), s.idCount, sl, now).0, {}, {})
    ensures Descends(s, PlaceNew(e, Create(e, s, a, source), s.idCount, sl, now).0, {})
  {
    hide Keyed, Ordered, TriedTable, NewSlots, RefCounts, Counted, Sound, PlaceNew;
    CreateKeeps(e, s, a, source);
    PlaceNewKeeps(e, Create(e, s, a, source), s.idCount, sl, now);
  }

  // ---- Good ----

  /** Eviction from tried: the occupant gets exactly one new slot; at most that slot's occupant is forgotten. */
  lemma DisplaceKeeps(e: Env, s: State, sl: Slot, id: int)
    requires Partial(e, s, {id}, {id}) && 0 <= s.idCount
    ensures var t := Displace(e, s, sl);
            && Partial(e, t, {id}, {id})
            && sl !in t.vvTried
            && t.vvTried == s.vvTried - {sl}
            && t.key == s.key && t.idCount == s.idCount && t.collisions == s.collisions && t.lastGood == s.lastGood
            && t.mapInfo.Keys <= s.mapInfo.Keys
            && forall x <- t.mapInfo :: SameIdentity(s.mapInfo, t.mapInfo, x)
    ensures sl !in s.vvTried ==> Displace(e, s, sl) == s
    ensures sl in s.vvTried ==>
              var t, k := Displace(e, s, sl), s.vvTried[sl];
              && IsNew(t.mapInfo, {}, k) && t.mapInfo[k].refCount == 1
              && Holds(t.vvNew, e.NewSlot(s.key, t.mapInfo[k].addr, t.mapInfo[k].source), k)
    ensures Lost(s.mapInfo, Displace(e, s, sl).mapInfo) <= Occupants(e, s, sl)
  {
    hide Keyed, Ordered, TriedTable, NewSlots, RefCounts, Counted, Sound, ClearNew, Evict, Enlist;
    if sl in s.vvTried {
      var k := s.vvTried[sl];
      EvictKeeps(e, s, sl, {id}, {id});
      EvictKin(e, s, sl);
      var r := Evict(e, s, sl);
      var target := e.NewSlot(s.key, s.mapInfo[k].addr, s.mapInfo[k].source);
      if target in r.vvNew { SlotHolder(e, r.key, r.mapInfo, r.vvNew, {id} + {k}, target); }
      ClearNewKeeps(e, r, target, {id} + {k}, {id} + {k});
      ClearNewKin(e, r, target);
      var u := ClearNew(e, r, target);
      EnlistKeeps(e, u, k, target, {id} + {k}, {id} + {k});
      EnlistKin(e, u, k, target);
      assert {id} + {k} - {k} == {id};
      assert Lost(s.mapInfo, Displace(e, s, sl).mapInfo) == Lost(r.mapInfo, u.mapInfo);
    } else {
      assert s.vvTried - {sl} == s.vvTried;
    }
  }

  /** The statistics of `x` survive; its place in the tables need not. */
  ghost predicate SameIdentity(m: Infos, n: Infos, x: int) {
    && x in m && x in n
    && n[x] == m[x].(refCount := n[x].refCount, inTried := n[x].inTried, randomPos := n[x].randomPos)
    && (n[x].inTried ==> m[x].inTried)
  }

  function Lost(m: Infos, n: Infos): set<int> {
    m.Keys - n.Keys
  }

  /** Who would have to go if the tried entry at `sl` moved to its new slot. */
  function Occupants(e: Env, s: State, sl: Slot): set<int> {
    if sl !in s.vvTried then {} else
    var k := Info(s.mapInfo, s.vvTried[sl]);
    var target := e.NewSlot(s.key, k.addr, k.source);
    if target in s.vvNew && Info(s.mapInfo, s.vvNew[target]).refCount == 1 then {s.vvNew[target]} else {}
  }

  lemma EvictKin(e: Env, s: State, sl: Slot)
    requires sl in s.vvTried && s.vvTried[sl] in s.mapInfo
    ensures var t, k := Evict(e, s, sl), s.vvTried[sl];
            && t == s.(mapInfo := t.mapInfo, vvTried := s.vvTried - {sl}, nTried := t.nTried, counts := t.counts)
            && t.mapInfo == s.mapInfo[k := s.mapInfo[k].(inTried := false)]
  {
  }

  lemma EnlistKin(e: Env, s: State, id: int, sl: Slot)
    requires id in s.mapInfo
    ensures var t := Enlist(e, s, id, sl);
            && t == s.(mapInfo := t.mapInfo, vvNew := s.vvNew[sl := id], nNew := t.nNew, counts := t.counts)
            && t.mapInfo == s.mapInfo[id := s.mapInfo[id].(refCount := 1)]
  {
  }

  lemma MakeTriedKeeps(e: Env, s: State, id: int)
    requires Partial(e, s, {}, {}) && 0 <= s.idCount
    requires id in s.mapInfo && !s.mapInfo[id].inTried && s.mapInfo[id].lastSuccess > 0
    ensures Partial(e, MakeTried(e, s, id), {}, {})
    ensures Descends(s, MakeTried(e, s, id), {id})
    ensures IsTried(MakeTried(e, s, id).mapInfo, id)
    ensures MakeTried(e, s, id).lastGood == s.lastGood
  {
    hide Keyed, Ordered, TriedTable, NewSlots, RefCounts, Counted, Sound, Displace, Occupants;
    var sl := e.TriedSlot(s.key, s.mapInfo[id].addr);
    WithdrawKeeps(e, s, id, {}, {});
    var r := Withdraw(e, s, id);
    assert {} + {id} == {id};
    DisplaceKeeps(e, r, sl, id);
    var u := Displace(e, r, sl);
    assert SameIdentity(r.mapInfo, u.mapInfo, id);
    PromoteKeeps(e, u, id, {id}, {id});
    assert {id} - {id} == {};
  }

  lemma GoodKeeps(e: Env, s: State, a: Service, test: bool, time: int, except: set<int>)
    requires Partial(e, s, {}, {}) && 0 <= s.idCount && time > 0
    requires Pending(e, s, except)
    requires !test ==> Find(s, a).Some? ==> Find(s, a).value in except
    requires test ==> except == {}
    ensures Partial(e, Good(e, s, a, test, time).0, {}, {})
    ensures Pending(e, Good(e, s, a, test, time).0, except)
    ensures s.vvTried.Keys <= Good(e, s, a, test, time).0.vvTried.Keys
    ensures Good(e, s, a, test, time).0.key == s.key && s.idCount <= Good(e, s, a, test, time).0.idCount
    ensures !test ==> Good(e, s, a, test, time).0.collisions == s.collisions
  {
    hide Keyed, Ordered, TriedTable, NewSlots, RefCounts, Counted, Sound, MakeTried;
    FindKnown(s, a);
    match Find(s, a)
    case None =>
    case Some(id) =>
      TriedSucceeded(e, s, id, {}, {});
      var info := s.mapInfo[id].(lastSuccess := time, lastTry := time, attempts := 0);
      SetInfoKeeps(e, s, id, info, {}, {});
      var t := Succeeded(s, id, time);
      PendingKept(e, s, t, except, {});
      assert except + {} == except;
      if !info.inTried && info.refCount > 0 {
        if test && e.TriedSlot(s.key, info.addr) in s.vvTried {
          if |s.collisions| < SET_TRIED_COLLISION_SIZE {
            CollisionAdded(e, t, id);
          }
        } else {
          MakeTriedKeeps(e, t, id);
          PendingKept(e, t, MakeTried(e, t, id), except, {id});
          if !test { assert except + {id} == except; }
          else { PendingDrop(e, t, MakeTried(e, t, id), id); }
        }
      }
  }

  lemma CollisionAdded(e: Env, s: State, id: int)
    requires Pending(e, s, {}) && |s.collisions| < SET_TRIED_COLLISION_SIZE
    requires id in s.mapInfo && id < s.idCount && !s.mapInfo[id].inTried
    requires e.TriedSlot(s.key, s.mapInfo[id].addr) in s.vvTried
    ensures Pending(e, s.(collisions := s.collisions + {id}), {})
  {
    if id in s.collisions { assert s.collisions + {id} == s.collisions; }
  }

  /** An entry whose tried slot was free was not a pending collision. */
  lemma PendingDrop(e: Env, s: State, t: State, id: int)
    requires Pending(e, s, {}) && Pending(e, t, {} + {id}) && t.collisions == s.collisions
    requires id in s.mapInfo && e.TriedSlot(s.key, s.mapInfo[id].addr) !in s.vvTried
    ensures Pending(e, t, {})
  {
    assert id !in t.collisions;
  }

  // ---- the other operations ----

  lemma AttemptKeeps(e: Env, s: State, a: Service, countFailure: bool, time: int)
    requires Consistent(e, s) && time > 0
    ensures Consistent(e, Attempt(s, a, countFailure, time))
    ensures Attempt(s, a, countFailure, time).vvTried == s.vvTried
  {
    hide Keyed, Ordered, TriedTable, NewSlots, RefCounts, Counted, Sound;
    FindKnown(s, a);
    if Find(s, a).Some? {
      var id := Find(s, a).value;
      TriedSucceeded(e, s, id, {}, {});
      var t := Attempt(s, a, countFailure, time);
      SetInfoKeeps(e, s, id, t.mapInfo[id], {}, {});
      PendingKept(e, s, t, {}, {});
    }
  }

  lemma ConnectedKeeps(e: Env, s: State, a: Service, time: int)
    requires Consistent(e, s)
    ensures Consistent(e, Connected(s, a, time))
    ensures Connected(s, a, time).vvTried == s.vvTried
  {
    hide Keyed, Ordered, TriedTable, NewSlots, RefCounts, Counted, Sound;
    FindKnown(s, a);
    if Find(s, a).Some? {
      var id := Find(s, a).value;
      TriedSucceeded(e, s, id, {}, {});
      var t := Connected(s, a, time);
      SetInfoKeeps(e, s, id, t.mapInfo[id], {}, {});
      PendingKept(e, s, t, {}, {});
    }
  }

  lemma SetServicesKeeps(e: Env, s: State, a: Service, services: set<int>)
    requires Consistent(e, s)
    ensures Consistent(e, SetServices(s, a, services))
    ensures SetServices(s, a, services).vvTried == s.vvTried
  {
    hide Keyed, Ordered, TriedTable, NewSlots, RefCounts, Counted, Sound;
    FindKnown(s, a);
    if Find(s, a).Some? {
      var id := Find(s, a).value;
      TriedSucceeded(e, s, id, {}, {});
      var t := SetServices(s, a, services);
      SetInfoKeeps(e, s, id, t.mapInfo[id], {}, {});
      PendingKept(e, s, t, {}, {});
    }
  }

  // ---- what the operations mean for the addresses the manager knows ----

  lemma PlaceNewMeaning(e: Env, s: State, id: int, sl: Slot, now: int)
    requires Partial(e, s, {id}, {}) && id in s.mapInfo
    ensures var (t, ok) := PlaceNew(e, s, id, sl, now);
            && t.vvTried == s.vvTried
            && t.mapInfo.Keys <= s.mapInfo.Keys
            && (forall x <- t.mapInfo :: t.mapInfo[x].addr == s.mapInfo[x].addr)
            && (ok ==> id in t.mapInfo && Holds(t.vvNew, sl, id) && !Holds(s.vvNew, sl, id))
            && (!ok ==> t.vvNew == s.vvNew)
            && (forall x <- s.mapInfo :: x !in t.mapInfo ==>
                  if ok then x != id && Displaced(s, sl, x, now) else x == id && s.mapInfo[x].refCount == 0)
  {
    hide Keyed, Ordered, TriedTable, NewSlots, RefCounts, Counted, Sound, ClearNew, Delete, IsTerrible;
    if sl in s.vvNew { SlotHolder(e, s.key, s.mapInfo, s.vvNew, {id}, sl); }
    ClearNewKin(e, s, sl);
    DeleteKin(e, s, id);
  }

  /** Entry `x` lost its only slot, `sl`, and deserved it. */
  ghost predicate Displaced(s: State, sl: Slot, x: int, now: int) {
    x in s.mapInfo && Holds(s.vvNew, sl, x) && s.mapInfo[x].refCount == 1 && IsTerrible(s.mapInfo[x], now)
  }

  /** mapAddr knows exactly the addresses of the entries. */
  lemma KnownAddresses(s: State, b: Service)
    requires Keyed(s.mapInfo, s.mapAddr, s.idCount)
    ensures b in s.mapAddr ==> s.mapAddr[b] in s.mapInfo && s.mapInfo[s.mapAddr[b]].addr == b
    ensures forall id <- s.mapInfo :: s.mapInfo[id].addr == b ==> b in s.mapAddr && s.mapAddr[b] == id
  {
  }

  /**
   AddSingle reports success exactly when the address has gained the new slot its
   source leads to. It never touches the tried table, learns no other address,
   and forgets one only if that one was terrible and had no other slot.
   */
  lemma AddSingleMeaning(e: Env, s: State, a: Address, source: NetAddr, timePenalty: int, now: int, later: int,
                         draw: int)
    requires Partial(e, s, {}, {}) && 0 <= s.idCount
    ensures var (t, ok) := AddSingle(e, s, a, source, timePenalty, now, later, draw);
            var sl := e.NewSlot(s.key, a.service, source);
            && t.vvTried == s.vvTried
            && (ok ==> e.Routable(a.service))
            && (ok <==> exists id :: id in t.mapInfo && t.mapInfo[id].addr == a.service &&
                                     Holds(t.vvNew, sl, id) && !Holds(s.vvNew, sl, id))
            && (forall b <- t.mapAddr :: b in s.mapAddr || (ok && b == a.service))
            && (forall b <- s.mapAddr :: b !in t.mapAddr ==> ok && Displaced(s, sl, s.mapAddr[b], later))
  {
    hide Keyed, Ordered, TriedTable, NewSlots, RefCounts, Counted, Sound, PlaceNew, IsTerrible;
    var (t, ok) := AddSingle(e, s, a, source, timePenalty, now, later, draw);
    var sl := e.NewSlot(s.key, a.service, source);
    AddSingleKeeps(e, s, a, source, timePenalty, now, later, draw);
    AddSingleEntries(e, s, a, source, timePenalty, now, later, draw);
    hide AddSingle;
    EntriesToAddresses(s, t, ok, a.service, sl, later);
  }

  lemma EntriesToAddresses(s: State, t: State, ok: bool, a: Service, sl: Slot, now: int)
    requires Keyed(s.mapInfo, s.mapAddr, s.idCount) && Keyed(t.mapInfo, t.mapAddr, t.idCount)
    requires forall x <- t.mapInfo :: x in s.mapInfo ==> t.mapInfo[x].addr == s.mapInfo[x].addr
    requires forall x <- t.mapInfo :: x !in s.mapInfo ==> ok && t.mapInfo[x].addr == a
    requires forall x <- s.mapInfo :: x !in t.mapInfo ==> ok && Displaced(s, sl, x, now)
    ensures forall b <- t.mapAddr :: b in s.mapAddr || (ok && b == a)
    ensures forall b <- s.mapAddr :: b !in t.mapAddr ==> ok && Displaced(s, sl, s.mapAddr[b], now)
  {
    hide IsTerrible;
    forall b | b in t.mapAddr
      ensures b in s.mapAddr || (ok && b == a)
    {
      var x := t.mapAddr[b];
      assert x in t.mapInfo && t.mapInfo[x].addr == b;
    }
    forall b | b in s.mapAddr && b !in t.mapAddr
      ensures ok && Displaced(s, sl, s.mapAddr[b], now)
    {
      var x := s.mapAddr[b];
      assert x in s.mapInfo && s.mapInfo[x].addr == b;
    }
  }

  /** The same, entry by entry. */
  lemma AddSingleEntries(e: Env, s: State, a: Address, source: NetAddr, timePenalty: int, now: int, later: int,
                         draw: int)
    requires Partial(e, s, {}, {}) && 0 <= s.idCount
    ensures var (t, ok) := AddSingle(e, s, a, source, timePenalty, now, later, draw);
            var sl := e.NewSlot(s.key, a.service, source);
            && t.vvTried == s.vvTried
            && (ok ==> e.Routable(a.service))
            && (ok ==> exists id :: id in t.mapInfo && t.mapInfo[id].addr == a.service &&
                                    Holds(t.vvNew, sl, id) && !Holds(s.vvNew, sl, id))
            && (!ok ==> t.vvNew == s.vvNew)
            && (forall x <- t.mapInfo :: x in s.mapInfo ==> t.mapInfo[x].addr == s.mapInfo[x].addr)
            && (forall x <- t.mapInfo :: x !in s.mapInfo ==> ok && t.mapInfo[x].addr == a.service)
            && (forall x <- s.mapInfo :: x !in t.mapInfo ==> ok && Displaced(s, sl, x, later))
  {
    hide Keyed, Ordered, TriedTable, NewSlots, RefCounts, Counted, Sound, PlaceNew, Create, IsTerrible;
    FindKnown(s, a.service);
    var penalty := if a.service.ip == source then 0 else timePenalty;
    var sl := e.NewSlot(s.key, a.service, source);
    if e.Routable(a.service) {
      match Find(s, a.service)
      case Some(id) =>
        TriedSucceeded(e, s, id, {}, {});
        Referenced(s, id);
        var info := Refresh(s.mapInfo[id], a, penalty, now);
        SetInfoKeeps(e, s, id, info, {}, {});
        var t := SetInfo(s, id, info);
        if Welcome(info, a, draw) {
          LimboTo(t.mapInfo, t.vvNew, {}, {id});
          PlaceNewMeaning(e, t, id, sl, later);
        }
      case None =>
        AddCreatedEntries(e, s, a.(time := Max(0, a.time - penalty)), source, sl, later);
    }
  }

  lemma Referenced(s: State, id: int)
    requires RefCounts(s.mapInfo, s.vvNew, {}) && id in s.mapInfo
    ensures !s.mapInfo[id].inTried ==> s.mapInfo[id].refCount > 0
  {
  }

  lemma AddCreatedEntries(e: Env, s: State, a: Address, source: NetAddr, sl: Slot, now: int)
    requires Partial(e, s, {}, {}) && 0 <= s.idCount
    requires a.service !in s.mapAddr && e.valid(a.service)
    ensures var (t, ok) := PlaceNew(e, Create(e, s, a, source), s.idCount, sl, now);
            && t.vvTried == s.vvTried
            && (ok ==> s.idCount in t.mapInfo && t.mapInfo[s.idCount].addr == a.service &&
                       Holds(t.vvNew, sl, s.idCount) && !Holds(s.vvNew, sl, s.idCount))
            && (!ok ==> t.vvNew == s.vvNew)
            && (forall x <- t.mapInfo :: x in s.mapInfo ==> t.mapInfo[x].addr == s.mapInfo[x].addr)
            && (forall x <- t.mapInfo :: x !in s.mapInfo ==> ok && t.mapInfo[x].addr == a.service)
            && (forall x <- s.mapInfo :: x !in t.mapInfo ==> ok && Displaced(s, sl, x, now))
  {
    hide Ordered, TriedTable, NewSlots, RefCounts, Counted, Sound, PlaceNew, IsTerrible;
    CreateKeeps(e, s, a, source);
    var r := Create(e, s, a, source);
    assert s.idCount !in s.mapInfo;
    PlaceNewMeaning(e, r, s.idCount, sl, now);
    var (t, ok) := PlaceNew(e, r, s.idCount, sl, now);
    hide Keyed;
    if !ok {
      CreatedGone(e, s, a, source, sl, now);
    }
  }

  lemma CreatedGone(e: Env, s: State, a: Address, source: NetAddr, sl: Slot, now: int)
    requires Partial(e, s, {}, {}) && 0 <= s.idCount
    requires a.service !in s.mapAddr && e.valid(a.service)
    requires !PlaceNew(e, Create(e, s, a, source), s.idCount, sl, now).1
    ensures s.idCount !in PlaceNew(e, Create(e, s, a, source), s.idCount, sl, now).0.mapInfo
  {
    hide TriedTable, Counted, Sound, IsTerrible, Delete, ClearNew, Ordered;
    CreateKeeps(e, s, a, source);
    var r := Create(e, s, a, source);
    assert sl in r.vvNew && IsNew(s.mapInfo, {}, s.vvNew[sl]) ==> r.vvNew[sl] != s.idCount;
    hide Keyed, NewSlots, RefCounts;
    DeleteKin(e, r, s.idCount);
  }

  /**
   Good reports success exactly when it has moved the address to the tried table.
   A tried entry in the way goes back to one new slot, and the only entry that
   may be forgotten is that slot's occupant, if it had no other. Otherwise no
   table changes.
   */
  lemma GoodMeaning(e: Env, s: State, a: Service, test: bool, time: int)
    requires Partial(e, s, {}, {}) && 0 <= s.idCount && time > 0
    ensures var (t, ok) := Good(e, s, a, test, time);
            && (ok ==> a in s.mapAddr && Moves(e, s, t, s.mapAddr[a]))
            && (!ok ==> t.vvNew == s.vvNew && t.vvTried == s.vvTried && t.mapAddr == s.mapAddr)
            && (ok <==> a in s.mapAddr && !s.mapInfo[s.mapAddr[a]].inTried &&
                        !(test && e.TriedSlot(s.key, a) in s.vvTried))
  {
    hide Keyed, Ordered, TriedTable, NewSlots, RefCounts, Counted, Sound, MakeTried, Moves;
    FindKnown(s, a);
    match Find(s, a)
    case None =>
    case Some(id) =>
      Referenced(s, id);
      if !s.mapInfo[id].inTried { SucceededMoves(e, s, id, time); }
      assert Succeeded(s, id, time).vvNew == s.vvNew && Succeeded(s, id, time).vvTried == s.vvTried;
  }

  lemma SucceededMoves(e: Env, s: State, id: int, time: int)
    requires Partial(e, s, {}, {}) && 0 <= s.idCount && time > 0 && id in s.mapInfo && !s.mapInfo[id].inTried
    ensures Moves(e, s, MakeTried(e, Succeeded(s, id, time), id), id)
  {
    hide Keyed, Ordered, TriedTable, NewSlots, RefCounts, Counted, Sound, MakeTried, Moves;
    TriedSucceeded(e, s, id, {}, {});
    SetInfoKeeps(e, s, id, s.mapInfo[id].(lastSuccess := time, lastTry := time, attempts := 0), {}, {});
    var t := Succeeded(s, id, time);
    MakeTriedMoves(e, t, id);
    MovesFrom(e, s, t, MakeTried(e, t, id), id);
  }

  /** `id` went from new to tried. */
  ghost predicate Moves(e: Env, s: State, t: State, id: int) {
    && id in s.mapInfo
    && var sl := e.TriedSlot(s.key, s.mapInfo[id].addr);
    && t.vvTried == s.vvTried[sl := id]
    && IsTried(t.mapInfo, id)
    && (sl in s.vvTried ==>
          && IsNew(t.mapInfo, {}, s.vvTried[sl]) && t.mapInfo[s.vvTried[sl]].refCount == 1
          && Holds(t.vvNew, e.NewSlot(s.key, t.mapInfo[s.vvTried[sl]].addr, t.mapInfo[s.vvTried[sl]].source),
                   s.vvTried[sl]))
    && t.mapInfo.Keys <= s.mapInfo.Keys
    && (forall x <- t.mapInfo :: t.mapInfo[x].addr == s.mapInfo[x].addr)
    && Lost(s.mapInfo, t.mapInfo) <= Occupants(e, s, sl) - {id}
  }

  lemma MovesFrom(e: Env, s: State, r: State, t: State, id: int)
    requires Moves(e, r, t, id)
    requires r.key == s.key && r.vvTried == s.vvTried && r.vvNew == s.vvNew && r.mapInfo.Keys == s.mapInfo.Keys
    requires forall x <- s.mapInfo ::
               r.mapInfo[x].addr == s.mapInfo[x].addr && r.mapInfo[x].source == s.mapInfo[x].source &&
               r.mapInfo[x].refCount == s.mapInfo[x].refCount
    ensures Moves(e, s, t, id)
  {
    var sl := e.TriedSlot(s.key, s.mapInfo[id].addr);
    assert Occupants(e, r, sl) == Occupants(e, s, sl);
  }

  lemma MakeTriedMoves(e: Env, s: State, id: int)
    requires Partial(e, s, {}, {}) && 0 <= s.idCount
    requires id in s.mapInfo && !s.mapInfo[id].inTried
    ensures Moves(e, s, MakeTried(e, s, id), id)
  {
    hide Keyed, Ordered, TriedTable, NewSlots, RefCounts, Counted, Sound, Displace, Occupants, Withdraw, Promote;
    var sl := e.TriedSlot(s.key, s.mapInfo[id].addr);
    WithdrawKeeps(e, s, id, {}, {});
    WithdrawFrame(e, s, id);
    var r := Withdraw(e, s, id);
    assert {} + {id} == {id};
    DisplaceKeeps(e, r, sl, id);
    var u := Displace(e, r, sl);
    assert SameIdentity(r.mapInfo, u.mapInfo, id);
    PromoteFrame(e, u, id);
    if sl in s.vvTried { TriedHolder(e, s.key, s.mapInfo, s.vvTried, sl); }
    OccupantsLeft(e, s, id, sl);
  }

  lemma WithdrawFrame(e: Env, s: State, id: int)
    requires id in s.mapInfo
    ensures var r := Withdraw(e, s, id);
            && r.key == s.key && r.idCount == s.idCount && r.vvTried == s.vvTried
            && r.mapInfo == s.mapInfo[id := s.mapInfo[id].(refCount := 0)]
  {
  }

  lemma PromoteFrame(e: Env, s: State, id: int)
    requires id in s.mapInfo
    ensures var t := Promote(e, s, id);
            && t.vvNew == s.vvNew && t.vvTried == s.vvTried[e.TriedSlot(s.key, s.mapInfo[id].addr) := id]
            && t.mapInfo == s.mapInfo[id := s.mapInfo[id].(inTried := true)]
  {
  }

  lemma OccupantsLeft(e: Env, s: State, id: int, sl: Slot)
    ensures Occupants(e, Withdraw(e, s, id), sl) <= Occupants(e, s, sl) - {id}
  {
    WithdrawnSlots(s.vvNew, id);
  }

  lemma WithdrawnSlots(table: Table, id: int)
    ensures forall sl <- table - SlotsOf(table, id) :: sl in table && table[sl] != id
  {
    forall sl | sl in table - SlotsOf(table, id)
      ensures table[sl] != id
    {
      assert sl !in SlotsOf(table, id) ==> !Holds(table, sl, id);
    }
  }

  // ---- pending collisions ----

  /**
   A pending collision that still exists has a valid address whose tried slot is
   held by a tried entry: resolving it never finds the slot free, and looking at
   the occupant never looks up id -1.
   */
  lemma CollisionsAreReal(e: Env, s: State, id: int)
    requires Consistent(e, s) && id in s.collisions && id in s.mapInfo
    ensures e.valid(s.mapInfo[id].addr) && IsNew(s.mapInfo, {}, id)
    ensures var sl := e.TriedSlot(s.key, s.mapInfo[id].addr);
            sl in s.vvTried && IsTried(s.mapInfo, s.vvTried[sl]) && s.vvTried[sl] >= 0
  {
    hide Ordered, NewSlots, RefCounts, Counted;
    assert IsTried(s.mapInfo, s.vvTried[e.TriedSlot(s.key, s.mapInfo[id].addr)]);
  }

  lemma SelectCollisionKeeps(e: Env, s: State, id: int)
    requires Consistent(e, s)
    ensures Consistent(e, SelectCollision(e, s, id).0)
    ensures SelectCollision(e, s, id).0 == if id in s.mapInfo then s else Forget(s, id)
    ensures SelectCollision(e, s, id).1.Some? <==> id in s.collisions && id in s.mapInfo
    ensures SelectCollision(e, s, id).1.Some? ==>
              var sl := e.TriedSlot(s.key, s.mapInfo[id].addr);
              var holder := s.mapInfo[s.vvTried[sl]];
              holder.inTried && SelectCollision(e, s, id).1.value == (holder.addr, holder.lastTry)
  {
    hide Keyed, Ordered, TriedTable, NewSlots, RefCounts, Counted, Sound;
    if id in s.collisions && id in s.mapInfo {
      CollisionsAreReal(e, s, id);
      var k := s.vvTried[e.TriedSlot(s.key, s.mapInfo[id].addr)];
      assert s.mapInfo[k := s.mapInfo[k]] == s.mapInfo;
      assert SelectCollision(e, s, id).0 == s;
    } else if id !in s.collisions {
      assert s.collisions - {id} == s.collisions;
    }
    ForgetKeeps(e, s, id);
  }

  lemma ForgetKeeps(e: Env, s: State, id: int)
    requires Pending(e, s, {id})
    ensures Pending(e, Forget(s, id), {})
  {
  }

  lemma ResolveOneKeeps(e: Env, s: State, id: int, now: int)
    requires Consistent(e, s) && now > 0
    ensures Consistent(e, ResolveOne(e, s, id, now))
    ensures s.vvTried.Keys <= ResolveOne(e, s, id, now).vvTried.Keys
  {
    hide Keyed, Ordered, TriedTable, NewSlots, RefCounts, Counted, Sound, Good;
    match Judge(e, s, id, now)
    case Keep =>
    case Drop => ForgetKeeps(e, s, id);
    case Replace =>
      FindEntry(s, id);
      GoodKeeps(e, s, s.mapInfo[id].addr, false, now, {id});
      ForgetKeeps(e, Good(e, s, s.mapInfo[id].addr, false, now).0, id);
  }

  lemma ResolveOneCollisions(e: Env, s: State, id: int, now: int)
    requires Consistent(e, s) && now > 0
    ensures s.collisions - {id} <= ResolveOne(e, s, id, now).collisions <= s.collisions
  {
    hide Keyed, Ordered, TriedTable, NewSlots, RefCounts, Counted, Sound, Good;
    if id in s.mapInfo {
      FindEntry(s, id);
      GoodKeeps(e, s, s.mapInfo[id].addr, false, now, {id});
    }
  }

  lemma FindEntry(s: State, id: int)
    requires Keyed(s.mapInfo, s.mapAddr, s.idCount) && id in s.mapInfo
    ensures Find(s, s.mapInfo[id].addr) == Some(id)
  {
  }

  lemma {:induction false} ResolveAllKeeps(e: Env, s: State, ids: seq<int>, clock: int -> int)
    requires Consistent(e, s) && forall id :: clock(id) > 0
    ensures Consistent(e, ResolveAll(e, s, ids, clock))
    ensures s.vvTried.Keys <= ResolveAll(e, s, ids, clock).vvTried.Keys
  {
    hide Consistent, ResolveOne;
    if ids != [] {
      var id := ids[|ids| - 1];
      ResolveAllKeeps(e, s, ids[..|ids| - 1], clock);
      ResolveOneKeeps(e, ResolveAll(e, s, ids[..|ids| - 1], clock), id, clock(id));
    }
  }

  lemma {:induction false} SampleKeeps(e: Env, s: State, n: nat, draw: int -> int)
    requires Consistent(e, s)
    ensures Consistent(e, Sample(s, n, draw))
    ensures Sample(s, n, draw).vvTried == s.vvTried
  {
    hide Keyed, Ordered, TriedTable, NewSlots, RefCounts, Counted, Sound, SwapRandom;
    if n > 0 {
      SampleKeeps(e, s, n - 1, draw);
      SwapConsistent(e, Sample(s, n - 1, draw), n - 1, draw(n - 1));
    }
  }

  lemma SwapConsistent(e: Env, s: State, i: int, j: int)
    requires Consistent(e, s)
    ensures Consistent(e, SwapRandom(s, i, j))
    ensures SwapRandom(s, i, j).vvTried == s.vvTried
  {
    hide Keyed, Ordered, TriedTable, NewSlots, RefCounts, Counted, Sound;
    if i == j || (0 <= i < |s.vRandom| && 0 <= j < |s.vRandom|) {
      SwapKeeps(e, s, i, j, {}, {});
      SwapOrdered(s, i, j);
      hide SwapRandom;
      PendingKept(e, s, SwapRandom(s, i, j), {}, {});
    }
  }

  // ---- GetAddr ----

  lemma {:induction false} PickedSame(e: Env, m: Infos, m': Infos, ids: seq<int>, network: Option<int>,
      filtered: bool, now: int)
    requires SameStatistics(m, m') && forall i :: 0 <= i < |ids| ==> ids[i] in m
    ensures Picked(e, m', ids, network, filtered, now) == Picked(e, m, ids, network, filtered, now)
  {
    if ids != [] {
      assert ids[|ids| - 1] in m;
      PickedSame(e, m, m', ids[..|ids| - 1], network, filtered, now);
    }
  }

  /** Swapping two places from `i` on leaves what was picked before `i`. */
  lemma SwapPicked(e: Env, s: State, i: int, j: int, network: Option<int>, filtered: bool, now: int)
    requires Ordered(s.mapInfo, s.vRandom) && 0 <= i <= j < |s.vRandom|
    ensures var t := SwapRandom(s, i, j);
            && |t.vRandom| == |s.vRandom| && Ordered(t.mapInfo, t.vRandom)
            && Picked(e, t.mapInfo, t.vRandom[..i], network, filtered, now)
               == Picked(e, s.mapInfo, s.vRandom[..i], network, filtered, now)
  {
    hide Qualifies;
    SwapOrdered(s, i, j);
    var t := SwapRandom(s, i, j);
    assert t.vRandom[..i] == s.vRandom[..i];
    PickedSame(e, s.mapInfo, t.mapInfo, s.vRandom[..i], network, filtered, now);
  }

  lemma PickedNext(e: Env, m: Infos, vRandom: seq<int>, i: int, network: Option<int>, filtered: bool, now: int)
    requires Ordered(m, vRandom) && 0 <= i < |vRandom|
    ensures vRandom[i] in m
    ensures Picked(e, m, vRandom[..i + 1], network, filtered, now)
            == Picked(e, m, vRandom[..i], network, filtered, now)
               + if Qualifies(e, m[vRandom[i]], network, filtered, now)
                 then [Address(m[vRandom[i]].addr, m[vRandom[i]].time, m[vRandom[i]].services)] else []
  {
    assert vRandom[..i + 1][..i] == vRandom[..i];
  }

  ghost predicate PickedFrom(e: Env, s: State, n: nat, a: Address, network: Option<int>, filtered: bool, now: int) {
    && a.service in s.mapAddr
    && var id := s.mapAddr[a.service];
    && id in s.mapInfo
    && s.mapInfo[id].randomPos < n
    && a == Address(s.mapInfo[id].addr, s.mapInfo[id].time, s.mapInfo[id].services)
    && (network == None || network == Some(e.netClass(a.service)))
    && (filtered ==> !IsTerrible(s.mapInfo[id], now))
  }

  lemma {:induction false} PickedKnown(e: Env, s: State, n: nat, network: Option<int>, filtered: bool, now: int)
    requires Keyed(s.mapInfo, s.mapAddr, s.idCount) && Ordered(s.mapInfo, s.vRandom) && n <= |s.vRandom|
    ensures forall a <- Picked(e, s.mapInfo, s.vRandom[..n], network, filtered, now) ::
              PickedFrom(e, s, n, a, network, filtered, now)
  {
    hide IsTerrible;
    if n > 0 {
      PickedKnown(e, s, n - 1, network, filtered, now);
      PickedNext(e, s.mapInfo, s.vRandom, n - 1, network, filtered, now);
      hide Picked;
    }
  }

  lemma {:induction false} PickedDistinct(e: Env, s: State, n: nat, network: Option<int>, filtered: bool, now: int)
    requires Keyed(s.mapInfo, s.mapAddr, s.idCount) && Ordered(s.mapInfo, s.vRandom) && n <= |s.vRandom|
    ensures var out := Picked(e, s.mapInfo, s.vRandom[..n], network, filtered, now);
            forall i, j :: 0 <= i < j < |out| ==> out[i].service != out[j].service
  {
    hide Qualifies;
    if n > 0 {
      PickedDistinct(e, s, n - 1, network, filtered, now);
      PickedNext(e, s.mapInfo, s.vRandom, n - 1, network, filtered, now);
      PickedKnown(e, s, n - 1, network, filtered, now);
      hide Picked;
      var out := Picked(e, s.mapInfo, s.vRandom[..n - 1], network, filtered, now);
      forall i | 0 <= i < |out|
        ensures out[i].service != s.mapInfo[s.vRandom[n - 1]].addr
      {
        assert PickedFrom(e, s, n - 1, out[i], network, filtered, now);
      }
    }
  }

  lemma {:induction false} PickedAll(e: Env, s: State, n: nat, id: int, network: Option<int>, filtered: bool, now: int)
    requires Ordered(s.mapInfo, s.vRandom) && n <= |s.vRandom| && id in s.mapInfo && s.mapInfo[id].randomPos < n
    requires Qualifies(e, s.mapInfo[id], network, filtered, now)
    ensures Address(s.mapInfo[id].addr, s.mapInfo[id].time, s.mapInfo[id].services)
            in Picked(e, s.mapInfo, s.vRandom[..n], network, filtered, now)
  {
    hide Qualifies;
    PickedNext(e, s.mapInfo, s.vRandom, n - 1, network, filtered, now);
    hide Picked;
    if s.mapInfo[id].randomPos < n - 1 { PickedAll(e, s, n - 1, id, network, filtered, now); }
  }

  /**
   The picks from a prefix of vRandom are distinct known addresses of the wanted network that
   are not terrible if those are filtered out, and all such in that prefix.
   */
  lemma PickedMeaning(e: Env, s: State, n: nat, network: Option<int>, filtered: bool, now: int)
    requires Keyed(s.mapInfo, s.mapAddr, s.idCount) && Ordered(s.mapInfo, s.vRandom) && n <= |s.vRandom|
    ensures var out := Picked(e, s.mapInfo, s.vRandom[..n], network, filtered, now);
            && (forall i, j :: 0 <= i < j < |out| ==> out[i].service != out[j].service)
            && (forall i :: 0 <= i < |out| ==> PickedFrom(e, s, n, out[i], network, filtered, now))
            && (forall id <- s.mapInfo ::
                  && s.mapInfo[id].randomPos < n
                  && (network == None || network == Some(e.netClass(s.mapInfo[id].addr)))
                  && (filtered ==> !IsTerrible(s.mapInfo[id], now)) ==>
                  Address(s.mapInfo[id].addr, s.mapInfo[id].time, s.mapInfo[id].services) in out)
  {
    hide IsTerrible, Picked, PickedFrom, Keyed, Ordered;
    PickedKnown(e, s, n, network, filtered, now);
    PickedDistinct(e, s, n, network, filtered, now);
    forall id | id in s.mapInfo && s.mapInfo[id].randomPos < n && Qualifies(e, s.mapInfo[id], network, filtered, now)
      ensures Address(s.mapInfo[id].addr, s.mapInfo[id].time, s.mapInfo[id].services)
              in Picked(e, s.mapInfo, s.vRandom[..n], network, filtered, now)
    {
      PickedAll(e, s, n, id, network, filtered, now);
    }
  }

  // ---- whole runs ----

  /** One announced address with the two clock readings and the random draw its processing sees. */
  datatype Announcement = Announcement(addr: Address, now: int, later: int, draw: int)

  /** The state after a batch, and whether any of it was added. */
  function AddAll(e: Env, s: State, batch: seq<Announcement>, source: NetAddr, timePenalty: int): (State, bool)
    decreases |batch|
  {
    if batch == [] then (s, false) else
    var (t, first) := AddSingle(e, s, batch[0].addr, source, timePenalty, batch[0].now, batch[0].later, batch[0].draw);
    var (u, more) := AddAll(e, t, batch[1..], source, timePenalty);
    (u, first || more)
  }

  datatype Op =
    | OpAdd(batch: seq<Announcement>, source: NetAddr, timePenalty: int)
    | OpGood(addr: Service, time: int)
    | OpAttempt(addr: Service, countFailure: bool, time: int)
    | OpConnected(addr: Service, time: int)
    | OpSetServices(addr: Service, services: set<int>)
    | OpResolveCollisions(ids: seq<int>, clock: int -> int)
    | OpSelectTriedCollision(id: int)
    | OpGetAddr(n: nat, draw: int -> int)

  /** Clocks read after the epoch. */
  ghost predicate Timely(op: Op) {
    match op
    case OpGood(_, time) => time > 0
    case OpAttempt(_, _, time) => time > 0
    case OpResolveCollisions(_, clock) => forall id :: clock(id) > 0
    case _ => true
  }

  function Apply(e: Env, s: State, op: Op): State {
    match op
    case OpAdd(batch, source, timePenalty) => AddAll(e, s, batch, source, timePenalty).0
    case OpGood(a, time) => Good(e, s, a, true, time).0
    case OpAttempt(a, countFailure, time) => Attempt(s, a, countFailure, time)
    case OpConnected(a, time) => Connected(s, a, time)
    case OpSetServices(a, services) => SetServices(s, a, services)
    case OpResolveCollisions(ids, clock) => ResolveAll(e, s, ids, clock)
    case OpSelectTriedCollision(id) => SelectCollision(e, s, id).0
    case OpGetAddr(n, draw) => Sample(s, n, draw)
  }

  function Run(e: Env, s: State, ops: seq<Op>): State {
    if ops == [] then s else Apply(e, Run(e, s, ops[..|ops| - 1]), ops[|ops| - 1])
  }

  lemma AddSingleConsistent(e: Env, s: State, a: Address, source: NetAddr, timePenalty: int, now: int, later: int,
                         draw: int)
    requires Consistent(e, s)
    ensures Consistent(e, AddSingle(e, s, a, source, timePenalty, now, later, draw).0)
    ensures s.vvTried.Keys <= AddSingle(e, s, a, source, timePenalty, now, later, draw).0.vvTried.Keys
  {
    hide Partial, AddSingle;
    AddSingleKeeps(e, s, a, source, timePenalty, now, later, draw);
    PendingKept(e, s, AddSingle(e, s, a, source, timePenalty, now, later, draw).0, {}, {});
  }

  lemma {:induction false} AddAllKeeps(e: Env, s: State, batch: seq<Announcement>, source: NetAddr, timePenalty: int)
    requires Consistent(e, s)
    ensures Consistent(e, AddAll(e, s, batch, source, timePenalty).0)
    ensures s.vvTried.Keys <= AddAll(e, s, batch, source, timePenalty).0.vvTried.Keys
    decreases |batch|
  {
    hide Consistent, AddSingle;
    if batch != [] {
      AddSingleConsistent(e, s, batch[0].addr, source, timePenalty, batch[0].now, batch[0].later, batch[0].draw);
      var t := AddSingle(e, s, batch[0].addr, source, timePenalty, batch[0].now, batch[0].later, batch[0].draw).0;
      AddAllKeeps(e, t, batch[1..], source, timePenalty);
    }
  }

  lemma ApplyKeeps(e: Env, s: State, op: Op)
    requires Consistent(e, s) && Timely(op)
    ensures Consistent(e, Apply(e, s, op))
    ensures s.vvTried.Keys <= Apply(e, s, op).vvTried.Keys
  {
    hide Partial, Pending, Good, Attempt, Connected, SetServices, ResolveAll, SelectCollision, Sample, AddAll;
    match op
    case OpAdd(batch, source, timePenalty) => AddAllKeeps(e, s, batch, source, timePenalty);
    case OpGood(a, time) => GoodKeeps(e, s, a, true, time, {});
    case OpAttempt(a, countFailure, time) => AttemptKeeps(e, s, a, countFailure, time);
    case OpConnected(a, time) => ConnectedKeeps(e, s, a, time);
    case OpSetServices(a, services) => SetServicesKeeps(e, s, a, services);
    case OpResolveCollisions(ids, clock) => ResolveAllKeeps(e, s, ids, clock);
    case OpSelectTriedCollision(id) => SelectCollisionKeeps(e, s, id);
    case OpGetAddr(n, draw) => SampleKeeps(e, s, n, draw);
  }

  /**
   In every run from a consistent manager the manager stays consistent, and a
   tried slot once occupied stays occupied.
   */
  lemma {:induction false} RunKeeps(e: Env, s: State, ops: seq<Op>)
    requires Consistent(e, s) && forall op <- ops :: Timely(op)
    ensures Consistent(e, Run(e, s, ops))
    ensures s.vvTried.Keys <= Run(e, s, ops).vvTried.Keys
  {
    hide Consistent, Apply, Timely;
    if ops != [] {
      RunKeeps(e, s, ops[..|ops| - 1]);
      ApplyKeeps(e, Run(e, s, ops[..|ops| - 1]), ops[|ops| - 1]);
    }
  }

  lemma EmptyConsistent(e: Env, key: Key)
    requires key != 0
    ensures Consistent(e, Empty(key))
  {
    assert NewIds(map[], {}) == {} && TriedIds(map[]) == {};
    forall net
      ensures InNetwork(e, map[], NewIds(map[], {}), net) == {}
      ensures InNetwork(e, map[], TriedIds(map[]), net) == {}
    {
    }
  }

  /** Every run of a new manager, whatever its key, addresses, clocks and draws. */
  lemma EveryRunConsistent(e: Env, key: Key, ops: seq<Op>)
    requires key != 0 && forall op <- ops :: Timely(op)
    ensures Consistent(e, Run(e, Empty(key), ops))
  {
    hide Consistent, Run;
    EmptyConsistent(e, key);
    RunKeeps(e, Empty(key), ops);
  }
}
