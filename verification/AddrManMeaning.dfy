/**
 What each operation of the address manager does to the entries: exactly when an
 announcement is taken up, what a success, a failure or a resolved collision
 changes, and who keeps a tried slot over a whole run.
 */
module AddrManMeaning {
  import opened Basics
  import opened AddrManState
  import opened AddrManOps
  import opened AddrManRuns

  // ---- terrible entries ----

  /**
   Never within a minute of a try; otherwise an entry from the future, one not seen
   for 30 days, one that failed three times and never worked, or one that failed ten
   times and has not worked for 7 days.
   */
  lemma TerribleExactly(info: AddrInfo, now: int)
    ensures IsTerrible(info, now) <==>
            && now - info.lastTry > 60
            && (|| info.time - now > 600 || now - info.time > 2592000
                || (info.lastSuccess == 0 && info.attempts >= 3)
                || (now - info.lastSuccess > 604800 && info.attempts >= 10))
  {
  }

  // ---- announcements ----

  /** The same entry, whatever became of its slots and its place in the random order. */
  predicate SameData(a: AddrInfo, b: AddrInfo) {
    && b.addr == a.addr && b.time == a.time && b.services == a.services && b.source == a.source
    && b.lastTry == a.lastTry && b.lastCountAttempt == a.lastCountAttempt
    && b.lastSuccess == a.lastSuccess && b.attempts == a.attempts && b.inTried == a.inTried
  }

  /** The occupant of a new slot, if any, gives way: to anyone if terrible, to a newcomer if it has another slot. */
  predicate GivesWay(s: State, sl: Slot, newcomer: bool, now: int) {
    sl in s.vvNew ==>
      && s.vvNew[sl] in s.mapInfo
      && var occupant := s.mapInfo[s.vvNew[sl]];
         IsTerrible(occupant, now) || (newcomer && occupant.refCount > 1)
  }

  lemma PlaceNewExactly(e: Env, s: State, id: int, sl: Slot, now: int)
    requires Partial(e, s, {id}, {}) && id in s.mapInfo && !s.mapInfo[id].inTried
    ensures var (t, ok) := PlaceNew(e, s, id, sl, now);
            && (ok <==> !Holds(s.vvNew, sl, id) && GivesWay(s, sl, s.mapInfo[id].refCount == 0, now))
            && (forall x <- t.mapInfo :: x in s.mapInfo && SameData(s.mapInfo[x], t.mapInfo[x]))
            && (ok ==> id in t.mapInfo && t.mapInfo[id].refCount == s.mapInfo[id].refCount + 1)
            && (!ok && id in t.mapInfo ==> t.mapInfo[id].refCount == s.mapInfo[id].refCount)
            && (s.mapInfo[id].refCount > 0 ==> id in t.mapInfo)
            && t.lastGood == s.lastGood && t.collisions == s.collisions
  {
    hide Keyed, Ordered, TriedTable, NewSlots, RefCounts, Counted, Sound, ClearNew, Delete, IsTerrible;
    if sl in s.vvNew { SlotHolder(e, s.key, s.mapInfo, s.vvNew, {id}, sl); }
    ClearNewKin(e, s, sl);
    DeleteKin(e, s, id);
  }

  /** The time an announcement gives an entry, less a penalty unless the address announces itself. */
  function Announced(a: Address, source: NetAddr, timePenalty: int): int {
    var time := if a.service.ip == source then a.time else a.time - timePenalty;
    if time < 0 then 0 else time
  }

  /**
   Announcing a known address adds to its services. Its time moves only if it was more
   than an hour behind, a day if the announcement is itself a day old. It gains a slot
   exactly if it then still looks older than announced, is new, has fewer than eight, is
   lucky, and the slot is not its own and gives way. No other entry changes.
   */
  lemma AnnouncedAgain(e: Env, s: State, a: Address, source: NetAddr, timePenalty: int, now: int, later: int, draw: int)
    requires Partial(e, s, {}, {}) && 0 <= s.idCount && e.valid(a.service) && !e.reserved(a.service)
    requires a.service in s.mapAddr && s.mapAddr[a.service] in s.mapInfo
    ensures var (t, ok) := AddSingle(e, s, a, source, timePenalty, now, later, draw);
            var (id, sl) := (s.mapAddr[a.service], e.NewSlot(s.key, a.service, source));
            var info := s.mapInfo[id];
            var behind := (if now - a.time < 86400 then 3600 else 86400) +
                          (if a.service.ip == source then 0 else timePenalty);
            var time := if a.time - info.time > behind then Announced(a, source, timePenalty) else info.time;
            && (ok <==> && a.time > time && !info.inTried && info.refCount < 8 && draw == 0
                        && !Holds(s.vvNew, sl, id) && GivesWay(s, sl, false, later))
            && id in t.mapInfo && t.mapInfo[id].refCount == info.refCount + (if ok then 1 else 0)
            && SameData(info.(time := time, services := info.services + a.services), t.mapInfo[id])
            && (forall x <- t.mapInfo :: x != id ==> x in s.mapInfo && SameData(s.mapInfo[x], t.mapInfo[x]))
            && t.lastGood == s.lastGood && t.collisions == s.collisions
  {
    hide Keyed, Ordered, TriedTable, NewSlots, RefCounts, Counted, Sound, PlaceNew, IsTerrible;
    FindKnown(s, a.service);
    var id := s.mapAddr[a.service];
    var penalty := if a.service.ip == source then 0 else timePenalty;
    var sl := e.NewSlot(s.key, a.service, source);
    TriedSucceeded(e, s, id, {}, {});
    Referenced(s, id);
    var info := Refresh(s.mapInfo[id], a, penalty, now);
    SetInfoKeeps(e, s, id, info, {}, {});
    var t := SetInfo(s, id, info);
    if Welcome(info, a, draw) {
      LimboTo(t.mapInfo, t.vvNew, {}, {id});
      PlaceNewExactly(e, t, id, sl, later);
    }
  }

  /** A new address is taken exactly if its slot gives way, and then starts from what was announced. */
  lemma AnnouncedFirst(e: Env, s: State, a: Address, source: NetAddr, timePenalty: int, now: int, later: int, draw: int)
    requires Partial(e, s, {}, {}) && 0 <= s.idCount && e.valid(a.service) && !e.reserved(a.service)
    requires a.service !in s.mapAddr
    ensures var (t, ok) := AddSingle(e, s, a, source, timePenalty, now, later, draw);
            var (id, sl) := (s.idCount, e.NewSlot(s.key, a.service, source));
            && (ok <==> GivesWay(s, sl, true, later))
            && (ok <==> id in t.mapInfo)
            && (ok ==> && t.mapInfo[id].refCount == 1
                       && SameData(AddrInfo(a.service, Announced(a, source, timePenalty), a.services, source,
                                            0, 0, 0, 0, 1, false, 0), t.mapInfo[id]))
            && (forall x <- t.mapInfo :: x != id ==> x in s.mapInfo && SameData(s.mapInfo[x], t.mapInfo[x]))
            && t.lastGood == s.lastGood && t.collisions == s.collisions
  {
    hide Keyed, Ordered, TriedTable, NewSlots, RefCounts, Counted, Sound, PlaceNew, IsTerrible;
    FindKnown(s, a.service);
    var penalty := if a.service.ip == source then 0 else timePenalty;
    var sl := e.NewSlot(s.key, a.service, source);
    var b := a.(time := Max(0, a.time - penalty));
    CreateKeeps(e, s, b, source);
    CreatedIsFresh(e, s, sl);
    PlaceNewExactly(e, Create(e, s, b, source), s.idCount, sl, later);
    AddCreatedEntries(e, s, b, source, sl, later);
  }

  lemma CreatedIsFresh(e: Env, s: State, sl: Slot)
    requires Partial(e, s, {}, {})
    ensures s.idCount !in s.mapInfo && !Holds(s.vvNew, sl, s.idCount)
    ensures sl in s.vvNew ==> s.vvNew[sl] in s.mapInfo
  {
    if sl in s.vvNew { SlotHolder(e, s.key, s.mapInfo, s.vvNew, {}, sl); }
  }

  lemma NotRoutable(e: Env, s: State, a: Address, source: NetAddr, timePenalty: int, now: int, later: int, draw: int)
    requires !e.valid(a.service) || e.reserved(a.service)
    ensures AddSingle(e, s, a, source, timePenalty, now, later, draw) == (s, false)
  {
  }

  /** The manager after the first `i` announcements of a batch. */
  function After(e: Env, s: State, batch: seq<Announcement>, source: NetAddr, timePenalty: int, i: nat): State
    requires i <= |batch|
  {
    AddAll(e, s, batch[..i], source, timePenalty).0
  }

  predicate TakenUp(e: Env, s: State, b: Announcement, source: NetAddr, timePenalty: int) {
    AddSingle(e, s, b.addr, source, timePenalty, b.now, b.later, b.draw).1
  }

  /** A batch reports success exactly if one of its announcements, in turn, was taken up. */
  lemma {:induction false} AddAllReports(e: Env, s: State, batch: seq<Announcement>, source: NetAddr, timePenalty: int)
    ensures AddAll(e, s, batch, source, timePenalty).1 <==>
            exists i :: 0 <= i < |batch| && TakenUp(e, After(e, s, batch, source, timePenalty, i), batch[i],
                                                   source, timePenalty)
    decreases |batch|
  {
    hide AddSingle;
    if batch != [] {
      var b, rest := batch[0], batch[1..];
      var t := AddSingle(e, s, b.addr, source, timePenalty, b.now, b.later, b.draw).0;
      AddAllReports(e, t, rest, source, timePenalty);
      forall i | 0 <= i < |rest|
        ensures After(e, t, rest, source, timePenalty, i) == After(e, s, batch, source, timePenalty, i + 1)
      {
        assert batch[..i + 1][1..] == rest[..i];
      }
      assert After(e, s, batch, source, timePenalty, 0) == s;
      hide AddAll, After;
      if i :| 0 <= i < |rest| && TakenUp(e, After(e, t, rest, source, timePenalty, i), rest[i], source, timePenalty) {
        assert TakenUp(e, After(e, s, batch, source, timePenalty, i + 1), batch[i + 1], source, timePenalty);
      }
      if i :| 0 < i < |batch| && TakenUp(e, After(e, s, batch, source, timePenalty, i), batch[i], source, timePenalty) {
        assert TakenUp(e, After(e, t, rest, source, timePenalty, i - 1), rest[i - 1], source, timePenalty);
      }
    }
  }

  // ---- successes, failures, sightings ----

  /** Moving an entry to the tried table touches no data of any entry. */
  lemma MakeTriedData(e: Env, s: State, id: int)
    requires Partial(e, s, {}, {}) && 0 <= s.idCount
    requires id in s.mapInfo && !s.mapInfo[id].inTried && s.mapInfo[id].lastSuccess > 0
    ensures var t := MakeTried(e, s, id);
            && IsTried(t.mapInfo, id) && t.mapInfo[id].refCount == 0
            && t.lastGood == s.lastGood && t.collisions == s.collisions
            && (forall x <- t.mapInfo ::
                  x in s.mapInfo && SameData(s.mapInfo[x].(inTried := t.mapInfo[x].inTried), t.mapInfo[x]))
  {
    hide Keyed, Ordered, TriedTable, NewSlots, RefCounts, Counted, Sound, Displace, Occupants, Withdraw, Promote;
    var sl := e.TriedSlot(s.key, s.mapInfo[id].addr);
    MakeTriedKeeps(e, s, id);
    WithdrawKeeps(e, s, id, {}, {});
    WithdrawFrame(e, s, id);
    var r := Withdraw(e, s, id);
    assert {} + {id} == {id};
    DisplaceKeeps(e, r, sl, id);
    var u := Displace(e, r, sl);
    assert SameIdentity(r.mapInfo, u.mapInfo, id);
    PromoteFrame(e, u, id);
    TriedUnreferenced(e, MakeTried(e, s, id), id);
  }

  lemma TriedUnreferenced(e: Env, s: State, id: int)
    requires TriedTable(e, s.key, s.mapInfo, s.vvTried) && IsTried(s.mapInfo, id)
    ensures s.mapInfo[id].refCount == 0
  {
  }

  /**
   A success sets the last success and the last try, and clears the failures. A new
   entry whose tried slot is taken becomes a pending collision instead of moving, if
   asked to test and fewer than ten are pending. No other entry changes.
   */
  lemma GoodExactly(e: Env, s: State, a: Service, test: bool, time: int)
    requires Partial(e, s, {}, {}) && 0 <= s.idCount && time > 0
    ensures var (t, ok) := Good(e, s, a, test, time);
            && t.lastGood == time
            && (a !in s.mapAddr ==> !ok && t == s.(lastGood := time))
            && (a in s.mapAddr ==>
                  var id := s.mapAddr[a];
                  && id in s.mapInfo && id in t.mapInfo
                  && var info := s.mapInfo[id];
                     && SameData(info.(lastSuccess := time, lastTry := time, attempts := 0,
                                       inTried := info.inTried || ok), t.mapInfo[id])
                     && t.mapInfo[id].refCount == (if ok then 0 else info.refCount)
                     && (forall x <- t.mapInfo :: x != id ==>
                           x in s.mapInfo && SameData(s.mapInfo[x].(inTried := t.mapInfo[x].inTried), t.mapInfo[x]))
                     && var waits := test && !info.inTried && e.TriedSlot(s.key, a) in s.vvTried;
                        t.collisions == if waits && |s.collisions| < 10 then s.collisions + {id} else s.collisions)
  {
    hide Keyed, Ordered, TriedTable, NewSlots, RefCounts, Counted, Sound, MakeTried;
    FindKnown(s, a);
    match Find(s, a)
    case None =>
    case Some(id) =>
      TriedSucceeded(e, s, id, {}, {});
      Referenced(s, id);
      SetInfoKeeps(e, s, id, s.mapInfo[id].(lastSuccess := time, lastTry := time, attempts := 0), {}, {});
      if !s.mapInfo[id].inTried { MakeTriedData(e, Succeeded(s, id, time), id); }
  }

  /** A failed attempt is counted at most once between two successes of the manager. */
  lemma AttemptExactly(s: State, a: Service, countFailure: bool, time: int)
    requires Keyed(s.mapInfo, s.mapAddr, s.idCount)
    ensures a !in s.mapAddr ==> Attempt(s, a, countFailure, time) == s
    ensures a in s.mapAddr ==>
              var (id, t) := (s.mapAddr[a], Attempt(s, a, countFailure, time));
              && id in s.mapInfo && id in t.mapInfo && t == s.(mapInfo := s.mapInfo[id := t.mapInfo[id]])
              && var (info, after) := (s.mapInfo[id], t.mapInfo[id]);
                 && after.lastTry == time && after.refCount == info.refCount && after.randomPos == info.randomPos
                 && SameData(info, after.(lastTry := info.lastTry, lastCountAttempt := info.lastCountAttempt,
                                          attempts := info.attempts))
                 && if countFailure && info.lastCountAttempt < s.lastGood
                    then after.attempts == info.attempts + 1 && after.lastCountAttempt == time
                    else after.attempts == info.attempts && after.lastCountAttempt == info.lastCountAttempt
  {
  }

  lemma CountedOnce(s: State, a: Service, time: int, again: int)
    requires Keyed(s.mapInfo, s.mapAddr, s.idCount) && a in s.mapAddr && time >= s.lastGood
    ensures var (t, u) := (Attempt(s, a, true, time), Attempt(Attempt(s, a, true, time), a, true, again));
            u.mapInfo[s.mapAddr[a]].attempts == t.mapInfo[s.mapAddr[a]].attempts <= s.mapInfo[s.mapAddr[a]].attempts + 1
  {
  }

  /** A connection moves the time of an entry if it is more than twenty minutes old, and nothing else. */
  lemma ConnectedExactly(s: State, a: Service, time: int)
    requires Keyed(s.mapInfo, s.mapAddr, s.idCount)
    ensures a !in s.mapAddr ==> Connected(s, a, time) == s
    ensures a in s.mapAddr ==>
              var id := s.mapAddr[a];
              && id in s.mapInfo
              && var info := s.mapInfo[id];
                 Connected(s, a, time) ==
                 if time - info.time > 1200 then s.(mapInfo := s.mapInfo[id := info.(time := time)]) else s
  {
    if a in s.mapAddr {
      var id := s.mapAddr[a];
      assert s.mapInfo[id := s.mapInfo[id]] == s.mapInfo;
    }
  }

  lemma SetServicesExactly(s: State, a: Service, services: set<int>)
    requires Keyed(s.mapInfo, s.mapAddr, s.idCount)
    ensures a !in s.mapAddr ==> SetServices(s, a, services) == s
    ensures a in s.mapAddr ==>
              var id := s.mapAddr[a];
              && id in s.mapInfo
              && SetServices(s, a, services) == s.(mapInfo := s.mapInfo[id := s.mapInfo[id].(services := services)])
  {
  }

  // ---- pending collisions ----

  /**
   A pending entry takes the tried slot it collided with exactly if the holder was
   tried in vain between a minute and four hours ago, or was not tried for four hours
   while the entry has waited for 40 minutes. A holder that worked within four hours
   keeps its slot and ends the collision; in all other cases nothing changes yet.
   */
  lemma ResolveOneMeaning(e: Env, s: State, id: int, now: int)
    requires Consistent(e, s) && id in s.collisions && now > 0
    ensures id !in s.mapInfo ==> ResolveOne(e, s, id, now) == s.(collisions := s.collisions - {id})
    ensures id in s.mapInfo ==>
              var (t, sl) := (ResolveOne(e, s, id, now), e.TriedSlot(s.key, s.mapInfo[id].addr));
              && sl in s.vvTried && s.vvTried[sl] in s.mapInfo && s.vvTried[sl] != id
              && var holder := s.mapInfo[s.vvTried[sl]];
                 if now - holder.lastSuccess < 14400 then
                   t == s.(collisions := s.collisions - {id})
                 else if if now - holder.lastTry < 14400 then now - holder.lastTry > 60
                         else now - s.mapInfo[id].lastSuccess > 2400 then
                   t.vvTried == s.vvTried[sl := id] && t.collisions == s.collisions - {id} && Taken(e, s, t, id, now)
                 else
                   t == s
  {
    hide Keyed, Ordered, TriedTable, NewSlots, RefCounts, Counted, Sound, Good, Moves, Taken;
    if id in s.mapInfo {
      CollisionsAreReal(e, s, id);
      var a := s.mapInfo[id].addr;
      FindEntry(s, id);
      FindKnown(s, a);
      GoodMeaning(e, s, a, false, now);
      GoodExactly(e, s, a, false, now);
      if Judge(e, s, id, now) == Replace {
        MovesTakes(e, s, Good(e, s, a, false, now).0, id, now);
      }
    }
  }

  /** `id` is now tried, as if it had just succeeded, and the holder before it has one new slot. */
  ghost predicate Taken(e: Env, s: State, t: State, id: int, now: int) {
    && id in s.mapInfo
    && var sl := e.TriedSlot(s.key, s.mapInfo[id].addr);
    && IsTried(t.mapInfo, id) && t.mapInfo[id].lastSuccess == now && t.mapInfo[id].attempts == 0
    && sl in s.vvTried && IsNew(t.mapInfo, {}, s.vvTried[sl]) && t.mapInfo[s.vvTried[sl]].refCount == 1
    && t.mapInfo.Keys <= s.mapInfo.Keys
    && forall x <- t.mapInfo :: x != id ==>
         SameData(s.mapInfo[x].(inTried := t.mapInfo[x].inTried), t.mapInfo[x])
  }

  lemma MovesTakes(e: Env, s: State, t: State, id: int, now: int)
    requires Moves(e, s, t, id) && e.TriedSlot(s.key, s.mapInfo[id].addr) in s.vvTried
    requires t.mapInfo[id].lastSuccess == now && t.mapInfo[id].attempts == 0
    requires forall x <- t.mapInfo :: x != id ==>
               x in s.mapInfo && SameData(s.mapInfo[x].(inTried := t.mapInfo[x].inTried), t.mapInfo[x])
    ensures var sl := e.TriedSlot(s.key, s.mapInfo[id].addr);
            t.vvTried == s.vvTried[sl := id] && Taken(e, s, Forget(t, id), id, now)
  {
  }

  // ---- who keeps a tried slot ----

  /** `id` holds the tried slot and last worked at `since` or later. */
  predicate Secure(s: State, sl: Slot, id: int, since: int) {
    Holds(s.vvTried, sl, id) && id in s.mapInfo && s.mapInfo[id].lastSuccess >= since
  }

  lemma ResolveOneShelters(e: Env, s: State, id: int, now: int, sl: Slot, holder: int, since: int)
    requires Consistent(e, s) && now > 0 && Secure(s, sl, holder, since) && now - since < 14400
    ensures Secure(ResolveOne(e, s, id, now), sl, holder, since)
  {
    hide Keyed, Ordered, TriedTable, NewSlots, RefCounts, Counted, Sound, Good;
    TriedHolder(e, s.key, s.mapInfo, s.vvTried, sl);
    if Judge(e, s, id, now) == Replace {
      var a := s.mapInfo[id].addr;
      FindEntry(s, id);
      FindKnown(s, a);
      GoodMeaning(e, s, a, false, now);
      GoodExactly(e, s, a, false, now);
      GoodKeeps(e, s, a, false, now, {id});
      var t := Good(e, s, a, false, now).0;
      TriedHolder(e, t.key, t.mapInfo, t.vvTried, sl);
    }
  }

  /** Resolving collisions takes no tried slot from an entry that worked within the last four hours. */
  lemma {:induction false} ResolveAllShelters(e: Env, s: State, ids: seq<int>, clock: int -> int,
                                              sl: Slot, holder: int, since: int)
    requires Consistent(e, s) && Secure(s, sl, holder, since)
    requires forall id :: 0 < clock(id) < since + 14400
    ensures Secure(ResolveAll(e, s, ids, clock), sl, holder, since)
  {
    hide Consistent, ResolveOne, Secure;
    if ids != [] {
      var id := ids[|ids| - 1];
      ResolveAllShelters(e, s, ids[..|ids| - 1], clock, sl, holder, since);
      ResolveAllKeeps(e, s, ids[..|ids| - 1], clock);
      ResolveOneShelters(e, ResolveAll(e, s, ids[..|ids| - 1], clock), id, clock(id), sl, holder, since);
    }
  }

  lemma AddSingleShelters(e: Env, s: State, a: Address, source: NetAddr, timePenalty: int, now: int, later: int,
                          draw: int, sl: Slot, holder: int, since: int)
    requires Consistent(e, s) && Secure(s, sl, holder, since)
    ensures Secure(AddSingle(e, s, a, source, timePenalty, now, later, draw).0, sl, holder, since)
  {
    hide Keyed, Ordered, TriedTable, NewSlots, RefCounts, Counted, Sound, AddSingle, IsTerrible;
    var t := AddSingle(e, s, a, source, timePenalty, now, later, draw).0;
    AddSingleMeaning(e, s, a, source, timePenalty, now, later, draw);
    AddSingleKeeps(e, s, a, source, timePenalty, now, later, draw);
    TriedHolder(e, t.key, t.mapInfo, t.vvTried, sl);
    CreatedIsFresh(e, s, sl);
    if !e.Routable(a.service) { NotRoutable(e, s, a, source, timePenalty, now, later, draw); }
    else if a.service in s.mapAddr {
      FindKnown(s, a.service);
      AnnouncedAgain(e, s, a, source, timePenalty, now, later, draw);
    } else {
      AnnouncedFirst(e, s, a, source, timePenalty, now, later, draw);
    }
  }

  lemma {:induction false} AddAllShelters(e: Env, s: State, batch: seq<Announcement>, source: NetAddr, timePenalty: int,
                                          sl: Slot, holder: int, since: int)
    requires Consistent(e, s) && Secure(s, sl, holder, since)
    ensures Secure(AddAll(e, s, batch, source, timePenalty).0, sl, holder, since)
    decreases |batch|
  {
    hide Consistent, AddSingle, Secure;
    if batch != [] {
      var b := batch[0];
      AddSingleShelters(e, s, b.addr, source, timePenalty, b.now, b.later, b.draw, sl, holder, since);
      AddSingleConsistent(e, s, b.addr, source, timePenalty, b.now, b.later, b.draw);
      var t := AddSingle(e, s, b.addr, source, timePenalty, b.now, b.later, b.draw).0;
      AddAllShelters(e, t, batch[1..], source, timePenalty, sl, holder, since);
    }
  }

  lemma GoodShelters(e: Env, s: State, a: Service, time: int, sl: Slot, holder: int, since: int)
    requires Consistent(e, s) && time > 0 && Secure(s, sl, holder, since) && time >= since
    ensures Secure(Good(e, s, a, true, time).0, sl, holder, since)
  {
    hide Keyed, Ordered, TriedTable, NewSlots, RefCounts, Counted, Sound, Good;
    TriedHolder(e, s.key, s.mapInfo, s.vvTried, sl);
    FindKnown(s, a);
    GoodMeaning(e, s, a, true, time);
    GoodExactly(e, s, a, true, time);
    GoodKeeps(e, s, a, true, time, {});
    var t := Good(e, s, a, true, time).0;
    TriedHolder(e, t.key, t.mapInfo, t.vvTried, sl);
  }

  lemma {:induction false} SampleShelters(e: Env, s: State, n: nat, draw: int -> int, sl: Slot, holder: int, since: int)
    requires Consistent(e, s) && Secure(s, sl, holder, since)
    ensures Secure(Sample(s, n, draw), sl, holder, since)
  {
    hide Consistent, SwapRandom;
    if n > 0 {
      var t := Sample(s, n - 1, draw);
      SampleShelters(e, s, n - 1, draw, sl, holder, since);
      SampleKeeps(e, s, n - 1, draw);
      SwapShelters(e, t, n - 1, draw(n - 1), sl, holder, since);
    }
  }

  lemma SwapShelters(e: Env, s: State, i: int, j: int, sl: Slot, holder: int, since: int)
    requires Consistent(e, s) && Secure(s, sl, holder, since)
    ensures Secure(SwapRandom(s, i, j), sl, holder, since)
  {
  }

  /** No success is reported from before `since`, and collisions are resolved within four hours after. */
  ghost predicate Within(op: Op, since: int) {
    match op
    case OpGood(_, time) => time >= since
    case OpResolveCollisions(_, clock) => forall id :: clock(id) < since + 14400
    case _ => true
  }

  /** Operations that move no entry. */
  lemma RecordShelters(e: Env, s: State, op: Op, sl: Slot, holder: int, since: int)
    requires Consistent(e, s) && Timely(op) && Secure(s, sl, holder, since)
    requires op.OpAttempt? || op.OpConnected? || op.OpSetServices? || op.OpSelectTriedCollision?
    ensures Secure(Apply(e, s, op), sl, holder, since)
  {
    hide Keyed, Ordered, TriedTable, NewSlots, RefCounts, Counted, Sound, Attempt, Connected, SetServices,
      SelectCollision;
    match op
    case OpAttempt(a, countFailure, time) => AttemptExactly(s, a, countFailure, time);
    case OpConnected(a, time) => ConnectedExactly(s, a, time);
    case OpSetServices(a, services) => SetServicesExactly(s, a, services);
    case OpSelectTriedCollision(id) => SelectCollisionKeeps(e, s, id);
  }

  lemma ApplyShelters(e: Env, s: State, op: Op, sl: Slot, holder: int, since: int)
    requires Consistent(e, s) && Timely(op) && Within(op, since) && Secure(s, sl, holder, since)
    ensures Secure(Apply(e, s, op), sl, holder, since)
  {
    hide Partial, Good, Attempt, Connected, SetServices, ResolveAll, SelectCollision, Sample, AddAll, Secure;
    match op
    case OpAdd(batch, source, timePenalty) => AddAllShelters(e, s, batch, source, timePenalty, sl, holder, since);
    case OpGood(a, time) => GoodShelters(e, s, a, time, sl, holder, since);
    case OpAttempt(a, countFailure, time) => RecordShelters(e, s, op, sl, holder, since);
    case OpConnected(a, time) => RecordShelters(e, s, op, sl, holder, since);
    case OpSetServices(a, services) => RecordShelters(e, s, op, sl, holder, since);
    case OpResolveCollisions(ids, clock) => ResolveAllShelters(e, s, ids, clock, sl, holder, since);
    case OpSelectTriedCollision(id) => RecordShelters(e, s, op, sl, holder, since);
    case OpGetAddr(n, draw) => SampleShelters(e, s, n, draw, sl, holder, since);
  }

  /**
   An entry that worked at `since` keeps its tried slot over every run of operations in
   which collisions are resolved less than four hours later, whoever else succeeds.
   */
  lemma {:induction false} RunShelters(e: Env, s: State, ops: seq<Op>, sl: Slot, holder: int, since: int)
    requires Consistent(e, s) && Secure(s, sl, holder, since)
    requires forall op <- ops :: Timely(op) && Within(op, since)
    ensures Secure(Run(e, s, ops), sl, holder, since)
  {
    hide Consistent, Apply, Secure, Timely, Within;
    if ops != [] {
      var before := ops[..|ops| - 1];
      RunShelters(e, s, before, sl, holder, since);
      RunKeeps(e, s, before);
      ApplyShelters(e, Run(e, s, before), ops[|ops| - 1], sl, holder, since);
    }
  }

  // ---- what GetAddr returns ----

  /** At most the given share of the known addresses and at most the given number, zero standing for no limit. */
  lemma WantedExactly(known: nat, maxAddresses: nat, maxPct: nat)
    ensures var n := Wanted(known, maxAddresses, maxPct);
            && (maxAddresses != 0 ==> n <= maxAddresses)
            && (maxPct != 0 ==> 100 * n <= maxPct * known)
            && (maxPct == 0 ==> n <= known)
            && (n == maxAddresses || (if maxPct == 0 then n == known else maxPct * known < 100 * (n + 1)))
  {
  }

  /** A sample only reorders: the same entries stay known with the same data. */
  lemma {:induction false} SampleReorders(s: State, n: nat, draw: int -> int)
    requires Ordered(s.mapInfo, s.vRandom) && n <= |s.vRandom|
    requires forall i :: 0 <= i < n ==> i <= draw(i) < |s.vRandom|
    ensures var t := Sample(s, n, draw);
            && |t.vRandom| == |s.vRandom| && Ordered(t.mapInfo, t.vRandom) && t.mapInfo.Keys == s.mapInfo.Keys
            && forall x <- s.mapInfo :: SameData(s.mapInfo[x], t.mapInfo[x])
  {
    hide Ordered, SwapRandom, SameData;
    if n == 0 {
      SameSelf(s);
    } else {
      SampleReorders(s, n - 1, draw);
      SwapOrdered(Sample(s, n - 1, draw), n - 1, draw(n - 1));
      SameReordered(s, Sample(s, n - 1, draw), Sample(s, n, draw));
    }
  }

  lemma SameSelf(s: State)
    ensures forall x <- s.mapInfo :: SameData(s.mapInfo[x], s.mapInfo[x])
  {
  }

  lemma SameReordered(s: State, t: State, u: State)
    requires t.mapInfo.Keys == s.mapInfo.Keys == u.mapInfo.Keys
    requires forall x <- s.mapInfo :: SameData(s.mapInfo[x], t.mapInfo[x])
    requires forall x <- t.mapInfo :: u.mapInfo[x] == t.mapInfo[x].(randomPos := u.mapInfo[x].randomPos)
    ensures forall x <- s.mapInfo :: SameData(s.mapInfo[x], u.mapInfo[x])
  {
  }

  /** It draws each place from the entries not yet drawn, and then leaves that place alone. */
  lemma {:induction false} SampleDraws(s: State, n: nat, draw: int -> int, i: nat)
    requires Ordered(s.mapInfo, s.vRandom) && i < n <= |s.vRandom|
    requires forall k :: 0 <= k < n ==> k <= draw(k) < |s.vRandom|
    ensures |Sample(s, n, draw).vRandom| == |Sample(s, i, draw).vRandom| == |s.vRandom|
    ensures Sample(s, n, draw).vRandom[i] == Sample(s, i, draw).vRandom[draw(i)]
  {
    hide Ordered, SwapRandom, SameData;
    SampleReorders(s, i, draw);
    SampleReorders(s, n - 1, draw);
    SwapAt(Sample(s, n - 1, draw), n - 1, draw(n - 1));
    if i < n - 1 { SampleDraws(s, n - 1, draw, i); }
  }

  lemma SwapAt(s: State, i: int, j: int)
    requires 0 <= i <= j < |s.vRandom|
    ensures var v := SwapRandom(s, i, j).vRandom;
            |v| == |s.vRandom| && v[i] == s.vRandom[j] && forall k :: 0 <= k < i ==> v[k] == s.vRandom[k]
  {
  }
}
