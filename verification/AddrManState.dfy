/**
 The values the address manager works on: entries, the two bucketed tables, the
 indexes over them and the counters, together with the consistency invariant.

 Hashing, address classification and the ASN map are parameters (`Env`); clocks
 and random draws are arguments of the operations.
 */
module AddrManState {

  const TRIED_BUCKET_COUNT := 256
  const NEW_BUCKET_COUNT := 1024
  const BUCKET_SIZE := 64
  const NEW_BUCKETS_PER_ADDRESS := 8
  const SET_TRIED_COLLISION_SIZE := 10
  const MINUTE := 60
  const HOUR := 3600
  const DAY := 86400

  type TriedBucket = b: int | 0 <= b < TRIED_BUCKET_COUNT
  type NewBucket = b: int | 0 <= b < NEW_BUCKET_COUNT
  type BucketPosition = p: int | 0 <= p < BUCKET_SIZE

  /** A 256-bit secret; zero is the null key. */
  type Key = nat

  datatype NetAddr = NetAddr(net: int, bytes: seq<int>)

  datatype Service = Service(ip: NetAddr, port: int)

  /** An announced address: a service, when it was last seen, what it offers. */
  datatype Address = Address(service: Service, time: int, services: set<int>)

  datatype AddrInfo = AddrInfo(
    addr: Service,
    time: int,
    services: set<int>,
    source: NetAddr,
    lastTry: int,
    lastCountAttempt: int,
    lastSuccess: int,
    attempts: int,
    refCount: int,
    inTried: bool,
    randomPos: int)

  datatype Slot = Slot(bucket: int, position: int)

  type Infos = map<int, AddrInfo>

  type Table = map<Slot, int>

  datatype NewTriedCount = NewTriedCount(new_: int, tried: int)

  /** The code the manager calls and does not own. */
  datatype Env = Env(
    triedBucket: (Key, Service) -> TriedBucket,
    newBucket: (Key, Service, NetAddr) -> NewBucket,
    bucketPosition: (Key, bool, int, Service) -> BucketPosition,
    network: Service -> int,
    netClass: Service -> int,
    valid: Service -> bool,
    reserved: Service -> bool,
    asmapChecksum: int)
  {
    predicate Routable(a: Service) {
      valid(a) && !reserved(a)
    }

    function TriedSlot(key: Key, a: Service): Slot {
      var b := triedBucket(key, a);
      Slot(b, bucketPosition(key, false, b, a))
    }

    function NewSlot(key: Key, a: Service, source: NetAddr): Slot {
      var b := newBucket(key, a, source);
      Slot(b, bucketPosition(key, true, b, a))
    }
  }

  /**
   The whole manager. The tables are maps from the occupied slots to ids, so an
   absent slot is one that holds -1.
   */
  datatype State = State(
    key: Key,
    idCount: int,
    mapInfo: Infos,
    mapAddr: map<Service, int>,
    vRandom: seq<int>,
    nTried: int,
    vvTried: Table,
    nNew: int,
    vvNew: Table,
    lastGood: int,
    collisions: set<int>,
    counts: map<int, NewTriedCount>)

  function Empty(key: Key): State {
    State(key, 0, map[], map[], [], 0, map[], 0, map[], 1, {}, map[])
  }

  // ---- what the invariant talks about ----

  const DEFAULT_INFO := AddrInfo(Service(NetAddr(0, []), 0), 0, {}, NetAddr(0, []), 0, 0, 0, 0, 0, false, -1)

  /** A lookup that, like `mapInfo[id]`, yields a default entry for an unknown id. */
  function Info(m: Infos, id: int): AddrInfo {
    if id in m then m[id] else DEFAULT_INFO
  }

  predicate Holds(table: Table, sl: Slot, id: int) {
    sl in table && table[sl] == id
  }

  function SlotsOf(table: Table, id: int): set<Slot> {
    set sl | sl in table && Holds(table, sl, id)
  }

  /** Entries counted as new; `out` are entries in transit between the tables. */
  predicate IsNew(m: Infos, out: set<int>, id: int) {
    id in m && !m[id].inTried && id !in out
  }

  function NewIds(m: Infos, out: set<int>): set<int> {
    set id | id in m && IsNew(m, out, id)
  }

  predicate IsTried(m: Infos, id: int) {
    id in m && m[id].inTried
  }

  function TriedIds(m: Infos): set<int> {
    set id | id in m && IsTried(m, id)
  }

  predicate IsIn(e: Env, m: Infos, id: int, net: int) {
    id in m && e.network(m[id].addr) == net
  }

  function InNetwork(e: Env, m: Infos, ids: set<int>, net: int): set<int> {
    set id | id in ids && IsIn(e, m, id, net)
  }

  function CountOf(counts: map<int, NewTriedCount>, net: int): NewTriedCount {
    if net in counts then counts[net] else NewTriedCount(0, 0)
  }

  /** Ids are handed out once, and mapAddr inverts the address of each entry. */
  ghost predicate Keyed(m: Infos, mapAddr: map<Service, int>, idCount: int) {
    && (forall id <- m :: 0 <= id < idCount)
    && (forall id <- m :: m[id].addr in mapAddr && mapAddr[m[id].addr] == id)
    && (forall a <- mapAddr :: mapAddr[a] in m && m[mapAddr[a]].addr == a)
  }

  /** vRandom lists every id once, and each entry knows its place in it. */
  ghost predicate Ordered(m: Infos, vRandom: seq<int>) {
    && (forall id <- m :: 0 <= m[id].randomPos < |vRandom| && vRandom[m[id].randomPos] == id)
    && (forall i :: 0 <= i < |vRandom| ==> vRandom[i] in m && m[vRandom[i]].randomPos == i)
  }

  /** Exactly the tried entries sit in the tried table, each at its own slot. */
  ghost predicate TriedTable(e: Env, key: Key, m: Infos, vvTried: Table) {
    && (forall sl <- vvTried ::
          IsTried(m, vvTried[sl]) && sl == e.TriedSlot(key, m[vvTried[sl]].addr))
    && (forall id <- m :: m[id].inTried ==>
          && Holds(vvTried, e.TriedSlot(key, m[id].addr), id)
          && m[id].refCount == 0
          && m[id].lastSuccess > 0)
  }

  /** New slots hold new entries at the position their bucket gives them. */
  ghost predicate NewSlots(e: Env, key: Key, m: Infos, vvNew: Table) {
    forall sl <- vvNew ::
      && 0 <= sl.bucket < NEW_BUCKET_COUNT
      && IsNew(m, {}, vvNew[sl])
      && sl.position == e.bucketPosition(key, true, sl.bucket, m[vvNew[sl]].addr)
  }

  /** Reference counts are exact; only `limbo` entries may have none. */
  ghost predicate RefCounts(m: Infos, vvNew: Table, limbo: set<int>) {
    forall id <- m :: !m[id].inTried ==>
      && m[id].refCount == |SlotsOf(vvNew, id)|
      && m[id].refCount <= NEW_BUCKETS_PER_ADDRESS
      && (m[id].refCount > 0 || id in limbo)
  }

  ghost predicate Counted(e: Env, m: Infos, nNew: int, nTried: int, counts: map<int, NewTriedCount>, out: set<int>) {
    && nNew == |NewIds(m, out)|
    && nTried == |TriedIds(m)|
    && forall net :: CountOf(counts, net) == NewTriedCount(
                       |InNetwork(e, m, NewIds(m, out), net)|,
                       |InNetwork(e, m, TriedIds(m), net)|)
  }

  ghost predicate Sound(e: Env, m: Infos) {
    forall id <- m :: m[id].lastTry >= 0 && m[id].lastSuccess >= 0 && e.valid(m[id].addr)
  }

  ghost predicate InTransit(m: Infos, out: set<int>) {
    forall id <- out :: id in m && !m[id].inTried && m[id].refCount == 0
  }

  /**
   Consistency while an operation is under way: `limbo` entries may be without
   references, `out` entries are counted in neither table.
   */
  ghost predicate Partial(e: Env, s: State, limbo: set<int>, out: set<int>) {
    && Keyed(s.mapInfo, s.mapAddr, s.idCount)
    && Ordered(s.mapInfo, s.vRandom)
    && TriedTable(e, s.key, s.mapInfo, s.vvTried)
    && NewSlots(e, s.key, s.mapInfo, s.vvNew)
    && RefCounts(s.mapInfo, s.vvNew, limbo)
    && Counted(e, s.mapInfo, s.nNew, s.nTried, s.counts, out)
    && Sound(e, s.mapInfo)
    && InTransit(s.mapInfo, out)
  }

  /** Every pending collision that still exists is a new entry whose tried slot is taken. */
  ghost predicate Pending(e: Env, s: State, except: set<int>) {
    && |s.collisions| <= SET_TRIED_COLLISION_SIZE
    && (forall id <- s.collisions :: id < s.idCount)
    && (forall id <- s.collisions :: id in s.mapInfo && id !in except ==>
          && !s.mapInfo[id].inTried
          && e.TriedSlot(s.key, s.mapInfo[id].addr) in s.vvTried)
  }

  /** What holds between operations. */
  ghost predicate Consistent(e: Env, s: State) {
    && s.key != 0
    && 0 <= s.idCount
    && Partial(e, s, {}, {})
    && Pending(e, s, {})
  }
}
