/**
 The on-disk form of the address manager: a stream of fields, the loops that
 rebuild the manager from it, and the theorem that nothing persistent is lost.

 Fields are the items of the stream; their byte encodings are not modelled.
 */
module AddrManDisk {
  import opened Basics
  import opened AddrManState
  import opened AddrManRuns
  import opened AddrManCheck
  import Ops = AddrManOps

  const FILE_FORMAT := 4
  const V1_DETERMINISTIC := 1
  const V2_ASMAP := 2
  const INCOMPATIBILITY_BASE := 32
  const BIT_30 := 0x4000_0000

  /** What is stored of an entry. */
  datatype Disk = Disk(addr: Service, time: int, services: set<int>, source: NetAddr, lastSuccess: int, attempts: int)

  function Persist(info: AddrInfo): Disk {
    Disk(info.addr, info.time, info.services, info.source, info.lastSuccess, info.attempts)
  }

  function Revive(d: Disk, randomPos: int): AddrInfo {
    AddrInfo(d.addr, d.time, d.services, d.source, 0, 0, d.lastSuccess, d.attempts, 0, false, randomPos)
  }

  datatype Item = Byte(b: int) | Secret(key: Key) | Num(n: int) | Entry(d: Disk) | Checksum(sum: int)

  datatype File = File(
    format: int,
    compat: int,
    key: Key,
    nNew: int,
    nTried: int,
    nBuckets: int,
    newEntries: seq<Disk>,
    triedEntries: seq<Disk>,
    buckets: seq<seq<int>>,
    checksum: int)

  /** XOR with 2^30. */
  function Flip(n: int): int {
    if (n / BIT_30) % 2 == 0 then n + BIT_30 else n - BIT_30
  }

  // ---- the stream ----

  function Entries(ds: seq<Disk>): seq<Item> {
    if ds == [] then [] else [Entry(ds[0])] + Entries(ds[1..])
  }

  function Nums(ns: seq<int>): seq<Item> {
    if ns == [] then [] else [Num(ns[0])] + Nums(ns[1..])
  }

  function Buckets(bs: seq<seq<int>>): seq<Item> {
    if bs == [] then [] else [Num(|bs[0]|)] + Nums(bs[0]) + Buckets(bs[1..])
  }

  /** A file of the current format as written. */
  function Render(f: File): seq<Item> {
    [Byte(f.format), Byte(f.compat), Secret(f.key), Num(f.nNew), Num(f.nTried), Num(Flip(f.nBuckets))]
    + Entries(f.newEntries) + Entries(f.triedEntries) + Buckets(f.buckets) + [Checksum(f.checksum)]
  }

  function ReadEntries(w: seq<Item>, n: int): Option<(seq<Disk>, seq<Item>)>
    decreases n
  {
    if n <= 0 then Some(([], w))
    else if w == [] || !w[0].Entry? then None
    else match ReadEntries(w[1..], n - 1)
      case None => None
      case Some((ds, rest)) => Some(([w[0].d] + ds, rest))
  }

  function ReadNums(w: seq<Item>, n: int): Option<(seq<int>, seq<Item>)>
    decreases n
  {
    if n <= 0 then Some(([], w))
    else if w == [] || !w[0].Num? then None
    else match ReadNums(w[1..], n - 1)
      case None => None
      case Some((ns, rest)) => Some(([w[0].n] + ns, rest))
  }

  function ReadBuckets(w: seq<Item>, n: int): Option<(seq<seq<int>>, seq<Item>)>
    decreases n
  {
    if n <= 0 then Some(([], w))
    else if w == [] || !w[0].Num? then None
    else match ReadNums(w[1..], w[0].n)
      case None => None
      case Some((b, rest)) =>
        match ReadBuckets(rest, n - 1)
        case None => None
        case Some((bs, rest')) => Some(([b] + bs, rest'))
  }

  predicate HeaderOk(w: seq<Item>) {
    && |w| >= 6 && w[0].Byte? && w[1].Byte? && w[2].Secret? && w[3].Num? && w[4].Num? && w[5].Num?
    && INCOMPATIBILITY_BASE <= w[1].b <= INCOMPATIBILITY_BASE + FILE_FORMAT
    && 0 <= w[3].n <= NEW_BUCKET_COUNT * BUCKET_SIZE
    && 0 <= w[4].n <= TRIED_BUCKET_COUNT * BUCKET_SIZE
  }

  /** Any stream, of any format; None stands for the exceptions thrown while reading. */
  function Parse(w: seq<Item>): Option<File> {
    if !HeaderOk(w) then None else
    var format, nNew, nTried := w[0].b, w[3].n, w[4].n;
    var nBuckets := if format >= V1_DETERMINISTIC then Flip(w[5].n) else w[5].n;
    match ReadEntries(w[6..], nNew)
    case None => None
    case Some((ns, w1)) =>
      match ReadEntries(w1, nTried)
      case None => None
      case Some((ts, w2)) =>
        match ReadBuckets(w2, nBuckets)
        case None => None
        case Some((bs, w3)) =>
          if format < V2_ASMAP then Some(File(format, w[1].b, w[2].key, nNew, nTried, nBuckets, ns, ts, bs, 0))
          else if w3 == [] || !w3[0].Checksum? then None
          else Some(File(format, w[1].b, w[2].key, nNew, nTried, nBuckets, ns, ts, bs, w3[0].sum))
  }

  lemma {:induction false} ReadEntriesBack(ds: seq<Disk>, rest: seq<Item>)
    ensures ReadEntries(Entries(ds) + rest, |ds|) == Some((ds, rest))
  {
    if ds == [] {
      assert Entries(ds) + rest == rest;
    } else {
      ReadEntriesBack(ds[1..], rest);
      var w := Entries(ds[1..]) + rest;
      assert Entries(ds) + rest == [Entry(ds[0])] + w;
      assert ([Entry(ds[0])] + w)[1..] == w;
      assert [ds[0]] + ds[1..] == ds;
    }
  }

  lemma {:induction false} ReadNumsBack(ns: seq<int>, rest: seq<Item>)
    ensures ReadNums(Nums(ns) + rest, |ns|) == Some((ns, rest))
  {
    if ns == [] {
      assert Nums(ns) + rest == rest;
    } else {
      ReadNumsBack(ns[1..], rest);
      var w := Nums(ns[1..]) + rest;
      assert Nums(ns) + rest == [Num(ns[0])] + w;
      assert ([Num(ns[0])] + w)[1..] == w;
      assert [ns[0]] + ns[1..] == ns;
    }
  }

  lemma {:induction false} ReadBucketsBack(bs: seq<seq<int>>, rest: seq<Item>)
    ensures ReadBuckets(Buckets(bs) + rest, |bs|) == Some((bs, rest))
  {
    if bs == [] {
      assert Buckets(bs) + rest == rest;
    } else {
      hide ReadBuckets, Buckets;
      ReadBucketsBack(bs[1..], rest);
      BucketsStep(bs, rest);
      ReadNumsBack(bs[0], Buckets(bs[1..]) + rest);
      ReadBucketStep(Buckets(bs) + rest, |bs|, bs[0], Buckets(bs[1..]) + rest);
      assert [bs[0]] + bs[1..] == bs;
    }
  }

  lemma BucketsStep(bs: seq<seq<int>>, rest: seq<Item>)
    requires bs != []
    ensures var w := Buckets(bs) + rest;
            w != [] && w[0] == Num(|bs[0]|) && w[1..] == Nums(bs[0]) + (Buckets(bs[1..]) + rest)
  {
    hide Nums;
    assert Buckets(bs) == [Num(|bs[0]|)] + Nums(bs[0]) + Buckets(bs[1..]);
    hide Buckets;
    HeadAndTail(Num(|bs[0]|), Nums(bs[0]), Buckets(bs[1..]), rest);
  }

  lemma HeadAndTail<T>(x: T, a: seq<T>, b: seq<T>, c: seq<T>)
    ensures var w := [x] + a + b + c; w != [] && w[0] == x && w[1..] == a + (b + c)
  {
  }

  lemma ReadBucketStep(w: seq<Item>, n: int, b: seq<int>, rest: seq<Item>)
    requires n > 0 && w != [] && w[0].Num? && ReadNums(w[1..], w[0].n) == Some((b, rest))
    ensures ReadBuckets(w, n) ==
            match ReadBuckets(rest, n - 1)
            case None => None
            case Some((bs, rest')) => Some(([b] + bs, rest'))
  {
    hide ReadNums;
  }

  /** A file whose counts match its lists is read back as written. */
  lemma ParseRender(f: File)
    requires V2_ASMAP <= f.format && INCOMPATIBILITY_BASE <= f.compat <= INCOMPATIBILITY_BASE + FILE_FORMAT
    requires f.nNew == |f.newEntries| <= NEW_BUCKET_COUNT * BUCKET_SIZE
    requires f.nTried == |f.triedEntries| <= TRIED_BUCKET_COUNT * BUCKET_SIZE
    requires f.nBuckets == |f.buckets|
    ensures Parse(Render(f)) == Some(f)
  {
    hide ReadEntries, ReadBuckets, Entries, Buckets;
    var w := Render(f);
    var tail := [Checksum(f.checksum)];
    var w2 := Buckets(f.buckets) + tail;
    var w1 := Entries(f.triedEntries) + w2;
    assert w[6..] == Entries(f.newEntries) + w1;
    ReadEntriesBack(f.newEntries, w1);
    ReadEntriesBack(f.triedEntries, w2);
    ReadBucketsBack(f.buckets, tail);
    assert Flip(Flip(f.nBuckets)) == f.nBuckets;
  }

  // ---- rebuilding ----

  function Start(f: File): State {
    Empty(f.key).(nNew := f.nNew, nTried := f.nTried)
  }

  /** The state after the entries `ds` of the new table, which get the ids 0, 1, ... */
  function LoadNew(e: Env, s: State, ds: seq<Disk>): State {
    if ds == [] then s else
    var n := |ds| - 1;
    var t := LoadNew(e, s, ds[..n]);
    Insert(e, t, n, Revive(ds[n], |t.vRandom|))
  }

  function Insert(e: Env, s: State, id: int, info: AddrInfo): State {
    s.(mapInfo := s.mapInfo[id := info],
       mapAddr := s.mapAddr[info.addr := id],
       vRandom := s.vRandom + [id],
       counts := if info.inTried then Ops.Bump(e, s.counts, info.addr, 0, 1)
                 else Ops.Bump(e, s.counts, info.addr, 1, 0))
  }

  /** One entry of the tried table: it is lost if invalid or if its slot is taken. */
  function LoadTriedOne(e: Env, s: State, d: Disk): State {
    var sl := e.TriedSlot(s.key, d.addr);
    if e.valid(d.addr) && sl !in s.vvTried then
      var t := Insert(e, s, s.idCount, Revive(d, |s.vRandom|).(inTried := true));
      t.(vvTried := t.vvTried[sl := t.idCount], idCount := t.idCount + 1)
    else
      s.(nTried := s.nTried - 1)
  }

  function LoadTried(e: Env, s: State, ds: seq<Disk>): State {
    if ds == [] then s else LoadTriedOne(e, LoadTried(e, s, ds[..|ds| - 1]), ds[|ds| - 1])
  }

  /** The count of tried entries goes its own way. */
  lemma TriedCountApart(e: Env, s: State, d: Disk, k: int)
    ensures LoadTriedOne(e, s.(nTried := s.nTried - k), d) ==
            LoadTriedOne(e, s, d).(nTried := LoadTriedOne(e, s, d).nTried - k)
  {
    var info := Revive(d, |s.vRandom|).(inTried := true);
    InsertApart(e, s, info, s.nTried - k);
    InsertFrame(e, s, s.idCount, info);
    hide Insert, Revive;
  }

  lemma InsertApart(e: Env, s: State, info: AddrInfo, nTried: int)
    ensures Insert(e, s.(nTried := nTried), s.idCount, info) == Insert(e, s, s.idCount, info).(nTried := nTried)
  {
    hide Ops.Bump;
  }

  /** The indexes of one bucket that refer to an entry, paired with the bucket. */
  function InRange(bucket: int, b: seq<int>, nNew: int): seq<(int, int)> {
    if b == [] then [] else
    var x := b[|b| - 1];
    InRange(bucket, b[..|b| - 1], nNew) + if 0 <= x < nNew then [(bucket, x)] else []
  }

  function Pairs(bs: seq<seq<int>>, nNew: int): seq<(int, int)> {
    if bs == [] then [] else Pairs(bs[..|bs| - 1], nNew) + InRange(|bs| - 1, bs[|bs| - 1], nNew)
  }

  function PlaceOne(e: Env, s: State, p: (int, int), restore: bool): State {
    var info := Info(s.mapInfo, p.1);
    if !e.valid(info.addr) || info.refCount >= NEW_BUCKETS_PER_ADDRESS then s else
    var here := Slot(p.0, e.bucketPosition(s.key, true, p.0, info.addr));
    if restore && here !in s.vvNew then Ops.AddRef(s, p.1, here) else
    var home := e.NewSlot(s.key, info.addr, info.source);
    if home !in s.vvNew then Ops.AddRef(s, p.1, home) else s
  }

  function PlaceAll(e: Env, s: State, ps: seq<(int, int)>, restore: bool): State {
    if ps == [] then s else PlaceOne(e, PlaceAll(e, s, ps[..|ps| - 1], restore), ps[|ps| - 1], restore)
  }

  predicate Stray(s: State, id: int) {
    id in s.mapInfo && !s.mapInfo[id].inTried && s.mapInfo[id].refCount == 0
  }

  /** Drop entries without references, visiting the entries in the order `ids`. */
  function Prune(e: Env, s: State, ids: seq<int>): State {
    if ids == [] then s else
    var t := Prune(e, s, ids[..|ids| - 1]);
    if Stray(t, ids[|ids| - 1]) then Ops.Delete(e, t, ids[|ids| - 1]) else t
  }

  predicate Restore(e: Env, f: File) {
    f.nBuckets == NEW_BUCKET_COUNT && f.checksum == e.asmapChecksum
  }

  function Loaded(e: Env, f: File): State {
    LoadTried(e, LoadNew(e, Start(f), f.newEntries).(idCount := f.nNew), f.triedEntries)
  }

  function Placed(e: Env, f: File): State {
    PlaceAll(e, Loaded(e, f), Pairs(f.buckets, f.nNew), Restore(e, f))
  }

  /** `ids` lists the keys of a map once each, in some order. */
  ghost predicate Lists(ids: seq<int>, m: Infos) {
    && (forall i, j :: 0 <= i < j < |ids| ==> ids[i] != ids[j])
    && (forall id :: id in ids <==> id in m)
  }

  /** Unserialize into an empty manager; None stands for every exception. */
  ghost function Load(e: Env, w: seq<Item>, order: seq<int>): Option<State> {
    match Parse(w)
    case None => None
    case Some(f) =>
      var s := Prune(e, Placed(e, f), order);
      if Checked(e, s) then Some(s) else None
  }

  // ---- whatever is read, a manager that loads is consistent ----

  /** What loading establishes of any file, even one that will fail the check. */
  ghost predicate Loose(e: Env, s: State, bound: int) {
    && Ordered(s.mapInfo, s.vRandom)
    && (forall id <- s.mapInfo :: 0 <= id < bound)
    && (forall a <- s.mapAddr :: s.mapAddr[a] in s.mapInfo && s.mapInfo[s.mapAddr[a]].addr == a)
    && Networks(e, s.mapInfo) <= s.counts.Keys
    && LooseTables(e, s)
  }

  ghost predicate LooseTables(e: Env, s: State) {
    && (forall sl <- s.vvNew :: 0 <= sl.bucket < NEW_BUCKET_COUNT)
    && (forall id <- s.mapInfo :: s.mapInfo[id].refCount >= 0)
    && (forall id <- s.mapInfo :: s.mapInfo[id].inTried || s.mapInfo[id].refCount > 0 ==> e.valid(s.mapInfo[id].addr))
  }

  lemma InsertLoose(e: Env, s: State, id: int, info: AddrInfo)
    requires Loose(e, s, id) && 0 <= id
    requires info.randomPos == |s.vRandom| && info.refCount == 0 && (info.inTried ==> e.valid(info.addr))
    ensures Loose(e, Insert(e, s, id, info), id + 1)
  {
    hide Networks;
    assert id !in s.mapInfo;
    NetworksGrow(e, s.mapInfo, id, info);
  }

  lemma {:induction false} LoadNewLoose(e: Env, f: File, ds: seq<Disk>)
    ensures Loose(e, LoadNew(e, Start(f), ds), |ds|)
    ensures var s := LoadNew(e, Start(f), ds);
            s.idCount == 0 && s.collisions == {} && s.key == f.key && s.nNew == f.nNew
  {
    hide Loose, Insert;
    if ds == [] {
      StartLoose(e, f);
    } else {
      var n := |ds| - 1;
      LoadNewLoose(e, f, ds[..n]);
      var t := LoadNew(e, Start(f), ds[..n]);
      InsertLoose(e, t, n, Revive(ds[n], |t.vRandom|));
      InsertFrame(e, t, n, Revive(ds[n], |t.vRandom|));
    }
  }

  lemma StartLoose(e: Env, f: File)
    ensures Loose(e, Start(f), 0)
  {
  }

  lemma InsertFrame(e: Env, s: State, id: int, info: AddrInfo)
    ensures var t := Insert(e, s, id, info);
            t == s.(mapInfo := t.mapInfo, mapAddr := t.mapAddr, vRandom := t.vRandom, counts := t.counts)
  {
  }

  lemma {:induction false} LoadTriedLoose(e: Env, s: State, ds: seq<Disk>)
    requires Loose(e, s, s.idCount) && 0 <= s.idCount && s.collisions == {}
    ensures var t := LoadTried(e, s, ds);
            Loose(e, t, t.idCount) && s.idCount <= t.idCount && t.collisions == {} && t.key == s.key && t.nNew == s.nNew
  {
    hide Loose, Insert;
    if ds != [] {
      LoadTriedLoose(e, s, ds[..|ds| - 1]);
      var t, d := LoadTried(e, s, ds[..|ds| - 1]), ds[|ds| - 1];
      var info := Revive(d, |t.vRandom|).(inTried := true);
      LoadTriedOneLoose(e, t, d);
    }
  }

  lemma LoadTriedOneLoose(e: Env, s: State, d: Disk)
    requires Loose(e, s, s.idCount) && 0 <= s.idCount
    ensures var t := LoadTriedOne(e, s, d);
            && Loose(e, t, t.idCount) && s.idCount <= t.idCount
            && t.collisions == s.collisions && t.key == s.key && t.nNew == s.nNew
  {
    hide Networks;
    var info := Revive(d, |s.vRandom|).(inTried := true);
    if e.valid(d.addr) && e.TriedSlot(s.key, d.addr) !in s.vvTried {
      InsertLoose(e, s, s.idCount, info);
      InsertFrame(e, s, s.idCount, info);
      hide Insert;
    }
  }

  lemma {:induction false} PairsInRange(bs: seq<seq<int>>, nNew: int)
    ensures forall i :: 0 <= i < |Pairs(bs, nNew)| ==>
              0 <= Pairs(bs, nNew)[i].0 < |bs| && 0 <= Pairs(bs, nNew)[i].1 < nNew
  {
    if bs != [] {
      PairsInRange(bs[..|bs| - 1], nNew);
      InRangeInRange(|bs| - 1, bs[|bs| - 1], nNew);
    }
  }

  lemma {:induction false} InRangeInRange(bucket: int, b: seq<int>, nNew: int)
    ensures forall i :: 0 <= i < |InRange(bucket, b, nNew)| ==>
              InRange(bucket, b, nNew)[i].0 == bucket && 0 <= InRange(bucket, b, nNew)[i].1 < nNew
  {
    if b != [] { InRangeInRange(bucket, b[..|b| - 1], nNew); }
  }

  lemma AddRefLoose(e: Env, s: State, id: int, sl: Slot, bound: int)
    requires Loose(e, s, bound) && id in s.mapInfo && e.valid(s.mapInfo[id].addr) && 0 <= sl.bucket < NEW_BUCKET_COUNT
    ensures Loose(e, Ops.AddRef(s, id, sl), bound)
  {
    var n := Ops.AddRef(s, id, sl).mapInfo;
    Ops.OrderedKept(s.mapInfo, n, s.vRandom);
    NetworksSame(e, s.mapInfo, n);
    hide Networks, Ordered;
  }

  lemma NetworksSame(e: Env, m: Infos, n: Infos)
    requires n.Keys <= m.Keys && forall id <- n :: n[id].addr == m[id].addr
    ensures Networks(e, n) <= Networks(e, m)
  {
    forall net | net in Networks(e, n)
      ensures net in Networks(e, m)
    {
      var id :| id in n && e.network(n[id].addr) == net;
      assert id in m && e.network(m[id].addr) == net;
    }
  }

  lemma PlaceOneLoose(e: Env, s: State, p: (int, int), restore: bool, bound: int)
    requires Loose(e, s, bound) && p.1 in s.mapInfo
    requires restore ==> 0 <= p.0 < NEW_BUCKET_COUNT
    ensures var t := PlaceOne(e, s, p, restore);
            && Loose(e, t, bound)
            && t == s.(mapInfo := t.mapInfo, vvNew := t.vvNew)
            && t.mapInfo.Keys == s.mapInfo.Keys
  {
    hide Loose;
    var info := s.mapInfo[p.1];
    if e.valid(info.addr) {
      if restore {
        AddRefLoose(e, s, p.1, Slot(p.0, e.bucketPosition(s.key, true, p.0, info.addr)), bound);
      }
      AddRefLoose(e, s, p.1, e.NewSlot(s.key, info.addr, info.source), bound);
    }
  }

  lemma {:induction false} PlaceAllLoose(e: Env, s: State, ps: seq<(int, int)>, restore: bool, bound: int)
    requires Loose(e, s, bound) && forall i :: 0 <= i < |ps| ==> ps[i].1 in s.mapInfo
    requires restore ==> forall i :: 0 <= i < |ps| ==> 0 <= ps[i].0 < NEW_BUCKET_COUNT
    ensures var t := PlaceAll(e, s, ps, restore);
            && Loose(e, t, bound)
            && t == s.(mapInfo := t.mapInfo, vvNew := t.vvNew)
            && t.mapInfo.Keys == s.mapInfo.Keys
  {
    hide Loose, PlaceOne;
    if ps != [] {
      PlaceAllLoose(e, s, ps[..|ps| - 1], restore, bound);
      PlaceOneLoose(e, PlaceAll(e, s, ps[..|ps| - 1], restore), ps[|ps| - 1], restore, bound);
    }
  }

  /** What the entries and addresses of a state must still satisfy after a deletion. */
  lemma LooseWithout(e: Env, s: State, t: State, id: int, bound: int)
    requires Loose(e, s, bound) && id in s.mapInfo && Ordered(t.mapInfo, t.vRandom)
    requires Kin(s, t) && t.mapInfo.Keys == s.mapInfo.Keys - {id} && t.vvNew == s.vvNew
    requires forall x <- t.mapInfo :: t.mapInfo[x].refCount == s.mapInfo[x].refCount
    requires t.mapAddr == s.mapAddr - {s.mapInfo[id].addr} && s.counts.Keys <= t.counts.Keys
    ensures Loose(e, t, bound)
  {
    NetworksSame(e, s.mapInfo, t.mapInfo);
    hide Networks, Ordered;
    forall a | a in t.mapAddr
      ensures t.mapAddr[a] in t.mapInfo && t.mapInfo[t.mapAddr[a]].addr == a
    {
      var x := t.mapAddr[a];
      assert x in s.mapInfo && s.mapInfo[x].addr == a && x != id;
    }
  }

  lemma DeleteLoose(e: Env, s: State, id: int, bound: int)
    requires Loose(e, s, bound) && id in s.mapInfo
    ensures Loose(e, Ops.Delete(e, s, id), bound)
    ensures Ops.Delete(e, s, id).mapInfo.Keys == s.mapInfo.Keys - {id}
    ensures Kin(s, Ops.Delete(e, s, id))
    ensures forall x <- s.mapInfo :: x != id ==> Ops.Delete(e, s, id).mapInfo[x].refCount == s.mapInfo[x].refCount
  {
    hide Networks, Ordered, LooseTables, Ops.Delete;
    DeleteKin(e, s, id);
    DeleteOrdered(e, s, id);
    DeleteAddresses(e, s, id);
    LooseWithout(e, s, Ops.Delete(e, s, id), id, bound);
  }

  lemma DropLastOrdered(m: Infos, v: seq<int>, id: int)
    requires Ordered(m, v) && |v| > 0 && v[|v| - 1] == id
    ensures Ordered(m - {id}, v[..|v| - 1])
  {
  }

  lemma DeleteOrdered(e: Env, s: State, id: int)
    requires Ordered(s.mapInfo, s.vRandom) && id in s.mapInfo
    ensures Ordered(Ops.Delete(e, s, id).mapInfo, Ops.Delete(e, s, id).vRandom)
  {
    hide Ordered;
    Ops.OrderedAt(s.mapInfo, s.vRandom, id);
    var pos, last := s.mapInfo[id].randomPos, |s.vRandom| - 1;
    Ops.SwapOrdered(s, pos, last);
    var m := Ops.SwapRandom(s, pos, last);
    DropLastOrdered(m.mapInfo, m.vRandom, id);
  }

  lemma DeleteAddresses(e: Env, s: State, id: int)
    requires Ordered(s.mapInfo, s.vRandom) && id in s.mapInfo
    ensures Ops.Delete(e, s, id).mapAddr == s.mapAddr - {s.mapInfo[id].addr}
    ensures s.counts.Keys <= Ops.Delete(e, s, id).counts.Keys
  {
    hide Ordered, Ops.SwapRandom;
    Ops.OrderedAt(s.mapInfo, s.vRandom, id);
    Ops.SwapOrdered(s, s.mapInfo[id].randomPos, |s.vRandom| - 1);
  }

  lemma {:induction false} PruneLoose(e: Env, s: State, ids: seq<int>, bound: int)
    requires Loose(e, s, bound)
    ensures Loose(e, Prune(e, s, ids), bound)
    ensures Kin(s, Prune(e, s, ids))
    ensures forall i :: 0 <= i < |ids| ==> !Stray(Prune(e, s, ids), ids[i])
    ensures Prune(e, s, ids).collisions == s.collisions
  {
    hide Loose, Ops.Delete;
    if ids != [] {
      var n := |ids| - 1;
      PruneLoose(e, s, ids[..n], bound);
      var t := Prune(e, s, ids[..n]);
      if Stray(t, ids[n]) {
        DeleteLoose(e, t, ids[n], bound);
      }
      forall i | 0 <= i < n
        ensures !Stray(Prune(e, s, ids), ids[i])
      {
        assert !Stray(t, ids[..n][i]);
      }
    }
  }

  lemma {:induction false} LoadNewKeys(e: Env, s: State, ds: seq<Disk>)
    requires s.mapInfo == map[]
    ensures forall id :: id in LoadNew(e, s, ds).mapInfo <==> 0 <= id < |ds|
  {
    if ds != [] { LoadNewKeys(e, s, ds[..|ds| - 1]); }
  }

  lemma {:induction false} LoadTriedKeys(e: Env, s: State, ds: seq<Disk>)
    ensures s.mapInfo.Keys <= LoadTried(e, s, ds).mapInfo.Keys
  {
    if ds != [] { LoadTriedKeys(e, s, ds[..|ds| - 1]); }
  }

  lemma {:induction false} ReadEntriesCount(w: seq<Item>, n: int)
    requires ReadEntries(w, n).Some? && 0 <= n
    ensures |ReadEntries(w, n).value.0| == n
    decreases n
  {
    if n > 0 { ReadEntriesCount(w[1..], n - 1); }
  }

  lemma {:induction false} ReadBucketsCount(w: seq<Item>, n: int)
    requires ReadBuckets(w, n).Some?
    ensures |ReadBuckets(w, n).value.0| == if n <= 0 then 0 else n
    decreases n
  {
    if n > 0 { ReadBucketsCount(ReadNums(w[1..], w[0].n).value.1, n - 1); }
  }

  lemma ParsedShape(w: seq<Item>)
    requires Parse(w).Some?
    ensures var f := Parse(w).value;
            && f.nNew == |f.newEntries| && f.nTried == |f.triedEntries|
            && |f.buckets| == if f.nBuckets <= 0 then 0 else f.nBuckets
  {
    hide ReadEntries, ReadBuckets;
    ReadEntriesCount(w[6..], w[3].n);
    ReadEntriesCount(ReadEntries(w[6..], w[3].n).value.1, w[4].n);
    var f := Parse(w).value;
    ReadBucketsCount(ReadEntries(ReadEntries(w[6..], w[3].n).value.1, w[4].n).value.1, f.nBuckets);
  }

  lemma PlacedLoose(e: Env, f: File)
    requires f.nNew == |f.newEntries| && |f.buckets| == if f.nBuckets <= 0 then 0 else f.nBuckets
    ensures var s := Placed(e, f); Loose(e, s, s.idCount) && s.collisions == {} && 0 <= s.idCount
  {
    hide Loose, LoadTried, LoadNew, PlaceAll, Pairs;
    LoadNewLoose(e, f, f.newEntries);
    LoadNewKeys(e, Start(f), f.newEntries);
    var s := LoadNew(e, Start(f), f.newEntries).(idCount := f.nNew);
    LooseSame(e, LoadNew(e, Start(f), f.newEntries), s, f.nNew);
    LoadTriedLoose(e, s, f.triedEntries);
    LoadTriedKeys(e, s, f.triedEntries);
    PairsInRange(f.buckets, f.nNew);
    var t := Loaded(e, f);
    PlaceAllLoose(e, t, Pairs(f.buckets, f.nNew), Restore(e, f), t.idCount);
  }

  lemma LooseSame(e: Env, s: State, t: State, bound: int)
    requires Loose(e, s, bound) && t == s.(idCount := t.idCount)
    ensures Loose(e, t, bound)
  {
    hide Ordered, Networks;
  }

  lemma LooseUnchecked(e: Env, s: State)
    requires Loose(e, s, s.idCount) && forall id <- s.mapInfo :: !Stray(s, id)
    ensures Unchecked(e, s)
  {
    hide Ordered, Networks;
    forall id | id in s.mapInfo
      ensures e.valid(s.mapInfo[id].addr)
    {
      assert !Stray(s, id);
    }
  }

  /** A manager that loads without an exception, from any stream whatever, is consistent. */
  lemma LoadConsistent(e: Env, w: seq<Item>, order: seq<int>)
    requires Parse(w).Some? ==> Lists(order, Placed(e, Parse(w).value).mapInfo)
    ensures Load(e, w, order).Some? ==> Consistent(e, Load(e, w, order).value)
  {
    hide Loose, Checked, Unchecked, Placed, Prune, Partial, Parse;
    if Load(e, w, order).Some? {
      var f := Parse(w).value;
      ParsedShape(w);
      PlacedLoose(e, f);
      var s := Placed(e, f);
      PruneLoose(e, s, order, s.idCount);
      var t := Prune(e, s, order);
      forall id | id in t.mapInfo
        ensures !Stray(t, id)
      {
        assert id in s.mapInfo && id in order;
        var i :| 0 <= i < |order| && order[i] == id;
        assert !Stray(t, order[i]);
      }
      LooseUnchecked(e, t);
      TablesCheckedExactly(e, t);
    }
  }
}
