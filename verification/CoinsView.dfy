/**
 A stack of write-back coin caches over a database, as values: what each
 operation does to the stack, the invariant between a cache and what lies below
 it, and the refinement of one flat map per level.
 */
module CoinsView {
  import opened Basics

  datatype OutPoint = OutPoint(txid: int, n: int)

  datatype Coin = Coin(value: int, script: seq<int>, height: int, coinbase: bool)

  const NULL_COIN := Coin(-1, [], 0, false)

  /** An output of value -1 is null, and a coin without an output is spent. */
  predicate IsSpent(c: Coin) {
    c.value == -1
  }

  /** A cached coin with its DIRTY and FRESH flags. */
  datatype Entry = Entry(coin: Coin, isDirty: bool, isFresh: bool)

  type Cache = map<OutPoint, Entry>

  /** A database, or a cache over another view. The best block 0 is the null hash. */
  datatype Stack =
    | Base(db: map<OutPoint, Coin>, best: int)
    | Layer(cache: Cache, usage: int, best: int, below: Stack)

  /** Script properties the caches ask about. */
  datatype Scripts = Scripts(memory: seq<int> -> nat, unspendable: seq<int> -> bool)

  function Memory(p: Scripts, c: Coin): nat {
    p.memory(c.script)
  }

  // ---- what a stack shows ----

  function Shown(c: Coin): Option<Coin> {
    if IsSpent(c) then None else Some(c)
  }

  /** The unspent coin a view holds for an outpoint. */
  function Lookup(s: Stack, o: OutPoint): Option<Coin> {
    match s
    case Base(db, _) => if o in db then Shown(db[o]) else None
    case Layer(cache, _, _, below) => if o in cache then Shown(cache[o].coin) else Lookup(below, o)
  }

  /** The block hash a view reports: its own, or that of the view below. */
  function BestBlock(s: Stack): int {
    match s
    case Base(_, best) => best
    case Layer(_, _, best, below) => if best != 0 then best else BestBlock(below)
  }

  /** Asking for the best block, which every level without one then remembers. */
  function AskBest(s: Stack): (Stack, int) {
    match s
    case Base(_, best) => (s, best)
    case Layer(cache, usage, best, below) =>
      if best != 0 then (s, best) else
      var (t, got) := AskBest(below);
      (Layer(cache, usage, got, t), got)
  }

  // ---- the invariant ----

  /** What the flags of an entry promise, given what the view below shows. */
  predicate EntryOk(en: Entry, under: Option<Coin>) {
    && (IsSpent(en.coin) ==> en.coin == NULL_COIN && en.isDirty && !en.isFresh)
    && (en.isFresh ==> en.isDirty && under.None?)
    && (!en.isDirty ==> Shown(en.coin) == under)
  }

  ghost function Total(p: Scripts, cache: Cache): nat {
    if cache == map[] then 0 else
    var o :| o in cache;
    Memory(p, cache[o].coin) + Total(p, cache - {o})
  }

  ghost predicate Entries(cache: Cache, below: Stack) {
    forall o <- cache :: EntryOk(cache[o], Lookup(below, o))
  }

  ghost predicate Ok(p: Scripts, s: Stack) {
    match s
    case Base(db, _) => forall o <- db :: !IsSpent(db[o])
    case Layer(cache, usage, _, below) => Entries(cache, below) && usage == Total(p, cache) && Ok(p, below)
  }

  /** The flag states SanityCheck asserts: not (unspent, FRESH only), (spent, none), (spent, both). */
  predicate SaneFlags(en: Entry) {
    && !(en.isFresh && !en.isDirty && !IsSpent(en.coin))
    && !(IsSpent(en.coin) && !en.isDirty && !en.isFresh)
    && !(IsSpent(en.coin) && en.isDirty && en.isFresh)
  }

  /** Of the five states SanityCheck allows only four occur: nothing spent is ever fetched. */
  lemma FlagStates(p: Scripts, s: Stack, o: OutPoint)
    requires Ok(p, s) && s.Layer? && o in s.cache
    ensures SaneFlags(s.cache[o])
    ensures !(IsSpent(s.cache[o].coin) && s.cache[o].isFresh)
  {
  }

  // ---- sums over a cache ----

  lemma {:induction false} TotalWithout(p: Scripts, cache: Cache, o: OutPoint)
    requires o in cache
    ensures Total(p, cache) == Memory(p, cache[o].coin) + Total(p, cache - {o})
    decreases |cache|
  {
    var x :| x in cache && Total(p, cache) == Memory(p, cache[x].coin) + Total(p, cache - {x});
    if x != o {
      TotalWithout(p, cache - {x}, o);
      TotalWithout(p, cache - {o}, x);
      assert cache - {x} - {o} == cache - {o} - {x};
    }
  }

  lemma TotalSet(p: Scripts, cache: Cache, o: OutPoint, en: Entry)
    ensures Total(p, cache[o := en]) == Memory(p, en.coin) + Total(p, cache - {o})
    ensures o in cache ==> Total(p, cache) == Memory(p, cache[o].coin) + Total(p, cache - {o})
    ensures o !in cache ==> Total(p, cache) == Total(p, cache - {o})
  {
    TotalWithout(p, cache[o := en], o);
    assert cache[o := en] - {o} == cache - {o};
    if o in cache { TotalWithout(p, cache, o); } else { assert cache - {o} == cache; }
  }

  // ---- operations ----

  /** Look up through the stack, filling every cache on the way. */
  function GetCoin(p: Scripts, s: Stack, o: OutPoint): (Stack, Option<Coin>)
    decreases s, 1
  {
    match s
    case Base(db, _) => (s, if o in db then Some(db[o]) else None)
    case Layer(_, _, _, _) =>
      var t := Fetch(p, s, o);
      (t, if o in t.cache then Shown(t.cache[o].coin) else None)
  }

  function Fetch(p: Scripts, s: Stack, o: OutPoint): (t: Stack)
    requires s.Layer?
    ensures t.Layer?
    decreases s, 0
  {
    if o in s.cache then s else
    var (below, got) := GetCoin(p, s.below, o);
    match got
    case None => s.(below := below)
    case Some(coin) =>
      s.(below := below, cache := s.cache[o := Entry(coin, false, IsSpent(coin))], usage := s.usage + Memory(p, coin))
  }

  /** Add a coin; the flag says whether the overwrite check threw. */
  function AddCoin(p: Scripts, s: Stack, o: OutPoint, coin: Coin, overwrite: bool): (Stack, bool)
    requires s.Layer?
  {
    if p.unspendable(coin.script) then (s, false) else
    var en := if o in s.cache then s.cache[o] else Entry(NULL_COIN, false, false);
    var usage := if o in s.cache then s.usage - Memory(p, en.coin) else s.usage;
    if !overwrite && !IsSpent(en.coin) then (s.(usage := usage), true) else
    var isFresh := !overwrite && !en.isDirty;
    (s.(cache := s.cache[o := Entry(coin, true, en.isFresh || isFresh)], usage := usage + Memory(p, coin)), false)
  }

  /** Spend a coin; None where the view has no entry, otherwise what was there. */
  function SpendCoin(p: Scripts, s: Stack, o: OutPoint): (Stack, Option<Coin>)
    requires s.Layer?
  {
    var t := Fetch(p, s, o);
    if o !in t.cache then (t, None) else
    var en := t.cache[o];
    var usage := t.usage - Memory(p, en.coin);
    if en.isFresh then (t.(cache := t.cache - {o}, usage := usage), Some(en.coin))
    else (t.(cache := t.cache[o := Entry(NULL_COIN, true, en.isFresh)], usage := usage), Some(en.coin))
  }

  function Uncache(p: Scripts, s: Stack, o: OutPoint): Stack
    requires s.Layer?
  {
    if o in s.cache && !s.cache[o].isDirty && !s.cache[o].isFresh
    then s.(cache := s.cache - {o}, usage := s.usage - Memory(p, s.cache[o].coin)) else s
  }

  /** What becomes of a parent's entry when a child's entry is written to it. */
  function Merge(mine: Option<Entry>, child: Entry): Option<Entry> {
    if !child.isDirty then mine else
    match mine
    case None =>
      if child.isFresh && IsSpent(child.coin) then None else Some(Entry(child.coin, true, child.isFresh))
    case Some(en) =>
      if en.isFresh && IsSpent(child.coin) then None else Some(Entry(child.coin, true, en.isFresh))
  }

  /** The parent refuses an entry marked FRESH that it holds unspent. */
  predicate Misapplied(mine: Option<Entry>, child: Entry) {
    child.isDirty && child.isFresh && mine.Some? && !IsSpent(mine.value.coin)
  }

  function Find(cache: Cache, o: OutPoint): Option<Entry> {
    if o in cache then Some(cache[o]) else None
  }

  function Merged(mine: Cache, child: Cache, o: OutPoint): Option<Entry> {
    if o in child then Merge(Find(mine, o), child[o]) else Find(mine, o)
  }

  function MergeAll(mine: Cache, child: Cache): Cache {
    map o | o in mine.Keys + child.Keys && Merged(mine, child, o).Some? :: Merged(mine, child, o).value
  }

  function WriteDb(db: map<OutPoint, Coin>, child: Cache): map<OutPoint, Coin> {
    map o | o in db.Keys + child.Keys && Written(db, child, o).Some? :: Written(db, child, o).value
  }

  function Written(db: map<OutPoint, Coin>, child: Cache, o: OutPoint): Option<Coin> {
    if o in child && child[o].isDirty then Shown(child[o].coin)
    else if o in db then Some(db[o]) else None
  }

  /** Write a child's entries into this view. */
  ghost function BatchWrite(p: Scripts, s: Stack, child: Cache, best: int): Stack {
    match s
    case Base(db, _) => Base(WriteDb(db, child), best)
    case Layer(cache, _, _, below) => Layer(MergeAll(cache, child), Total(p, MergeAll(cache, child)), best, below)
  }

  ghost function Flush(p: Scripts, s: Stack): Stack
    requires s.Layer?
  {
    Layer(map[], 0, s.best, BatchWrite(p, s.below, s.cache, s.best))
  }

  function Cleaned(cache: Cache): Cache {
    map o | o in cache && !IsSpent(cache[o].coin) :: Entry(cache[o].coin, false, false)
  }

  ghost function Sync(p: Scripts, s: Stack): Stack
    requires s.Layer?
  {
    Layer(Cleaned(s.cache), Total(p, Cleaned(s.cache)), s.best, BatchWrite(p, s.below, s.cache, s.best))
  }
}
