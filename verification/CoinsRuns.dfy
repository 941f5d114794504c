/**
 Whole runs over a stack of coin caches of any depth, against one flat map per
 level.
 */
module CoinsRuns {
  import opened Basics
  import opened CoinsView
  import opened CoinsRefinement

  // ---- adding a transaction ----

  datatype TxOut = TxOut(value: int, script: seq<int>)

  datatype Tx = Tx(id: int, outputs: seq<TxOut>, coinbase: bool)

  function OutputCoin(tx: Tx, i: nat, height: int): Coin
    requires i < |tx.outputs|
  {
    Coin(tx.outputs[i].value, tx.outputs[i].script, height, tx.coinbase)
  }

  function HaveCoin(p: Scripts, s: Stack, o: OutPoint): (Stack, bool)
    requires s.Layer?
  {
    var t := Fetch(p, s, o);
    (t, o in t.cache && !IsSpent(t.cache[o].coin))
  }

  function AddOutput(p: Scripts, s: Stack, tx: Tx, i: nat, height: int, check: bool): (r: (Stack, bool))
    requires s.Layer? && i < |tx.outputs|
    ensures r.0.Layer?
  {
    var o := OutPoint(tx.id, i);
    var (t, have) := if check then HaveCoin(p, s, o) else (s, tx.coinbase);
    AddCoin(p, t, o, OutputCoin(tx, i, height), have)
  }

  /** The first `n` outputs; the flag says whether one of them threw. */
  function AddCoins(p: Scripts, s: Stack, tx: Tx, n: nat, height: int, check: bool): (r: (Stack, bool))
    requires s.Layer? && n <= |tx.outputs|
    ensures r.0.Layer?
  {
    if n == 0 then (s, false) else
    var (t, threw) := AddCoins(p, s, tx, n - 1, height, check);
    if threw then (t, true) else AddOutput(p, t, tx, n - 1, height, check)
  }

  // ---- the flat reference ----

  type Flat = map<OutPoint, Coin>

  function Get(m: Flat, o: OutPoint): Option<Coin> {
    if o in m then Some(m[o]) else None
  }

  function FlatAdd(p: Scripts, m: Flat, o: OutPoint, coin: Coin): Flat {
    if p.unspendable(coin.script) then m else m[o := coin]
  }

  function FlatAddAll(p: Scripts, m: Flat, tx: Tx, n: nat, height: int): Flat
    requires n <= |tx.outputs|
  {
    if n == 0 then m
    else FlatAdd(p, FlatAddAll(p, m, tx, n - 1, height), OutPoint(tx.id, n - 1), OutputCoin(tx, n - 1, height))
  }

  /** One flat map per level, the top first. */
  ghost predicate Shows(s: Stack, ref: seq<Flat>) {
    && ref != []
    && (forall o :: Lookup(s, o) == Get(ref[0], o))
    && match s
       case Base(_, _) => |ref| == 1
       case Layer(_, _, _, below) => Shows(below, ref[1..])
  }

  lemma {:induction false} ShowsSame(s: Stack, t: Stack, ref: seq<Flat>)
    requires Shows(s, ref) && SameViews(s, t)
    ensures Shows(t, ref)
  {
    if s.Layer? { ShowsSame(s.below, t.below, ref[1..]); }
  }

  lemma ShowsSet(s: Stack, t: Stack, ref: seq<Flat>, o: OutPoint, c: Option<Coin>, m: Flat)
    requires Shows(s, ref) && Sets(s, t, o, c)
    requires forall x :: Get(m, x) == if x == o then c else Get(ref[0], x)
    ensures Shows(t, ref[0 := m])
  {
    ShowsSame(s.below, t.below, ref[1..]);
    assert ref[0 := m][1..] == ref[1..];
  }

  lemma ShowsDown(s: Stack, t: Stack, ref: seq<Flat>)
    requires Shows(s, ref) && s.Layer? && t.Layer?
    requires forall o :: Lookup(t, o) == Lookup(s, o) && Lookup(t.below, o) == Lookup(s, o)
    requires s.below.Layer? ==> t.below.Layer? && t.below.below == s.below.below
    requires s.below.Base? ==> t.below.Base?
    ensures |ref| > 1 && Shows(t, ref[1 := ref[0]])
  {
    var r := ref[1 := ref[0]];
    assert ref[1..] != [] && r[1..][0] == ref[0];
    assert r[1..][1..] == ref[1..][1..];
    if s.below.Layer? { assert Shows(t.below.below, r[1..][1..]); }
    assert Shows(t.below, r[1..]);
  }

  // ---- operations on the top of the stack ----

  datatype Op =
    | Read(o: OutPoint)
    | Have(o: OutPoint)
    | Add(o: OutPoint, coin: Coin, overwrite: bool)
    | AddTx(tx: Tx, height: int, check: bool)
    | Spend(o: OutPoint)
    | Drop(o: OutPoint)
    | FlushTop
    | SyncTop
    | AskForBest
    | SetBest(best: int)
    | Push
    | Discard

  /** What callers owe: coins that are not null, no silent overwrite, a block hash before writing to the database. */
  ghost predicate Legal(s: Stack, op: Op) {
    match op
    case Read(_) => true
    case Have(_) => s.Layer?
    case Add(o, coin, overwrite) => s.Layer? && !IsSpent(coin) && (overwrite || Lookup(s, o) == None)
    case AddTx(tx, height, check) =>
      && s.Layer? && (forall i :: 0 <= i < |tx.outputs| ==> tx.outputs[i].value != -1)
      && (check || tx.coinbase || forall i: nat :: i < |tx.outputs| ==> Lookup(s, OutPoint(tx.id, i)) == None)
    case Spend(_) => s.Layer?
    case Drop(_) => s.Layer?
    case FlushTop => s.Layer? && (s.below.Base? ==> s.best != 0)
    case SyncTop => s.Layer? && (s.below.Base? ==> s.best != 0)
    case AskForBest => true
    case SetBest(_) => s.Layer?
    case Push => true
    case Discard => s.Layer?
  }

  ghost function Step(p: Scripts, s: Stack, op: Op): Stack
    requires Legal(s, op)
  {
    match op
    case Read(o) => GetCoin(p, s, o).0
    case Have(o) => HaveCoin(p, s, o).0
    case Add(o, coin, overwrite) => AddCoin(p, s, o, coin, overwrite).0
    case AddTx(tx, height, check) => AddCoins(p, s, tx, |tx.outputs|, height, check).0
    case Spend(o) => SpendCoin(p, s, o).0
    case Drop(o) => Uncache(p, s, o)
    case FlushTop => Flush(p, s)
    case SyncTop => Sync(p, s)
    case AskForBest => AskBest(s).0
    case SetBest(best) => s.(best := best)
    case Push => Layer(map[], 0, 0, s)
    case Discard => s.below
  }

  ghost function FlatStep(p: Scripts, ref: seq<Flat>, op: Op): seq<Flat>
    requires |ref| > 0 && (op.FlushTop? || op.SyncTop? || op.Discard? ==> |ref| > 1)
  {
    match op
    case Read(_) => ref
    case Have(_) => ref
    case Add(o, coin, _) => ref[0 := FlatAdd(p, ref[0], o, coin)]
    case AddTx(tx, height, _) => ref[0 := FlatAddAll(p, ref[0], tx, |tx.outputs|, height)]
    case Spend(o) => ref[0 := ref[0] - {o}]
    case Drop(_) => ref
    case FlushTop => ref[1 := ref[0]]
    case SyncTop => ref[1 := ref[0]]
    case AskForBest => ref
    case SetBest(_) => ref
    case Push => [ref[0]] + ref
    case Discard => ref[1..]
  }

  // ---- each operation is an update of the flat maps ----

  lemma AddRefines(p: Scripts, s: Stack, ref: seq<Flat>, o: OutPoint, coin: Coin, overwrite: bool)
    requires Ok(p, s) && s.Layer? && Shows(s, ref) && !IsSpent(coin)
    requires overwrite || Lookup(s, o) == None
    ensures var (t, threw) := AddCoin(p, s, o, coin, overwrite);
            !threw && Ok(p, t) && Shows(t, ref[0 := FlatAdd(p, ref[0], o, coin)])
  {
    AddCoinKeeps(p, s, o, coin, overwrite);
    var (t, threw) := AddCoin(p, s, o, coin, overwrite);
    hide AddCoin;
    ShowsSet(s, t, ref, o, if p.unspendable(coin.script) then Lookup(s, o) else Some(coin),
             FlatAdd(p, ref[0], o, coin));
  }

  lemma AddOutputRefines(p: Scripts, s: Stack, ref: seq<Flat>, tx: Tx, i: nat, height: int, check: bool)
    requires Ok(p, s) && s.Layer? && Shows(s, ref) && i < |tx.outputs| && tx.outputs[i].value != -1
    requires check || tx.coinbase || Lookup(s, OutPoint(tx.id, i)) == None
    ensures var (t, threw) := AddOutput(p, s, tx, i, height, check);
            !threw && Ok(p, t) && Shows(t, ref[0 := FlatAdd(p, ref[0], OutPoint(tx.id, i), OutputCoin(tx, i, height))])
  {
    hide Ok, Shows;
    var o := OutPoint(tx.id, i);
    if check {
      HaveCoinKeeps(p, s, o);
      var t := HaveCoin(p, s, o).0;
      ShowsSame(s, t, ref);
      assert Lookup(t, o) == Lookup(s, o) by { LookupSame(s, t, o); }
      AddRefines(p, t, ref, o, OutputCoin(tx, i, height), HaveCoin(p, s, o).1);
    } else {
      AddRefines(p, s, ref, o, OutputCoin(tx, i, height), tx.coinbase);
    }
  }

  lemma LookupSame(s: Stack, t: Stack, o: OutPoint)
    requires SameViews(s, t)
    ensures Lookup(t, o) == Lookup(s, o)
  {
  }

  lemma {:induction false} AddCoinsRefines(p: Scripts, s: Stack, ref: seq<Flat>, tx: Tx, n: nat, height: int,
      check: bool)
    requires Ok(p, s) && s.Layer? && Shows(s, ref) && n <= |tx.outputs|
    requires forall i :: 0 <= i < |tx.outputs| ==> tx.outputs[i].value != -1
    requires check || tx.coinbase || forall i: nat :: i < |tx.outputs| ==> Lookup(s, OutPoint(tx.id, i)) == None
    ensures var (t, threw) := AddCoins(p, s, tx, n, height, check);
            !threw && Ok(p, t) && Shows(t, ref[0 := FlatAddAll(p, ref[0], tx, n, height)])
  {
    hide Ok, Shows, AddOutput, Lookup, FlatAdd, Get;
    ShowsLevels(s, ref);
    if n == 0 {
      assert ref[0 := ref[0]] == ref;
    } else {
      AddCoinsRefines(p, s, ref, tx, n - 1, height, check);
      var t := AddCoins(p, s, tx, n - 1, height, check).0;
      var m := FlatAddAll(p, ref[0], tx, n - 1, height);
      var o := OutPoint(tx.id, n - 1);
      ShowsLevels(t, ref[0 := m]);
      FlatAddAllElsewhere(p, ref[0], tx, n - 1, height, o);
      ShowsAt(s, ref, o);
      ShowsAt(t, ref[0 := m], o);
      AddOutputRefines(p, t, ref[0 := m], tx, n - 1, height, check);
      var more := FlatAddAll(p, ref[0], tx, n, height);
      assert ref[0 := m][0 := more] == ref[0 := more];
    }
  }

  lemma ShowsAt(s: Stack, ref: seq<Flat>, o: OutPoint)
    requires Shows(s, ref)
    ensures ref != [] && Lookup(s, o) == Get(ref[0], o)
  {
  }

  lemma ShowsLevels(s: Stack, ref: seq<Flat>)
    requires Shows(s, ref)
    ensures ref != [] && (s.Layer? <==> |ref| > 1)
  {
    if s.Layer? { assert ref[1..] != []; }
  }

  lemma {:induction false} FlatAddAllElsewhere(p: Scripts, m: Flat, tx: Tx, n: nat, height: int, o: OutPoint)
    requires n <= |tx.outputs| && (o.txid != tx.id || o.n >= n)
    ensures Get(FlatAddAll(p, m, tx, n, height), o) == Get(m, o)
  {
    if n > 0 { FlatAddAllElsewhere(p, m, tx, n - 1, height, o); }
  }

  /** The view has a coin exactly if it shows one, and asking changes no view. */
  lemma HaveCoinKeeps(p: Scripts, s: Stack, o: OutPoint)
    requires Ok(p, s) && s.Layer?
    ensures var (t, have) := HaveCoin(p, s, o);
            (have <==> Lookup(s, o).Some?) && Ok(p, t) && SameViews(s, t)
  {
    FetchKeeps(p, s, o);
  }

  /**
   What the operations that ask something answer: a read and a spend the flat map's
   coin, if it has one, and no coin otherwise; and no legal addition throws.
   */
  ghost predicate Answers(p: Scripts, s: Stack, m: Flat, op: Op)
    requires Legal(s, op)
  {
    match op
    case Read(o) => GetCoin(p, s, o).1 == Get(m, o)
    case Have(o) => HaveCoin(p, s, o).1 <==> o in m
    case Add(o, coin, overwrite) => !AddCoin(p, s, o, coin, overwrite).1
    case AddTx(tx, height, check) => !AddCoins(p, s, tx, |tx.outputs|, height, check).1
    case Spend(o) =>
      var got := SpendCoin(p, s, o).1;
      if o in m then got == Some(m[o]) else got == None || got == Some(NULL_COIN)
    case AskForBest => AskBest(s).1 == BestBlock(s)
    case _ => true
  }

  /** Every legal operation keeps the invariant and is the flat operation of the same name, answers included. */
  lemma StepRefines(p: Scripts, s: Stack, ref: seq<Flat>, op: Op)
    requires Ok(p, s) && Shows(s, ref) && Legal(s, op) && p.memory([]) == 0
    ensures op.FlushTop? || op.SyncTop? || op.Discard? ==> |ref| > 1
    ensures Ok(p, Step(p, s, op)) && Shows(Step(p, s, op), FlatStep(p, ref, op))
    ensures Answers(p, s, ref[0], op)
  {
    hide Fetch, GetCoin, HaveCoin, AddCoin, AddCoins, SpendCoin, Uncache, Flush, Sync, FlatAdd, FlatAddAll;
    ShowsLevels(s, ref);
    match op
    case Read(o) =>
      GetCoinKeeps(p, s, o);
      ShowsSame(s, GetCoin(p, s, o).0, ref);
    case Have(o) =>
      HaveCoinKeeps(p, s, o);
      ShowsSame(s, HaveCoin(p, s, o).0, ref);
      ShowsAt(s, ref, o);
    case Add(o, coin, overwrite) => AddRefines(p, s, ref, o, coin, overwrite);
    case AddTx(tx, height, check) => AddCoinsRefines(p, s, ref, tx, |tx.outputs|, height, check);
    case Spend(o) =>
      SpendCoinKeeps(p, s, o);
      ShowsSet(s, SpendCoin(p, s, o).0, ref, o, None, ref[0] - {o});
    case Drop(o) =>
      UncacheKeeps(p, s, o);
      ShowsSame(s, Uncache(p, s, o), ref);
    case FlushTop => FlushShows(p, s, ref);
    case SyncTop => SyncShows(p, s, ref);
    case AskForBest =>
      AskBestShows(p, s, ref);
      AskBestKeeps(p, s);
    case SetBest(_) =>
    case Push =>
      assert ([ref[0]] + ref)[1..] == ref;
    case Discard =>
  }

  lemma {:induction false} AskBestShows(p: Scripts, s: Stack, ref: seq<Flat>)
    requires Ok(p, s) && Shows(s, ref)
    ensures Ok(p, AskBest(s).0) && Shows(AskBest(s).0, ref)
  {
    hide Entries, Total;
    AskBestKeeps(p, s);
    if s.Layer? && s.best == 0 { AskBestShows(p, s.below, ref[1..]); }
  }

  lemma FlushShows(p: Scripts, s: Stack, ref: seq<Flat>)
    requires Ok(p, s) && Shows(s, ref) && s.Layer?
    ensures |ref| > 1 && Ok(p, Flush(p, s)) && Shows(Flush(p, s), ref[1 := ref[0]])
  {
    FlushKeeps(p, s);
    ShowsDown(s, Flush(p, s), ref);
  }

  lemma SyncShows(p: Scripts, s: Stack, ref: seq<Flat>)
    requires Ok(p, s) && Shows(s, ref) && s.Layer?
    ensures |ref| > 1 && Ok(p, Sync(p, s)) && Shows(Sync(p, s), ref[1 := ref[0]])
  {
    SyncKeeps(p, s);
    ShowsDown(s, Sync(p, s), ref);
  }

  // ---- runs ----

  ghost predicate LegalRun(p: Scripts, s: Stack, ops: seq<Op>)
    decreases |ops|
  {
    ops != [] ==> Legal(s, ops[0]) && LegalRun(p, Step(p, s, ops[0]), ops[1..])
  }

  ghost function Run(p: Scripts, s: Stack, ops: seq<Op>): Stack
    requires LegalRun(p, s, ops)
    decreases |ops|
  {
    if ops == [] then s else Run(p, Step(p, s, ops[0]), ops[1..])
  }

  /** The reference run; operations that need a second level do nothing without one. */
  ghost function FlatRun(p: Scripts, ref: seq<Flat>, ops: seq<Op>): seq<Flat>
    decreases |ops|
  {
    if ops == [] then ref
    else if |ref| > 0 && (ops[0].FlushTop? || ops[0].SyncTop? || ops[0].Discard? ==> |ref| > 1)
    then FlatRun(p, FlatStep(p, ref, ops[0]), ops[1..]) else ref
  }

  /**
   In every legal run from a database, however many caches are pushed on it, the
   stack shows exactly the flat maps and keeps its invariant.
   */
  lemma {:induction false} RunRefines(p: Scripts, s: Stack, ref: seq<Flat>, ops: seq<Op>)
    requires Ok(p, s) && Shows(s, ref) && LegalRun(p, s, ops) && p.memory([]) == 0
    ensures Ok(p, Run(p, s, ops)) && Shows(Run(p, s, ops), FlatRun(p, ref, ops))
    decreases |ops|
  {
    hide Ok, Step, FlatStep;
    if ops != [] {
      StepRefines(p, s, ref, ops[0]);
      RunRefines(p, Step(p, s, ops[0]), FlatStep(p, ref, ops[0]), ops[1..]);
    }
  }

  /** Every step of the run is answered as by the flat maps at that point. */
  ghost predicate Answered(p: Scripts, s: Stack, ref: seq<Flat>, ops: seq<Op>)
    requires LegalRun(p, s, ops)
    decreases |ops|
  {
    ops != [] ==>
      && |ref| > (if ops[0].FlushTop? || ops[0].SyncTop? || ops[0].Discard? then 1 else 0)
      && Answers(p, s, ref[0], ops[0])
      && Answered(p, Step(p, s, ops[0]), FlatStep(p, ref, ops[0]), ops[1..])
  }

  lemma {:induction false} RunAnswers(p: Scripts, s: Stack, ref: seq<Flat>, ops: seq<Op>)
    requires Ok(p, s) && Shows(s, ref) && LegalRun(p, s, ops) && p.memory([]) == 0
    ensures Answered(p, s, ref, ops)
    decreases |ops|
  {
    hide Ok, Step, FlatStep, Answers;
    if ops != [] {
      StepRefines(p, s, ref, ops[0]);
      RunAnswers(p, Step(p, s, ops[0]), FlatStep(p, ref, ops[0]), ops[1..]);
    }
  }

  lemma DatabaseShows(p: Scripts, db: Flat, best: int, ops: seq<Op>)
    requires forall o <- db :: !IsSpent(db[o])
    requires LegalRun(p, Base(db, best), ops) && p.memory([]) == 0
    ensures Ok(p, Run(p, Base(db, best), ops))
    ensures Shows(Run(p, Base(db, best), ops), FlatRun(p, [db], ops))
    ensures Answered(p, Base(db, best), [db], ops)
  {
    hide Run, FlatRun, Answered;
    RunRefines(p, Base(db, best), [db], ops);
    RunAnswers(p, Base(db, best), [db], ops);
  }
}
