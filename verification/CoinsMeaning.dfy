/**
 What the operations of a coin cache leave in the cache: coins fetched stay, coins
 flushed go, and a coin added and spent in between never reaches the view below.
 */
module CoinsMeaning {
  import opened Basics
  import opened CoinsView
  import opened CoinsRefinement
  import opened CoinsRuns

  /** Every spendable output of a transaction is shown afterwards as its coin, and no other outpoint changes. */
  lemma {:induction false} AddCoinsExactly(p: Scripts, s: Stack, tx: Tx, n: nat, height: int, check: bool)
    requires Ok(p, s) && s.Layer? && n <= |tx.outputs|
    requires forall i :: 0 <= i < |tx.outputs| ==> tx.outputs[i].value != -1
    requires check || tx.coinbase || forall i: nat :: i < |tx.outputs| ==> Lookup(s, OutPoint(tx.id, i)) == None
    ensures var (t, threw) := AddCoins(p, s, tx, n, height, check);
            && !threw && Ok(p, t) && t.best == s.best
            && forall o ::
                 Lookup(t, o) ==
                 if o.txid == tx.id && 0 <= o.n < n && !p.unspendable(tx.outputs[o.n].script)
                 then Some(Coin(tx.outputs[o.n].value, tx.outputs[o.n].script, height, tx.coinbase))
                 else Lookup(s, o)
  {
    hide Ok, AddCoin, HaveCoin;
    if n > 0 {
      AddCoinsExactly(p, s, tx, n - 1, height, check);
      var t := AddCoins(p, s, tx, n - 1, height, check).0;
      var o := OutPoint(tx.id, n - 1);
      assert check || tx.coinbase || Lookup(t, o) == None;
      AddOutputExactly(p, t, tx, n - 1, height, check);
      hide AddOutput;
    }
  }

  lemma AddOutputExactly(p: Scripts, s: Stack, tx: Tx, i: nat, height: int, check: bool)
    requires Ok(p, s) && s.Layer? && i < |tx.outputs| && tx.outputs[i].value != -1
    requires check || tx.coinbase || Lookup(s, OutPoint(tx.id, i)) == None
    ensures var (t, threw) := AddOutput(p, s, tx, i, height, check);
            && !threw && Ok(p, t) && t.best == s.best
            && forall o ::
                 Lookup(t, o) ==
                 if o == OutPoint(tx.id, i) && !p.unspendable(tx.outputs[i].script)
                 then Some(Coin(tx.outputs[i].value, tx.outputs[i].script, height, tx.coinbase))
                 else Lookup(s, o)
  {
    hide Ok, AddCoin, HaveCoin;
    var o := OutPoint(tx.id, i);
    if check { HaveCoinKeeps(p, s, o); }
    var (t, have) := if check then HaveCoin(p, s, o) else (s, tx.coinbase);
    AddCoinKeeps(p, t, o, OutputCoin(tx, i, height), have);
  }

  /** The cache itself holds an unspent coin where a spendable output goes. */
  predicate Blocked(p: Scripts, s: Stack, tx: Tx, i: nat)
    requires s.Layer? && i < |tx.outputs|
  {
    var o := OutPoint(tx.id, i);
    !p.unspendable(tx.outputs[i].script) && o in s.cache && !IsSpent(s.cache[o].coin)
  }

  lemma AddOutputThrows(p: Scripts, s: Stack, tx: Tx, i: nat, height: int, check: bool)
    requires s.Layer? && i < |tx.outputs|
    ensures var (t, threw) := AddOutput(p, s, tx, i, height, check);
            && (threw <==> !check && !tx.coinbase && Blocked(p, s, tx, i))
            && (!check ==> forall o :: o != OutPoint(tx.id, i) ==> Find(t.cache, o) == Find(s.cache, o))
  {
    hide Fetch;
  }

  /** It throws exactly if told neither to check nor to overwrite, and an output would replace a cached coin. */
  lemma {:induction false} AddCoinsThrows(p: Scripts, s: Stack, tx: Tx, n: nat, height: int, check: bool)
    requires s.Layer? && n <= |tx.outputs|
    ensures var (t, threw) := AddCoins(p, s, tx, n, height, check);
            && (threw <==> !check && !tx.coinbase && exists i :: 0 <= i < n && Blocked(p, s, tx, i))
            && (!check ==> forall o: OutPoint :: o.txid != tx.id || o.n >= n ==>
                             Find(t.cache, o) == Find(s.cache, o))
  {
    hide AddOutput;
    if n > 0 {
      AddCoinsThrows(p, s, tx, n - 1, height, check);
      var (t, threw) := AddCoins(p, s, tx, n - 1, height, check);
      AddOutputThrows(p, t, tx, n - 1, height, check);
      var o := OutPoint(tx.id, n - 1);
      assert !check ==> Find(t.cache, o) == Find(s.cache, o);
      assert !check ==> (Blocked(p, t, tx, n - 1) <==> Blocked(p, s, tx, n - 1));
    }
  }

  /** A coin that is found is in the cache afterwards, as the view below has it, and counted. */
  lemma FetchFills(p: Scripts, s: Stack, o: OutPoint)
    requires Ok(p, s) && s.Layer?
    ensures var t := Fetch(p, s, o);
            && (Lookup(s, o).Some? ==> o in t.cache)
            && (o in s.cache ==> t == s)
            && (o !in s.cache && Lookup(s, o).Some? ==>
                  t.cache == s.cache[o := Entry(Lookup(s, o).value, false, false)] &&
                  t.usage == s.usage + p.memory(Lookup(s, o).value.script))
            && (o !in s.cache && Lookup(s, o).None? ==> t.cache == s.cache && t.usage == s.usage)
  {
    hide Ok, SameViews;
    FetchKeeps(p, s, o);
    if o !in s.cache {
      BelowOk(p, s);
      GetCoinKeeps(p, s.below, o);
      LookupUnspent(p, s.below, o);
    }
  }

  lemma BelowOk(p: Scripts, s: Stack)
    requires Ok(p, s) && s.Layer?
    ensures Ok(p, s.below)
  {
  }

  /** Adding a coin the cache knows nothing of and spending it again leaves the cache as it was. */
  lemma AddThenSpend(p: Scripts, s: Stack, o: OutPoint, coin: Coin)
    requires s.Layer? && o !in s.cache && !p.unspendable(coin.script)
    ensures SpendCoin(p, AddCoin(p, s, o, coin, false).0, o) == (s, Some(coin))
  {
    assert s.cache[o := Entry(coin, true, true)] - {o} == s.cache;
  }

  /** Spending a coin the cache did not add leaves a mark for the view below. */
  lemma SpendLeavesMark(p: Scripts, s: Stack, o: OutPoint)
    requires Ok(p, s) && s.Layer? && Lookup(s.below, o).Some? && Lookup(s, o).Some?
    ensures var t := SpendCoin(p, s, o).0; o in t.cache && t.cache[o] == Entry(NULL_COIN, true, false)
  {
    hide SameViews;
    FetchFills(p, s, o);
    FetchKeeps(p, s, o);
    if o in s.cache { EntryAt(s.cache, s.below, o); }
  }

  /** Only an entry without flags is dropped, and it is counted out. */
  lemma UncacheExactly(p: Scripts, s: Stack, o: OutPoint)
    requires Ok(p, s) && s.Layer?
    ensures var t := Uncache(p, s, o);
            && t.best == s.best && t.below == s.below
            && t.cache.Keys == s.cache.Keys - (if o in s.cache && !s.cache[o].isDirty then {o} else {})
            && (forall x <- t.cache :: t.cache[x] == s.cache[x])
            && (o in s.cache && !s.cache[o].isDirty ==> t.usage == s.usage - p.memory(s.cache[o].coin.script))
  {
    if o in s.cache { EntryAt(s.cache, s.below, o); }
  }

  /** A flush empties the cache; a sync keeps what it still shows, without flags. Both pass the best block on. */
  lemma WrittenOut(p: Scripts, s: Stack)
    requires Ok(p, s) && s.Layer?
    ensures var t := Flush(p, s); t.cache == map[] && t.usage == 0 && t.best == s.best && t.below.best == s.best
    ensures var t := Sync(p, s);
            && t.best == s.best && t.below.best == s.best
            && (forall o :: o in t.cache <==> o in s.cache && Lookup(s, o).Some?)
            && (forall o <- t.cache :: t.cache[o] == Entry(s.cache[o].coin, false, false))
  {
    hide Entries, Total, MergeAll, WriteDb;
  }

  /**
   A spent coin that the view written to had marked as its own addition leaves nothing
   behind there, and any other change is kept for the next view down, marked dirty.
   */
  lemma WriteExactly(p: Scripts, s: Stack, child: Cache, best: int, o: OutPoint)
    requires s.Layer? && o in child && child[o].isDirty
    ensures var t := BatchWrite(p, s, child, best);
            && (o in t.cache <==>
                  !IsSpent(child[o].coin) || !(if o in s.cache then s.cache[o].isFresh else child[o].isFresh))
            && (o in t.cache ==> t.cache[o] == Entry(child[o].coin, true,
                                                     if o in s.cache then s.cache[o].isFresh else child[o].isFresh))
  {
    hide Total;
  }
}
