/**
 The cache objects: each updates its own map, counter and best block in place and
 its base only through the base's methods, and each method makes the step the
 specification of the stack describes.
 */
module CoinsCache {
  import opened Basics
  import opened CoinsView
  import opened CoinsRefinement
  import opened CoinsRuns

  /** The database at the bottom; it holds unspent coins only. */
  class CoinsViewDB {
    var db: map<OutPoint, Coin>
    var best: int

    constructor (db: map<OutPoint, Coin>, best: int)
      ensures this.db == db && this.best == best
    {
      this.db, this.best := db, best;
    }

    method GetCoin(o: OutPoint) returns (got: Option<Coin>)
      ensures got == if o in db then Some(db[o]) else None
    {
      got := if o in db then Some(db[o]) else None;
    }

    method BatchWrite(child: Cache, hashBlock: int, erase: bool) returns (rest: Cache)
      requires hashBlock != 0
      modifies this
      ensures db == WriteDb(old(db), child) && best == hashBlock
      ensures rest == if erase then map[] else child
    {
      hide HalfWritten, Left;
      ghost var before := db;
      rest := child;
      var todo := child.Keys;
      WriteStart(db, child);
      LeftStart(child, erase);
      while todo != {}
        invariant todo <= child.Keys
        invariant HalfWritten(before, child, todo, db)
        invariant Left(child, rest, todo, erase)
        decreases |todo|
      {
        var o :| o in todo;
        WriteStep(before, child, todo, db, o);
        LeftStep(child, rest, todo, erase, o);
        if child[o].isDirty {
          if IsSpent(child[o].coin) { db := db - {o}; } else { db := db[o := child[o].coin]; }
        }
        if erase { rest := rest - {o}; }
        todo := todo - {o};
      }
      WriteEnd(before, child, db);
      LeftEnd(child, rest, erase);
      best := hashBlock;
    }
  }

  class CoinsViewCache {
    const p: Scripts
    const base: CoinsViewCache?
    const backing: CoinsViewDB?
    ghost const repr: set<object>
    ghost const depth: nat
    var cacheCoins: Cache
    var cachedCoinsUsage: int
    var hashBlock: int

    /** A chain of caches that ends in a database; the links never change. */
    ghost predicate Linked()
      decreases depth
    {
      && this in repr
      && (base == null <==> backing != null)
      && (backing != null ==> repr == {this, backing})
      && (base != null ==>
            && base.depth < depth && this !in base.repr && repr == {this} + base.repr
            && base.p == p && base.Linked())
    }

    ghost function Abs(): (s: Stack)
      requires Linked()
      reads repr
      ensures s.Layer?
      decreases depth
    {
      Layer(cacheCoins, cachedCoinsUsage, hashBlock,
            if base != null then base.Abs() else Base(backing.db, backing.best))
    }

    constructor OverDatabase(p: Scripts, db: CoinsViewDB)
      ensures Linked() && this.p == p && this.base == null && this.backing == db
      ensures Abs() == Layer(map[], 0, 0, Base(db.db, db.best))
    {
      this.p, base, backing, depth, repr := p, null, db, 0, {this, db};
      cacheCoins, cachedCoinsUsage, hashBlock := map[], 0, 0;
    }

    constructor OverCache(view: CoinsViewCache)
      requires view.Linked()
      ensures Linked() && p == view.p && base == view
      ensures Abs() == Layer(map[], 0, 0, view.Abs())
    {
      p, base, backing, depth, repr := view.p, view, null, view.depth + 1, {this} + view.repr;
      cacheCoins, cachedCoinsUsage, hashBlock := map[], 0, 0;
    }

    method Fetch(o: OutPoint)
      requires Linked()
      modifies repr
      ensures Abs() == CoinsView.Fetch(p, old(Abs()), o)
      decreases depth, 0
    {
      if o in cacheCoins { return; }
      var got;
      if base != null {
        got := base.GetCoin(o);
      } else {
        got := backing.GetCoin(o);
      }
      if got.None? { return; }
      cacheCoins := cacheCoins[o := Entry(got.value, false, IsSpent(got.value))];
      cachedCoinsUsage := cachedCoinsUsage + Memory(p, got.value);
    }

    method GetCoin(o: OutPoint) returns (got: Option<Coin>)
      requires Linked()
      modifies repr
      ensures (Abs(), got) == CoinsView.GetCoin(p, old(Abs()), o)
      decreases depth, 1
    {
      Fetch(o);
      if o in cacheCoins && !IsSpent(cacheCoins[o].coin) { return Some(cacheCoins[o].coin); }
      return None;
    }

    method HaveCoin(o: OutPoint) returns (have: bool)
      requires Linked()
      modifies repr
      ensures (Abs(), have) == CoinsRuns.HaveCoin(p, old(Abs()), o)
      ensures Ok(p, old(Abs())) ==> Ok(p, Abs()) && (have <==> Lookup(old(Abs()), o).Some?)
    {
      if Ok(p, Abs()) { HaveCoinKeeps(p, Abs(), o); }
      Fetch(o);
      have := o in cacheCoins && !IsSpent(cacheCoins[o].coin);
    }

    method AddCoin(o: OutPoint, coin: Coin, overwrite: bool) returns (threw: bool)
      requires Linked() && !IsSpent(coin)
      modifies this
      ensures (Abs(), threw) == CoinsView.AddCoin(p, old(Abs()), o, coin, overwrite)
    {
      if p.unspendable(coin.script) { return false; }
      var inserted := o !in cacheCoins;
      var en := if inserted then Entry(NULL_COIN, false, false) else cacheCoins[o];
      if !inserted {
        cachedCoinsUsage := cachedCoinsUsage - Memory(p, en.coin);
      }
      var isFresh := false;
      if !overwrite {
        if !IsSpent(en.coin) { return true; }
        isFresh := !en.isDirty;
      }
      cacheCoins := cacheCoins[o := Entry(coin, true, en.isFresh || isFresh)];
      cachedCoinsUsage := cachedCoinsUsage + Memory(p, coin);
      return false;
    }

    method SpendCoin(o: OutPoint) returns (got: Option<Coin>)
      requires Linked()
      modifies repr
      ensures (Abs(), got) == CoinsView.SpendCoin(p, old(Abs()), o)
    {
      Fetch(o);
      if o !in cacheCoins { return None; }
      var en := cacheCoins[o];
      cachedCoinsUsage := cachedCoinsUsage - Memory(p, en.coin);
      if en.isFresh {
        cacheCoins := cacheCoins - {o};
      } else {
        cacheCoins := cacheCoins[o := Entry(NULL_COIN, true, en.isFresh)];
      }
      return Some(en.coin);
    }

    method Uncache(o: OutPoint)
      requires Linked()
      modifies this
      ensures Abs() == CoinsView.Uncache(p, old(Abs()), o)
    {
      if o in cacheCoins && !cacheCoins[o].isDirty && !cacheCoins[o].isFresh {
        cachedCoinsUsage := cachedCoinsUsage - Memory(p, cacheCoins[o].coin);
        cacheCoins := cacheCoins - {o};
      }
    }

    method GetBestBlock() returns (best: int)
      requires Linked()
      modifies repr
      ensures (Abs(), best) == AskBest(old(Abs()))
      decreases depth
    {
      if hashBlock == 0 {
        if base != null {
          hashBlock := base.GetBestBlock();
        } else {
          hashBlock := backing.best;
        }
      }
      best := hashBlock;
    }

    /** One entry of a child is written; the misapplied FRESH flag would throw here. */
    method WriteEntry(o: OutPoint, child: Entry)
      requires !Misapplied(Find(cacheCoins, o), child)
      requires cachedCoinsUsage == Total(p, cacheCoins)
      modifies this`cacheCoins, this`cachedCoinsUsage
      ensures MergedOne(old(cacheCoins), cacheCoins, o, child)
      ensures cachedCoinsUsage == Total(p, cacheCoins)
    {
      ghost var before := cacheCoins;
      if !child.isDirty { return; }
      if o !in cacheCoins {
        if !(child.isFresh && IsSpent(child.coin)) {
          TotalSet(p, before, o, Entry(child.coin, true, child.isFresh));
          cacheCoins := cacheCoins[o := Entry(child.coin, true, child.isFresh)];
          cachedCoinsUsage := cachedCoinsUsage + Memory(p, child.coin);
        }
      } else {
        var en := cacheCoins[o];
        TotalSet(p, before, o, Entry(child.coin, true, en.isFresh));
        cachedCoinsUsage := cachedCoinsUsage - Memory(p, en.coin);
        if en.isFresh && IsSpent(child.coin) {
          cacheCoins := cacheCoins - {o};
        } else {
          cacheCoins := cacheCoins[o := Entry(child.coin, true, en.isFresh)];
          cachedCoinsUsage := cachedCoinsUsage + Memory(p, child.coin);
        }
      }
    }

    /** All entries of a child, in any order; with `erase` they are removed from it on the way. */
    method WriteEntries(child: Cache, erase: bool) returns (rest: Cache)
      requires forall o <- child :: !Misapplied(Find(cacheCoins, o), child[o])
      requires cachedCoinsUsage == Total(p, cacheCoins)
      modifies this`cacheCoins, this`cachedCoinsUsage
      ensures cacheCoins == MergeAll(old(cacheCoins), child)
      ensures cachedCoinsUsage == Total(p, cacheCoins)
      ensures rest == if erase then map[] else child
    {
      hide Total, Merge, MergeAll, HalfMerged, MergedOne, Misapplied;
      ghost var mine := cacheCoins;
      rest := child;
      var todo := child.Keys;
      MergeStart(mine, child);
      while todo != {}
        invariant todo <= child.Keys
        invariant HalfMerged(mine, child, todo, cacheCoins)
        invariant cachedCoinsUsage == Total(p, cacheCoins)
        invariant rest.Keys == (if erase then todo else child.Keys) && forall x <- rest :: rest[x] == child[x]
        decreases |todo|
      {
        var o :| o in todo;
        HalfMergedAt(mine, child, todo, cacheCoins, o);
        ghost var before := cacheCoins;
        WriteEntry(o, child[o]);
        MergeStep(mine, child, todo, before, cacheCoins, o);
        if erase { rest := rest - {o}; }
        todo := todo - {o};
      }
      MergeEnd(mine, child, cacheCoins);
      assert rest == if erase then map[] else child;
    }

    method BatchWrite(child: Cache, hashBlockIn: int, erase: bool) returns (rest: Cache)
      requires Linked() && Ok(p, Abs()) && Entries(child, Abs())
      modifies this
      ensures Abs() == CoinsView.BatchWrite(p, old(Abs()), child, hashBlockIn)
      ensures rest == if erase then map[] else child
    {
      hide Ok, Entries, Total, MergeAll, Misapplied;
      ghost var s := Abs();
      UsageExact(p, s);
      forall o | o in child
        ensures !Misapplied(Find(cacheCoins, o), child[o])
      {
        NeverMisapplied(s, child, o);
      }
      rest := WriteEntries(child, erase);
      hashBlock := hashBlockIn;
    }

    /** Write everything to the base and empty the cache. */
    method Flush()
      requires Linked() && Ok(p, Abs()) && (backing != null ==> hashBlock != 0)
      modifies repr
      ensures Abs() == CoinsView.Flush(p, old(Abs()))
    {
      hide Ok, Entries;
      OkBelow(p, Abs());
      var rest;
      if base != null {
        rest := base.BatchWrite(cacheCoins, hashBlock, true);
      } else {
        rest := backing.BatchWrite(cacheCoins, hashBlock, true);
      }
      cacheCoins := rest;
      assert cacheCoins == map[];
      cachedCoinsUsage := 0;
    }

    /** Write everything to the base and keep the unspent coins, clean. */
    method Sync()
      requires Linked() && Ok(p, Abs()) && (backing != null ==> hashBlock != 0)
      modifies repr
      ensures Abs() == CoinsView.Sync(p, old(Abs()))
    {
      hide Ok, Entries;
      ghost var s := Abs();
      OkBelow(p, s);
      UsageExact(p, s);
      if base != null {
        cacheCoins := base.BatchWrite(cacheCoins, hashBlock, false);
      } else {
        cacheCoins := backing.BatchWrite(cacheCoins, hashBlock, false);
      }
      Clean();
    }

    method Clean()
      requires cachedCoinsUsage == Total(p, cacheCoins)
      modifies this`cacheCoins, this`cachedCoinsUsage
      ensures cacheCoins == Cleaned(old(cacheCoins))
      ensures cachedCoinsUsage == Total(p, cacheCoins)
    {
      hide Total;
      ghost var before := cacheCoins;
      var todo := cacheCoins.Keys;
      while todo != {}
        invariant todo <= cacheCoins.Keys <= before.Keys
        invariant forall x <- todo :: cacheCoins[x] == before[x]
        invariant forall x <- before :: x !in todo ==> (x in cacheCoins <==> !IsSpent(before[x].coin))
        invariant forall x <- cacheCoins :: x !in todo ==> cacheCoins[x] == Entry(before[x].coin, false, false)
        invariant cachedCoinsUsage == Total(p, cacheCoins)
        decreases |todo|
      {
        var o :| o in todo;
        var en := cacheCoins[o];
        TotalSet(p, cacheCoins, o, Entry(en.coin, false, false));
        if IsSpent(en.coin) {
          cachedCoinsUsage := cachedCoinsUsage - Memory(p, en.coin);
          cacheCoins := cacheCoins - {o};
        } else {
          cacheCoins := cacheCoins[o := Entry(en.coin, false, false)];
        }
        todo := todo - {o};
      }
    }
  }

  // ---- writing entries one at a time, in any order ----

  /** The entries of `child` outside `todo` have been written. */
  ghost predicate HalfWritten(db: Flat, child: Cache, todo: set<OutPoint>, db': Flat) {
    forall x :: Get(db', x) == if x in todo then Get(db, x) else Written(db, child, x)
  }

  /** The entries of `child` that are left while it is written. */
  ghost predicate Left(child: Cache, rest: Cache, todo: set<OutPoint>, erase: bool) {
    rest == if erase then map o | o in child && o in todo :: child[o] else child
  }

  lemma LeftStart(child: Cache, erase: bool)
    ensures Left(child, child, child.Keys, erase)
  {
  }

  lemma LeftStep(child: Cache, rest: Cache, todo: set<OutPoint>, erase: bool, o: OutPoint)
    requires Left(child, rest, todo, erase)
    ensures Left(child, if erase then rest - {o} else rest, todo - {o}, erase)
  {
  }

  lemma LeftEnd(child: Cache, rest: Cache, erase: bool)
    requires Left(child, rest, {}, erase)
    ensures rest == if erase then map[] else child
  {
  }

  lemma WriteStart(db: Flat, child: Cache)
    ensures HalfWritten(db, child, child.Keys, db)
  {
  }

  lemma WriteStep(db: Flat, child: Cache, todo: set<OutPoint>, db': Flat, o: OutPoint)
    requires HalfWritten(db, child, todo, db') && o in todo && todo <= child.Keys
    ensures HalfWritten(db, child, todo - {o},
                        if !child[o].isDirty then db'
                        else if IsSpent(child[o].coin) then db' - {o}
                        else db'[o := child[o].coin])
  {
    var m := if !child[o].isDirty then db' else if IsSpent(child[o].coin) then db' - {o} else db'[o := child[o].coin];
    forall x ensures Get(m, x) == if x in todo - {o} then Get(db, x) else Written(db, child, x) {
      assert Get(db', x) == if x in todo then Get(db, x) else Written(db, child, x);
    }
  }

  lemma WriteEnd(db: Flat, child: Cache, db': Flat)
    requires HalfWritten(db, child, {}, db')
    ensures db' == WriteDb(db, child)
  {
    forall x ensures x in db' <==> Written(db, child, x).Some? {
      assert Get(db', x) == Written(db, child, x);
    }
  }

  /** The entries of `child` outside `todo` have been merged. */
  ghost predicate HalfMerged(mine: Cache, child: Cache, todo: set<OutPoint>, cache: Cache) {
    forall x :: Find(cache, x) == if x in todo then Find(mine, x) else Merged(mine, child, x)
  }

  /** One entry has been merged. */
  ghost predicate MergedOne(cache: Cache, cache': Cache, o: OutPoint, child: Entry) {
    forall x :: Find(cache', x) == if x == o then Merge(Find(cache, o), child) else Find(cache, x)
  }

  lemma MergeStart(mine: Cache, child: Cache)
    ensures HalfMerged(mine, child, child.Keys, mine)
  {
  }

  lemma HalfMergedAt(mine: Cache, child: Cache, todo: set<OutPoint>, cache: Cache, o: OutPoint)
    requires HalfMerged(mine, child, todo, cache) && o in todo
    ensures Find(cache, o) == Find(mine, o)
  {
  }

  lemma MergeStep(mine: Cache, child: Cache, todo: set<OutPoint>, cache: Cache, cache': Cache, o: OutPoint)
    requires HalfMerged(mine, child, todo, cache) && o in todo && o in child
    requires MergedOne(cache, cache', o, child[o])
    ensures HalfMerged(mine, child, todo - {o}, cache')
  {
    hide Merge;
    forall x ensures Find(cache', x) == if x in todo - {o} then Find(mine, x) else Merged(mine, child, x) {
      assert Find(cache, x) == if x in todo then Find(mine, x) else Merged(mine, child, x);
    }
  }

  lemma MergeEnd(mine: Cache, child: Cache, cache: Cache)
    requires HalfMerged(mine, child, {}, cache)
    ensures cache == MergeAll(mine, child)
  {
    hide Merge;
    forall x ensures x in cache <==> Merged(mine, child, x).Some? {
      assert Find(cache, x) == Merged(mine, child, x);
    }
  }

  lemma UsageExact(p: Scripts, s: Stack)
    requires Ok(p, s) && s.Layer?
    ensures s.usage == Total(p, s.cache)
  {
  }

  lemma OkBelow(p: Scripts, s: Stack)
    requires Ok(p, s) && s.Layer?
    ensures Ok(p, s.below) && Entries(s.cache, s.below)
  {
  }

  /** Add all outputs of a transaction. */
  method AddAll(view: CoinsViewCache, tx: Tx, height: int, check: bool) returns (threw: bool)
    requires view.Linked() && forall i :: 0 <= i < |tx.outputs| ==> tx.outputs[i].value != -1
    modifies view.repr
    ensures (view.Abs(), threw) == AddCoins(view.p, old(view.Abs()), tx, |tx.outputs|, height, check)
  {
    hide Fetch, AddCoin;
    ghost var s := view.Abs();
    threw := false;
    for i := 0 to |tx.outputs|
      invariant (view.Abs(), false) == AddCoins(view.p, s, tx, i, height, check)
    {
      var o := OutPoint(tx.id, i);
      var overwrite := tx.coinbase;
      if check { overwrite := view.HaveCoin(o); }
      threw := view.AddCoin(o, OutputCoin(tx, i, height), overwrite);
      if threw {
        AddCoinsThrown(view.p, s, tx, i + 1, height, check);
        return;
      }
    }
  }

  lemma {:induction false} AddCoinsThrown(p: Scripts, s: Stack, tx: Tx, i: nat, height: int, check: bool)
    requires s.Layer? && i <= |tx.outputs| && AddCoins(p, s, tx, i, height, check).1
    ensures AddCoins(p, s, tx, |tx.outputs|, height, check) == AddCoins(p, s, tx, i, height, check)
    decreases |tx.outputs| - i
  {
    if i < |tx.outputs| { AddCoinsThrown(p, s, tx, i + 1, height, check); }
  }
}
