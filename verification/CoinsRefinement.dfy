/**
 What the cache operations keep and what they show: each one is an update of the
 flat map the stack stands for, and moving coins between levels changes nothing.
 */
module CoinsRefinement {
  import opened Basics
  import opened CoinsView

  // ---- reads ----

  /** The same view at every level. */
  ghost predicate SameViews(s: Stack, t: Stack) {
    && (forall o :: Lookup(t, o) == Lookup(s, o))
    && match s
       case Base(_, _) => t == s
       case Layer(_, _, best, below) => t.Layer? && t.best == best && SameViews(below, t.below)
  }

  lemma {:induction false} SameViewsSelf(s: Stack)
    ensures SameViews(s, s)
  {
    if s.Layer? { SameViewsSelf(s.below); }
  }

  lemma EntriesSame(cache: Cache, below: Stack, below': Stack)
    requires Entries(cache, below) && SameViews(below, below')
    ensures Entries(cache, below')
  {
    EntriesAlike(cache, below, below');
  }

  /** Asking for the best block answers what the view reports, and changes neither that nor a coin. */
  lemma {:induction false} AskBestKeeps(p: Scripts, s: Stack)
    requires Ok(p, s)
    ensures var (t, got) := AskBest(s);
            && got == BestBlock(s) == BestBlock(t) && Ok(p, t) && t.Layer? == s.Layer?
            && (s.Layer? ==> t.best == got)
            && forall o :: Lookup(t, o) == Lookup(s, o)
  {
    hide Entries, Total;
    if s.Layer? && s.best == 0 {
      AskBestKeeps(p, s.below);
      EntriesAlike(s.cache, s.below, AskBest(s.below).0);
    }
  }

  lemma EntriesAlike(cache: Cache, below: Stack, below': Stack)
    requires Entries(cache, below) && forall o :: Lookup(below', o) == Lookup(below, o)
    ensures Entries(cache, below')
  {
    forall o | o in cache
      ensures EntryOk(cache[o], Lookup(below', o))
    {
      assert EntryOk(cache[o], Lookup(below, o));
    }
  }

  /** A lookup finds exactly the coin shown and changes no view. */
  lemma {:induction false} GetCoinKeeps(p: Scripts, s: Stack, o: OutPoint)
    requires Ok(p, s)
    ensures var (t, got) := GetCoin(p, s, o);
            got == Lookup(s, o) && Ok(p, t) && SameViews(s, t)
    decreases s, 1
  {
    if s.Base? { SameViewsSelf(s); } else { FetchKeeps(p, s, o); }
  }

  lemma {:induction false} FetchKeeps(p: Scripts, s: Stack, o: OutPoint)
    requires Ok(p, s) && s.Layer?
    ensures var t := Fetch(p, s, o);
            && Ok(p, t) && SameViews(s, t)
            && (o in t.cache ==> Shown(t.cache[o].coin) == Lookup(s, o))
            && (o !in t.cache ==> Lookup(s, o) == None)
    decreases s, 0
  {
    hide Entries;
    if o in s.cache {
      SameViewsSelf(s);
    } else {
      GetCoinKeeps(p, s.below, o);
      var (below, got) := GetCoin(p, s.below, o);
      EntriesSame(s.cache, s.below, below);
      assert forall x :: Lookup(below, x) == Lookup(s.below, x);
      var t := Fetch(p, s, o);
      forall x ensures Lookup(t, x) == Lookup(s, x) {
        LookupUnspent(p, s.below, x);
      }
      if got.Some? {
        var en := Entry(got.value, false, IsSpent(got.value));
        LookupUnspent(p, s.below, o);
        TotalSet(p, s.cache, o, en);
        EntriesSet(s.cache, below, o, en);
      }
    }
  }

  lemma {:induction false} LookupUnspent(p: Scripts, s: Stack, o: OutPoint)
    ensures Lookup(s, o).Some? ==> !IsSpent(Lookup(s, o).value)
  {
    if s.Layer? && o !in s.cache { LookupUnspent(p, s.below, o); }
  }

  lemma EntriesSet(cache: Cache, below: Stack, o: OutPoint, en: Entry)
    requires Entries(cache, below) && EntryOk(en, Lookup(below, o))
    ensures Entries(cache[o := en], below)
  {
  }

  lemma EntriesLess(cache: Cache, below: Stack, o: OutPoint)
    requires Entries(cache, below)
    ensures Entries(cache - {o}, below)
  {
  }

  // ---- one level ----

  /** Only `o` changes in what the top shows, and only the top changes. */
  ghost predicate Sets(s: Stack, t: Stack, o: OutPoint, c: Option<Coin>) {
    && s.Layer? && t.Layer? && t.best == s.best && SameViews(s.below, t.below)
    && (forall x :: Lookup(t, x) == if x == o then c else Lookup(s, x))
  }

  /** The caller of AddCoin without overwrite vouches for the views below. */
  predicate Vouched(s: Stack, o: OutPoint, overwrite: bool)
    requires s.Layer?
  {
    overwrite || o in s.cache || Lookup(s.below, o) == None
  }

  lemma AddCoinKeeps(p: Scripts, s: Stack, o: OutPoint, coin: Coin, overwrite: bool)
    requires Ok(p, s) && s.Layer? && !IsSpent(coin) && Vouched(s, o, overwrite)
    ensures var (t, threw) := AddCoin(p, s, o, coin, overwrite);
            && (threw <==> !p.unspendable(coin.script) && !overwrite && Lookup(s, o).Some?)
            && (!threw ==> Ok(p, t))
            && (!threw ==> Sets(s, t, o, if p.unspendable(coin.script) then Lookup(s, o) else Some(coin)))
  {
    hide Entries;
    SameViewsSelf(s.below);
    var (t, threw) := AddCoin(p, s, o, coin, overwrite);
    if o in s.cache { assert EntryOk(s.cache[o], Lookup(s.below, o)) by { EntryAt(s.cache, s.below, o); } }
    if !threw && !p.unspendable(coin.script) {
      TotalSet(p, s.cache, o, t.cache[o]);
      EntriesSet(s.cache, s.below, o, t.cache[o]);
    }
  }

  lemma EntryAt(cache: Cache, below: Stack, o: OutPoint)
    requires Entries(cache, below) && o in cache
    ensures EntryOk(cache[o], Lookup(below, o))
  {
  }

  /**
   Without that promise the invariant survives exactly when it happens to be
   true; when it is not, spending the added coin brings the one below back.
   */
  lemma AddCoinUnvouched(p: Scripts, s: Stack, o: OutPoint, coin: Coin)
    requires Ok(p, s) && s.Layer? && !IsSpent(coin) && !p.unspendable(coin.script) && o !in s.cache
    ensures Ok(p, AddCoin(p, s, o, coin, false).0) <==> Lookup(s.below, o) == None
    ensures Lookup(s.below, o).Some? ==>
              Lookup(SpendCoin(p, AddCoin(p, s, o, coin, false).0, o).0, o) == Lookup(s.below, o)
  {
    var t := AddCoin(p, s, o, coin, false).0;
    assert t.cache[o] == Entry(coin, true, true);
    if Lookup(s.below, o) == None {
      AddCoinKeeps(p, s, o, coin, false);
    }
  }

  /** Spending removes the coin shown, and returns it if there was one. */
  lemma SpendCoinKeeps(p: Scripts, s: Stack, o: OutPoint)
    requires Ok(p, s) && s.Layer? && p.memory([]) == 0
    ensures var (t, got) := SpendCoin(p, s, o);
            && Ok(p, t) && Sets(s, t, o, None)
            && (Lookup(s, o).Some? ==> got == Lookup(s, o))
            && (Lookup(s, o) == None ==> got == None || got == Some(NULL_COIN))
  {
    hide Entries;
    FetchKeeps(p, s, o);
    var r := Fetch(p, s, o);
    if o in r.cache {
      EntryAt(r.cache, r.below, o);
      if r.cache[o].isFresh {
        TotalSet(p, r.cache, o, r.cache[o]);
        EntriesLess(r.cache, r.below, o);
      } else {
        TotalSet(p, r.cache, o, Entry(NULL_COIN, true, false));
        EntriesSet(r.cache, r.below, o, Entry(NULL_COIN, true, false));
      }
    }
  }

  lemma UncacheKeeps(p: Scripts, s: Stack, o: OutPoint)
    requires Ok(p, s) && s.Layer?
    ensures Ok(p, Uncache(p, s, o)) && SameViews(s, Uncache(p, s, o))
  {
    hide Entries;
    SameViewsSelf(s);
    if o in s.cache && !s.cache[o].isDirty && !s.cache[o].isFresh {
      EntryAt(s.cache, s.below, o);
      TotalSet(p, s.cache, o, s.cache[o]);
      EntriesLess(s.cache, s.below, o);
    }
  }

  // ---- writing a child to its parent ----

  /** The parent never sees the FRESH flag misapplied. */
  lemma NeverMisapplied(s: Stack, child: Cache, o: OutPoint)
    requires s.Layer? && Entries(child, s) && o in child
    ensures !Misapplied(Find(s.cache, o), child[o])
  {
    EntryAt(child, s, o);
  }

  lemma MergeOk(s: Stack, child: Cache, o: OutPoint)
    requires s.Layer? && Entries(s.cache, s.below) && Entries(child, s)
    ensures var m := Merged(s.cache, child, o);
            && (m.Some? ==> EntryOk(m.value, Lookup(s.below, o)))
            && (if m.Some? then Shown(m.value.coin) else Lookup(s.below, o))
               == (if o in child then Shown(child[o].coin) else Lookup(s, o))
  {
    if o in child { EntryAt(child, s, o); }
    if o in s.cache { EntryAt(s.cache, s.below, o); }
  }

  /**
   BatchWrite makes the parent show what the child showed and keeps the parent's
   own promises to the view below it.
   */
  lemma BatchWriteKeeps(p: Scripts, s: Stack, child: Cache, best: int)
    requires Ok(p, s) && Entries(child, s)
    ensures var t := BatchWrite(p, s, child, best);
            && Ok(p, t) && t.best == best
            && (s.Layer? ==> t.Layer? && t.below == s.below)
            && (s.Base? ==> t.Base?)
            && forall o :: Lookup(t, o) == if o in child then Shown(child[o].coin) else Lookup(s, o)
  {
    var t := BatchWrite(p, s, child, best);
    if s.Layer? {
      forall o
        ensures o in t.cache ==> EntryOk(t.cache[o], Lookup(s.below, o))
        ensures Lookup(t, o) == if o in child then Shown(child[o].coin) else Lookup(s, o)
      {
        MergeOk(s, child, o);
        assert o in t.cache <==> Merged(s.cache, child, o).Some?;
      }
    } else {
      forall o
        ensures Lookup(t, o) == if o in child then Shown(child[o].coin) else Lookup(s, o)
      {
        if o in child { EntryAt(child, s, o); }
        assert o in t.db <==> Written(s.db, child, o).Some?;
      }
    }
  }

  /** After a Flush the level below shows what the top shows, and the top shows what it did. */
  lemma FlushKeeps(p: Scripts, s: Stack)
    requires Ok(p, s) && s.Layer?
    ensures var t := Flush(p, s);
            && Ok(p, t)
            && (forall o :: Lookup(t, o) == Lookup(s, o) && Lookup(t.below, o) == Lookup(s, o))
            && (s.below.Layer? ==> t.below.Layer? && t.below.below == s.below.below)
  {
    BatchWriteKeeps(p, s.below, s.cache, s.best);
    hide BatchWrite;
  }

  lemma SyncKeeps(p: Scripts, s: Stack)
    requires Ok(p, s) && s.Layer?
    ensures var t := Sync(p, s);
            && Ok(p, t)
            && (forall o :: Lookup(t, o) == Lookup(s, o) && Lookup(t.below, o) == Lookup(s, o))
            && (s.below.Layer? ==> t.below.Layer? && t.below.below == s.below.below)
  {
    BatchWriteKeeps(p, s.below, s.cache, s.best);
    var t := Sync(p, s);
    hide BatchWrite;
    forall o | o in t.cache
      ensures EntryOk(t.cache[o], Lookup(t.below, o))
    {
      assert o in s.cache;
    }
  }

  /**
   The best block a view reports survives a Flush exactly when the view has one
   of its own, or the one its parent reported was the grandparent's anyway.
   */
  lemma FlushBestBlock(p: Scripts, s: Stack)
    requires s.Layer? && s.below.Layer?
    ensures BestBlock(Flush(p, s)) == BestBlock(s) <==>
            s.best != 0 || BestBlock(s.below) == BestBlock(s.below.below)
  {
  }

  /** Such a change: a cache over an empty one that knows a better block than the database. */
  lemma FlushForgetsBestBlock(p: Scripts)
    ensures var s := Layer(map[], 0, 0, Layer(map[], 0, 5, Base(map[], 7)));
            BestBlock(s) == 5 && BestBlock(Flush(p, s)) == 7
  {
    var s := Layer(map[], 0, 0, Layer(map[], 0, 5, Base(map[], 7)));
    assert BestBlock(s.below) == 5 && BestBlock(s.below.below) == 7;
    FlushBestBlock(p, s);
  }
}
