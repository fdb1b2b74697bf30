/**
CCoinsViewCache as an object: a mutable map of cache entries, the running total of
their memory use, and a pointer to the view underneath. Every method is proved to
perform the operation of the same name in CoinsSpec on the stack it heads.
*/
module CoinsCache {
  import opened CoinsSpec

  /** CCoinsViewDB, reduced to its coin records. */
  class CoinsDB {
    var coins: map<OutPoint, Coin>

    constructor (initial: map<OutPoint, Coin>)
      ensures coins == initial
    {
      coins := initial;
    }

    method BatchWrite(child: CoinsMap)
      modifies this
      ensures coins == Commit(old(coins), child)
    {
      var todo := child;
      ghost var before, done: CoinsMap := coins, map[];
      while todo != map[]
        invariant SplitOf(child, done, todo)
        invariant coins == Commit(before, done)
        decreases todo.Keys
      {
        var o :| o in todo;
        if todo[o].dirty {
          if todo[o].coin.Spent? {
            coins := coins - {o};
          } else {
            coins := coins[o := todo[o].coin];
          }
        }
        CommitNext(before, done, o, todo[o]);
        done, todo := done[o := todo[o]], todo - {o};
      }
      assert done == child;
    }
  }

  /** The child's records, split into those taken over and those still to come. */
  ghost predicate SplitOf(child: CoinsMap, done: CoinsMap, todo: CoinsMap) {
    && (forall o :: o in child <==> o in done || o in todo)
    && (forall o :: o in done ==> o !in todo && done[o] == child[o])
    && (forall o :: o in todo ==> todo[o] == child[o])
  }

  lemma SplitNext(child: CoinsMap, done: CoinsMap, todo: CoinsMap, o: OutPoint)
    requires SplitOf(child, done, todo) && o in todo
    ensures o !in done && o in child && todo[o] == child[o] && SplitOf(child, done[o := todo[o]], todo - {o})
  {
  }

  lemma SplitAll(child: CoinsMap, done: CoinsMap)
    requires SplitOf(child, done, map[])
    ensures done == child
  {
  }

  lemma MergeNothing(parent: CoinsMap, child: CoinsMap)
    ensures Merge(parent, map[]) == parent && SplitOf(child, map[], child)
  {
  }

  lemma CommitNext(coins: map<OutPoint, Coin>, done: CoinsMap, o: OutPoint, child: Entry)
    requires o !in done
    ensures Commit(coins, done[o := child]) == CommitOne(Commit(coins, done), o, child)
  {
    var a, b := Commit(coins, done), Commit(coins, done[o := child]);
    var r := CommitOne(a, o, child);
    forall p
      ensures p in b <==> p in r
      ensures p in b ==> b[p] == r[p]
    {
      if p == o {
        assert CommitAt(coins, done, o) == coins;
        assert CommitAt(coins, done[o := child], o) == CommitOne(coins, o, child);
      } else {
        assert CommitAt(coins, done[o := child], p) == CommitAt(coins, done, p);
      }
    }
  }

  /** Bytes the allocator reserves for a script that does not fit in place. */
  function ScriptUsage(script: seq<nat>): nat {
    if |script| <= 28 then 0 else (|script| + 31) / 16 * 16
  }

  function Usage(coin: Coin): nat {
    match coin
    case Spent => 0
    case Unspent(out, _, _) => ScriptUsage(out.script)
  }

  ghost function TotalUsage(m: CoinsMap): nat
    decreases |m|
  {
    if m == map[] then 0
    else
      var o :| o in m;
      Usage(m[o].coin) + TotalUsage(m - {o})
  }

  lemma {:induction false} TotalUsageRemove(m: CoinsMap, o: OutPoint)
    requires o in m
    ensures TotalUsage(m) == Usage(m[o].coin) + TotalUsage(m - {o})
    decreases |m|
  {
    var p :| p in m && TotalUsage(m) == Usage(m[p].coin) + TotalUsage(m - {p});
    if p != o {
      TotalUsageRemove(m - {p}, o);
      TotalUsageRemove(m - {o}, p);
      assert m - {p} - {o} == m - {o} - {p};
    }
  }

  lemma TotalUsageSet(m: CoinsMap, o: OutPoint, entry: Entry)
    ensures TotalUsage(m[o := entry]) ==
            TotalUsage(m) - (if o in m then Usage(m[o].coin) else 0) + Usage(entry.coin)
  {
    TotalUsageRemove(m[o := entry], o);
    assert m[o := entry] - {o} == m - {o};
    if o in m {
      TotalUsageRemove(m, o);
    } else {
      assert m - {o} == m;
    }
  }

  class CoinsViewCache {
    const base: CoinsViewCache?
    const db: CoinsDB
    var cacheCoins: CoinsMap
    var cachedCoinsUsage: int
    ghost const Repr: set<object>

    /** The chain of base pointers is acyclic and ends at the database. */
    ghost predicate Linked()
      decreases Repr
    {
      && this in Repr && db in Repr
      && (base != null ==> base.db == db && base in Repr && base.Repr == Repr - {this} && base.Linked())
      && (base == null ==> Repr == {this, db})
    }

    ghost function Model(): View
      requires Linked()
      reads Repr
      decreases Repr
    {
      Cache(cacheCoins, Below())
    }

    ghost function Below(): View
      requires Linked()
      reads Repr
      decreases Repr, 0
    {
      if base == null then Store(db.coins) else base.Model()
    }

    /** cachedCoinsUsage is the memory of exactly the cached coins, at every level. */
    ghost predicate UsageExact()
      requires Linked()
      reads Repr
      decreases Repr
    {
      cachedCoinsUsage == TotalUsage(cacheCoins) && (base != null ==> base.UsageExact())
    }

    constructor OnStore(db: CoinsDB)
      ensures Linked() && this.db == db && Repr == {this, db}
      ensures Model() == Cache(map[], Store(db.coins)) && UsageExact()
    {
      base, this.db := null, db;
      cacheCoins, cachedCoinsUsage := map[], 0;
      Repr := {this, db};
    }

    constructor OnCache(baseIn: CoinsViewCache)
      requires baseIn.Linked() && baseIn.UsageExact()
      ensures Linked() && base == baseIn && Repr == {this} + baseIn.Repr
      ensures Model() == Cache(map[], baseIn.Model()) && UsageExact()
    {
      base, db := baseIn, baseIn.db;
      cacheCoins, cachedCoinsUsage := map[], 0;
      Repr := {this} + baseIn.Repr;
    }

    method FetchCoin(o: OutPoint) returns (found: bool)
      requires Linked() && UsageExact()
      modifies Repr
      ensures UsageExact()
      ensures Model() == Fetch(old(Model()), o)
      ensures found == (o in cacheCoins) == Found(old(Model()), o)
      ensures found ==> cacheCoins[o].coin == Visible(old(Model()), o)
      decreases Repr, 0
    {
      if o in cacheCoins {
        return true;
      }
      var tmp: Coin;
      if base == null {
        found := o in db.coins;
        tmp := if found then db.coins[o] else Spent;
      } else {
        found, tmp := base.GetCoin(o);
      }
      if !found {
        return false;
      }
      TotalUsageSet(cacheCoins, o, Entry(tmp, false, tmp.Spent?));
      label inserting:
      cacheCoins := cacheCoins[o := Entry(tmp, false, tmp.Spent?)];
      cachedCoinsUsage := cachedCoinsUsage + Usage(tmp);
      assert Below() == old@inserting(Below());
    }

    method GetCoin(o: OutPoint) returns (found: bool, coin: Coin)
      requires Linked() && UsageExact()
      modifies Repr
      ensures UsageExact()
      ensures Model() == Fetch(old(Model()), o)
      ensures found == Found(old(Model()), o) && coin == Visible(old(Model()), o)
      decreases Repr, 1
    {
      FoundOrSpent(Model(), o);
      found := FetchCoin(o);
      coin := if found then cacheCoins[o].coin else Spent;
    }

    method HaveCoin(o: OutPoint) returns (have: bool)
      requires Linked() && UsageExact()
      modifies Repr
      ensures UsageExact()
      ensures Model() == Fetch(old(Model()), o)
      ensures have == Visible(old(Model()), o).Unspent?
    {
      FoundOrSpent(Model(), o);
      var found := FetchCoin(o);
      have := found && !cacheCoins[o].coin.Spent?;
    }

    /** On a throw the entries are untouched but the old coin's memory is already subtracted. */
    method AddCoin(o: OutPoint, coin: Coin, possibleOverwrite: bool) returns (threw: bool)
      requires Linked() && UsageExact() && coin.Unspent?
      modifies this
      ensures threw == AddThrows(old(Model()), o, coin, possibleOverwrite)
      ensures Model() == Add(old(Model()), o, coin, possibleOverwrite)
      ensures UsageExact() || threw
    {
      if Unspendable(coin.out) {
        return false;
      }
      var inserted := o !in cacheCoins;
      var entry := if inserted then Entry(Spent, false, false) else cacheCoins[o];
      ghost var before := cacheCoins;
      var nowFresh := false;
      if !inserted {
        cachedCoinsUsage := cachedCoinsUsage - Usage(entry.coin);
      }
      if !possibleOverwrite {
        if entry.coin.Unspent? {
          assert Below() == old(Below());
          return true;
        }
        nowFresh := !entry.dirty;
      }
      entry := Entry(coin, true, entry.isFresh || nowFresh);
      TotalUsageSet(before, o, entry);
      cacheCoins := cacheCoins[o := entry];
      cachedCoinsUsage := cachedCoinsUsage + Usage(coin);
      assert Below() == old(Below());
      threw := false;
    }

    method SpendCoin(o: OutPoint) returns (found: bool, moveout: Coin)
      requires Linked() && UsageExact()
      modifies Repr
      ensures UsageExact()
      ensures Model() == Spend(old(Model()), o)
      ensures found == Found(old(Model()), o) && moveout == Visible(old(Model()), o)
    {
      FoundOrSpent(Model(), o);
      found := FetchCoin(o);
      if !found {
        return false, Spent;
      }
      label fetched:
      cachedCoinsUsage := cachedCoinsUsage - Usage(cacheCoins[o].coin);
      moveout := cacheCoins[o].coin;
      if cacheCoins[o].isFresh {
        TotalUsageRemove(cacheCoins, o);
        cacheCoins := cacheCoins - {o};
      } else {
        TotalUsageSet(cacheCoins, o, Entry(Spent, true, false));
        cacheCoins := cacheCoins[o := Entry(Spent, true, false)];
      }
      assert Below() == old@fetched(Below());
    }

    method Uncache(o: OutPoint)
      requires Linked() && UsageExact()
      modifies this
      ensures UsageExact()
      ensures Model() == CoinsSpec.Uncache(old(Model()), o)
    {
      if o in cacheCoins && !cacheCoins[o].dirty && !cacheCoins[o].isFresh {
        TotalUsageRemove(cacheCoins, o);
        cachedCoinsUsage := cachedCoinsUsage - Usage(cacheCoins[o].coin);
        cacheCoins := cacheCoins - {o};
      }
      assert Below() == old(Below());
    }

    /** Takes over a child's records; a throw leaves the work half done. */
    method BatchWrite(child: CoinsMap) returns (threw: bool)
      requires Linked() && UsageExact()
      modifies this
      ensures UsageExact()
      ensures threw == AnyMisapplied(old(cacheCoins), child)
      ensures !threw ==> Model() == CoinsSpec.BatchWrite(old(Model()), child)
    {
      threw := WriteAll(child);
      assert Below() == old(Below());
    }

    /** BatchWrite's loop over the child's records, in whatever order they come. */
    method WriteAll(child: CoinsMap) returns (threw: bool)
      requires cachedCoinsUsage == TotalUsage(cacheCoins)
      modifies this
      ensures cachedCoinsUsage == TotalUsage(cacheCoins)
      ensures threw == AnyMisapplied(old(cacheCoins), child)
      ensures !threw ==> cacheCoins == Merge(old(cacheCoins), child)
    {
      hide TotalUsage, MergeOne, Merge, SplitOf;
      var todo := child;
      ghost var before, done: CoinsMap := cacheCoins, map[];
      MergeNothing(before, child);
      while todo != map[]
        invariant SplitOf(child, done, todo)
        invariant cacheCoins == Merge(before, done)
        invariant forall o :: o in done ==> !Misapplied(before, o, done[o])
        invariant cachedCoinsUsage == TotalUsage(cacheCoins)
        decreases todo.Keys
      {
        var o :| o in todo;
        SplitNext(child, done, todo, o);
        MergeUntouched(before, done, o);
        if Misapplied(cacheCoins, o, todo[o]) {
          assert Misapplied(before, o, child[o]);
          return true;
        }
        MergeNext(before, done, o, todo[o]);
        WriteOne(o, todo[o]);
        done, todo := done[o := todo[o]], todo - {o};
      }
      SplitAll(child, done);
      threw := false;
    }

    /** The body of BatchWrite's loop for one record. */
    method WriteOne(o: OutPoint, child: Entry)
      requires cachedCoinsUsage == TotalUsage(cacheCoins)
      modifies this
      ensures cacheCoins == MergeOne(old(cacheCoins), o, child)
      ensures cachedCoinsUsage == TotalUsage(cacheCoins)
    {
      if child.dirty {
        if o !in cacheCoins {
          if !(child.isFresh && child.coin.Spent?) {
            TotalUsageSet(cacheCoins, o, Entry(child.coin, true, child.isFresh));
            cacheCoins := cacheCoins[o := Entry(child.coin, true, child.isFresh)];
            cachedCoinsUsage := cachedCoinsUsage + Usage(child.coin);
          }
        } else if cacheCoins[o].isFresh && child.coin.Spent? {
          TotalUsageRemove(cacheCoins, o);
          cachedCoinsUsage := cachedCoinsUsage - Usage(cacheCoins[o].coin);
          cacheCoins := cacheCoins - {o};
        } else {
          TotalUsageSet(cacheCoins, o, Entry(child.coin, true, cacheCoins[o].isFresh));
          cachedCoinsUsage := cachedCoinsUsage - Usage(cacheCoins[o].coin);
          cacheCoins := cacheCoins[o := Entry(child.coin, true, cacheCoins[o].isFresh)];
          cachedCoinsUsage := cachedCoinsUsage + Usage(child.coin);
        }
      }
    }

    method Flush() returns (threw: bool)
      requires Linked() && UsageExact()
      modifies Repr
      ensures threw == FlushThrows(old(Model()))
      ensures !threw ==> Model() == CoinsSpec.Flush(old(Model())) && UsageExact()
    {
      ghost var before := Model();
      if base == null {
        db.BatchWrite(cacheCoins);
        threw := false;
      } else {
        assert base.Model().entries == base.cacheCoins;
        threw := base.BatchWrite(cacheCoins);
        if threw {
          return;
        }
      }
      label written:
      cacheCoins := map[];
      cachedCoinsUsage := 0;
      assert Below() == old@written(Below());
    }
  }

  lemma MergeUntouched(parent: CoinsMap, child: CoinsMap, o: OutPoint)
    requires o !in child
    ensures o in Merge(parent, child) <==> o in parent
    ensures o in parent ==> Merge(parent, child)[o] == parent[o]
  {
  }

  lemma MergeNext(parent: CoinsMap, done: CoinsMap, o: OutPoint, child: Entry)
    requires o !in done
    ensures Merge(parent, done[o := child]) == MergeOne(Merge(parent, done), o, child)
  {
    var a, b := Merge(parent, done), Merge(parent, done[o := child]);
    var r := MergeOne(a, o, child);
    forall p
      ensures p in b <==> p in r
      ensures p in b ==> b[p] == r[p]
    {
      if p == o {
        MergeUntouched(parent, done, o);
        assert MergeAt(parent, done[o := child], o) == MergeOne(parent, o, child);
      } else {
        assert MergeAt(parent, done[o := child], p) == MergeAt(parent, done, p);
      }
    }
  }
}
