/** The assembler's methods, on its own counters and lists. */
module BlockAssembler {
  import opened Sets
  import opened MinerSpec
  import opened Miner
  import opened PackageRun
  import opened Priorities

  ghost predicate AllFinal(cfg: Config, s: set<Tx>) {
    forall t :: t in s ==> cfg.final(t)
  }

  class Assembler {
    const pool: Pool
    const cfg: Config
    var vtx: seq<Tx>
    var vTxFees: seq<int>
    var vTxSigOpsCount: seq<int>
    var nBlockSize: int
    var nBlockTx: int
    var nBlockSigOps: int
    var nFees: int
    var inBlock: set<Tx>
    var lastFewTxs: int
    var blockFinished: bool

    ghost function Model(): Block
      reads this
    {
      Block(vtx, vTxFees, vTxSigOpsCount, nBlockSize, nBlockSigOps, nFees, inBlock)
    }

    ghost predicate Valid()
      reads this
    {
      && Sound(pool) && cfg.maxSize >= 1000 && nBlockTx == |vtx|
      && Shape(pool, Model()) && AllFinal(cfg, inBlock)
    }

    constructor (pool: Pool, cfg: Config)
      requires Sound(pool) && cfg.maxSize >= 1000
      ensures this.pool == pool && this.cfg == cfg && Valid() && Model() == EmptyBlock
    {
      hide Sound, Shape;
      this.pool, this.cfg := pool, cfg;
      vtx, vTxFees, vTxSigOpsCount := [], [], [];
      nBlockSize, nBlockTx, nBlockSigOps, nFees := COINBASE_SIZE, 0, COINBASE_SIGOPS, 0;
      inBlock := {};
      lastFewTxs, blockFinished := 0, false;
      EmptyShape(pool);
    }

    method ResetBlock()
      requires Sound(pool) && cfg.maxSize >= 1000
      modifies this
      ensures Valid() && Model() == EmptyBlock && lastFewTxs == 0 && !blockFinished
    {
      hide Sound, Shape;
      vtx, vTxFees, vTxSigOpsCount := [], [], [];
      nBlockSize, nBlockTx, nBlockSigOps, nFees := COINBASE_SIZE, 0, COINBASE_SIGOPS, 0;
      inBlock := {};
      lastFewTxs, blockFinished := 0, false;
      EmptyShape(pool);
    }

    /** Whether some parent is not in the block yet. */
    method IsStillDependent(iter: Tx) returns (dependent: bool)
      requires iter in pool.parents
      ensures dependent <==> !(pool.parents[iter] <= inBlock)
    {
      var todo := pool.parents[iter];
      while todo != {}
        invariant todo <= pool.parents[iter] && pool.parents[iter] - todo <= inBlock
        decreases todo
      {
        var parent :| parent in todo;
        if parent !in inBlock {
          return true;
        }
        todo := todo - {parent};
      }
      return false;
    }

    method OnlyUnconfirmed(testSet: set<Tx>) returns (rest: set<Tx>)
      ensures rest == testSet - inBlock
    {
      rest := testSet;
      var todo := testSet;
      while todo != {}
        invariant todo <= testSet && rest == todo + (testSet - todo - inBlock)
        decreases todo
      {
        var t :| t in todo;
        if t in inBlock {
          rest := rest - {t};
        }
        todo := todo - {t};
      }
    }

    method TestPackage(packageSize: int, packageSigOps: int) returns (ok: bool)
      requires nBlockSize + packageSize >= 1
      ensures ok <==>
                nBlockSize + packageSize < cfg.maxSize
                && nBlockSigOps + packageSigOps < MaxBlockSigOps(nBlockSize + packageSize)
    {
      var blockSizeWithPackage := nBlockSize + packageSize;
      if blockSizeWithPackage >= cfg.maxSize {
        return false;
      }
      if nBlockSigOps + packageSigOps >= MaxBlockSigOps(blockSizeWithPackage) {
        return false;
      }
      return true;
    }

    /** Whatever the order of the checks: all final, and all together below the maximum size. */
    method TestPackageTransactions(package: set<Tx>) returns (ok: bool)
      requires Sound(pool) && package <= pool.size.Keys && package != {}
      ensures ok <==> AllFinal(cfg, package) && nBlockSize + Total(pool.size, package) < cfg.maxSize
    {
      hide Sound, Total;
      var nPotentialBlockSize := nBlockSize;
      SizesNatural(package);
      ghost var done := {};
      NothingTotal();
      var todo := package;
      while todo != {}
        invariant todo <= package && done == package - todo
        invariant nPotentialBlockSize == nBlockSize + Total(pool.size, done)
        invariant forall t :: t in done ==> cfg.final(t)
        invariant done != {} ==> nPotentialBlockSize < cfg.maxSize
        decreases todo
      {
        var it :| it in todo;
        if !cfg.final(it) {
          return false;
        }
        TotalWith(pool.size, done, it);
        TotalMinus(pool.size, package, done + {it});
        TotalNatural(pool.size, package - (done + {it}));
        var nTxSize := pool.size[it];
        if nPotentialBlockSize + nTxSize >= cfg.maxSize {
          return false;
        }
        nPotentialBlockSize := nPotentialBlockSize + nTxSize;
        todo, done := todo - {it}, done + {it};
      }
      assert done == package;
      return true;
    }

    lemma SizesNatural(package: set<Tx>)
      requires Sound(pool) && package <= pool.size.Keys
      ensures forall t :: t in package ==> pool.size[t] >= 0
    {
      Natural(pool, package);
    }

    lemma Weighs(t: Tx)
      requires Sound(pool) && t in Txs(pool)
      ensures t in pool.size && t in pool.sigOps && pool.size[t] >= 0 && pool.sigOps[t] >= 0
    {
      Facts(pool, t);
    }

    lemma NothingTotal()
      ensures Total(pool.size, {}) == 0
    {
    }

    /** Whether one transaction fits; a block that is nearly full is flagged as finished. */
    method TestForBlock(it: Tx) returns (ok: bool)
      requires it in pool.size && it in pool.sigOps && pool.size[it] >= 0 && nBlockSize >= 1
      modifies `lastFewTxs, `blockFinished
      ensures ok <==>
                && nBlockSize + pool.size[it] < cfg.maxSize
                && nBlockSigOps + pool.sigOps[it] < MaxBlockSigOps(nBlockSize + pool.size[it])
                && cfg.final(it)
      ensures var full := nBlockSize + pool.size[it] >= cfg.maxSize;
              var giveUp := nBlockSize > cfg.maxSize - 100 || old(lastFewTxs) > 50;
              var dense := !full && nBlockSigOps + pool.sigOps[it] >= MaxBlockSigOps(nBlockSize + pool.size[it]);
              && blockFinished == (old(blockFinished) || (full && giveUp)
                                   || (dense && nBlockSigOps > MaxBlockSigOps(nBlockSize + pool.size[it]) - 2))
              && lastFewTxs == old(lastFewTxs) + (if full && !giveUp && nBlockSize > cfg.maxSize - 1000 then 1 else 0)
    {
      hide MaxBlockSigOps;
      var blockSizeWithTx := nBlockSize + pool.size[it];
      if blockSizeWithTx >= cfg.maxSize {
        if nBlockSize > cfg.maxSize - 100 || lastFewTxs > 50 {
          blockFinished := true;
          return false;
        }
        if nBlockSize > cfg.maxSize - 1000 {
          lastFewTxs := lastFewTxs + 1;
        }
        return false;
      }
      var maxBlockSigOps := MaxBlockSigOps(blockSizeWithTx);
      if nBlockSigOps + pool.sigOps[it] >= maxBlockSigOps {
        if nBlockSigOps > maxBlockSigOps - 2 {
          blockFinished := true;
          return false;
        }
        return false;
      }
      if !cfg.final(it) {
        return false;
      }
      return true;
    }

    method AddToBlock(iter: Tx)
      requires SameKeys(pool) && iter in Txs(pool)
      modifies `vtx, `vTxFees, `vTxSigOpsCount, `nBlockSize, `nBlockTx, `nBlockSigOps, `nFees, `inBlock
      ensures Model() == Append(pool, old(Model()), iter) && nBlockTx == old(nBlockTx) + 1 && |vtx| == |old(vtx)| + 1
    {
      vtx := vtx + [iter];
      vTxFees := vTxFees + [pool.fee[iter]];
      vTxSigOpsCount := vTxSigOpsCount + [pool.sigOps[iter]];
      nBlockSize := nBlockSize + pool.size[iter];
      nBlockTx := nBlockTx + 1;
      nBlockSigOps := nBlockSigOps + pool.sigOps[iter];
      nFees := nFees + pool.fee[iter];
      inBlock := inBlock + {iter};
    }

    method SortForBlock(package: set<Tx>) returns (sorted: seq<Tx>)
      requires package <= pool.count.Keys
      ensures Distinct(sorted) && Elements(sorted) == package && ByCount(pool, sorted)
    {
      sorted := [];
      var todo := package;
      while todo != {}
        invariant todo <= package && Distinct(sorted) && Elements(sorted) == package - todo && ByCount(pool, sorted)
        invariant forall x, u :: x in Elements(sorted) && u in todo ==> pool.count[x] <= pool.count[u]
        decreases todo
      {
        LeastCount(todo);
        var t :| t in todo && forall u :: u in todo ==> pool.count[t] <= pool.count[u];
        SortedAppend(sorted, t, todo);
        ElementsAppend(sorted, t);
        sorted, todo := sorted + [t], todo - {t};
      }
    }

    lemma SortedAppend(sorted: seq<Tx>, t: Tx, todo: set<Tx>)
      requires Elements(sorted) + {t} <= pool.count.Keys && ByCount(pool, sorted) && t in todo
               && todo <= pool.count.Keys
      requires forall x, u :: x in Elements(sorted) && u in todo ==> pool.count[x] <= pool.count[u]
      ensures Elements(sorted + [t]) <= pool.count.Keys && ByCount(pool, sorted + [t])
    {
      ElementsAppend(sorted, t);
      assert forall i :: 0 <= i < |sorted| ==> sorted[i] in Elements(sorted);
    }

    lemma {:induction false} LeastCount(s: set<Tx>)
      requires s <= pool.count.Keys && s != {}
      ensures exists t :: t in s && forall u :: u in s ==> pool.count[t] <= pool.count[u]
      decreases s
    {
      var x :| x in s;
      if s == {x} {
        assert x in s && forall u :: u in s ==> pool.count[x] <= pool.count[u];
      } else {
        LeastCount(s - {x});
        var t :| t in s - {x} && forall u :: u in s - {x} ==> pool.count[t] <= pool.count[u];
        var least := if pool.count[x] < pool.count[t] then x else t;
        assert least in s && forall u :: u in s ==> u == x || u in s - {x};
      }
    }

    /** Adds a package in sorted order and subtracts it from its descendants' entries. */
    method SelectPackage(d: Tx, package: set<Tx>, mods: map<Tx, Entry>, ghost notes: map<Tx, Note>,
                         ghost failed: set<Tx>)
      returns (mods': map<Tx, Entry>, ghost notes': map<Tx, Note>)
      requires Valid() && RecordsOk(pool, inBlock, failed, mods, notes)
      requires d in Txs(pool) && d !in inBlock && package == Unselected(pool, inBlock, d) && AllFinal(cfg, package)
      modifies `vtx, `vTxFees, `vTxSigOpsCount, `nBlockSize, `nBlockTx, `nBlockSigOps, `nFees, `inBlock
      ensures Valid() && inBlock == old(inBlock) + package && vtx != [] && old(vtx) <= vtx
      ensures SameKeys(pool) && package <= Txs(pool)
      ensures nBlockSize == old(nBlockSize) + Total(pool.size, package)
      ensures nBlockSigOps == old(nBlockSigOps) + Total(pool.sigOps, package)
      ensures RecordsOk(pool, inBlock, failed, mods', notes')
      ensures forall t :: Reduced(pool, mods - package, mods', t, Due(pool, package, package, t))
    {
      hide Reduced, Due;
      hide Sound, Shape, RecordsOk, AppendAll, Total, ByCount, Distinct, Unselected, Elements, Pending, Subtracted;
      FamilyKnown(d);
      ghost var b := Model();
      var sorted := SortForBlock(package);
      PackageAdded(pool, b, d, sorted);
      AppendAllLists(pool, b, sorted);
      mods' := AddSorted(sorted, mods);
      AddedPending(b, failed, mods, notes, package);
      mods', notes' := UpdatePackagesForAdded(pool, package, mods', notes);
      RecordsKeep(pool, b.inBlock, failed, mods, notes, package, mods', notes');
    }

    /** Adds transactions in order, dropping their modified entries. */
    method AddSorted(sorted: seq<Tx>, mods: map<Tx, Entry>) returns (mods': map<Tx, Entry>)
      requires SameKeys(pool) && Elements(sorted) <= Txs(pool) && nBlockTx == |vtx|
      modifies `vtx, `vTxFees, `vTxSigOpsCount, `nBlockSize, `nBlockTx, `nBlockSigOps, `nFees, `inBlock
      ensures Model() == AppendAll(pool, old(Model()), sorted) && nBlockTx == |vtx|
      ensures mods' == mods - Elements(sorted)
    {
      hide Append, AppendAll, Elements;
      ghost var b := Model();
      mods' := mods;
      NothingAppended(b, sorted);
      for i := 0 to |sorted|
        invariant Elements(sorted[..i]) <= Txs(pool) && Model() == AppendAll(pool, b, sorted[..i])
        invariant mods' == mods - Elements(sorted[..i]) && nBlockTx == |vtx|
      {
        PrefixNext(sorted, i);
        AppendAllNext(pool, b, sorted, i);
        AddToBlock(sorted[i]);
        mods' := mods' - {sorted[i]};
      }
      assert sorted[..|sorted|] == sorted;
    }

    lemma NothingAppended(b: Block, sorted: seq<Tx>)
      requires SameKeys(pool)
      ensures Elements(sorted[..0]) == {} && AppendAll(pool, b, sorted[..0]) == b
    {
    }

    lemma FamilyKnown(d: Tx)
      requires Sound(pool) && d in Txs(pool)
      ensures SameKeys(pool) && forall s :: Unselected(pool, s, d) <= Txs(pool) && Unselected(pool, s, d) !! s
    {
      Facts(pool, d);
    }

    lemma PrefixNext(sorted: seq<Tx>, i: nat)
      requires i < |sorted|
      ensures Elements(sorted[..i + 1]) == Elements(sorted[..i]) + {sorted[i]}
      ensures sorted[i] in Elements(sorted)
    {
      assert sorted[..i + 1] == sorted[..i] + [sorted[i]];
    }

    lemma AppendAllNext(pool: Pool, b: Block, sorted: seq<Tx>, i: nat)
      requires SameKeys(pool) && Elements(sorted) <= Txs(pool) && i < |sorted|
      ensures Elements(sorted[..i + 1]) <= Txs(pool) && Elements(sorted[..i]) <= Txs(pool) && sorted[i] in Txs(pool)
      ensures AppendAll(pool, b, sorted[..i + 1]) == Append(pool, AppendAll(pool, b, sorted[..i]), sorted[i])
    {
      PrefixNext(sorted, i);
      assert sorted[..i + 1][..i] == sorted[..i];
    }

    lemma AddedPending(b: Block, failed: set<Tx>, mods: map<Tx, Entry>, notes: map<Tx, Note>, package: set<Tx>)
      requires Sound(pool) && Shape(pool, b) && RecordsOk(pool, b.inBlock, failed, mods, notes) && package !! b.inBlock
      ensures Closed(pool, b.inBlock)
      ensures forall d :: Pending(pool, package, mods - package, notes, d)
    {
      hide Sound, EntryOk, Total;
      OrderedClosed(pool, b.vtx);
      forall d ensures Pending(pool, package, mods - package, notes, d) {
        assert RecordOk(pool, b.inBlock, failed, mods, notes, d);
      }
    }

    /** A cached entry is skipped when it is selected, stale or known to fail. */
    predicate SkipMapTxEntry(it: Tx, mods: map<Tx, Entry>, failedTx: set<Tx>)
      reads this
    {
      it in mods || it in inBlock || it in failedTx
    }

    ghost function At(mods: map<Tx, Entry>, failedTx: set<Tx>, mi: nat, failures: nat): State
      reads this
    {
      State(inBlock, mods, failedTx, mi, failures)
    }

    lemma AtInPool(order: seq<Tx>, mods: map<Tx, Entry>, notes: map<Tx, Note>, failedTx: set<Tx>)
      requires Valid() && RecordsOk(pool, inBlock, failedTx, mods, notes) && Elements(order) <= Txs(pool)
      ensures forall mi, failures :: InPool(pool, order, At(mods, failedTx, mi, failures))
    {
      hide Sound, EntryOk;
      forall d | d in mods ensures d in Txs(pool) {
        assert RecordOk(pool, inBlock, failedTx, mods, notes, d);
      }
    }

    /** The next candidate: from the cached order, or the best modified entry if it scores better. */
    method Choose(order: seq<Tx>, mi: nat, mods: map<Tx, Entry>, ghost notes: map<Tx, Note>, failedTx: set<Tx>,
                  ghost failures: nat)
      returns (pick: Pick, mi': nat)
      requires Valid() && RecordsOk(pool, inBlock, failedTx, mods, notes)
               && InPool(pool, order, At(mods, failedTx, mi, failures))
      requires mi <= |order| && (mi < |order| || mods != map[])
      requires mi < |order| ==> !SkipMapTxEntry(order[mi], mods, failedTx)
      ensures Picks(pool, cfg, order, At(mods, failedTx, mi, failures), pick)
      ensures pick.modified ==> pick.tx in mods && mi' == mi
      ensures !pick.modified ==> mi < |order| && pick.tx !in failedTx && mi' == mi + 1
      ensures pick.tx in Txs(pool) && pick.tx !in inBlock
              && Covers(pool, inBlock, pick.tx, pick.entry, pick.tx !in failedTx)
    {
      hide Sound, Shape, RecordsOk, Covers, Elements, AllFinal;
      if mods != map[] {
        BestExists(cfg, mods);
        var best :| best in mods && Best(cfg, mods, best);
        var useModified := mi == |order|;
        if !useModified {
          InOrder(order, mi);
          var ahead := cfg.score(mods[best]) - cfg.score(pool.cached[order[mi]]);
          var tie: bool := *;
          useModified := ahead > 0.0 || (ahead == 0.0 && tie);
        }
        if useModified {
          ModifiedCovers(pool, inBlock, failedTx, mods, notes, best);
          pick, mi' := Pick(best, mods[best], true), mi;
          return;
        }
      }
      InOrder(order, mi);
      CachedCovers(pool, inBlock, failedTx, mods, notes, order[mi]);
      pick, mi' := Pick(order[mi], pool.cached[order[mi]], false), mi + 1;
    }

    lemma InOrder(order: seq<Tx>, i: nat)
      requires Sound(pool) && i < |order| && Elements(order) <= Txs(pool)
      ensures order[i] in Txs(pool) && order[i] in pool.cached
    {
      assert order[i] in Elements(order);
      Facts(pool, order[i]);
    }

    lemma RecordsStart(mods: map<Tx, Entry>, notes: map<Tx, Note>)
      requires Valid() && forall d :: Subtracted(pool, map[], map[], mods, notes, d, Due(pool, inBlock, inBlock, d))
      ensures RecordsOk(pool, inBlock, {}, mods, notes)
    {
      hide Sound, Shape, EntryOk, Subtracted, Due;
      var none: map<Tx, Entry> := map[];
      assert none - inBlock == none;
      assert Closed(pool, {});
      RecordsKeep(pool, {}, {}, map[], map[], inBlock, mods, notes);
      assert {} + inBlock == inBlock;
    }

    lemma AncestorsKnown(d: Tx)
      requires Valid() && d in Txs(pool) && d !in inBlock
      ensures d in pool.ancestors && SameKeys(pool)
      ensures pool.ancestors[d] - inBlock + {d} == Unselected(pool, inBlock, d)
              && Unselected(pool, inBlock, d) <= Txs(pool)
    {
      hide Sound, Shape;
      Facts(pool, d);
    }

    lemma CandidateSize(b: Block, d: Tx, e: Entry, exact: bool, recycled: bool)
      requires Sound(pool) && cfg.maxSize >= 2 && d in Txs(pool) && Limits(cfg.maxSize, b, recycled)
               && Covers(pool, b.inBlock, d, e, exact)
      ensures b.size + e.size >= 1
    {
    }

    lemma PackageFits(b: Block, b': Block, d: Tx, e: Entry, exact: bool, recycled: bool)
      requires Sound(pool) && cfg.maxSize >= 2 && d in Txs(pool) && Limits(cfg.maxSize, b, recycled)
               && Covers(pool, b.inBlock, d, e, exact)
      requires SameKeys(pool) && Unselected(pool, b.inBlock, d) <= Txs(pool)
      requires 1 <= b.size + e.size < cfg.maxSize && b.sigOps + e.sigOps < MaxBlockSigOps(b.size + e.size)
      requires b'.size == b.size + Total(pool.size, Unselected(pool, b.inBlock, d))
      requires b'.sigOps == b.sigOps + Total(pool.sigOps, Unselected(pool, b.inBlock, d))
      ensures Limits(cfg.maxSize, b', recycled || !exact)
    {
      hide Sound, Total, Unselected, MaxBlockSigOps;
      LimitsKeep(cfg.maxSize, b, b', e.size, e.sigOps, recycled, exact);
    }

    /** Evaluates one candidate; a package that passes all checks enters the block. */
    method Evaluate(iter: Tx, e: Entry, mods: map<Tx, Entry>, ghost notes: map<Tx, Note>, ghost failed: set<Tx>,
                    ghost recycled: bool)
      returns (fits: bool, selected: bool, mods': map<Tx, Entry>, ghost notes': map<Tx, Note>)
      requires Valid() && RecordsOk(pool, inBlock, failed, mods, notes) && Limits(cfg.maxSize, Model(), recycled)
      requires iter in Txs(pool) && iter !in inBlock && Covers(pool, inBlock, iter, e, iter !in failed)
      modifies `vtx, `vTxFees, `vTxSigOpsCount, `nBlockSize, `nBlockTx, `nBlockSigOps, `nFees, `inBlock
      ensures fits <==> RoomFor(cfg, old(nBlockSize), old(nBlockSigOps), e)
      ensures SameKeys(pool) && old(inBlock) <= pool.size.Keys && Unselected(pool, old(inBlock), iter) <= pool.size.Keys
      ensures selected <==> fits && Admissible(pool, cfg, old(inBlock), Unselected(pool, old(inBlock), iter))
      ensures selected ==>
                var package := Unselected(pool, old(inBlock), iter);
                forall d :: Reduced(pool, mods - package, mods', d, Due(pool, package, package, d))
      ensures Valid() && RecordsOk(pool, inBlock, failed, mods', notes')
      ensures !selected ==> Model() == old(Model()) && mods' == mods && notes' == notes
      ensures selected ==> inBlock == old(inBlock) + Unselected(pool, old(inBlock), iter) && iter in inBlock
      ensures old(vtx) <= vtx
      ensures Limits(cfg.maxSize, Model(), recycled || (selected && iter in failed))
    {
      hide Sound, Shape, RecordsOk, Total, Unselected, MaxBlockSigOps, Limits, Covers, Admissible, AllFinal, Reduced,
           Due;
      selected, mods', notes' := false, mods, notes;
      CandidateSize(Model(), iter, e, iter !in failed, recycled);
      AncestorsKnown(iter);
      Counted(Model());
      fits := TestPackage(e.size, e.sigOps);
      if fits {
        ghost var b := Model();
        selected, mods', notes' := Admit(iter, mods, notes, failed);
        if selected {
          PackageFits(b, Model(), iter, e, iter !in failed, recycled);
        }
      }
    }

    /** Adds a package if all its transactions are final and fit. */
    method Admit(iter: Tx, mods: map<Tx, Entry>, ghost notes: map<Tx, Note>, ghost failed: set<Tx>)
      returns (selected: bool, mods': map<Tx, Entry>, ghost notes': map<Tx, Note>)
      requires Valid() && RecordsOk(pool, inBlock, failed, mods, notes) && iter in Txs(pool) && iter !in inBlock
      modifies `vtx, `vTxFees, `vTxSigOpsCount, `nBlockSize, `nBlockTx, `nBlockSigOps, `nFees, `inBlock
      ensures Valid() && RecordsOk(pool, inBlock, failed, mods', notes')
      ensures SameKeys(pool) && old(inBlock) <= pool.size.Keys && Unselected(pool, old(inBlock), iter) <= Txs(pool)
      ensures selected <==> Admissible(pool, cfg, old(inBlock), Unselected(pool, old(inBlock), iter))
      ensures !selected ==> Model() == old(Model()) && mods' == mods && notes' == notes
      ensures selected ==>
                var package := Unselected(pool, old(inBlock), iter);
                && inBlock == old(inBlock) + package && iter in inBlock && old(vtx) <= vtx
                && nBlockSize == old(nBlockSize) + Total(pool.size, package)
                && nBlockSigOps == old(nBlockSigOps) + Total(pool.sigOps, package)
                && forall d :: Reduced(pool, mods - package, mods', d, Due(pool, package, package, d))
    {
      hide Sound, Shape, RecordsOk, Total, Unselected, Admissible, AllFinal, Reduced, Due;
      selected, mods', notes' := false, mods, notes;
      AncestorsKnown(iter);
      var ancestors := OnlyUnconfirmed(pool.ancestors[iter]);
      ancestors := ancestors + {iter};
      Admitted(Model(), ancestors);
      selected := TestPackageTransactions(ancestors);
      if selected {
        mods', notes' := SelectPackage(iter, ancestors, mods, notes, failed);
      }
    }

    lemma Counted(b: Block)
      requires Sound(pool) && Shape(pool, b)
      ensures SameKeys(pool) && b.inBlock <= Txs(pool)
      ensures b.size == BlockSize(pool, b.inBlock) && b.sigOps == BlockSigOps(pool, b.inBlock)
    {
    }

    lemma KnownBlock(b: Block)
      requires Sound(pool) && Shape(pool, b)
      ensures b.inBlock <= Txs(pool)
    {
    }

    lemma Admitted(b: Block, package: set<Tx>)
      requires Sound(pool) && Shape(pool, b) && package <= Txs(pool)
      ensures SameKeys(pool) && b.inBlock <= Txs(pool)
      ensures Admissible(pool, cfg, b.inBlock, package) <==>
                AllFinal(cfg, package) && b.size + Total(pool.size, package) < cfg.maxSize
    {
      hide Sound, Total;
      Counted(b);
    }

    /** Evaluates one candidate and settles what becomes of its entry. */
    method Try(pick: Pick, ghost mi: nat, mods: map<Tx, Entry>, ghost notes: map<Tx, Note>, failedTx: set<Tx>,
               nConsecutiveFailed: nat, ghost recycled: bool)
      returns (selected: bool, mods': map<Tx, Entry>, ghost notes': map<Tx, Note>, failedTx': set<Tx>,
               nConsecutiveFailed': nat, ghost recycled': bool)
      requires Valid() && RecordsOk(pool, inBlock, failedTx, mods, notes) && Limits(cfg.maxSize, Model(), recycled)
      requires pick.tx in Txs(pool) && pick.tx !in inBlock
               && Covers(pool, inBlock, pick.tx, pick.entry, pick.tx !in failedTx)
      requires pick.modified ==> pick.tx in mods
      modifies `vtx, `vTxFees, `vTxSigOpsCount, `nBlockSize, `nBlockTx, `nBlockSigOps, `nFees, `inBlock
      ensures Valid() && RecordsOk(pool, inBlock, failedTx', mods', notes') && Limits(cfg.maxSize, Model(), recycled')
      ensures old(inBlock) <= Txs(pool)
      ensures Evaluates(pool, cfg, old(At(mods, failedTx, mi, nConsecutiveFailed)), pick,
                        At(mods', failedTx', if pick.modified then mi else mi + 1, nConsecutiveFailed'))
      ensures selected ==> old(inBlock) < inBlock && nConsecutiveFailed' == 0
      ensures old(vtx) <= vtx
      ensures !selected ==> Model() == old(Model()) && nConsecutiveFailed' >= nConsecutiveFailed
      ensures !selected && pick.modified ==> mods'.Keys < mods.Keys
    {
      hide Sound, Shape, RecordsOk, Total, Unselected, Limits, Covers, Elements, Admissible, AllFinal, Reduced, Due;
      hide MaxBlockSigOps, Fits, RoomFor, Selects, Evaluates;
      ghost var s := At(mods, failedTx, mi, nConsecutiveFailed);
      FitsBlock(Model(), s, pick.entry);
      failedTx', nConsecutiveFailed', recycled' := failedTx, nConsecutiveFailed, recycled;
      var fits;
      fits, selected, mods', notes' := Evaluate(pick.tx, pick.entry, mods, notes, failedTx, recycled);
      if selected {
        recycled' := recycled || pick.tx in failedTx;
        nConsecutiveFailed' := 0;
      } else {
        if pick.modified {
          FailKeeps(pool, inBlock, failedTx, mods, notes, pick.tx);
          mods', failedTx' := mods - {pick.tx}, failedTx + {pick.tx};
          assert pick.tx !in mods'.Keys;
        }
        if !fits {
          nConsecutiveFailed' := nConsecutiveFailed + 1;
        }
      }
      ghost var s' := At(mods', failedTx', if pick.modified then mi else mi + 1, nConsecutiveFailed');
      if selected {
        Settles(s, pick, s');
      }
      Evaluated(pool, cfg, s, pick, s', fits, selected);
    }

    /** The block and the entries after considering one candidate that is not skipped. */
    method Consider(order: seq<Tx>, mi: nat, mods: map<Tx, Entry>, ghost notes: map<Tx, Note>, failedTx: set<Tx>,
                    nConsecutiveFailed: nat, ghost recycled: bool)
      returns (low: bool, selected: bool, mi': nat, mods': map<Tx, Entry>, ghost notes': map<Tx, Note>,
               failedTx': set<Tx>,
               nConsecutiveFailed': nat, ghost recycled': bool)
      requires Valid() && RecordsOk(pool, inBlock, failedTx, mods, notes) && Limits(cfg.maxSize, Model(), recycled)
      requires mi <= |order| && Elements(order) <= Txs(pool)
               && InPool(pool, order, At(mods, failedTx, mi, nConsecutiveFailed))
      requires Going(pool, cfg, order, At(mods, failedTx, mi, nConsecutiveFailed))
      requires mi < |order| ==> !SkipMapTxEntry(order[mi], mods, failedTx)
      modifies `vtx, `vTxFees, `vTxSigOpsCount, `nBlockSize, `nBlockTx, `nBlockSigOps, `nFees, `inBlock
      ensures Valid() && RecordsOk(pool, inBlock, failedTx', mods', notes') && Limits(cfg.maxSize, Model(), recycled')
      ensures mi <= mi' <= |order| && old(inBlock) <= inBlock && old(vtx) <= vtx
      ensures InPool(pool, order, At(mods', failedTx', mi', nConsecutiveFailed'))
      ensures low ==>
                Ended(pool, cfg, order, old(At(mods, failedTx, mi, nConsecutiveFailed))) && Model() == old(Model())
      ensures !low ==>
                Step(pool, cfg, order, old(At(mods, failedTx, mi, nConsecutiveFailed)),
                     At(mods', failedTx', mi', nConsecutiveFailed'))
      ensures nConsecutiveFailed' <= nConsecutiveFailed ==>
                !(nConsecutiveFailed' > MAX_CONSECUTIVE_FAILURES && nBlockSize > cfg.maxSize - 1000)
      ensures selected ==> old(inBlock) < inBlock
      ensures !low && !selected ==> inBlock == old(inBlock) && (mi' > mi || mods'.Keys < mods.Keys)
    {
      hide Sound, Shape, RecordsOk, Limits, Covers, Elements, AllFinal, InPool, Picks, Going, Ended, Step, Evaluates,
           Pays;
      low, selected, mods', notes', failedTx', nConsecutiveFailed', recycled' :=
        false, false, mods, notes, failedTx, nConsecutiveFailed, recycled;
      var pick;
      ghost var s := At(mods, failedTx, mi, nConsecutiveFailed);
      GoingOn(Model(), order, s);
      pick, mi' := Choose(order, mi, mods, notes, failedTx, nConsecutiveFailed);
      assert pick.tx !in inBlock;
      Underpaid(order, s, pick);
      if pick.entry.fees < cfg.minFee(pick.entry.size) {
        low, mi' := true, mi;
        return;
      }
      selected, mods', notes', failedTx', nConsecutiveFailed', recycled' :=
        Try(pick, mi, mods, notes, failedTx, nConsecutiveFailed, recycled);
      AtInPool(order, mods', notes', failedTx');
      StepTaken(pool, cfg, order, s, pick, At(mods', failedTx', mi', nConsecutiveFailed'));
    }

    lemma GoingOn(b: Block, order: seq<Tx>, s: State)
      requires Sound(pool) && Shape(pool, b) && InPool(pool, order, s) && s.inBlock == b.inBlock
      ensures Going(pool, cfg, order, s) <==>
                (s.mi < |order| || s.mods != map[])
                && !(s.failures > MAX_CONSECUTIVE_FAILURES && b.size > cfg.maxSize - 1000)
      ensures !Going(pool, cfg, order, s) ==> Ended(pool, cfg, order, s)
    {
      hide Sound, Total;
    }

    lemma Underpaid(order: seq<Tx>, s: State, pick: Pick)
      requires InPool(pool, order, s) && Picks(pool, cfg, order, s, pick) && !(s.mi < |order| && Skips(s, order[s.mi]))
      ensures pick.entry.fees < cfg.minFee(pick.entry.size) ==> Ended(pool, cfg, order, s)
      ensures pick.entry.fees >= cfg.minFee(pick.entry.size) ==> Pays(pool, cfg, order, s, pick)
    {
      hide InPool, Picks;
    }

    lemma FitsBlock(b: Block, s: State, e: Entry)
      requires Sound(pool) && Shape(pool, b) && s.inBlock == b.inBlock
      ensures SameKeys(pool) && s.inBlock <= Txs(pool)
      ensures Fits(pool, cfg, s, e) <==> RoomFor(cfg, b.size, b.sigOps, e)
    {
      hide Sound, Total, RoomFor;
      Counted(b);
    }

    lemma Settles(s: State, pick: Pick, s': State)
      requires pick.tx in pool.ancestors
      requires s'.failed == s.failed && s'.failures == 0 && s'.mi == (if pick.modified then s.mi else s.mi + 1)
      requires var package := Unselected(pool, s.inBlock, pick.tx);
               s'.inBlock == s.inBlock + package
               && forall d :: Reduced(pool, s.mods - package, s'.mods, d, Due(pool, package, package, d))
      ensures Selects(pool, s, pick, s')
    {
    }

    /** What holds of the first state of a run: nothing failed, and the block's transactions subtracted. */
    ghost predicate Starts(s: State) {
      && s.failed == {} && s.mi == 0 && s.failures == 0
      && forall d :: Reduced(pool, map[], s.mods, d, Due(pool, s.inBlock, s.inBlock, d))
    }

    /**
      Selects packages until candidates run out, fees drop too low or the block is nearly
      full. `recycled` tells whether a package was selected whose modified entry had failed
      before and was re-created; `run` lists the states the loop goes through.
    */
    method AddPackageTxs(order: seq<Tx>) returns (nPackagesSelected: nat, ghost recycled: bool, ghost run: seq<State>)
      requires Valid() && Elements(order) == Txs(pool) && Limits(cfg.maxSize, Model(), false)
      modifies `vtx, `vTxFees, `vTxSigOpsCount, `nBlockSize, `nBlockTx, `nBlockSigOps, `nFees, `inBlock
      ensures Valid() && old(inBlock) <= inBlock && Limits(cfg.maxSize, Model(), recycled) && old(vtx) <= vtx
      ensures run != [] && Run(pool, cfg, order, run) && Starts(run[0]) && run[0].inBlock == old(inBlock)
      ensures var last := run[|run| - 1];
              last.inBlock == inBlock && InPool(pool, order, last) && Ended(pool, cfg, order, last)
    {
      hide Sound, Shape, RecordsOk, Total, Unselected, Limits, Covers, Elements, AllFinal, Reduced, Due, Step, Starts,
           Run;
      hide Picks, Pays, MaxBlockSigOps, RoomFor, Fits, InPool, Going, Ended;
      var mods: map<Tx, Entry>, failedTx: set<Tx> := map[], {};
      ghost var notes: map<Tx, Note> := map[];
      nPackagesSelected, recycled := 0, false;
      mods, notes := UpdatePackagesForAdded(pool, inBlock, mods, notes);
      RecordsStart(mods, notes);
      hide Subtracted, Pending;
      var mi: nat, nConsecutiveFailed: nat := 0, 0;
      run := [At(mods, failedTx, mi, nConsecutiveFailed)];
      Started(run[0]);
      RunStarts(pool, cfg, order, run[0]);
      AtInPool(order, mods, notes, failedTx);
      while mi < |order| || mods != map[]
        invariant Valid() && mi <= |order| && RecordsOk(pool, inBlock, failedTx, mods, notes)
        invariant Limits(cfg.maxSize, Model(), recycled) && old(inBlock) <= inBlock && old(vtx) <= vtx
        invariant !(nConsecutiveFailed > MAX_CONSECUTIVE_FAILURES && nBlockSize > cfg.maxSize - 1000)
        invariant run != [] && Run(pool, cfg, order, run) && run[0].inBlock == old(inBlock) && Starts(run[0])
        invariant run[|run| - 1] == At(mods, failedTx, mi, nConsecutiveFailed) && InPool(pool, order, run[|run| - 1])
        decreases Txs(pool) - inBlock, |order| - mi, mods.Keys
      {
        GoingOn(Model(), order, run[|run| - 1]);
        if mi < |order| && SkipMapTxEntry(order[mi], mods, failedTx) {
          StepSkips(pool, cfg, order, run[|run| - 1]);
          mi := mi + 1;
          RunGrows(pool, cfg, order, run, At(mods, failedTx, mi, nConsecutiveFailed));
          run := run + [At(mods, failedTx, mi, nConsecutiveFailed)];
          continue;
        }
        var low, selected;
        var failedBefore := nConsecutiveFailed;
        low, selected, mi, mods, notes, failedTx, nConsecutiveFailed, recycled :=
          Consider(order, mi, mods, notes, failedTx, nConsecutiveFailed, recycled);
        if low {
          return;
        }
        RunGrows(pool, cfg, order, run, At(mods, failedTx, mi, nConsecutiveFailed));
        run := run + [At(mods, failedTx, mi, nConsecutiveFailed)];
        KnownBlock(Model());
        if selected {
          nPackagesSelected := nPackagesSelected + 1;
        }
        if nConsecutiveFailed > failedBefore && nConsecutiveFailed > MAX_CONSECUTIVE_FAILURES
           && nBlockSize > cfg.maxSize - 1000
        {
          break;
        }
      }
      GoingOn(Model(), order, run[|run| - 1]);
    }

    lemma Started(s: State)
      requires s.failed == {} && s.mi == 0 && s.failures == 0
      requires forall d :: Reduced(pool, map[], s.mods, d, Due(pool, s.inBlock, s.inBlock, d))
      ensures Starts(s)
    {
    }

    /** Adding a transaction that fits keeps the limits. */
    lemma OneFits(b: Block, t: Tx)
      requires Sound(pool) && cfg.maxSize >= 2 && Shape(pool, b) && Limits(cfg.maxSize, b, false)
      requires t in Txs(pool) && t !in b.inBlock && pool.parents[t] <= b.inBlock
      requires t in pool.size && t in pool.sigOps && pool.size[t] >= 0
      requires b.size + pool.size[t] < cfg.maxSize && b.sigOps + pool.sigOps[t] < MaxBlockSigOps(b.size + pool.size[t])
      ensures SameKeys(pool) && Shape(pool, Append(pool, b, t)) && Limits(cfg.maxSize, Append(pool, b, t), false)
      ensures Append(pool, b, t).inBlock == b.inBlock + {t} && |Append(pool, b, t).vtx| == |b.vtx| + 1
    {
      hide Sound, Total, MaxBlockSigOps, Columns;
      OrderedClosed(pool, b.vtx);
      ParentsSuffice(pool, b.inBlock, t);
      AppendKeeps(pool, b, t);
      LimitsKeep(cfg.maxSize, b, Append(pool, b, t), pool.size[t], pool.sigOps[t], false, true);
    }

    /** The queue holds each unselected, not waiting transaction at most once. */
    ghost predicate Queued(inBlock: set<Tx>, queue: multiset<Tx>, wait: set<Tx>) {
      && (forall t :: t in queue ==> queue[t] == 1 && t in Txs(pool) && t !in inBlock && t !in wait)
      && wait <= Txs(pool) - inBlock
    }

    lemma AllQueued()
      requires inBlock == {}
      ensures Queued(inBlock, multiset(Txs(pool)), {})
    {
    }

    /** The transaction taken from the queue is not in the block, and can wait or be selected. */
    lemma Popped(queue: multiset<Tx>, wait: set<Tx>, t: Tx)
      requires Queued(inBlock, queue, wait) && t in queue
      ensures t in Txs(pool) && t !in inBlock && queue[t] == 1 && t !in wait
      ensures Queued(inBlock, queue - multiset{t}, wait) && Queued(inBlock, queue - multiset{t}, wait + {t})
      ensures Queued(inBlock + {t}, queue - multiset{t}, wait)
    {
    }

    lemma HasCoinbase(b: Block)
      requires cfg.maxSize >= 2 && Limits(cfg.maxSize, b, false)
      ensures b.size >= COINBASE_SIZE
    {
    }

    /** Puts the children of a selected transaction that were waiting back into the queue. */
    method Requeue(iter: Tx, queue: multiset<Tx>, wait: set<Tx>) returns (queue': multiset<Tx>, wait': set<Tx>)
      requires Queued(inBlock, queue, wait) && iter in inBlock
      ensures Queued(inBlock, queue', wait') && Requeued(pool, iter, queue, wait, queue', wait')
    {
      queue', wait' := queue, wait;
      var children := set c | c in pool.parents && iter in pool.parents[c];
      var todo := children;
      while todo != {}
        invariant Queued(inBlock, queue', wait') && todo <= children
        invariant forall u :: u in queue' <==> u in queue || (u in wait && u in children - todo)
        invariant forall u :: u in wait' <==> u in wait && u !in children - todo
        decreases todo
      {
        var child :| child in todo;
        if child in wait' {
          queue' := queue' + multiset{child};
          wait' := wait' - {child};
        }
        todo := todo - {child};
      }
    }

    /** Adds a transaction with no unselected parent if it fits. */
    method TryToAdd(iter: Tx) returns (added: bool)
      requires Valid() && Limits(cfg.maxSize, Model(), false)
      requires iter in Txs(pool) && iter !in inBlock && pool.parents[iter] <= inBlock
      modifies this
      ensures Valid() && Limits(cfg.maxSize, Model(), false)
      ensures inBlock == if added then old(inBlock) + {iter} else old(inBlock)
      ensures Known(pool, old(vtx)) && (added <==> Passes(pool, cfg, old(vtx), iter))
      ensures vtx == if added then old(vtx) + [iter] else old(vtx)
      ensures blockFinished <==> old(blockFinished) || Finishes(pool, cfg, old(vtx), old(lastFewTxs), iter)
      ensures var late := Narrow(pool, cfg, old(vtx), iter) && !Finishes(pool, cfg, old(vtx), old(lastFewTxs), iter);
              lastFewTxs == old(lastFewTxs) + (if late then 1 else 0)
      ensures added ==> blockFinished == old(blockFinished) && lastFewTxs == old(lastFewTxs)
    {
      hide Sound, Shape, MaxBlockSigOps, Limits, Append, Passes, Known, Finishes, Narrow;
      HasCoinbase(Model());
      Weighs(iter);
      PassesIs(Model(), iter);
      FinishesIs(Model(), lastFewTxs, iter);
      added := TestForBlock(iter);
      if added {
        OneFits(Model(), iter);
        AppendLists(Model(), iter);
        AddToBlock(iter);
      }
    }

    /** The counters are those of the list. */
    lemma Listed(b: Block)
      requires Sound(pool) && Shape(pool, b)
      ensures Known(pool, b.vtx) && Elements(b.vtx) == b.inBlock
      ensures b.size == SizeOf(pool, b.vtx) && b.sigOps == SigOpsOf(pool, b.vtx)
    {
      hide Sound, Total;
      Counted(b);
    }

    lemma PassesIs(b: Block, t: Tx)
      requires Sound(pool) && Shape(pool, b) && t in Txs(pool) && t in pool.size && t in pool.sigOps
      requires b.size >= COINBASE_SIZE && pool.size[t] >= 0
      ensures Known(pool, b.vtx)
      ensures Passes(pool, cfg, b.vtx, t) <==>
                && b.size + pool.size[t] < cfg.maxSize
                && b.sigOps + pool.sigOps[t] < MaxBlockSigOps(b.size + pool.size[t])
                && cfg.final(t)
    {
      hide Sound, Shape, SizeOf, SigOpsOf, MaxBlockSigOps;
      Listed(b);
    }

    lemma FinishesIs(b: Block, few: int, t: Tx)
      requires Sound(pool) && Shape(pool, b) && t in Txs(pool) && t in pool.size && t in pool.sigOps
      requires b.size >= COINBASE_SIZE && pool.size[t] >= 0
      ensures Known(pool, b.vtx)
      ensures Narrow(pool, cfg, b.vtx, t) <==> b.size > cfg.maxSize - 1000 && b.size + pool.size[t] >= cfg.maxSize
      ensures var next := b.size + pool.size[t];
              Finishes(pool, cfg, b.vtx, few, t) <==>
                if next >= cfg.maxSize then b.size > cfg.maxSize - 100 || few > 50
                else b.sigOps + pool.sigOps[t] >= MaxBlockSigOps(next) && b.sigOps > MaxBlockSigOps(next) - 2
    {
      hide Sound, Shape, SizeOf, SigOpsOf, MaxBlockSigOps;
      Listed(b);
    }

    lemma AppendLists(b: Block, t: Tx)
      requires SameKeys(pool) && t in Txs(pool)
      ensures Append(pool, b, t).vtx == b.vtx + [t]
    {
    }

    /** What the loop over the priorities keeps. The counters had the given values before it. */
    ghost predicate Looping(few: int, finished: bool, queue: multiset<Tx>, wait: set<Tx>, late: set<Tx>)
      reads this
    {
      && Valid() && Limits(cfg.maxSize, Model(), false) && Queued(inBlock, queue, wait)
      && Known(pool, vtx) && Filling(pool, cfg, vtx, queue, wait, late)
      && (blockFinished ==> finished || Finished(pool, cfg, vtx, lastFewTxs)) && lastFewTxs == few + |late|
    }

    /** After the best of the queue was added to a list, the loop stops, or children return to the queue. */
    method AfterAdding(iter: Tx, queue: multiset<Tx>, wait: set<Tx>, nBlockPrioritySize: int, ghost ts: seq<Tx>,
                       ghost late: set<Tx>)
      returns (stop: bool, queue': multiset<Tx>, wait': set<Tx>)
      requires Valid() && vtx == ts + [iter] && Queued(inBlock, queue - multiset{iter}, wait)
      requires Filling(pool, cfg, ts, queue, wait, late)
      requires iter in queue && forall u :: u in queue ==> cfg.priority(u) <= cfg.priority(iter)
      requires Known(pool, ts) && iter in Txs(pool) && Ready(pool, ts, iter) && Passes(pool, cfg, ts, iter)
      requires nBlockPrioritySize == cfg.maxSize * cfg.priorityPercentage / 100
      ensures Known(pool, vtx)
      ensures stop ==> ByPriority(pool, cfg, vtx) && AllLate(pool, cfg, vtx, late) && !GoesOn(pool, cfg, vtx, |ts|)
      ensures !stop ==> Filling(pool, cfg, vtx, queue', wait', late) && Queued(inBlock, queue', wait')
    {
      hide Sound, Shape, Queued, Filling, ByPriority, Passes, Known, AllFinal, Ready, GoesOn, SizeOf, SigOpsOf,
           Elements, AllLate, Requeued;
      queue', wait' := queue - multiset{iter}, wait;
      FillingAdds(pool, cfg, ts, queue, wait, late, iter);
      Listed(Model());
      GoesOnIs(vtx);
      stop := nBlockSize >= nBlockPrioritySize || !AllowFree(cfg.priority(iter));
      if !stop {
        LastListed(iter);
        queue', wait' := Requeue(iter, queue', wait');
        RequeuedFrom(pool, iter, queue, wait, queue', wait');
        FillingReturns(pool, cfg, ts, queue, wait, late, iter, queue', wait');
      }
    }

    lemma LastListed(t: Tx)
      requires Elements(vtx) == inBlock && vtx != [] && t == vtx[|vtx| - 1]
      ensures t in inBlock
    {
      assert t in vtx;
    }

    /** The best of the queue, whose parents are in the block, is added, or it fails. */
    method TakeBest(iter: Tx, queue: multiset<Tx>, wait: set<Tx>, nBlockPrioritySize: int,
                    ghost few: int, ghost finished: bool, ghost late: set<Tx>)
      returns (stop: bool, queue': multiset<Tx>, wait': set<Tx>, ghost late': set<Tx>)
      requires Looping(few, finished, queue, wait, late) && !blockFinished
      requires iter in queue && forall u :: u in queue ==> cfg.priority(u) <= cfg.priority(iter)
      requires iter in Txs(pool) && pool.parents[iter] <= inBlock
      requires nBlockPrioritySize == cfg.maxSize * cfg.priorityPercentage / 100
      modifies this
      ensures !stop ==> Looping(few, finished, queue', wait', late')
      ensures !stop ==> iter !in old(inBlock) && (inBlock == old(inBlock) + {iter}
                                                  || (inBlock == old(inBlock) && queue' == queue - multiset{iter}))
      ensures stop ==>
                && Valid() && Limits(cfg.maxSize, Model(), false) && Known(pool, vtx) && ByPriority(pool, cfg, vtx)
                && vtx != [] && !GoesOn(pool, cfg, vtx, |vtx| - 1)
                && !blockFinished && lastFewTxs == few + |late'| && AllLate(pool, cfg, vtx, late')
    {
      hide Sound, Shape, Limits, Queued, Filling, ByPriority, Passes, Known, AllFinal, Ready, GoesOn, SizeOf, SigOpsOf,
           Elements, AllLate, Narrow, Finishes, Finished;
      Popped(queue, wait, iter);
      Listed(Model());
      queue', wait', late', stop := queue - multiset{iter}, wait, late, false;
      ghost var before, seen := vtx, lastFewTxs;
      IsReady(iter);
      var added := TryToAdd(iter);
      if added {
        stop, queue', wait' := AfterAdding(iter, queue, wait, nBlockPrioritySize, before, late);
      } else {
        FillingFails(pool, cfg, before, queue, wait, late, iter);
        if lastFewTxs > seen {
          late' := late + {iter};
        } else if blockFinished {
          FinishedBy(pool, cfg, vtx, seen, iter);
        }
      }
    }

    /**
      Fills the part of the block reserved for transactions of high priority. The list says which ones:
      the best that are ready and pass, until one fills the reserved part or is not allowed free. If none
      did, nothing is left to add, or a transaction failed that finishes the block; `late` are those that
      failed within its last 1000 bytes.
    */
    method AddPriorityTxs() returns (ghost late: set<Tx>)
      requires Valid() && inBlock == {} && Limits(cfg.maxSize, Model(), false)
      modifies this
      ensures Valid() && Limits(cfg.maxSize, Model(), false)
      ensures cfg.priorityPercentage == 0 ==> Model() == old(Model())
      ensures Known(pool, vtx) && ByPriority(pool, cfg, vtx)
      ensures cfg.priorityPercentage > 0 && !blockFinished && (vtx != [] ==> GoesOn(pool, cfg, vtx, |vtx| - 1)) ==>
                Exhausted(pool, cfg, vtx)
      ensures blockFinished ==> old(blockFinished) || Finished(pool, cfg, vtx, lastFewTxs)
      ensures lastFewTxs == old(lastFewTxs) + |late| && AllLate(pool, cfg, vtx, late)
    {
      hide Sound, Shape, Limits, Queued, Filling, ByPriority, Exhausted, Passes, Known, AllFinal, Ready, GoesOn, SizeOf,
           SigOpsOf, Elements, AllLate, Narrow, Finishes, Finished;
      StartEmpty();
      late := {};
      if cfg.priorityPercentage == 0 {
        return;
      }
      var nBlockPrioritySize := cfg.maxSize * cfg.priorityPercentage / 100;
      var vecPriority := multiset(Txs(pool));
      var waitPriMap: set<Tx> := {};
      AllQueued();
      while vecPriority != multiset{} && !blockFinished
        invariant Looping(old(lastFewTxs), old(blockFinished), vecPriority, waitPriMap, late)
        decreases Txs(pool) - inBlock, |vecPriority|
      {
        HighestExists(cfg, vecPriority);
        var iter :| iter in vecPriority && forall u :: u in vecPriority ==> cfg.priority(u) <= cfg.priority(iter);
        Popped(vecPriority, waitPriMap, iter);
        Listed(Model());
        var dependent := IsStillDependent(iter);
        if dependent {
          FillingWaits(pool, cfg, vtx, vecPriority, waitPriMap, late, iter);
          vecPriority, waitPriMap := vecPriority - multiset{iter}, waitPriMap + {iter};
        } else {
          var stop;
          stop, vecPriority, waitPriMap, late :=
            TakeBest(iter, vecPriority, waitPriMap, nBlockPrioritySize, old(lastFewTxs), old(blockFinished), late);
          if stop {
            return;
          }
        }
      }
      FillingEnds(pool, cfg, vtx, vecPriority, waitPriMap, late);
    }

    lemma IsReady(t: Tx)
      requires t in pool.parents && Elements(vtx) == inBlock && t !in inBlock && pool.parents[t] <= inBlock
      ensures Ready(pool, vtx, t)
    {
      assert t in vtx ==> t in Elements(vtx);
    }

    lemma NothingListed(ts: seq<Tx>)
      ensures ts != [] ==> Elements(ts) != {}
    {
      if ts != [] {
        assert ts[0] in Elements(ts);
      }
    }

    lemma StartEmpty()
      requires Valid() && inBlock == {}
      ensures vtx == [] && Known(pool, vtx) && Filling(pool, cfg, vtx, multiset(Txs(pool)), {}, {})
      ensures ByPriority(pool, cfg, vtx) && AllLate(pool, cfg, vtx, {})
    {
      NothingListed(vtx);
      FillingStarts(pool, cfg);
      FillingEnds(pool, cfg, vtx, multiset(Txs(pool)), {}, {});
    }

    lemma GoesOnIs(ts: seq<Tx>)
      requires Known(pool, ts) && ts != []
      ensures GoesOn(pool, cfg, ts, |ts| - 1) <==>
                && AllowFree(cfg.priority(ts[|ts| - 1]))
                && SizeOf(pool, ts) < cfg.maxSize * cfg.priorityPercentage / 100
    {
      assert ts[..|ts|] == ts;
    }

    /**
      A whole block: the reserved transactions by priority, then packages; all final, within all limits
      that hold at its maximum size, and a fee column that sums to zero with the coinbase's negated total
      in front. Up to one megabyte the block also respects the limit for its own size; `Overfull` shows
      that this is exact.
    */
    method CreateNewBlock(order: seq<Tx>)
      returns (vTxFeesAll: seq<int>, ghost recycled: bool, ghost run: seq<State>, ghost reserved: seq<Tx>,
               ghost late: set<Tx>)
      requires Sound(pool) && cfg.maxSize >= 1000 && Elements(order) == Txs(pool)
      modifies this
      ensures Valid() && Limits(cfg.maxSize, Model(), recycled)
      ensures cfg.maxSize <= ONE_MEGABYTE + 1 ==> nBlockSigOps < MaxBlockSigOps(nBlockSize)
      ensures Closed(pool, inBlock) && forall t :: t in inBlock ==> cfg.final(t)
      ensures reserved <= vtx && Known(pool, reserved) && ByPriority(pool, cfg, reserved)
              && Stopped(pool, cfg, reserved, late)
      ensures run != [] && Run(pool, cfg, order, run) && Starts(run[0]) && run[0].inBlock == Elements(reserved)
              && (cfg.priorityPercentage == 0 ==> run[0].inBlock == {})
      ensures var last := run[|run| - 1];
              last.inBlock == inBlock && InPool(pool, order, last) && Ended(pool, cfg, order, last)
      ensures vTxFeesAll == [-nFees] + vTxFees && Sum(vTxFeesAll) == 0
    {
      hide Sound, Shape, Limits, Starts, Run, InPool, Ended, MaxBlockSigOps, ByPriority, Known, Exhausted, GoesOn,
           AllLate, Finished;
      ResetBlock();
      EmptyShape(pool);
      late := AddPriorityTxs();
      reserved := vtx;
      assert Stopped(pool, cfg, reserved, late);
      Listed(Model());
      var nPackagesSelected;
      nPackagesSelected, recycled, run := AddPackageTxs(order);
      SmallBlocks(Model(), recycled);
      assert AllFinal(cfg, inBlock);
      vTxFeesAll := [-nFees] + vTxFees;
      Settled(Model());
      assert vTxFeesAll[1..] == vTxFees;
    }

    /** Every test of a block of at most one megabyte is made against the same number. */
    lemma SmallBlocks(b: Block, recycled: bool)
      requires cfg.maxSize >= 2 && Limits(cfg.maxSize, b, recycled)
      ensures b.size >= 1 && (cfg.maxSize <= ONE_MEGABYTE + 1 ==> b.sigOps < MaxBlockSigOps(b.size))
    {
      MaxSigOpsMonotone(1, b.size);
    }

    lemma Settled(b: Block)
      requires Sound(pool) && Shape(pool, b)
      ensures Closed(pool, b.inBlock) && Sum(b.vTxFees) == b.fees
    {
      hide Sound, Total;
      OrderedClosed(pool, b.vtx);
      ColumnTotal(pool.fee, b.vtx, b.vTxFees);
    }
  }

  function Sum(s: seq<int>): int {
    if s == [] then 0 else s[0] + Sum(s[1..])
  }

  lemma {:induction false} ColumnTotal(w: map<Tx, int>, ts: seq<Tx>, column: seq<int>)
    requires Distinct(ts) && |ts| == |column|
    requires forall i :: 0 <= i < |ts| ==> ts[i] in w && column[i] == w[ts[i]]
    ensures Elements(ts) <= w.Keys && Sum(column) == Total(w, Elements(ts))
  {
    if ts != [] {
      ColumnTotal(w, ts[1..], column[1..]);
      assert Elements(ts) == Elements(ts[1..]) + {ts[0]};
      TotalWith(w, Elements(ts[1..]), ts[0]);
    }
  }
}
