/**
The block assembler: transactions enter the block one at a time by priority, then in
packages (a transaction with its ancestors not yet in the block) by fee rate. Priorities,
fee rates and finality are arbitrary functions of the transactions.
*/
module Miner {
  import opened Sets
  import opened MinerSpec

  const ONE_MEGABYTE := 1000000
  const MAX_BLOCK_SIGOPS_PER_MB := 20000
  const MAX_CONSECUTIVE_FAILURES := 1000
  const COINBASE_SIZE := 1000
  const COINBASE_SIGOPS := 100

  function MaxBlockSigOps(blockSize: int): int
    requires blockSize >= 1
  {
    (1 + (blockSize - 1) / ONE_MEGABYTE) * MAX_BLOCK_SIGOPS_PER_MB
  }

  /** 20000 for every megabyte that is begun. */
  lemma MaxSigOpsIs(k: nat, blockSize: int)
    requires k * 1000000 < blockSize <= (k + 1) * 1000000
    ensures MaxBlockSigOps(blockSize) == 20000 * (k + 1)
  {
    assert (blockSize - 1) / ONE_MEGABYTE == k;
  }

  lemma MaxSigOpsMonotone(a: int, b: int)
    requires 1 <= a <= b
    ensures MAX_BLOCK_SIGOPS_PER_MB <= MaxBlockSigOps(a) <= MaxBlockSigOps(b)
  {
  }

  datatype Config = Config(
    maxSize: nat, priorityPercentage: nat,
    final: Tx -> bool, priority: Tx -> real, minFee: int -> int, score: Entry -> real)

  // ------------------------------------------------------------------ block

  /** The block under construction, without its coinbase. */
  datatype Block = Block(
    vtx: seq<Tx>, vTxFees: seq<int>, vTxSigOps: seq<int>,
    size: int, sigOps: int, fees: int, inBlock: set<Tx>)

  ghost predicate Columns(pool: Pool, b: Block) {
    && |b.vTxFees| == |b.vtx| == |b.vTxSigOps|
    && (forall i :: 0 <= i < |b.vtx| ==>
          && b.vtx[i] in pool.fee && b.vTxFees[i] == pool.fee[b.vtx[i]]
          && b.vtx[i] in pool.sigOps && b.vTxSigOps[i] == pool.sigOps[b.vtx[i]])
  }

  /** No duplicates, ancestors first, and counters that add up. */
  ghost predicate Shape(pool: Pool, b: Block)
    requires Sound(pool)
  {
    && Distinct(b.vtx) && Elements(b.vtx) == b.inBlock && b.inBlock <= Txs(pool)
    && Ordered(pool, b.vtx) && Columns(pool, b)
    && b.size == COINBASE_SIZE + Total(pool.size, b.inBlock)
    && b.sigOps == COINBASE_SIGOPS + Total(pool.sigOps, b.inBlock)
    && b.fees == Total(pool.fee, b.inBlock)
  }

  /** The limits a block respects; the one for its own size if no failed package came back. */
  ghost predicate Limits(maxSize: int, b: Block, recycled: bool)
    requires maxSize >= 2
  {
    && b.size >= COINBASE_SIZE
    && (b.vtx != [] ==> b.size < maxSize)
    && b.sigOps < MaxBlockSigOps(maxSize - 1)
    && (!recycled ==> b.sigOps < MaxBlockSigOps(b.size))
  }

  const EmptyBlock := Block([], [], [], COINBASE_SIZE, COINBASE_SIGOPS, 0, {})

  lemma EmptyShape(pool: Pool)
    requires Sound(pool)
    ensures Shape(pool, EmptyBlock) && forall maxSize | maxSize >= 2 :: Limits(maxSize, EmptyBlock, false)
  {
    hide Sound;
    forall maxSize | maxSize >= 2 ensures Limits(maxSize, EmptyBlock, false) {
      MaxSigOpsMonotone(1, maxSize - 1);
      MaxSigOpsMonotone(1, COINBASE_SIZE);
    }
  }

  function Append(pool: Pool, b: Block, t: Tx): Block
    requires t in pool.size && t in pool.fee && t in pool.sigOps
  {
    Block(b.vtx + [t], b.vTxFees + [pool.fee[t]], b.vTxSigOps + [pool.sigOps[t]],
          b.size + pool.size[t], b.sigOps + pool.sigOps[t], b.fees + pool.fee[t], b.inBlock + {t})
  }

  lemma OrderedAppend(pool: Pool, vtx: seq<Tx>, t: Tx)
    requires Ordered(pool, vtx) && t in pool.ancestors && pool.ancestors[t] <= Elements(vtx)
    ensures Ordered(pool, vtx + [t])
  {
    var all := vtx + [t];
    forall i | 0 <= i < |all| ensures all[i] in pool.ancestors && pool.ancestors[all[i]] <= Elements(all[..i]) {
      if i < |vtx| {
        assert all[..i] == vtx[..i] && all[i] == vtx[i];
      } else {
        assert all[..i] == vtx;
      }
    }
  }

  lemma ElementsAppend(vtx: seq<Tx>, t: Tx)
    ensures Elements(vtx + [t]) == Elements(vtx) + {t}
    ensures Distinct(vtx) && t !in Elements(vtx) ==> Distinct(vtx + [t])
  {
  }

  lemma ColumnsAppend(pool: Pool, b: Block, t: Tx)
    requires SameKeys(pool) && t in Txs(pool) && Columns(pool, b)
    ensures Columns(pool, Append(pool, b, t))
  {
  }

  /** Appending a new transaction whose ancestors are all in the block. */
  lemma AppendKeeps(pool: Pool, b: Block, t: Tx)
    requires Sound(pool) && Shape(pool, b) && t in Txs(pool) && t !in b.inBlock && pool.ancestors[t] <= b.inBlock
    ensures SameKeys(pool) && Shape(pool, Append(pool, b, t))
  {
    hide Sound, Total, Ordered, Distinct, Elements, Columns;
    Facts(pool, t);
    OrderedAppend(pool, b.vtx, t);
    ElementsAppend(b.vtx, t);
    ColumnsAppend(pool, b, t);
    TotalWith(pool.size, b.inBlock, t);
    TotalWith(pool.sigOps, b.inBlock, t);
    TotalWith(pool.fee, b.inBlock, t);
  }

  ghost function AppendAll(pool: Pool, b: Block, ts: seq<Tx>): Block
    requires SameKeys(pool) && Elements(ts) <= Txs(pool)
  {
    if ts == [] then b else
      var last := |ts| - 1;
      assert ts[last] in Elements(ts);
      Append(pool, AppendAll(pool, b, ts[..last]), ts[last])
  }

  lemma {:induction false} AppendAllLists(pool: Pool, b: Block, ts: seq<Tx>)
    requires SameKeys(pool) && Elements(ts) <= Txs(pool)
    ensures AppendAll(pool, b, ts).vtx == b.vtx + ts
  {
    if ts != [] {
      var last := |ts| - 1;
      AppendAllLists(pool, b, ts[..last]);
      assert ts[..last] + [ts[last]] == ts && ts[last] in Elements(ts);
    }
  }

  /** Appending a package sorted by ancestor count. */
  lemma {:induction false} PackagePrefix(pool: Pool, b: Block, d: Tx, sorted: seq<Tx>, k: nat)
    requires Sound(pool) && Shape(pool, b) && d in Txs(pool)
    requires Distinct(sorted) && Elements(sorted) == Unselected(pool, b.inBlock, d)
    requires Elements(sorted) <= pool.count.Keys && ByCount(pool, sorted) && k <= |sorted|
    ensures SameKeys(pool) && Elements(sorted[..k]) <= Elements(sorted) <= Txs(pool)
    ensures Shape(pool, AppendAll(pool, b, sorted[..k]))
    ensures AppendAll(pool, b, sorted[..k]).inBlock == b.inBlock + Elements(sorted[..k])
  {
    hide Sound, Shape, ByCount, Append, Unselected;
    Facts(pool, d);
    if k == 0 {
      assert sorted[..0] == [];
    } else {
      PackagePrefix(pool, b, d, sorted, k - 1);
      SortedPackage(pool, b.inBlock, d, sorted, k - 1);
      NotYet(sorted, k - 1);
      UnselectedAway(pool, b.inBlock, d, sorted, k - 1);
      var before := AppendAll(pool, b, sorted[..k - 1]);
      AppendKeeps(pool, before, sorted[k - 1]);
      assert sorted[..k][..k - 1] == sorted[..k - 1];
      AppendBlock(pool, before, sorted[k - 1]);
    }
  }

  lemma AppendBlock(pool: Pool, b: Block, t: Tx)
    requires t in pool.size && t in pool.fee && t in pool.sigOps
    ensures Append(pool, b, t).inBlock == b.inBlock + {t}
  {
  }

  lemma NotYet(sorted: seq<Tx>, k: nat)
    requires Distinct(sorted) && k < |sorted|
    ensures sorted[k] !in Elements(sorted[..k])
    ensures Elements(sorted[..k + 1]) == Elements(sorted[..k]) + {sorted[k]}
  {
    assert sorted[..k + 1] == sorted[..k] + [sorted[k]];
  }

  lemma UnselectedAway(pool: Pool, inBlock: set<Tx>, d: Tx, sorted: seq<Tx>, k: nat)
    requires d in pool.ancestors && Elements(sorted) == Unselected(pool, inBlock, d) && k < |sorted|
    ensures sorted[k] !in inBlock
  {
    assert sorted[k] in Elements(sorted);
  }

  /** The block after a whole package. */
  lemma PackageAdded(pool: Pool, b: Block, d: Tx, sorted: seq<Tx>)
    requires Sound(pool) && Shape(pool, b) && d in Txs(pool) && d !in b.inBlock
    requires Distinct(sorted) && Elements(sorted) == Unselected(pool, b.inBlock, d)
    requires Elements(sorted) <= pool.count.Keys && ByCount(pool, sorted)
    ensures SameKeys(pool) && Elements(sorted) <= Txs(pool)
    ensures var b' := AppendAll(pool, b, sorted);
            var package := Unselected(pool, b.inBlock, d);
            && Shape(pool, b') && b'.inBlock == b.inBlock + package && b'.vtx != []
            && b'.size == b.size + Total(pool.size, package)
            && b'.sigOps == b.sigOps + Total(pool.sigOps, package)
  {
    hide Sound, ByCount, Append, AppendAll, Total, Ordered, Columns;
    Facts(pool, d);
    PackagePrefix(pool, b, d, sorted, |sorted|);
    assert sorted[..|sorted|] == sorted;
    var package := Unselected(pool, b.inBlock, d);
    TotalUnion(pool.size, b.inBlock, package);
    TotalUnion(pool.sigOps, b.inBlock, package);
    assert d in b.inBlock + package;
  }

  // ------------------------------------------------------------- candidates

  /** An entry that covers the unselected part of its package, exactly unless it is a returning failure. */
  ghost predicate Covers(pool: Pool, inBlock: set<Tx>, d: Tx, e: Entry, exact: bool)
    requires Sound(pool) && d in Txs(pool)
  {
    var rest := Unselected(pool, inBlock, d);
    && SameKeys(pool) && rest <= Txs(pool)
    && e.size >= Total(pool.size, rest) >= 0 && e.sigOps >= Total(pool.sigOps, rest) >= 0
    && (exact ==> e.size == Total(pool.size, rest) && e.sigOps == Total(pool.sigOps, rest))
  }

  lemma ModifiedCovers(pool: Pool, inBlock: set<Tx>, failed: set<Tx>, mods: map<Tx, Entry>, notes: map<Tx, Note>, d: Tx)
    requires Sound(pool) && RecordsOk(pool, inBlock, failed, mods, notes) && d in mods
    ensures d in Txs(pool) && d !in inBlock && Covers(pool, inBlock, d, mods[d], d !in failed)
  {
    hide Sound, EntryOk, Total, Unselected;
    assert RecordOk(pool, inBlock, failed, mods, notes, d);
    Facts(pool, d);
    RecordCovers(pool, inBlock, d, mods[d], notes[d]);
  }

  /** Cached sums that are not skipped are exact: no ancestor is in the block yet. */
  lemma CachedCovers(pool: Pool, inBlock: set<Tx>, failed: set<Tx>, mods: map<Tx, Entry>, notes: map<Tx, Note>, d: Tx)
    requires Sound(pool) && RecordsOk(pool, inBlock, failed, mods, notes)
    requires d in Txs(pool) && d !in mods && d !in inBlock && d !in failed
    ensures Covers(pool, inBlock, d, pool.cached[d], true)
    ensures pool.cached[d].fees == Total(pool.modFee, Unselected(pool, inBlock, d))
  {
    hide Sound, EntryOk, Total;
    assert Tracked(pool, inBlock, failed, mods, d);
    Facts(pool, d);
    assert Unselected(pool, inBlock, d) == Family(pool, d);
    Natural(pool, Family(pool, d));
    TotalNatural(pool.size, Family(pool, d));
    TotalNatural(pool.sigOps, Family(pool, d));
  }

  /** Failing a modified entry keeps the records. */
  lemma FailKeeps(pool: Pool, inBlock: set<Tx>, failed: set<Tx>, mods: map<Tx, Entry>, notes: map<Tx, Note>, d: Tx)
    requires Sound(pool) && RecordsOk(pool, inBlock, failed, mods, notes)
    ensures RecordsOk(pool, inBlock, failed + {d}, mods - {d}, notes)
  {
    hide Sound, EntryOk;
    forall x ensures RecordOk(pool, inBlock, failed + {d}, mods - {d}, notes, x) {
      assert RecordOk(pool, inBlock, failed, mods, notes, x);
    }
    forall x ensures Tracked(pool, inBlock, failed + {d}, mods - {d}, x) {
      assert Tracked(pool, inBlock, failed, mods, x);
    }
  }

  lemma LimitsKeep(maxSize: int, b: Block, b': Block, size: int, sigOps: int, recycled: bool, exact: bool)
    requires maxSize >= 2 && Limits(maxSize, b, recycled)
    requires b.size <= b'.size <= b.size + size < maxSize
             && b'.sigOps <= b.sigOps + sigOps < MaxBlockSigOps(b.size + size)
    requires exact ==> b'.size == b.size + size
    ensures Limits(maxSize, b', recycled || !exact)
  {
    MaxSigOpsMonotone(b.size + size, maxSize - 1);
  }

  // ------------------------------------------------------ updating packages

  /** An entry from which no transaction in `added` has been subtracted yet. */
  ghost predicate Pending(pool: Pool, added: set<Tx>, mods: map<Tx, Entry>, notes: map<Tx, Note>, d: Tx)
    requires Sound(pool)
  {
    d in mods ==>
      && d in Txs(pool) && d !in added && d in notes
      && EntryOk(pool, d, mods[d], notes[d]) && notes[d].taken !! added
  }

  /**
    The recorded sums after subtracting some ancestors from an entry, or from the cached sums:
    in the second case the modified fee of the ancestor that happens to come first.
  */
  ghost predicate Reduced(pool: Pool, mods: map<Tx, Entry>, mods': map<Tx, Entry>, d: Tx, due: set<Tx>) {
    && (d in mods' <==> d in mods || due != {})
    && (d in mods' ==>
          && d in pool.cached && due <= pool.size.Keys && due <= pool.sigOps.Keys && due <= pool.fee.Keys
          && due <= pool.modFee.Keys
          && var before := if d in mods then mods[d] else pool.cached[d];
             && mods'[d].size == before.size - Total(pool.size, due)
             && mods'[d].sigOps == before.sigOps - Total(pool.sigOps, due)
             && (d in mods ==> mods'[d].fees == before.fees - Total(pool.fee, due))
             && (d !in mods ==>
                   exists first ::
                     first in due && mods'[d].fees
                       == before.fees - pool.modFee[first] - Total(pool.fee, due - {first})))
  }

  /** One more subtraction from one entry. */
  method SubtractOne(pool: Pool, added: set<Tx>, it: Tx, desc: Tx, mods: map<Tx, Entry>, ghost notes: map<Tx, Note>,
                     ghost mods0: map<Tx, Entry>, ghost notes0: map<Tx, Note>, ghost due: set<Tx>)
    returns (mods': map<Tx, Entry>, ghost notes': map<Tx, Note>)
    requires Sound(pool) && desc in Txs(pool) && it in pool.ancestors[desc] && it in added && it !in due && due <= added
    requires Subtracted(pool, mods0, notes0, mods, notes, desc, due) && Pending(pool, added, mods0, notes0, desc)
    ensures mods'.Keys == mods.Keys + {desc} && notes'.Keys == notes.Keys + {desc}
    ensures forall d :: d in mods && d != desc ==> mods'[d] == mods[d]
    ensures forall d :: d in notes && d != desc ==> notes'[d] == notes[d]
    ensures Subtracted(pool, mods0, notes0, mods', notes', desc, due + {it})
  {
    hide Sound, EntryOk, FirstEntry, LaterEntry, Subtracted, Pending;
    SubtractedOnce(pool, added, it, desc, mods, notes, mods0, notes0, due);
    if desc !in mods {
      mods' := mods[desc := FirstEntry(pool, desc, it)];
      notes' := notes[desc := Note(it, {it})];
    } else {
      mods' := mods[desc := LaterEntry(pool, mods[desc], it)];
      notes' := notes[desc := Note(notes[desc].first, notes[desc].taken + {it})];
    }
  }

  lemma SubtractedOnce(pool: Pool, added: set<Tx>, it: Tx, desc: Tx, mods: map<Tx, Entry>, notes: map<Tx, Note>,
                       mods0: map<Tx, Entry>, notes0: map<Tx, Note>, due: set<Tx>)
    requires Sound(pool) && desc in Txs(pool) && it in pool.ancestors[desc] && it in added && it !in due && due <= added
    requires Subtracted(pool, mods0, notes0, mods, notes, desc, due) && Pending(pool, added, mods0, notes0, desc)
    ensures SameKeys(pool) && it in Txs(pool)
    ensures desc !in mods ==>
              Subtracted(pool, mods0, notes0, mods[desc := FirstEntry(pool, desc, it)], notes[desc := Note(it, {it})],
                         desc, due + {it})
    ensures desc in mods ==>
              && desc in notes
              && Subtracted(pool, mods0, notes0, mods[desc := LaterEntry(pool, mods[desc], it)],
                            notes[desc := Note(notes[desc].first, notes[desc].taken + {it})], desc, due + {it})
  {
    hide Sound, EntryOk, FirstEntry, LaterEntry;
    Facts(pool, desc);
    if desc !in mods {
      FirstEntryOk(pool, desc, it);
    } else {
      assert it !in notes[desc].taken;
      LaterEntryOk(pool, desc, mods[desc], notes[desc], it);
      var taken := notes[desc].taken + {it};
      assert desc in mods0 ==> taken == notes0[desc].taken + (due + {it});
    }
  }

  lemma SubtractedFrame(pool: Pool, mods0: map<Tx, Entry>, notes0: map<Tx, Note>, mods: map<Tx, Entry>,
                        notes: map<Tx, Note>,
                        mods': map<Tx, Entry>, notes': map<Tx, Note>, d: Tx, due: set<Tx>)
    requires Sound(pool) && Subtracted(pool, mods0, notes0, mods, notes, d, due)
    requires (d in mods <==> d in mods') && (d in notes ==> d in notes')
    requires (d in mods ==> mods[d] == mods'[d]) && (d in notes ==> notes[d] == notes'[d])
    ensures Subtracted(pool, mods0, notes0, mods', notes', d, due)
  {
    hide EntryOk, Sound;
  }

  /** Subtracts one included transaction from all its descendants outside the package. */
  method UpdateDescendants(pool: Pool, added: set<Tx>, it: Tx, mods: map<Tx, Entry>, ghost notes: map<Tx, Note>,
                           ghost mods0: map<Tx, Entry>, ghost notes0: map<Tx, Note>, ghost done: set<Tx>)
    returns (mods': map<Tx, Entry>, ghost notes': map<Tx, Note>)
    requires Sound(pool) && it in added && it !in done && done <= added
    requires forall d :: Pending(pool, added, mods0, notes0, d)
    requires forall d :: Subtracted(pool, mods0, notes0, mods, notes, d, Due(pool, added, done, d))
    ensures forall d :: Subtracted(pool, mods0, notes0, mods', notes', d, Due(pool, added, done + {it}, d))
  {
    hide Sound, Subtracted, Pending;
    var descendants := (set d | d in pool.ancestors && it in pool.ancestors[d]) + {it};
    mods', notes' := mods, notes;
    ghost var visited := {};
    var todo := descendants;
    while todo != {}
      invariant todo <= descendants && visited == descendants - todo
      invariant forall d ::
                  Subtracted(pool, mods0, notes0, mods', notes', d,
                             Due(pool, added, if d in visited then done + {it} else done, d))
      decreases todo
    {
      var desc :| desc in todo;
      ghost var visited' := visited + {desc};
      todo := todo - {desc};
      if desc !in added {
        Descendant(pool, desc, it);
        ghost var due := Due(pool, added, done, desc);
        assert due + {it} == Due(pool, added, done + {it}, desc);
        var m, n := SubtractOne(pool, added, it, desc, mods', notes', mods0, notes0, due);
        forall d
          ensures Subtracted(pool, mods0, notes0, m, n, d,
                             Due(pool, added, if d in visited' then done + {it} else done, d))
        {
          if d != desc {
            SubtractedFrame(pool, mods0, notes0, mods', notes', m, n, d,
                            Due(pool, added, if d in visited then done + {it} else done, d));
          }
        }
        mods', notes' := m, n;
      }
      visited := visited';
    }
    forall d ensures Due(pool, added, if d in visited then done + {it} else done, d)
      == Due(pool, added, done + {it}, d) {
    }
  }

  lemma Descendant(pool: Pool, desc: Tx, it: Tx)
    requires Sound(pool) && desc in pool.ancestors && it in pool.ancestors[desc]
    ensures desc in Txs(pool)
  {
  }

  /** Subtracts newly included transactions from all modified and to-be-modified entries. */
  method UpdatePackagesForAdded(pool: Pool, added: set<Tx>, mods: map<Tx, Entry>, ghost notes: map<Tx, Note>)
    returns (mods': map<Tx, Entry>, ghost notes': map<Tx, Note>)
    requires Sound(pool)
    requires forall d :: Pending(pool, added, mods, notes, d)
    ensures forall d :: Subtracted(pool, mods, notes, mods', notes', d, Due(pool, added, added, d))
    ensures forall d :: Reduced(pool, mods, mods', d, Due(pool, added, added, d))
  {
    hide Sound;
    mods', notes' := mods, notes;
    ghost var done := {};
    var todo := added;
    forall d ensures Subtracted(pool, mods, notes, mods', notes', d, Due(pool, added, done, d)) {
      assert Pending(pool, added, mods, notes, d);
      assert Due(pool, added, done, d) == {};
      assert d in mods ==> notes[d].taken + {} == notes[d].taken;
    }
    while todo != {}
      invariant todo <= added && done == added - todo
      invariant forall d :: Subtracted(pool, mods, notes, mods', notes', d, Due(pool, added, done, d))
      decreases todo
    {
      hide Subtracted, Pending;
      var it :| it in todo;
      mods', notes' := UpdateDescendants(pool, added, it, mods', notes', mods, notes, done);
      todo, done := todo - {it}, done + {it};
    }
    assert done == added;
    forall d ensures Reduced(pool, mods, mods', d, Due(pool, added, added, d)) {
      SubtractedReduces(pool, added, mods, notes, mods', notes', d);
    }
  }

  lemma SubtractedReduces(pool: Pool, added: set<Tx>, mods: map<Tx, Entry>, notes: map<Tx, Note>,
                          mods': map<Tx, Entry>, notes': map<Tx, Note>, d: Tx)
    requires Sound(pool) && Pending(pool, added, mods, notes, d)
    requires Subtracted(pool, mods, notes, mods', notes', d, Due(pool, added, added, d))
    ensures Reduced(pool, mods, mods', d, Due(pool, added, added, d))
  {
    hide Sound, Total;
    if d in mods' {
      Facts(pool, d);
      var due := Due(pool, added, added, d);
      if d in mods {
        TotalUnion(pool.size, notes[d].taken, due);
        TotalUnion(pool.sigOps, notes[d].taken, due);
        TotalUnion(pool.fee, notes[d].taken - {notes[d].first}, due);
        assert notes[d].taken - {notes[d].first} + due == notes[d].taken + due - {notes[d].first};
      }
    }
  }
}
