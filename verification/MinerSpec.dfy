/**
The memory pool as the block assembler sees it (a finite acyclic graph of transactions
with cached sums over each transaction and its ancestors) and the bookkeeping that keeps
those sums current while transactions move into the block.
*/
module MinerSpec {
  import opened Sets

  datatype Tx = Tx(id: nat)

  /** Size, modified fees and signature operations of a package. */
  datatype Entry = Entry(size: int, fees: int, sigOps: int)

  datatype Pool = Pool(
    parents: map<Tx, set<Tx>>, ancestors: map<Tx, set<Tx>>,
    size: map<Tx, int>, fee: map<Tx, int>, modFee: map<Tx, int>, sigOps: map<Tx, int>,
    cached: map<Tx, Entry>, count: map<Tx, int>)

  function Txs(pool: Pool): set<Tx> {
    pool.parents.Keys
  }

  ghost predicate SameKeys(pool: Pool) {
    && pool.ancestors.Keys == Txs(pool) && pool.size.Keys == Txs(pool) && pool.fee.Keys == Txs(pool)
    && pool.modFee.Keys == Txs(pool) && pool.sigOps.Keys == Txs(pool)
    && pool.cached.Keys == Txs(pool) && pool.count.Keys == Txs(pool)
  }

  /** An ancestor is a parent or an ancestor of a parent, and brings its own ancestors along. */
  ghost predicate Inherits(pool: Pool, t: Tx, a: Tx)
    requires SameKeys(pool) && t in Txs(pool) && pool.parents[t] <= Txs(pool) && a in Txs(pool)
  {
    && pool.ancestors[a] <= pool.ancestors[t]
    && (a in pool.parents[t] || exists p :: p in pool.parents[t] && a in pool.ancestors[p])
  }

  /** The ancestors of a transaction are its parents and their ancestors; none is its own. */
  ghost predicate Lineage(pool: Pool, t: Tx)
    requires SameKeys(pool) && t in Txs(pool)
  {
    && pool.parents[t] <= pool.ancestors[t] <= Txs(pool) && t !in pool.ancestors[t]
    && (forall a {:trigger Inherits(pool, t, a)} :: a in pool.ancestors[t] ==> Inherits(pool, t, a))
  }

  function Family(pool: Pool, t: Tx): set<Tx>
    requires t in pool.ancestors
  {
    pool.ancestors[t] + {t}
  }

  ghost predicate CachedOk(pool: Pool, t: Tx)
    requires SameKeys(pool) && t in Txs(pool) && Lineage(pool, t)
  {
    && pool.cached[t]
       == Entry(Total(pool.size, Family(pool, t)), Total(pool.modFee, Family(pool, t)),
                Total(pool.sigOps, Family(pool, t)))
    && pool.count[t] == |Family(pool, t)|
    && pool.size[t] >= 0 && pool.sigOps[t] >= 0
  }

  ghost predicate Sound(pool: Pool) {
    && SameKeys(pool)
    && (forall t {:trigger Lineage(pool, t)} :: t in Txs(pool) ==> Lineage(pool, t) && CachedOk(pool, t))
  }

  lemma Facts(pool: Pool, t: Tx)
    requires Sound(pool) && t in Txs(pool)
    ensures SameKeys(pool)
    ensures pool.parents[t] <= pool.ancestors[t] <= Txs(pool) && t !in pool.ancestors[t]
    ensures pool.cached[t]
            == Entry(Total(pool.size, Family(pool, t)), Total(pool.modFee, Family(pool, t)),
                     Total(pool.sigOps, Family(pool, t)))
    ensures pool.count[t] == |Family(pool, t)|
    ensures pool.size[t] >= 0 && pool.sigOps[t] >= 0
  {
    assert Lineage(pool, t) && CachedOk(pool, t);
  }

  lemma Transitive(pool: Pool, t: Tx, a: Tx)
    requires Sound(pool) && t in Txs(pool) && a in pool.ancestors[t]
    ensures a in Txs(pool) && a in pool.ancestors && pool.ancestors[a] <= pool.ancestors[t]
  {
    assert Lineage(pool, t) && Inherits(pool, t, a);
  }

  lemma Natural(pool: Pool, s: set<Tx>)
    requires Sound(pool) && s <= Txs(pool)
    ensures SameKeys(pool) && forall t :: t in s ==> pool.size[t] >= 0 && pool.sigOps[t] >= 0
  {
    forall t | t in s ensures pool.size[t] >= 0 && pool.sigOps[t] >= 0 {
      Facts(pool, t);
    }
  }

  // ----------------------------------------------------------------- totals

  ghost function Total(w: map<Tx, int>, s: set<Tx>): int
    requires s <= w.Keys
    decreases s
  {
    if s == {} then 0 else
      var t :| t in s;
      w[t] + Total(w, s - {t})
  }

  lemma {:induction false} TotalWithout(w: map<Tx, int>, s: set<Tx>, t: Tx)
    requires s <= w.Keys && t in s
    ensures Total(w, s) == w[t] + Total(w, s - {t})
    decreases s
  {
    var u :| u in s && Total(w, s) == w[u] + Total(w, s - {u});
    if u != t {
      TotalWithout(w, s - {u}, t);
      TotalWithout(w, s - {t}, u);
      assert s - {u} - {t} == s - {t} - {u};
    }
  }

  lemma TotalWith(w: map<Tx, int>, s: set<Tx>, t: Tx)
    requires s + {t} <= w.Keys && t !in s
    ensures Total(w, s + {t}) == Total(w, s) + w[t]
  {
    TotalWithout(w, s + {t}, t);
    assert s + {t} - {t} == s;
  }

  lemma {:induction false} TotalUnion(w: map<Tx, int>, a: set<Tx>, b: set<Tx>)
    requires a + b <= w.Keys && a !! b
    ensures Total(w, a + b) == Total(w, a) + Total(w, b)
    decreases b
  {
    if b == {} {
      assert a + b == a;
    } else {
      var t :| t in b;
      TotalUnion(w, a, b - {t});
      TotalWith(w, a + (b - {t}), t);
      TotalWith(w, b - {t}, t);
      assert a + (b - {t}) + {t} == a + b && b - {t} + {t} == b;
    }
  }

  lemma TotalMinus(w: map<Tx, int>, a: set<Tx>, b: set<Tx>)
    requires b <= a <= w.Keys
    ensures Total(w, a - b) == Total(w, a) - Total(w, b)
  {
    TotalUnion(w, a - b, b);
    assert a - b + b == a;
  }

  lemma {:induction false} TotalNatural(w: map<Tx, int>, s: set<Tx>)
    requires s <= w.Keys && forall t :: t in s ==> w[t] >= 0
    ensures Total(w, s) >= 0
    decreases s
  {
    if s != {} {
      var t :| t in s;
      TotalWithout(w, s, t);
      TotalNatural(w, s - {t});
    }
  }

  // ------------------------------------------------------ ancestor bookkeeping

  /** Which included ancestors have been subtracted from a modified entry, and which one first. */
  datatype Note = Note(first: Tx, taken: set<Tx>)

  /** The first subtraction uses the modified fee, later ones the plain fee. */
  ghost predicate EntryOk(pool: Pool, d: Tx, e: Entry, note: Note)
    requires Sound(pool) && d in Txs(pool)
  {
    && note.first in note.taken && note.taken <= pool.ancestors[d] <= Txs(pool)
    && e.size == pool.cached[d].size - Total(pool.size, note.taken)
    && e.sigOps == pool.cached[d].sigOps - Total(pool.sigOps, note.taken)
    && e.fees == pool.cached[d].fees - pool.modFee[note.first] - Total(pool.fee, note.taken - {note.first})
  }

  /** An entry recorded when its first included ancestor is subtracted. */
  function FirstEntry(pool: Pool, d: Tx, it: Tx): Entry
    requires d in pool.cached && it in pool.size && it in pool.modFee && it in pool.sigOps
  {
    var c := pool.cached[d];
    Entry(c.size - pool.size[it], c.fees - pool.modFee[it], c.sigOps - pool.sigOps[it])
  }

  /** An entry from which one more included ancestor is subtracted. */
  function LaterEntry(pool: Pool, e: Entry, it: Tx): Entry
    requires it in pool.size && it in pool.fee && it in pool.sigOps
  {
    Entry(e.size - pool.size[it], e.fees - pool.fee[it], e.sigOps - pool.sigOps[it])
  }

  lemma FirstEntryOk(pool: Pool, d: Tx, it: Tx)
    requires Sound(pool) && d in Txs(pool) && it in pool.ancestors[d]
    ensures it in Txs(pool) && EntryOk(pool, d, FirstEntry(pool, d, it), Note(it, {it}))
  {
    hide Sound;
    Facts(pool, d);
    assert {it} - {it} == {};
    TotalWithout(pool.size, {it}, it);
    TotalWithout(pool.sigOps, {it}, it);
  }

  lemma LaterEntryOk(pool: Pool, d: Tx, e: Entry, note: Note, it: Tx)
    requires Sound(pool) && d in Txs(pool) && it in pool.ancestors[d] && it !in note.taken && EntryOk(pool, d, e, note)
    ensures it in Txs(pool) && EntryOk(pool, d, LaterEntry(pool, e, it), Note(note.first, note.taken + {it}))
  {
    hide Sound, Total;
    Facts(pool, d);
    TotalWith(pool.size, note.taken, it);
    TotalWith(pool.sigOps, note.taken, it);
    TotalWith(pool.fee, note.taken - {note.first}, it);
    assert note.taken + {it} - {note.first} == note.taken - {note.first} + {it};
  }

  /** What a package really consists of once some transactions are in the block. */
  function Unselected(pool: Pool, inBlock: set<Tx>, d: Tx): set<Tx>
    requires d in pool.ancestors
  {
    Family(pool, d) - inBlock
  }

  /**
    Recorded size and signature operations never fall below those of the unselected part of
    the package, and are exact when every included ancestor was subtracted. Fees are then
    off by the fee deltas of all subtracted ancestors but the first.
  */
  lemma RecordCovers(pool: Pool, inBlock: set<Tx>, d: Tx, e: Entry, note: Note)
    requires Sound(pool) && d in Txs(pool) && d !in inBlock && EntryOk(pool, d, e, note) && note.taken <= inBlock
    ensures Unselected(pool, inBlock, d) <= Txs(pool)
    ensures e.size >= Total(pool.size, Unselected(pool, inBlock, d)) >= 0
    ensures e.sigOps >= Total(pool.sigOps, Unselected(pool, inBlock, d)) >= 0
    ensures var rest := note.taken - {note.first};
            note.taken == pool.ancestors[d] * inBlock ==>
              && e.size == Total(pool.size, Unselected(pool, inBlock, d))
              && e.sigOps == Total(pool.sigOps, Unselected(pool, inBlock, d))
              && e.fees == Total(pool.modFee, Unselected(pool, inBlock, d))
                 + Total(pool.modFee, rest) - Total(pool.fee, rest)
  {
    hide Sound, Total;
    Facts(pool, d);
    Natural(pool, Family(pool, d));
    var family, rest := Family(pool, d), note.taken - {note.first};
    var gone := pool.ancestors[d] * inBlock;
    assert family - inBlock == family - gone;
    Split(pool.size, family, gone, note.taken);
    Split(pool.sigOps, family, gone, note.taken);
    TotalWithout(pool.modFee, note.taken, note.first);
    TotalMinus(pool.modFee, family, gone);
  }

  lemma Split(w: map<Tx, int>, family: set<Tx>, gone: set<Tx>, taken: set<Tx>)
    requires taken <= gone <= family <= w.Keys && forall t :: t in family ==> w[t] >= 0
    ensures Total(w, family) - Total(w, taken) >= Total(w, family - gone) >= 0
    ensures Total(w, family - gone) == Total(w, family) - Total(w, gone)
  {
    TotalMinus(w, family, gone);
    TotalMinus(w, gone, taken);
    TotalNatural(w, gone - taken);
    TotalNatural(w, family - gone);
  }

  // ------------------------------------------------------- modified entries

  /** A modified entry not in the failed set is exact; a failed and re-created one bounds from above. */
  ghost predicate RecordOk(pool: Pool, inBlock: set<Tx>, failed: set<Tx>, mods: map<Tx, Entry>, notes: map<Tx, Note>,
                           d: Tx)
    requires Sound(pool)
  {
    d in mods ==>
      && d in Txs(pool) && d !in inBlock && d in notes
      && EntryOk(pool, d, mods[d], notes[d]) && notes[d].taken <= inBlock
      && (d !in failed ==> notes[d].taken == pool.ancestors[d] * inBlock)
  }

  /** Cached sums are stale only for transactions with a modified entry or a failed one. */
  ghost predicate Tracked(pool: Pool, inBlock: set<Tx>, failed: set<Tx>, mods: map<Tx, Entry>, d: Tx)
    requires Sound(pool)
  {
    d in Txs(pool) && d !in inBlock && d !in failed && pool.ancestors[d] * inBlock != {} ==> d in mods
  }

  ghost predicate RecordsOk(pool: Pool, inBlock: set<Tx>, failed: set<Tx>, mods: map<Tx, Entry>, notes: map<Tx, Note>)
    requires Sound(pool)
  {
    && (forall d :: RecordOk(pool, inBlock, failed, mods, notes, d))
    && (forall d :: Tracked(pool, inBlock, failed, mods, d))
  }

  /** How one entry changes when the transactions in `due` are subtracted from it. */
  ghost predicate Subtracted(pool: Pool, mods: map<Tx, Entry>, notes: map<Tx, Note>,
                             mods': map<Tx, Entry>, notes': map<Tx, Note>, d: Tx, due: set<Tx>)
    requires Sound(pool)
  {
    && (d in mods' <==> d in mods || due != {})
    && (d in mods' ==>
          && d in Txs(pool) && d in notes' && (d in mods ==> d in notes && notes'[d].first == notes[d].first)
          && EntryOk(pool, d, mods'[d], notes'[d])
          && notes'[d].taken == (if d in mods then notes[d].taken + due else due))
  }

  /** The included ancestors to subtract from an entry. */
  function Due(pool: Pool, added: set<Tx>, done: set<Tx>, d: Tx): set<Tx> {
    if d in pool.ancestors && d !in added then pool.ancestors[d] * done else {}
  }

  ghost predicate Closed(pool: Pool, s: set<Tx>) {
    forall t :: t in s ==> t in pool.ancestors && pool.ancestors[t] <= s
  }

  /** Selecting a package and updating its descendants keeps the records. */
  lemma RecordsKeep(pool: Pool, inBlock: set<Tx>, failed: set<Tx>, mods: map<Tx, Entry>, notes: map<Tx, Note>,
                    added: set<Tx>, mods': map<Tx, Entry>, notes': map<Tx, Note>)
    requires Sound(pool) && RecordsOk(pool, inBlock, failed, mods, notes)
    requires Closed(pool, inBlock) && inBlock !! added
    requires forall d :: Subtracted(pool, mods - added, notes, mods', notes', d, Due(pool, added, added, d))
    ensures RecordsOk(pool, inBlock + added, failed, mods', notes')
  {
    hide EntryOk, Sound;
    forall d ensures RecordOk(pool, inBlock + added, failed, mods', notes', d) {
      RecordKeeps(pool, inBlock, failed, mods, notes, added, mods', notes', d);
    }
    forall d ensures Tracked(pool, inBlock + added, failed, mods', d) {
      TrackedKeeps(pool, inBlock, failed, mods, notes, added, mods', notes', d);
    }
  }

  lemma RecordKeeps(pool: Pool, inBlock: set<Tx>, failed: set<Tx>, mods: map<Tx, Entry>, notes: map<Tx, Note>,
                    added: set<Tx>, mods': map<Tx, Entry>, notes': map<Tx, Note>, d: Tx)
    requires Sound(pool) && RecordOk(pool, inBlock, failed, mods, notes, d) && Tracked(pool, inBlock, failed, mods, d)
    requires Closed(pool, inBlock) && inBlock !! added
    requires Subtracted(pool, mods - added, notes, mods', notes', d, Due(pool, added, added, d))
    ensures RecordOk(pool, inBlock + added, failed, mods', notes', d)
  {
    hide EntryOk, Sound;
    if d in mods' {
      Facts(pool, d);
      var due := Due(pool, added, added, d);
      if d in mods - added {
        DueIs(pool, inBlock, added, d);
      } else {
        assert due != {} && d !in added;
        DueIs(pool, inBlock, added, d);
        NotInClosed(pool, inBlock, added, d);
      }
    }
  }

  /** What is due to a transaction outside the package are its ancestors in the package. */
  lemma DueIs(pool: Pool, inBlock: set<Tx>, added: set<Tx>, d: Tx)
    requires d in pool.ancestors && d !in added
    ensures var due := Due(pool, added, added, d);
            due <= added && pool.ancestors[d] * (inBlock + added) == pool.ancestors[d] * inBlock + due
  {
  }

  /** A transaction in the block has no ancestor outside it. */
  lemma NotInClosed(pool: Pool, inBlock: set<Tx>, added: set<Tx>, d: Tx)
    requires Closed(pool, inBlock) && inBlock !! added && Due(pool, added, added, d) != {}
    ensures d !in inBlock
  {
    var a :| a in Due(pool, added, added, d);
  }

  lemma TrackedKeeps(pool: Pool, inBlock: set<Tx>, failed: set<Tx>, mods: map<Tx, Entry>, notes: map<Tx, Note>,
                     added: set<Tx>, mods': map<Tx, Entry>, notes': map<Tx, Note>, d: Tx)
    requires Sound(pool) && Tracked(pool, inBlock, failed, mods, d)
    requires Subtracted(pool, mods - added, notes, mods', notes', d, Due(pool, added, added, d))
    ensures Tracked(pool, inBlock + added, failed, mods', d)
  {
    hide EntryOk, Sound;
    if d in Txs(pool) && d !in inBlock + added && d !in failed {
      Facts(pool, d);
      if Due(pool, added, added, d) == {} {
        assert pool.ancestors[d] * (inBlock + added) == pool.ancestors[d] * inBlock;
        assert pool.ancestors[d] * inBlock != {} ==> d in mods - added;
      }
    }
  }

  // ------------------------------------------------------------ block order

  /** Every transaction comes after all its ancestors. */
  ghost predicate Ordered(pool: Pool, vtx: seq<Tx>) {
    forall i :: 0 <= i < |vtx| ==> vtx[i] in pool.ancestors && pool.ancestors[vtx[i]] <= Elements(vtx[..i])
  }

  lemma OrderedClosed(pool: Pool, vtx: seq<Tx>)
    requires Ordered(pool, vtx)
    ensures Closed(pool, Elements(vtx))
  {
    forall t | t in Elements(vtx) ensures t in pool.ancestors && pool.ancestors[t] <= Elements(vtx) {
      var i :| 0 <= i < |vtx| && vtx[i] == t;
      assert Elements(vtx[..i]) <= Elements(vtx);
    }
  }

  /** A descendant has more ancestors than its ancestor. */
  lemma CountGrows(pool: Pool, t: Tx, a: Tx)
    requires Sound(pool) && t in Txs(pool) && a in pool.ancestors[t]
    ensures a in Txs(pool) && pool.count[a] < pool.count[t]
  {
    hide Sound;
    Facts(pool, t);
    Transitive(pool, t, a);
    Facts(pool, a);
    assert Family(pool, a) <= Family(pool, t) - {t};
    SubsetSize(Family(pool, a), Family(pool, t) - {t});
  }

  ghost predicate ByCount(pool: Pool, sorted: seq<Tx>)
    requires Elements(sorted) <= pool.count.Keys
  {
    forall i, j :: 0 <= i < j < |sorted| ==> pool.count[sorted[i]] <= pool.count[sorted[j]]
  }

  /** Sorting a package by ancestor count puts every transaction after its unselected ancestors. */
  lemma SortedPackage(pool: Pool, inBlock: set<Tx>, d: Tx, sorted: seq<Tx>, i: nat)
    requires Sound(pool) && d in Txs(pool) && Elements(sorted) == Unselected(pool, inBlock, d)
    requires Elements(sorted) <= pool.count.Keys && ByCount(pool, sorted) && i < |sorted|
    ensures sorted[i] in Txs(pool) && pool.ancestors[sorted[i]] <= inBlock + Elements(sorted[..i])
  {
    hide Sound, ByCount;
    var t := sorted[i];
    assert t in sorted && t in Elements(sorted);
    Facts(pool, d);
    if t != d {
      Transitive(pool, d, t);
    }
    forall a | a in pool.ancestors[t] && a !in inBlock ensures a in sorted[..i] {
      assert a in Family(pool, d);
      assert a in Elements(sorted);
      var j :| 0 <= j < |sorted| && sorted[j] == a;
      CountGrows(pool, t, a);
      CountedBefore(pool, sorted, i, j);
      assert sorted[..i][j] == a;
    }
  }

  lemma CountedBefore(pool: Pool, sorted: seq<Tx>, i: nat, j: nat)
    requires Elements(sorted) <= pool.count.Keys && ByCount(pool, sorted) && i < |sorted| && j < |sorted|
    requires sorted[i] in pool.count && sorted[j] in pool.count && pool.count[sorted[j]] < pool.count[sorted[i]]
    ensures j < i
  {
  }

  /** Adding a transaction whose parents are all in the block keeps the block closed. */
  lemma ParentsSuffice(pool: Pool, s: set<Tx>, t: Tx)
    requires Sound(pool) && Closed(pool, s) && t in Txs(pool) && pool.parents[t] <= s
    ensures pool.ancestors[t] <= s
  {
    assert Lineage(pool, t);
    forall a | a in pool.ancestors[t] ensures a in s {
      assert Inherits(pool, t, a);
      if a !in pool.parents[t] {
        var p :| p in pool.parents[t] && a in pool.ancestors[p];
        assert p in s;
      }
    }
  }
}
