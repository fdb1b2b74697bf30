/**
Compact blocks: a block announced as a few prefilled transactions and short ids of the
others, rebuilt by the receiver from its own pools and from transactions it asks for.
*/
module CompactBlocks {
  import opened Common
  import opened Sets
  import opened CompactSpec

  class PartiallyDownloadedBlock {
    var nullHeader: bool
    var txn_available: Slots
    var prefilled_count: int
    var mempool_count: int
    var extra_count: int

    constructor ()
      ensures nullHeader && txn_available == [] && prefilled_count == mempool_count == extra_count == 0
    {
      nullHeader, txn_available := true, [];
      prefilled_count, mempool_count, extra_count := 0, 0, 0;
    }

    /** Puts prefilled transactions into their slots, or finds one that cannot be in the block. */
    method PlacePrefilled(c: Compact) returns (ok: bool)
      requires txn_available == seq(|c.shorttxids| + |c.prefilledtxn|, i => None)
      modifies `txn_available
      ensures ok <==> WellFormed(c)
      ensures ok ==> Placed(c, txn_available, |c.prefilledtxn|)
    {
      hide Empties, IsPrefilled;
      EmptiesAll(txn_available);
      var last := -1;
      for i := 0 to |c.prefilledtxn|
        invariant Placed(c, txn_available, i)
        invariant last == if i == 0 then -1 else PrefilledAt(c, i - 1)
        invariant forall j :: 0 <= j < i ==> PrefilledAt(c, j) <= MAX_INDEX && PrefilledAt(c, j) <= |c.shorttxids| + j
      {
        if c.prefilledtxn[i].tx.None? {
          return false;
        }
        last := last + c.prefilledtxn[i].index + 1;
        assert last == PrefilledAt(c, i);
        if last > MAX_INDEX {
          return false;
        }
        if last > |c.shorttxids| + i {
          return false;
        }
        PlacedNext(c, txn_available, i);
        txn_available := txn_available[last := c.prefilledtxn[i].tx];
      }
      ok := true;
    }

    /** Assigns short ids to the empty slots in order; the scan never leaves the slots. */
    method IndexShortIds(c: Compact, crowded: seq<nat> -> bool)
      returns (status: ReadStatus, m: map<nat, int>, ghost pos: seq<int>)
      requires Placed(c, txn_available, |c.prefilledtxn|)
      ensures status == OK || status == FAILED
      ensures status == FAILED <==> Collides(c.shorttxids, crowded)
      ensures status == OK ==> Partitioned(c, pos) && Distinct(c.shorttxids) && Indexes(c, m, pos)
    {
      hide Placed, Enumerates, Empties, Partitioned, Distinct, Elements, Collides, Uncrowded, Indexes, Records;
      m, pos := map[], [];
      var index_offset := 0;
      StartIndex(c, txn_available);
      StartUncrowded(c.shorttxids, crowded);
      for i := 0 to |c.shorttxids|
        invariant 0 <= index_offset && i + index_offset <= |txn_available| && |pos| == i
        invariant Enumerates(txn_available, pos, i + index_offset) && Empties(txn_available[..i + index_offset]) == i
        invariant Records(c.shorttxids, m, pos, i) && Uncrowded(c.shorttxids, crowded, i)
      {
        ghost var limit := i + index_offset;
        index_offset := NextFree(c, i, index_offset);
        EnumeratesNext(txn_available, pos, limit, i + index_offset);
        EmptiesNext(txn_available, i + index_offset);
        RecordsNext(c.shorttxids, m, pos, i, i + index_offset);
        pos := pos + [i + index_offset];
        m := m[c.shorttxids[i] := i + index_offset];
        UncrowdedNext(c.shorttxids, crowded, i);
        if crowded(c.shorttxids[..i + 1]) {
          status := FAILED;
          return;
        }
      }
      RecordsAll(c.shorttxids, m, pos);
      UncrowdedAll(c.shorttxids, crowded);
      if |m| != |c.shorttxids| {
        status := FAILED;
        return;
      }
      Indexed(c, txn_available, m, pos, |c.shorttxids| + index_offset);
      status := OK;
    }

    /** Moves on to the next slot that is not prefilled. */
    method NextFree(c: Compact, i: nat, offset: nat) returns (index_offset: nat)
      requires Placed(c, txn_available, |c.prefilledtxn|) && i < |c.shorttxids|
      requires i + offset <= |txn_available| && Empties(txn_available[..i + offset]) == i
      ensures offset <= index_offset && i + index_offset < |txn_available| && txn_available[i + index_offset].None?
      ensures Empties(txn_available[..i + index_offset]) == i
      ensures forall k :: i + offset <= k < i + index_offset ==> txn_available[k].Some?
    {
      hide Placed, Empties;
      index_offset := offset;
      RoomLeft(c, txn_available, i + offset, i);
      while txn_available[i + index_offset].Some?
        invariant offset <= index_offset && i + index_offset < |txn_available|
        invariant Empties(txn_available[..i + index_offset]) == i
        invariant forall k :: i + offset <= k < i + index_offset ==> txn_available[k].Some?
        decreases |txn_available| - index_offset
      {
        EmptiesNext(txn_available, i + index_offset);
        RoomLeft(c, txn_available, i + index_offset + 1, i);
        index_offset := index_offset + 1;
      }
    }

    /** The index holds the first n short ids, each with the slot of one of its occurrences. */
    static ghost predicate Records(ids: seq<nat>, m: map<nat, int>, pos: seq<int>, n: nat)
      requires n <= |ids| && n <= |pos|
    {
      && m.Keys == Elements(ids[..n])
      && forall s :: s in m ==> exists j :: 0 <= j < n && ids[j] == s && m[s] == pos[j]
    }

    static lemma RecordsNext(ids: seq<nat>, m: map<nat, int>, pos: seq<int>, n: nat, at: int)
      requires n < |ids| && n == |pos| && Records(ids, m, pos, n)
      ensures Records(ids, m[ids[n] := at], pos + [at], n + 1)
    {
      KeysNext(ids, n);
      var m', pos' := m[ids[n] := at], pos + [at];
      forall s | s in m' ensures exists j :: 0 <= j < n + 1 && ids[j] == s && m'[s] == pos'[j] {
        if s == ids[n] {
          assert pos'[n] == m'[s];
        } else {
          var j :| 0 <= j < n && ids[j] == s && m[s] == pos[j];
          assert pos'[j] == pos[j];
        }
      }
    }

    static lemma RecordsAll(ids: seq<nat>, m: map<nat, int>, pos: seq<int>)
      requires |ids| == |pos| && Records(ids, m, pos, |ids|)
      ensures m.Keys == Elements(ids) && |m| == |Elements(ids)|
      ensures forall s :: s in m ==> exists j :: 0 <= j < |pos| && ids[j] == s && m[s] == pos[j]
    {
      assert ids[..|ids|] == ids;
      assert |m| == |m.Keys|;
    }

    static lemma StartIndex(c: Compact, slots: Slots)
      ensures Enumerates(slots, [], 0) && Empties(slots[..0]) == 0 && Records(c.shorttxids, map[], [], 0)
    {
    }

    /** There is an empty slot left for every short id. */
    static lemma RoomLeft(c: Compact, slots: Slots, limit: nat, i: nat)
      requires Placed(c, slots, |c.prefilledtxn|) && limit <= |slots| && i < |c.shorttxids|
               && Empties(slots[..limit]) == i
      ensures limit < |slots|
    {
      EmptiesBounded(slots, limit);
    }

    static lemma KeysNext(ids: seq<nat>, i: nat)
      requires i < |ids|
      ensures Elements(ids[..i + 1]) == Elements(ids[..i]) + {ids[i]}
    {
      assert ids[..i + 1] == ids[..i] + [ids[i]];
    }

    static lemma Indexed(c: Compact, slots: Slots, m: map<nat, int>, pos: seq<int>, limit: nat)
      requires Placed(c, slots, |c.prefilledtxn|) && limit <= |slots| && Enumerates(slots, pos, limit)
      requires |pos| == |c.shorttxids| == |m| && Empties(slots[..limit]) == |pos|
      requires m.Keys == Elements(c.shorttxids)
      requires forall s :: s in m ==> exists j :: 0 <= j < |pos| && c.shorttxids[j] == s && m[s] == pos[j]
      ensures Partitioned(c, pos) && Distinct(c.shorttxids) && Indexes(c, m, pos)
    {
      hide Placed, Enumerates, Empties, Partitioned, Distinct, Elements;
      assert c.shorttxids[..|c.shorttxids|] == c.shorttxids;
      assert |m| == |m.Keys|;
      SizeDistinct(c.shorttxids);
      SlotsLeft(c, slots);
      EnumeratesAll(slots, pos, limit);
      PartitionedBy(c, slots, pos);
      IndexRight(c.shorttxids, m, pos);
    }

    static lemma IndexRight(ids: seq<nat>, m: map<nat, int>, pos: seq<int>)
      requires |ids| == |pos| && Distinct(ids) && m.Keys == Elements(ids)
      requires forall s :: s in m ==> exists j :: 0 <= j < |pos| && ids[j] == s && m[s] == pos[j]
      ensures forall s :: s in m ==> s in ids
      ensures forall i :: 0 <= i < |pos| ==> ids[i] in m && m[ids[i]] == pos[i]
    {
      forall i | 0 <= i < |pos| ensures ids[i] in m && m[ids[i]] == pos[i] {
        assert ids[i] in Elements(ids);
        var j :| 0 <= j < |pos| && ids[j] == ids[i] && m[ids[i]] == pos[j];
        assert i == j;
      }
    }

    static lemma SlotsLeft(c: Compact, slots: Slots)
      requires Placed(c, slots, |c.prefilledtxn|)
      ensures Empties(slots) == |c.shorttxids| && |slots| == |c.shorttxids| + |c.prefilledtxn|
    {
    }

    /** The state while pools are searched: matches so far, and how many slots they fill. */
    ghost predicate Searching(c: Compact, id: nat -> nat, placed: Slots, pos: seq<int>, m: map<nat, int>,
                              have: seq<bool>, sources: seq<Tx>)
      reads this
    {
      && Partitioned(c, pos) && Indexes(c, m, pos)
      && Matching(c, id, placed, txn_available, pos, sources)
      && |have| == |txn_available| && (forall i :: 0 <= i < |pos| && !have[pos[i]] ==> txn_available[pos[i]].None?)
      && mempool_count == |c.shorttxids| - Empties(txn_available)
    }

    lemma Found(c: Compact, id: nat -> nat, placed: Slots, pos: seq<int>, m: map<nat, int>, have: seq<bool>,
                sources: seq<Tx>,
                s: nat, x: Option<Tx>, more: seq<Tx>)
      requires Searching(c, id, placed, pos, m, have, sources) && s in m
      requires x.Some? ==> id(x.value.hash) == s && x.value in more
      ensures 0 <= m[s] < |txn_available| == |have| && m[s] in pos
      ensures Matching(c, id, placed, txn_available[m[s] := x], pos, sources + more)
      ensures Empties(txn_available[m[s] := x]) ==
              Empties(txn_available) - (if txn_available[m[s]].None? then 1 else 0) + (if x.None? then 1 else 0)
      ensures !have[m[s]] ==> txn_available[m[s]].None?
    {
      hide Empties, Matching;
      assert forall i, j :: 0 <= i < j < |pos| ==> pos[i] < pos[j];
      MatchingSet(c, id, placed, txn_available, pos, sources, m, s, x, more);
      MatchingLength(c, id, placed, txn_available, pos, sources);
      EmptiesSet(txn_available, m[s], x);
    }

    static lemma MatchingLength(c: Compact, id: nat -> nat, placed: Slots, slots: Slots, pos: seq<int>,
                                sources: seq<Tx>)
      requires Matching(c, id, placed, slots, pos, sources)
      ensures |slots| == |c.shorttxids| + |c.prefilledtxn|
    {
    }

    /**
      Searches a pool, stopping early once every slot is filled. A slot that was filled before the extra
      pool is searched is emptied if and only if one of the transactions looked at conflicts with it, and
      extra_count changes as the number of filled slots does.
    */
    method MatchPool(c: Compact, id: nat -> nat, m: map<nat, int>, have0: seq<bool>, pool: seq<Tx>, extra: bool,
                     ghost placed: Slots, ghost pos: seq<int>, ghost sources: seq<Tx>)
      returns (have: seq<bool>, ghost offered: nat)
      requires Searching(c, id, placed, pos, m, have0, sources)
      modifies `txn_available, `mempool_count, `extra_count
      ensures Searching(c, id, placed, pos, m, have, sources + pool)
      ensures extra_count == old(extra_count) + if extra then mempool_count - old(mempool_count) else 0
      ensures offered <= |pool| && (offered == |pool| || mempool_count == |m|)
      ensures Seen(txn_available, have) == Search(id, m, extra, |c.shorttxids|, Seen(old(txn_available), have0), pool)
      ensures offered == Looked(id, m, extra, |c.shorttxids|, Seen(old(txn_available), have0), pool)
      ensures extra ==> (Lost(old(txn_available), txn_available) <==>
                         exists j :: 0 <= j < offered && Conflicts(id, m, old(txn_available), pool[j]))
    {
      hide Partitioned, Matching, Empties, Lost, Conflicts, Offer, Search, Looked;
      have := have0;
      ghost var before := txn_available;
      ghost var n, done := |c.shorttxids|, Search(id, m, extra, |c.shorttxids|, Seen(txn_available, have0), pool);
      ghost var looked := Looked(id, m, extra, n, Seen(txn_available, have0), pool);
      assert pool[0..] == pool;
      assert sources + pool[..0] == sources;
      SearchKeeps(c, id, placed, pos, m, have, sources);
      var i := 0;
      while i < |pool|
        invariant 0 <= i <= |pool| && Searching(c, id, placed, pos, m, have, sources + pool[..i])
        invariant extra_count == old(extra_count) + if extra then mempool_count - old(mempool_count) else 0
        invariant |txn_available| == |before| && Search(id, m, extra, n, Seen(txn_available, have), pool[i..]) == done
        invariant i + Looked(id, m, extra, n, Seen(txn_available, have), pool[i..]) == looked
        invariant extra ==> Kept(before, txn_available, have, pos)
        invariant extra ==>
                    (Lost(before, txn_available) <==> exists j :: 0 <= j < i && Conflicts(id, m, before, pool[j]))
      {
        SearchStep(id, m, extra, n, Seen(txn_available, have), pool, i);
        have := MatchOne(c, id, m, have, pool[i], extra, placed, pos, sources + pool[..i], before);
        assert sources + pool[..i] + [pool[i]] == sources + pool[..i + 1];
        i := i + 1;
        if mempool_count == |m| {
          assert Seen(txn_available, have) == done && i == looked;
          break;
        }
      }
      offered := i;
      SearchDone(id, m, extra, n, Seen(txn_available, have));
      MatchingMore(c, id, placed, txn_available, pos, sources + pool[..i], pool[i..]);
      assert sources + pool[..i] + pool[i..] == sources + pool;
    }

    lemma SearchKeeps(c: Compact, id: nat -> nat, placed: Slots, pos: seq<int>, m: map<nat, int>, have: seq<bool>,
                      sources: seq<Tx>)
      requires Searching(c, id, placed, pos, m, have, sources)
      ensures Kept(txn_available, txn_available, have, pos) && !Lost(txn_available, txn_available)
    {
      hide Partitioned, Matching, Empties;
    }

    /** Offers one transaction of a pool to the slots. */
    method MatchOne(c: Compact, id: nat -> nat, m: map<nat, int>, have0: seq<bool>, tx: Tx, extra: bool,
                    ghost placed: Slots, ghost pos: seq<int>, ghost sources: seq<Tx>, ghost before: Slots)
      returns (have: seq<bool>)
      requires Searching(c, id, placed, pos, m, have0, sources)
      requires extra ==> Kept(before, txn_available, have0, pos)
      modifies `txn_available, `mempool_count, `extra_count
      ensures Searching(c, id, placed, pos, m, have, sources + [tx])
      ensures extra_count == old(extra_count) + if extra then mempool_count - old(mempool_count) else 0
      ensures Seen(txn_available, have) == Offer(id, m, extra, Seen(old(txn_available), have0), tx)
      ensures extra ==>
                && Kept(before, txn_available, have, pos)
                && (Lost(before, txn_available) <==> Lost(before, old(txn_available)) || Conflicts(id, m, before, tx))
    {
      hide Partitioned, Matching, Empties, Lost, Kept;
      have := have0;
      MatchingMore(c, id, placed, txn_available, pos, sources, [tx]);
      var shortid := id(tx.hash);
      if shortid in m {
        var k := m[shortid];
        Found(c, id, placed, pos, m, have, sources, shortid, Some(tx), [tx]);
        Found(c, id, placed, pos, m, have, sources, shortid, None, [tx]);
        if extra {
          Offered(before, txn_available, have, pos, k, tx);
        }
        if !have[k] {
          txn_available := txn_available[k := Some(tx)];
          have := have[k := true];
          mempool_count := mempool_count + 1;
          if extra {
            extra_count := extra_count + 1;
          }
        } else if txn_available[k].Some? && (!extra || txn_available[k].value.hash != tx.hash) {
          txn_available := txn_available[k := None];
          mempool_count := mempool_count - 1;
          if extra {
            extra_count := extra_count - 1;
          }
        }
      }
    }

    /** What one extra transaction does to the slot it leads to. */
    static lemma Offered(before: Slots, now: Slots, have: seq<bool>, pos: seq<int>, k: nat, tx: Tx)
      requires Kept(before, now, have, pos) && k < |now| && k in pos
      ensures |before| == |now| == |have|
      ensures !have[k] ==>
                && before[k].None? && Kept(before, now[k := Some(tx)], have[k := true], pos)
                && (Lost(before, now[k := Some(tx)]) <==> Lost(before, now))
      ensures Kept(before, now[k := None], have, pos)
      ensures now[k].Some? && now[k].value.hash != tx.hash ==>
                && (Lost(before, now[k := None]) <==> Lost(before, now) || before[k].Some?)
                && (before[k].Some? ==> before[k].value.hash != tx.hash)
      ensures !(now[k].Some? && now[k].value.hash != tx.hash) && before[k].Some? && before[k].value.hash != tx.hash ==>
                Lost(before, now)
    {
      if !have[k] {
        FillsUnseen(before, now, have, pos, k, Some(tx));
      }
      EmptiesOne(before, now, have, pos, k);
    }

    /** What accepting a compact block guarantees. */
    ghost predicate Initialized(c: Compact, id: nat -> nat, placed: Slots, pos: seq<int>, sources: seq<Tx>)
      reads this
    {
      && Placed(c, placed, |c.prefilledtxn|) && Partitioned(c, pos) && Distinct(c.shorttxids)
      && Matching(c, id, placed, txn_available, pos, sources)
      && mempool_count == |c.shorttxids| - Empties(txn_available)
      && prefilled_count == |c.prefilledtxn| && !nullHeader
    }

    /**
      The message is invalid, cannot be indexed, or is matched against both pools. `matched` are the slots
      after the first pool. The count of extra transactions is that of the slots they fill if and only if
      no transaction looked at in the extra pool conflicts with a slot filled from the first.
    */
    method InitData(c: Compact, id: nat -> nat, crowded: seq<nat> -> bool, maxTxs: nat, pool: seq<Tx>,
                    extra_txn: seq<Tx>)
      returns (status: ReadStatus, ghost placed: Slots, ghost pos: seq<int>, ghost m: map<nat, int>,
               ghost matched: Slots, ghost looked: nat, ghost offered: nat)
      requires nullHeader && txn_available == [] && mempool_count == extra_count == 0
      requires |c.shorttxids| + |c.prefilledtxn| <= MAX_INDEX + 1
      modifies this
      ensures status == OK || status == INVALID || status == FAILED
      ensures status == OK ==> Initialized(c, id, placed, pos, pool + extra_txn)
      ensures status == INVALID <==>
                || c.nullHeader || (c.shorttxids == [] && c.prefilledtxn == [])
                || |c.shorttxids| + |c.prefilledtxn| > maxTxs || !WellFormed(c)
      ensures status == FAILED <==> status != INVALID && Collides(c.shorttxids, crowded)
      ensures status == OK ==>
                var n := |c.shorttxids|;
                var first := Search(id, m, false, n, Seen(placed, seq(|placed|, i => false)), pool);
                && Indexes(c, m, pos) && matched == first.slots
                && txn_available == Search(id, m, true, n, first, extra_txn).slots
                && offered == Looked(id, m, true, n, first, extra_txn)
      ensures status == OK ==>
                && StopsFirst(id, c.shorttxids, pool, looked)
                && HoldsHits(id, c.shorttxids, pos, pool[..looked], [], matched)
                && StopsExtra(id, c.shorttxids, pool[..looked], extra_txn, offered)
                && HoldsHits(id, c.shorttxids, pos, pool[..looked], extra_txn[..offered], txn_available)
      ensures status == OK ==> |matched| == |txn_available|
      ensures status == OK ==> extra_count == Gained(matched, txn_available) - Gained(txn_available, matched)
      ensures status == OK ==> offered <= |extra_txn| && (offered < |extra_txn| ==> mempool_count == |c.shorttxids|)
      ensures status == OK ==>
                (extra_count == Gained(matched, txn_available) <==>
                 forall j :: 0 <= j < offered ==> !Conflicts(id, m, matched, extra_txn[j]))
    {
      hide Placed, Partitioned, Matching, WellFormed, Empties, Distinct, Collides, Conflicts, Lost, Gained, Search,
           Looked, StopsFirst, StopsExtra, HoldsHits;
      placed, pos, m, matched, looked, offered := [], [], map[], [], 0, 0;
      if c.nullHeader || (c.shorttxids == [] && c.prefilledtxn == []) {
        status := INVALID;
        return;
      }
      if |c.shorttxids| + |c.prefilledtxn| > maxTxs {
        status := INVALID;
        return;
      }
      nullHeader := false;
      txn_available := seq(|c.shorttxids| + |c.prefilledtxn|, i => None);
      var ok := PlacePrefilled(c);
      if !ok {
        status := INVALID;
        return;
      }
      prefilled_count := |c.prefilledtxn|;
      placed := txn_available;
      var index;
      status, index, pos := IndexShortIds(c, crowded);
      if status != OK {
        return;
      }
      m := index;
      IndexSize(c, m, pos);
      var have := seq(|txn_available|, i => false);
      SearchStart(c, id, placed, pos, m);
      assert Searching(c, id, placed, pos, m, have, []);
      have, looked := MatchPool(c, id, index, have, pool, false, placed, pos, []);
      assert [] + pool == pool;
      matched := txn_available;
      have, offered := MatchPool(c, id, index, have, extra_txn, true, placed, pos, pool);
      GainedBalance(matched, txn_available);
      GainedNothing(matched, txn_available);
      BothSearched(c, id, m, pos, placed, pool, extra_txn);
    }

    /** What the two searches leave in the slots. */
    static lemma BothSearched(c: Compact, id: nat -> nat, m: map<nat, int>, pos: seq<int>, placed: Slots, pool: seq<Tx>,
                              extra: seq<Tx>)
      requires Placed(c, placed, |c.prefilledtxn|) && Partitioned(c, pos) && Indexes(c, m, pos)
               && Distinct(c.shorttxids)
      ensures var n, s := |c.shorttxids|, Seen(placed, seq(|placed|, i => false));
              var first, looked := Search(id, m, false, n, s, pool), Looked(id, m, false, n, s, pool);
              var last, offered := Search(id, m, true, n, first, extra), Looked(id, m, true, n, first, extra);
              && StopsFirst(id, c.shorttxids, pool, looked)
              && HoldsHits(id, c.shorttxids, pos, pool[..looked], [], first.slots)
              && StopsExtra(id, c.shorttxids, pool[..looked], extra, offered)
              && HoldsHits(id, c.shorttxids, pos, pool[..looked], extra[..offered], last.slots)
    {
      hide Search, Looked, StopsFirst, StopsExtra, Held, Hits, Leads, Matched;
      IndexSize(c, m, pos);
      SearchStart(c, id, placed, pos, m);
      IndexLeads(c, m, pos, placed);
      SearchBoth(id, m, c.shorttxids, pos, placed, pool, extra);
      var n, s := |c.shorttxids|, Seen(placed, seq(|placed|, i => false));
      var first, looked := Search(id, m, false, n, s, pool), Looked(id, m, false, n, s, pool);
      var last, offered := Search(id, m, true, n, first, extra), Looked(id, m, true, n, first, extra);
      MatchedHolds(id, c.shorttxids, pos, pool[..looked], [], first);
      MatchedHolds(id, c.shorttxids, pos, pool[..looked], extra[..offered], last);
    }

    static lemma IndexLeads(c: Compact, m: map<nat, int>, pos: seq<int>, placed: Slots)
      requires Placed(c, placed, |c.prefilledtxn|) && Partitioned(c, pos) && Indexes(c, m, pos) && |m| == |c.shorttxids|
      requires Distinct(c.shorttxids)
      ensures Leads(m, c.shorttxids, pos, placed)
    {
      hide Empties, PrefilledAt;
    }

    static lemma IndexSize(c: Compact, m: map<nat, int>, pos: seq<int>)
      requires Indexes(c, m, pos) && Distinct(c.shorttxids)
      ensures |m| == |c.shorttxids|
    {
      DistinctSize(c.shorttxids);
      assert m.Keys == Elements(c.shorttxids);
      assert |m| == |m.Keys|;
    }

    static lemma SearchStart(c: Compact, id: nat -> nat, placed: Slots, pos: seq<int>, m: map<nat, int>)
      requires Placed(c, placed, |c.prefilledtxn|) && Partitioned(c, pos)
      ensures Matching(c, id, placed, placed, pos, []) && Empties(placed) == |c.shorttxids|
      ensures forall i :: 0 <= i < |pos| ==> 0 <= pos[i] < |placed| && placed[pos[i]].None?
    {
      hide Empties, PrefilledAt;
      forall i | 0 <= i < |pos| ensures placed[pos[i]].None? {
        NotPrefilled(c, pos, i);
      }
    }

    static lemma NotPrefilled(c: Compact, pos: seq<int>, i: nat)
      requires Partitioned(c, pos) && i < |pos|
      ensures !IsPrefilled(c, |c.prefilledtxn|, pos[i])
    {
      hide PrefilledAt;
      assert pos[i] in pos;
    }

    predicate IsTxAvailable(index: nat)
      requires index < |txn_available|
      reads this
    {
      txn_available[index].Some?
    }

    /** Completes the block; a wrong number of missing transactions is an error. */
    method FillBlock(vtx_missing: seq<Tx>, checked: ReadStatus) returns (status: ReadStatus, vtx: seq<Tx>)
      requires !nullHeader && checked != INVALID
      modifies `nullHeader, `txn_available
      ensures status == INVALID <==> |vtx_missing| != Empties(old(txn_available))
      ensures status != INVALID ==>
                status == checked && vtx == Filled(old(txn_available), vtx_missing) && nullHeader && txn_available == []
    {
      ghost var slots := txn_available;
      vtx := [];
      var tx_missing_offset := 0;
      for i := 0 to |txn_available|
        invariant |txn_available| == |slots| && txn_available[i..] == slots[i..] && |vtx| == i
        invariant 0 <= tx_missing_offset <= |vtx_missing| && tx_missing_offset == Empties(slots[..i])
        invariant vtx == Filled(slots[..i], vtx_missing[..tx_missing_offset])
      {
        assert txn_available[i] == txn_available[i..][0] == slots[i];
        EmptiesNext(slots, i);
        EmptiesBounded(slots, i + 1);
        assert slots[..i + 1][..i] == slots[..i];
        if txn_available[i].None? {
          if |vtx_missing| <= tx_missing_offset {
            return INVALID, vtx;
          }
          assert vtx_missing[..tx_missing_offset + 1][..tx_missing_offset] == vtx_missing[..tx_missing_offset];
          vtx := vtx + [vtx_missing[tx_missing_offset]];
          tx_missing_offset := tx_missing_offset + 1;
        } else {
          vtx := vtx + [txn_available[i].value];
          txn_available := txn_available[i := None];
        }
      }
      assert slots[..|slots|] == slots;
      nullHeader := true;
      txn_available := [];
      if |vtx_missing| != tx_missing_offset {
        return INVALID, vtx;
      }
      assert vtx_missing[..tx_missing_offset] == vtx_missing;
      status := checked;
    }
  }

  const EXAMPLE := Compact(false, [7], [Prefilled(0, Some(Tx(0)))])

  lemma ExampleAccepted()
    ensures WellFormed(EXAMPLE) && !Collides(EXAMPLE.shorttxids, s => false)
  {
    assert PrefilledAt(EXAMPLE, 0) == 0;
  }

  /** The one short id leads to the second slot. */
  lemma ExampleIndex(m: map<nat, int>, pos: seq<int>)
    requires Partitioned(EXAMPLE, pos) && Indexes(EXAMPLE, m, pos)
    ensures pos == [1] && m == map[7 := 1]
  {
    assert PrefilledAt(EXAMPLE, 0) == 0;
    ShortIdsInOrder(EXAMPLE, pos, 0);
    assert forall s :: s in m <==> s == 7;
  }

  /** The first pool fills that slot; the extra pool empties it again. */
  lemma ExampleSearch(m: map<nat, int>, placed: Slots, matched: Slots, slots: Slots)
    requires m == map[7 := 1] && |placed| == 2
    requires var first := Search(h => h % 10, m, false, 1, Seen(placed, [false, false]), [Tx(7)]);
             matched == first.slots && slots == Search(h => h % 10, m, true, 1, first, [Tx(17)]).slots
    ensures matched == placed[1 := Some(Tx(7))] && slots == placed[1 := None]
  {
    hide Empties;
    var none: seq<Tx> := [];
    assert [Tx(7)][1..] == none && [Tx(17)][1..] == none;
  }

  lemma ExampleCount(placed: Slots)
    requires |placed| == 2
    ensures Gained(placed[1 := Some(Tx(7))], placed[1 := None]) - Gained(placed[1 := None], placed[1 := Some(Tx(7))])
            == -1
  {
    var a, b := placed[1 := Some(Tx(7))], placed[1 := None];
    GainedBalance(a, b);
    EmptiesSet(a, 1, None);
    assert a[1 := None] == b;
  }

  lemma MatchedLength(c: Compact, slots: Slots)
    requires Placed(c, slots, |c.prefilledtxn|)
    ensures |slots| == |c.shorttxids| + |c.prefilledtxn|
  {
  }

  /** A pool transaction and an extra one with its short id: the count of extra transactions goes below zero. */
  method ExtraBelowZero() returns (block: PartiallyDownloadedBlock)
    ensures fresh(block) && block.extra_count == -1 && !block.nullHeader
  {
    hide WellFormed, Collides, Search, Gained, Conflicts, Placed, Partitioned, Matching, Empties, Distinct, Indexes,
         StopsFirst, StopsExtra, HoldsHits, Looked;
    block := new PartiallyDownloadedBlock();
    ghost var placed, pos, m, matched, looked, offered;
    var status;
    status, placed, pos, m, matched, looked, offered :=
      block.InitData(EXAMPLE, h => h % 10, s => false, 2, [Tx(7)], [Tx(17)]);
    ExampleAccepted();
    MatchedLength(EXAMPLE, placed);
    ExampleIndex(m, pos);
    assert seq(|placed|, i => false) == [false, false];
    ExampleSearch(m, placed, matched, block.txn_available);
    ExampleCount(placed);
  }

  /**
    A block sent as a compact block and completed with the transactions asked for is the
    sender's block, transaction by transaction, when short ids tell its transactions apart
    from each other and from those of the pools.
  */
  method Transfer(id: nat -> nat, crowded: seq<nat> -> bool, vtx: seq<Tx>, maxTxs: nat, pool: seq<Tx>,
                  extra_txn: seq<Tx>)
    returns (status: ReadStatus, rebuilt: seq<Tx>)
    requires 0 < |vtx| <= MAX_INDEX + 1 && |vtx| <= maxTxs
    ensures status == FAILED <==> Collides(Announced(id, vtx).shorttxids, crowded)
    ensures status == OK && TellsApart(id, vtx, pool + extra_txn) ==> rebuilt == vtx
    ensures status == OK || status == FAILED
  {
    hide Empties, Filled, Wanted, TellsApart, Placed, Partitioned, Matching, Collides, Gained, Conflicts, StopsFirst,
         StopsExtra, HoldsHits, Search, Looked;
    rebuilt := [];
    var c := Announced(id, vtx);
    AnnouncedOk(id, vtx);
    var block := new PartiallyDownloadedBlock();
    ghost var placed, pos;
    ghost var m, matched, looked, offered;
    status, placed, pos, m, matched, looked, offered := block.InitData(c, id, crowded, maxTxs, pool, extra_txn);
    if status == OK {
      ghost var slots := block.txn_available;
      PartiallyDownloadedBlock.MatchingLength(c, id, placed, slots, pos, pool + extra_txn);
      var missing := Answer(block, vtx);
      status, rebuilt := block.FillBlock(missing, OK);
      if TellsApart(id, vtx, pool + extra_txn) {
        SlotsRight(id, vtx, placed, slots, pos, pool + extra_txn);
        FilledWanted(slots, vtx);
      }
    }
  }

  lemma AnnouncedOk(id: nat -> nat, vtx: seq<Tx>)
    requires vtx != []
    ensures WellFormed(Announced(id, vtx)) && |Announced(id, vtx).shorttxids| + 1 == |vtx|
  {
  }

  /** The sender's answer to a request for the slots that are not available. */
  method Answer(block: PartiallyDownloadedBlock, vtx: seq<Tx>) returns (missing: seq<Tx>)
    requires |block.txn_available| == |vtx|
    ensures missing == Wanted(block.txn_available, vtx)
  {
    missing := [];
    for i := 0 to |vtx|
      invariant missing == Wanted(block.txn_available[..i], vtx[..i])
    {
      assert block.txn_available[..i + 1][..i] == block.txn_available[..i] && vtx[..i + 1][..i] == vtx[..i];
      if !block.IsTxAvailable(i) {
        missing := missing + [vtx[i]];
      }
    }
    assert block.txn_available[..|vtx|] == block.txn_available && vtx[..|vtx|] == vtx;
  }
}
