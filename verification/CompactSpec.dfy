/**
What a compact block stands for: which slots are prefilled, where short ids lead, and which
transactions of the pools end up in the slots.
*/
module CompactSpec {
  import opened Common
  import opened Sets

  /** A transaction, identified by its hash. */
  datatype Tx = Tx(hash: nat)

  /** A prefilled transaction, its index counted from the previous one. */
  datatype Prefilled = Prefilled(index: nat, tx: Option<Tx>)

  datatype Compact = Compact(nullHeader: bool, shorttxids: seq<nat>, prefilledtxn: seq<Prefilled>)

  datatype ReadStatus = OK | INVALID | FAILED | CHECKBLOCK_FAILED

  type Slots = seq<Option<Tx>>

  const MAX_INDEX: nat := 65535

  // ------------------------------------------------------------------ slots

  function Empties(slots: Slots): nat {
    if slots == [] then 0 else Empties(slots[..|slots| - 1]) + (if slots[|slots| - 1].None? then 1 else 0)
  }

  lemma EmptiesNext(slots: Slots, k: nat)
    requires k < |slots|
    ensures Empties(slots[..k + 1]) == Empties(slots[..k]) + (if slots[k].None? then 1 else 0)
  {
    assert slots[..k + 1][..k] == slots[..k];
  }

  lemma {:induction false} EmptiesSet(slots: Slots, k: nat, x: Option<Tx>)
    requires k < |slots|
    ensures Empties(slots[k := x]) == Empties(slots) - (if slots[k].None? then 1 else 0) + (if x.None? then 1 else 0)
    decreases |slots|
  {
    var n := |slots| - 1;
    if k == n {
      assert slots[k := x][..n] == slots[..n];
    } else {
      EmptiesSet(slots[..n], k, x);
      assert slots[k := x][..n] == slots[..n][k := x];
    }
  }

  lemma {:induction false} EmptiesAll(slots: Slots)
    requires forall k :: 0 <= k < |slots| ==> slots[k] == None
    ensures Empties(slots) == |slots|
  {
    if slots != [] {
      EmptiesAll(slots[..|slots| - 1]);
    }
  }

  lemma {:induction false} EmptiesBounded(slots: Slots, k: nat)
    requires k <= |slots|
    ensures Empties(slots[..k]) <= Empties(slots) && Empties(slots) <= Empties(slots[..k]) + |slots| - k
    decreases |slots| - k
  {
    if k == |slots| {
      assert slots[..k] == slots;
    } else {
      EmptiesBounded(slots, k + 1);
      EmptiesNext(slots, k);
    }
  }

  // -------------------------------------------------------- prefilled slots

  /** The block index of the i-th prefilled transaction. */
  function PrefilledAt(c: Compact, i: nat): (k: nat)
    requires i < |c.prefilledtxn|
    ensures k >= i
  {
    if i == 0 then c.prefilledtxn[0].index else PrefilledAt(c, i - 1) + c.prefilledtxn[i].index + 1
  }

  lemma {:induction false} PrefilledGrows(c: Compact, i: nat, j: nat)
    requires i < j < |c.prefilledtxn|
    ensures PrefilledAt(c, i) < PrefilledAt(c, j)
    decreases j
  {
    if i < j - 1 {
      PrefilledGrows(c, i, j - 1);
    }
  }

  ghost predicate IsPrefilled(c: Compact, m: nat, k: int)
    requires m <= |c.prefilledtxn|
  {
    exists i :: 0 <= i < m && PrefilledAt(c, i) == k
  }

  lemma IsPrefilledNext(c: Compact, m: nat)
    requires m < |c.prefilledtxn|
    ensures forall k :: IsPrefilled(c, m + 1, k) <==> IsPrefilled(c, m, k) || k == PrefilledAt(c, m)
    ensures !IsPrefilled(c, m, PrefilledAt(c, m))
  {
    hide PrefilledAt;
    forall i | 0 <= i < m ensures PrefilledAt(c, i) != PrefilledAt(c, m) {
      PrefilledGrows(c, i, m);
    }
  }

  /** The slots after placing the first m prefilled transactions. */
  ghost predicate Placed(c: Compact, slots: Slots, m: nat)
    requires m <= |c.prefilledtxn|
  {
    && |slots| == |c.shorttxids| + |c.prefilledtxn|
    && (forall i :: 0 <= i < m ==> c.prefilledtxn[i].tx.Some? && PrefilledAt(c, i) < |slots|
                                   && slots[PrefilledAt(c, i)] == c.prefilledtxn[i].tx)
    && (forall k :: 0 <= k < |slots| && slots[k].Some? ==> IsPrefilled(c, m, k))
    && Empties(slots) == |slots| - m
  }

  lemma PlacedNext(c: Compact, slots: Slots, m: nat)
    requires m < |c.prefilledtxn| && Placed(c, slots, m) && c.prefilledtxn[m].tx.Some? && PrefilledAt(c, m) < |slots|
    ensures slots[PrefilledAt(c, m)].None?
    ensures Placed(c, slots[PrefilledAt(c, m) := c.prefilledtxn[m].tx], m + 1)
  {
    hide Empties, PrefilledAt, IsPrefilled;
    var k := PrefilledAt(c, m);
    IsPrefilledNext(c, m);
    EmptiesSet(slots, k, c.prefilledtxn[m].tx);
    forall i | 0 <= i < m ensures PrefilledAt(c, i) != k {
      PrefilledGrows(c, i, m);
    }
  }

  // --------------------------------------------------------- short-id slots

  /** The first slots without a prefilled transaction, in order. */
  ghost predicate Enumerates(slots: Slots, pos: seq<int>, limit: int) {
    && 0 <= limit <= |slots|
    && (forall i :: 0 <= i < |pos| ==> 0 <= pos[i] < limit && slots[pos[i]].None?)
    && (forall i, j :: 0 <= i < j < |pos| ==> pos[i] < pos[j])
    && (forall k :: 0 <= k < limit && slots[k].None? ==> k in pos)
  }

  lemma EnumeratesNext(slots: Slots, pos: seq<int>, limit: int, at: int)
    requires Enumerates(slots, pos, limit) && limit <= at < |slots| && slots[at].None?
    requires forall k :: limit <= k < at ==> slots[k].Some?
    ensures Enumerates(slots, pos + [at], at + 1)
  {
    forall k | 0 <= k < at + 1 && slots[k].None? ensures k in pos + [at] {
      if k < limit {
        assert k in pos;
      }
    }
  }

  /** Every slot is prefilled or has a short id, not both. */
  ghost predicate Partitioned(c: Compact, pos: seq<int>) {
    && |pos| == |c.shorttxids|
    && (forall i, j :: 0 <= i < j < |pos| ==> pos[i] < pos[j])
    && (forall i :: 0 <= i < |pos| ==> 0 <= pos[i] < |c.shorttxids| + |c.prefilledtxn|)
    && (forall j :: 0 <= j < |c.prefilledtxn| ==>
          PrefilledAt(c, j) < |c.shorttxids| + |c.prefilledtxn| && PrefilledAt(c, j) !in pos)
    && (forall k :: 0 <= k < |c.shorttxids| + |c.prefilledtxn| ==>
          k in pos || IsPrefilled(c, |c.prefilledtxn|, k))
  }

  lemma PartitionedBy(c: Compact, slots: Slots, pos: seq<int>)
    requires Placed(c, slots, |c.prefilledtxn|) && Enumerates(slots, pos, |slots|) && |pos| == |c.shorttxids|
    ensures Partitioned(c, pos)
  {
    hide Empties, PrefilledAt, IsPrefilled;
    assert forall k :: k in pos ==> 0 <= k < |slots| && slots[k].None?;
  }

  /** After all short ids, the rest of the slots is prefilled. */
  lemma EnumeratesAll(slots: Slots, pos: seq<int>, limit: int)
    requires Enumerates(slots, pos, limit) && Empties(slots[..limit]) == Empties(slots)
    ensures Enumerates(slots, pos, |slots|)
  {
    forall k | limit <= k < |slots| ensures slots[k].Some? {
      SomeBeyond(slots, limit, k);
    }
  }

  lemma {:induction false} SomeBeyond(slots: Slots, limit: nat, k: nat)
    requires limit <= k < |slots| && Empties(slots[..limit]) == Empties(slots)
    ensures slots[k].Some?
    decreases k
  {
    EmptiesBounded(slots, k + 1);
    EmptiesNext(slots, k);
    EmptiesMonotone(slots, limit, k);
  }

  lemma {:induction false} EmptiesMonotone(slots: Slots, i: nat, j: nat)
    requires i <= j <= |slots|
    ensures Empties(slots[..i]) <= Empties(slots[..j])
    decreases j
  {
    if i < j {
      EmptiesMonotone(slots, i, j - 1);
      EmptiesNext(slots, j - 1);
    }
  }

  lemma {:induction false} SizeDistinct<T>(s: seq<T>)
    requires |Elements(s)| == |s|
    ensures Distinct(s)
  {
    if s != [] {
      var n := |s| - 1;
      assert s == s[..n] + [s[n]];
      assert Elements(s) == Elements(s[..n]) + {s[n]};
      ElementsBounded(s[..n]);
      assert s[n] !in Elements(s[..n]);
      SizeDistinct(s[..n]);
      forall i, j | 0 <= i < j < |s| ensures s[i] != s[j] {
        if j == n {
          assert s[i] in Elements(s[..n]);
        } else {
          assert s[..n][i] != s[..n][j];
        }
      }
    }
  }

  lemma {:induction false} ElementsBounded<T>(s: seq<T>)
    ensures |Elements(s)| <= |s|
  {
    if s != [] {
      var n := |s| - 1;
      ElementsBounded(s[..n]);
      assert s == s[..n] + [s[n]];
      assert Elements(s) == Elements(s[..n]) + {s[n]};
    }
  }

  // --------------------------------------------------------------- matching

  /** Short ids that cannot be indexed: a hash bucket gets crowded on the way, or two are equal. */
  ghost predicate Collides(ids: seq<nat>, crowded: seq<nat> -> bool) {
    !Distinct(ids) || exists i :: 1 <= i <= |ids| && crowded(ids[..i])
  }

  ghost predicate Uncrowded(ids: seq<nat>, crowded: seq<nat> -> bool, n: nat)
    requires n <= |ids|
  {
    forall i :: 1 <= i <= n ==> !crowded(ids[..i])
  }

  lemma StartUncrowded(ids: seq<nat>, crowded: seq<nat> -> bool)
    ensures Uncrowded(ids, crowded, 0)
  {
  }

  lemma UncrowdedNext(ids: seq<nat>, crowded: seq<nat> -> bool, n: nat)
    requires n < |ids| && Uncrowded(ids, crowded, n)
    ensures if crowded(ids[..n + 1]) then Collides(ids, crowded) else Uncrowded(ids, crowded, n + 1)
  {
    hide Distinct;
  }

  lemma UncrowdedAll(ids: seq<nat>, crowded: seq<nat> -> bool)
    requires Uncrowded(ids, crowded, |ids|)
    ensures Collides(ids, crowded) <==> |Elements(ids)| != |ids|
  {
    hide Distinct, Elements;
    Repeats(ids);
  }

  /** Short ids that repeat have fewer elements than places. */
  lemma Repeats(ids: seq<nat>)
    ensures Distinct(ids) <==> |Elements(ids)| == |ids|
  {
    hide Elements;
    if Distinct(ids) {
      DistinctSize(ids);
    } else if |Elements(ids)| == |ids| {
      SizeDistinct(ids);
    }
  }

  /** What a short-id slot may hold: nothing, or a pool transaction with that short id. */
  ghost predicate Matches(c: Compact, id: nat -> nat, slots: Slots, pos: seq<int>, sources: seq<Tx>, i: int)
    requires |pos| == |c.shorttxids| && 0 <= i < |pos| && 0 <= pos[i] < |slots|
  {
    slots[pos[i]].Some? ==> id(slots[pos[i]].value.hash) == c.shorttxids[i] && slots[pos[i]].value in sources
  }

  ghost predicate Matching(c: Compact, id: nat -> nat, placed: Slots, slots: Slots, pos: seq<int>, sources: seq<Tx>) {
    && |slots| == |placed| == |c.shorttxids| + |c.prefilledtxn| && |pos| == |c.shorttxids|
    && (forall k :: 0 <= k < |slots| && k !in pos ==> slots[k] == placed[k])
    && (forall i :: 0 <= i < |pos| ==> 0 <= pos[i] < |slots| && Matches(c, id, slots, pos, sources, i))
  }

  /** Where the index of short ids leads. */
  ghost predicate Indexes(c: Compact, m: map<nat, int>, pos: seq<int>) {
    && |pos| == |c.shorttxids|
    && (forall s :: s in m ==> s in c.shorttxids)
    && (forall i :: 0 <= i < |pos| ==> c.shorttxids[i] in m && m[c.shorttxids[i]] == pos[i])
  }

  /** Writing a slot found through the index. */
  lemma MatchingSet(c: Compact, id: nat -> nat, placed: Slots, slots: Slots, pos: seq<int>, sources: seq<Tx>,
                    m: map<nat, int>,
                    s: nat, x: Option<Tx>, more: seq<Tx>)
    requires Matching(c, id, placed, slots, pos, sources) && Indexes(c, m, pos) && s in m
    requires forall i, j :: 0 <= i < j < |pos| ==> pos[i] < pos[j]
    requires x.Some? ==> id(x.value.hash) == s && x.value in more
    ensures 0 <= m[s] < |slots| && m[s] in pos
    ensures Matching(c, id, placed, slots[m[s] := x], pos, sources + more)
  {
    var at :| 0 <= at < |pos| && c.shorttxids[at] == s;
    assert m[s] == pos[at];
    var slots' := slots[m[s] := x];
    forall i | 0 <= i < |pos| ensures Matches(c, id, slots', pos, sources + more, i) {
      assert Matches(c, id, slots, pos, sources, i);
      if i != at {
        assert pos[i] != pos[at];
      }
    }
  }

  lemma MatchingMore(c: Compact, id: nat -> nat, placed: Slots, slots: Slots, pos: seq<int>, sources: seq<Tx>,
                     more: seq<Tx>)
    requires Matching(c, id, placed, slots, pos, sources)
    ensures Matching(c, id, placed, slots, pos, sources + more)
  {
    forall i | 0 <= i < |pos| ensures Matches(c, id, slots, pos, sources + more, i) {
      assert Matches(c, id, slots, pos, sources, i);
    }
  }

  /** Every prefilled transaction has an index the block can have. */
  ghost predicate WellFormed(c: Compact) {
    forall i :: 0 <= i < |c.prefilledtxn| ==>
      c.prefilledtxn[i].tx.Some? && PrefilledAt(c, i) <= MAX_INDEX && PrefilledAt(c, i) <= |c.shorttxids| + i
  }

  // ---------------------------------------------------------------- search

  /** The slots while pools are searched, and which of them a transaction has matched. */
  datatype Seen = Seen(slots: Slots, have: seq<bool>)

  /** A first match fills a slot; a second one empties it, in the extra pool only if it is different. */
  function Offer(id: nat -> nat, m: map<nat, int>, extra: bool, s: Seen, tx: Tx): (r: Seen)
    ensures |r.slots| == |s.slots| && |r.have| == |s.have|
  {
    var shortid := id(tx.hash);
    if shortid in m && 0 <= m[shortid] < |s.slots| && m[shortid] < |s.have| then
      var k := m[shortid];
      if !s.have[k] then Seen(s.slots[k := Some(tx)], s.have[k := true])
      else if s.slots[k].Some? && (!extra || s.slots[k].value.hash != tx.hash) then Seen(s.slots[k := None], s.have)
      else s
    else s
  }

  /** A pool is searched until all n slots with short ids are filled. */
  function Search(id: nat -> nat, m: map<nat, int>, extra: bool, n: nat, s: Seen, pool: seq<Tx>): (r: Seen)
    ensures |r.slots| == |s.slots| && |r.have| == |s.have|
    decreases pool
  {
    if pool == [] then s else
      var s' := Offer(id, m, extra, s, pool[0]);
      if n - Empties(s'.slots) == |m| then s' else Search(id, m, extra, n, s', pool[1..])
  }

  /** How many transactions of a pool are looked at. */
  function Looked(id: nat -> nat, m: map<nat, int>, extra: bool, n: nat, s: Seen, pool: seq<Tx>): (k: nat)
    ensures k <= |pool|
    decreases pool
  {
    if pool == [] then 0 else
      var s' := Offer(id, m, extra, s, pool[0]);
      if n - Empties(s'.slots) == |m| then 1 else 1 + Looked(id, m, extra, n, s', pool[1..])
  }

  lemma SearchStep(id: nat -> nat, m: map<nat, int>, extra: bool, n: nat, s: Seen, pool: seq<Tx>, i: nat)
    requires i < |pool|
    ensures var s' := Offer(id, m, extra, s, pool[i]);
            if n - Empties(s'.slots) == |m|
            then Search(id, m, extra, n, s, pool[i..]) == s' && Looked(id, m, extra, n, s, pool[i..]) == 1
            else
              && Search(id, m, extra, n, s, pool[i..]) == Search(id, m, extra, n, s', pool[i + 1..])
              && Looked(id, m, extra, n, s, pool[i..]) == 1 + Looked(id, m, extra, n, s', pool[i + 1..])
  {
    hide Offer, Empties;
    assert pool[i..][0] == pool[i] && pool[i..][1..] == pool[i + 1..];
  }

  lemma SearchDone(id: nat -> nat, m: map<nat, int>, extra: bool, n: nat, s: Seen)
    ensures Search(id, m, extra, n, s, []) == s && Looked(id, m, extra, n, s, []) == 0
  {
  }

  // ------------------------------------------------------- what is matched

  /** The transactions of a list that have a short id. */
  function Hits(id: nat -> nat, c: nat, txs: seq<Tx>): (hits: seq<Tx>) {
    if txs == [] then []
    else
      var n := |txs| - 1;
      Hits(id, c, txs[..n]) + (if id(txs[n].hash) == c then [txs[n]] else [])
  }

  /**
    What becomes of a short id: the only transaction of the first pool with it, or else the only one of
    the extra pool; but nothing if the first pool has two, or if there is a different one in the extra
    pool.
  */
  function Held(id: nat -> nat, c: nat, first: seq<Tx>, extra: seq<Tx>): Option<Tx> {
    var a, b := Hits(id, c, first), Hits(id, c, extra);
    if |a| <= 1 && a + b != [] && (forall i :: 0 <= i < |b| ==> b[i] == (a + b)[0]) then Some((a + b)[0]) else None
  }

  predicate AllHeld(id: nat -> nat, ids: seq<nat>, first: seq<Tx>, extra: seq<Tx>) {
    forall i :: 0 <= i < |ids| ==> Held(id, ids[i], first, extra).Some?
  }

  /** The first pool is looked at until everything is held. */
  ghost predicate StopsFirst(id: nat -> nat, ids: seq<nat>, pool: seq<Tx>, n: nat) {
    && n <= |pool| && (forall j :: 1 <= j < n ==> !AllHeld(id, ids, pool[..j], []))
    && (n < |pool| ==> n >= 1 && AllHeld(id, ids, pool[..n], []))
  }

  /** And so is the extra pool. */
  ghost predicate StopsExtra(id: nat -> nat, ids: seq<nat>, first: seq<Tx>, extra: seq<Tx>, n: nat) {
    && n <= |extra| && (forall j :: 1 <= j < n ==> !AllHeld(id, ids, first, extra[..j]))
    && (n < |extra| ==> n >= 1 && AllHeld(id, ids, first, extra[..n]))
  }

  /** The slot of each short id holds what the transactions with that short id leave. */
  ghost predicate HoldsHits(id: nat -> nat, ids: seq<nat>, pos: seq<int>, first: seq<Tx>, extra: seq<Tx>,
                            slots: Slots) {
    && |ids| == |pos|
    && forall i :: 0 <= i < |pos| ==> 0 <= pos[i] < |slots| && slots[pos[i]] == Held(id, ids[i], first, extra)
  }

  /** The slots of the short ids after some transactions of both pools, and which were matched. */
  ghost predicate Matched(id: nat -> nat, ids: seq<nat>, pos: seq<int>, first: seq<Tx>, extra: seq<Tx>, s: Seen) {
    && |ids| == |pos| && |s.slots| == |s.have|
    && forall i :: 0 <= i < |pos| ==> MatchedAt(id, ids, pos, first, extra, s, i)
  }

  ghost predicate MatchedAt(id: nat -> nat, ids: seq<nat>, pos: seq<int>, first: seq<Tx>, extra: seq<Tx>, s: Seen,
                            i: int)
    requires 0 <= i < |pos| == |ids| && |s.slots| == |s.have|
  {
    && 0 <= pos[i] < |s.slots| && s.slots[pos[i]] == Held(id, ids[i], first, extra)
    && (s.have[pos[i]] <==> Hits(id, ids[i], first) + Hits(id, ids[i], extra) != [])
  }

  /** Short ids lead to their own slots, and the other slots are filled. */
  ghost predicate Leads(m: map<nat, int>, ids: seq<nat>, pos: seq<int>, slots: Slots) {
    && |pos| == |ids| == |m| && (forall c :: c in m ==> c in ids)
    && (forall i :: 0 <= i < |pos| ==> 0 <= pos[i] < |slots| && ids[i] in m && m[ids[i]] == pos[i])
    && (forall i, j :: 0 <= i < j < |pos| ==> pos[i] < pos[j] && ids[i] != ids[j])
    && (forall k :: 0 <= k < |slots| && k !in pos ==> slots[k].Some?)
  }

  lemma HitsNext(id: nat -> nat, c: nat, txs: seq<Tx>, tx: Tx)
    ensures Hits(id, c, txs + [tx]) == Hits(id, c, txs) + (if id(tx.hash) == c then [tx] else [])
  {
    assert (txs + [tx])[..|txs|] == txs;
  }

  lemma HitsNone(id: nat -> nat, c: nat)
    ensures Hits(id, c, []) == []
  {
  }

  lemma HeldFirst(id: nat -> nat, c: nat, first: seq<Tx>, tx: Tx)
    ensures Held(id, c, first + [tx], []) ==
              if id(tx.hash) != c then Held(id, c, first, []) else if Hits(id, c, first) == [] then Some(tx) else None
  {
    hide Hits;
    HitsNext(id, c, first, tx);
    HitsNone(id, c);
  }

  lemma HeldExtra(id: nat -> nat, c: nat, first: seq<Tx>, extra: seq<Tx>, tx: Tx)
    ensures Held(id, c, first, extra + [tx]) ==
              if id(tx.hash) != c then Held(id, c, first, extra)
              else if Hits(id, c, first) + Hits(id, c, extra) == [] then Some(tx)
              else if Held(id, c, first, extra) == Some(tx) then Some(tx) else None
  {
    hide Hits;
    HitsNext(id, c, extra, tx);
    var a, b := Hits(id, c, first), Hits(id, c, extra);
    if id(tx.hash) == c {
      assert (b + [tx])[|b|] == tx;
      assert forall i :: 0 <= i < |b| ==> (b + [tx])[i] == b[i];
      assert a + b != [] ==> (a + (b + [tx]))[0] == (a + b)[0];
    } else {
      assert b + [] == b;
    }
  }

  /** One transaction offered to the slot of one short id. */
  lemma OfferAt(id: nat -> nat, m: map<nat, int>, ids: seq<nat>, pos: seq<int>, extra: bool, s: Seen, tx: Tx, i: nat)
    requires Leads(m, ids, pos, s.slots) && |s.have| == |s.slots| && i < |pos|
    ensures var r, k := Offer(id, m, extra, s, tx), pos[i];
            && (r.have[k] <==> s.have[k] || id(tx.hash) == ids[i])
            && r.slots[k] ==
               if id(tx.hash) != ids[i] then s.slots[k]
               else if !s.have[k] then Some(tx)
               else if s.slots[k].Some? && (!extra || s.slots[k].value != tx) then None else s.slots[k]
  {
    var c := id(tx.hash);
    if c in m {
      var j :| 0 <= j < |ids| && ids[j] == c;
      assert m[ids[j]] == pos[j];
      assert j < i ==> pos[j] < pos[i] && ids[j] != ids[i];
      assert i < j ==> pos[i] < pos[j] && ids[i] != ids[j];
    }
  }

  lemma OfferLeads(id: nat -> nat, m: map<nat, int>, ids: seq<nat>, pos: seq<int>, extra: bool, s: Seen, tx: Tx)
    requires Leads(m, ids, pos, s.slots) && |s.have| == |s.slots|
    ensures Leads(m, ids, pos, Offer(id, m, extra, s, tx).slots)
  {
    var c := id(tx.hash);
    if c in m {
      var j :| 0 <= j < |ids| && ids[j] == c;
      assert m[ids[j]] == pos[j] && pos[j] in pos;
    }
  }

  lemma OfferMatched(id: nat -> nat, m: map<nat, int>, ids: seq<nat>, pos: seq<int>, first: seq<Tx>, extra: seq<Tx>,
                     inExtra: bool, s: Seen, tx: Tx)
    requires Leads(m, ids, pos, s.slots) && Matched(id, ids, pos, first, extra, s) && (!inExtra ==> extra == [])
    ensures var r := Offer(id, m, inExtra, s, tx);
            if inExtra then Matched(id, ids, pos, first, extra + [tx], r)
               else Matched(id, ids, pos, first + [tx], [], r)
  {
    hide Hits, Held, Offer, Leads;
    var r := Offer(id, m, inExtra, s, tx);
    forall i | 0 <= i < |pos|
      ensures if inExtra then MatchedAt(id, ids, pos, first, extra + [tx], r, i)
              else MatchedAt(id, ids, pos, first + [tx], [], r, i)
    {
      assert MatchedAt(id, ids, pos, first, extra, s, i);
      OfferAt(id, m, ids, pos, inExtra, s, tx, i);
      OfferMatchedAt(id, ids, pos, first, extra, inExtra, s, r, tx, i);
    }
  }

  lemma OfferMatchedAt(id: nat -> nat, ids: seq<nat>, pos: seq<int>, first: seq<Tx>, extra: seq<Tx>,
                       inExtra: bool, s: Seen, r: Seen, tx: Tx, i: nat)
    requires i < |pos| == |ids| && |s.slots| == |s.have| == |r.slots| == |r.have| && (!inExtra ==> extra == [])
    requires MatchedAt(id, ids, pos, first, extra, s, i)
    requires var k := pos[i];
             && (r.have[k] <==> s.have[k] || id(tx.hash) == ids[i])
             && r.slots[k] ==
                if id(tx.hash) != ids[i] then s.slots[k]
                else if !s.have[k] then Some(tx)
                else if s.slots[k].Some? && (!inExtra || s.slots[k].value != tx) then None else s.slots[k]
    ensures if inExtra then MatchedAt(id, ids, pos, first, extra + [tx], r, i)
            else MatchedAt(id, ids, pos, first + [tx], [], r, i)
  {
    hide Hits, Held;
    HitsNone(id, ids[i]);
    if inExtra {
      HeldExtra(id, ids[i], first, extra, tx);
      HitsNext(id, ids[i], extra, tx);
    } else {
      HeldFirst(id, ids[i], first, tx);
      HitsNext(id, ids[i], first, tx);
    }
  }

  /** All slots are filled if and only if all short ids are held. */
  lemma FullIs(id: nat -> nat, m: map<nat, int>, ids: seq<nat>, pos: seq<int>, first: seq<Tx>, extra: seq<Tx>, s: Seen)
    requires Leads(m, ids, pos, s.slots) && Matched(id, ids, pos, first, extra, s)
    ensures |ids| - Empties(s.slots) == |m| <==> AllHeld(id, ids, first, extra)
  {
    hide Hits, Held;
    NoEmpties(s.slots);
    if AllHeld(id, ids, first, extra) {
      forall k | 0 <= k < |s.slots| ensures s.slots[k].Some? {
        if k in pos {
          var i :| 0 <= i < |pos| && pos[i] == k;
          assert MatchedAt(id, ids, pos, first, extra, s, i);
        }
      }
    } else {
      var i :| 0 <= i < |ids| && Held(id, ids[i], first, extra).None?;
      assert MatchedAt(id, ids, pos, first, extra, s, i);
    }
  }

  lemma {:induction false} NoEmpties(slots: Slots)
    ensures Empties(slots) == 0 <==> forall k :: 0 <= k < |slots| ==> slots[k].Some?
  {
    if slots != [] {
      var n := |slots| - 1;
      NoEmpties(slots[..n]);
      forall k | 0 <= k < n ensures slots[..n][k] == slots[k] {
      }
      assert (forall k :: 0 <= k < |slots| ==> slots[k].Some?) <==>
               slots[n].Some? && forall k :: 0 <= k < n ==> slots[..n][k].Some?;
    }
  }

  lemma {:induction false} SearchFirst(id: nat -> nat, m: map<nat, int>, ids: seq<nat>, pos: seq<int>, s: Seen,
                                       pool: seq<Tx>, i: nat)
    requires i <= |pool| && Leads(m, ids, pos, s.slots) && Matched(id, ids, pos, pool[..i], [], s)
    ensures var r, k := Search(id, m, false, |ids|, s, pool[i..]), i + Looked(id, m, false, |ids|, s, pool[i..]);
            && k <= |pool| && Leads(m, ids, pos, r.slots) && Matched(id, ids, pos, pool[..k], [], r)
            && (forall j :: i < j < k ==> !AllHeld(id, ids, pool[..j], []))
            && (k < |pool| ==> k > i && AllHeld(id, ids, pool[..k], []))
    decreases |pool| - i
  {
    hide Search, Looked, Offer, Leads, Matched, AllHeld, Empties;
    if i == |pool| {
      SearchDone(id, m, false, |ids|, s);
    } else {
      var s' := Offer(id, m, false, s, pool[i]);
      SearchStep(id, m, false, |ids|, s, pool, i);
      SameLength(id, ids, pos, pool[..i], [], s);
      OfferLeads(id, m, ids, pos, false, s, pool[i]);
      OfferMatched(id, m, ids, pos, pool[..i], [], false, s, pool[i]);
      assert pool[..i] + [pool[i]] == pool[..i + 1];
      FullIs(id, m, ids, pos, pool[..i + 1], [], s');
      if |ids| - Empties(s'.slots) != |m| {
        SearchFirst(id, m, ids, pos, s', pool, i + 1);
      }
    }
  }

  lemma {:induction false} SearchExtra(id: nat -> nat, m: map<nat, int>, ids: seq<nat>, pos: seq<int>, s: Seen,
                                       first: seq<Tx>,
                                       pool: seq<Tx>, i: nat)
    requires i <= |pool| && Leads(m, ids, pos, s.slots) && Matched(id, ids, pos, first, pool[..i], s)
    ensures var r, k := Search(id, m, true, |ids|, s, pool[i..]), i + Looked(id, m, true, |ids|, s, pool[i..]);
            && k <= |pool| && Leads(m, ids, pos, r.slots) && Matched(id, ids, pos, first, pool[..k], r)
            && (forall j :: i < j < k ==> !AllHeld(id, ids, first, pool[..j]))
            && (k < |pool| ==> k > i && AllHeld(id, ids, first, pool[..k]))
    decreases |pool| - i
  {
    hide Search, Looked, Offer, Leads, Matched, AllHeld, Empties;
    if i == |pool| {
      SearchDone(id, m, true, |ids|, s);
    } else {
      var s' := Offer(id, m, true, s, pool[i]);
      SearchStep(id, m, true, |ids|, s, pool, i);
      SameLength(id, ids, pos, first, pool[..i], s);
      OfferLeads(id, m, ids, pos, true, s, pool[i]);
      OfferMatched(id, m, ids, pos, first, pool[..i], true, s, pool[i]);
      assert pool[..i] + [pool[i]] == pool[..i + 1];
      FullIs(id, m, ids, pos, first, pool[..i + 1], s');
      if |ids| - Empties(s'.slots) != |m| {
        SearchExtra(id, m, ids, pos, s', first, pool, i + 1);
      }
    }
  }

  lemma MatchedHolds(id: nat -> nat, ids: seq<nat>, pos: seq<int>, first: seq<Tx>, extra: seq<Tx>, s: Seen)
    requires Matched(id, ids, pos, first, extra, s)
    ensures HoldsHits(id, ids, pos, first, extra, s.slots)
  {
    hide Held, Hits;
    forall i | 0 <= i < |pos| ensures 0 <= pos[i] < |s.slots| && s.slots[pos[i]] == Held(id, ids[i], first, extra) {
      assert MatchedAt(id, ids, pos, first, extra, s, i);
    }
  }

  lemma SameLength(id: nat -> nat, ids: seq<nat>, pos: seq<int>, first: seq<Tx>, extra: seq<Tx>, s: Seen)
    requires Matched(id, ids, pos, first, extra, s)
    ensures |s.have| == |s.slots|
  {
  }

  lemma NothingMatched(id: nat -> nat, m: map<nat, int>, ids: seq<nat>, pos: seq<int>, slots: Slots)
    requires Leads(m, ids, pos, slots) && forall i :: 0 <= i < |pos| ==> slots[pos[i]].None?
    ensures Matched(id, ids, pos, [], [], Seen(slots, seq(|slots|, i => false)))
  {
    var s := Seen(slots, seq(|slots|, i => false));
    forall i | 0 <= i < |pos| ensures MatchedAt(id, ids, pos, [], [], s, i) {
      HitsNone(id, ids[i]);
    }
  }

  /** Both pools, from slots in which only prefilled transactions stand. */
  lemma SearchBoth(id: nat -> nat, m: map<nat, int>, ids: seq<nat>, pos: seq<int>, slots: Slots, pool: seq<Tx>,
                   extra: seq<Tx>)
    requires Leads(m, ids, pos, slots) && forall i :: 0 <= i < |pos| ==> slots[pos[i]].None?
    ensures var s := Seen(slots, seq(|slots|, i => false));
            var first, n := Search(id, m, false, |ids|, s, pool), Looked(id, m, false, |ids|, s, pool);
            var last, k := Search(id, m, true, |ids|, first, extra), Looked(id, m, true, |ids|, first, extra);
            && StopsFirst(id, ids, pool, n) && Matched(id, ids, pos, pool[..n], [], first)
            && StopsExtra(id, ids, pool[..n], extra, k) && Matched(id, ids, pos, pool[..n], extra[..k], last)
  {
    hide Search, Looked, Leads, Matched, AllHeld;
    var s := Seen(slots, seq(|slots|, i => false));
    NothingMatched(id, m, ids, pos, slots);
    assert pool[..0] == [] && pool[0..] == pool && extra[..0] == [] && extra[0..] == extra;
    SearchFirst(id, m, ids, pos, s, pool, 0);
    var first, n := Search(id, m, false, |ids|, s, pool), Looked(id, m, false, |ids|, s, pool);
    SearchExtra(id, m, ids, pos, first, pool[..n], extra, 0);
  }

  // ------------------------------------------------------------- extra pool

  /** How many slots are empty in the first sequence and filled in the second. */
  function Gained(a: Slots, b: Slots): nat
    requires |a| == |b|
  {
    if a == [] then 0 else
      var n := |a| - 1;
      Gained(a[..n], b[..n]) + (if a[n].None? && b[n].Some? then 1 else 0)
  }

  lemma {:induction false} GainedBalance(a: Slots, b: Slots)
    requires |a| == |b|
    ensures Empties(a) - Empties(b) == Gained(a, b) - Gained(b, a)
  {
    if a != [] {
      GainedBalance(a[..|a| - 1], b[..|b| - 1]);
    }
  }

  /** Some slot that was filled is empty now. */
  ghost predicate Lost(before: Slots, now: Slots)
    requires |before| == |now|
  {
    exists k :: 0 <= k < |now| && before[k].Some? && now[k].None?
  }

  lemma {:induction false} GainedNothing(a: Slots, b: Slots)
    requires |a| == |b|
    ensures Gained(b, a) == 0 <==> !Lost(a, b)
  {
    if a != [] {
      var n := |a| - 1;
      GainedNothing(a[..n], b[..n]);
      if k :| 0 <= k < |a| && a[k].Some? && b[k].None? {
        assert k < n ==> a[..n][k].Some? && b[..n][k].None?;
      }
    }
  }

  /** An extra transaction that has the short id of a slot which a different transaction fills. */
  predicate Conflicts(id: nat -> nat, m: map<nat, int>, slots: Slots, tx: Tx) {
    id(tx.hash) in m && 0 <= m[id(tx.hash)] < |slots| && slots[m[id(tx.hash)]].Some?
    && slots[m[id(tx.hash)]].value.hash != tx.hash
  }

  /** Slots filled before hold the same transaction or nothing, and those with a short id have been seen. */
  ghost predicate Kept(before: Slots, now: Slots, have: seq<bool>, pos: seq<int>) {
    && |before| == |now| == |have|
    && (forall k :: 0 <= k < |now| && before[k].Some? ==> now[k] == before[k] || now[k].None?)
    && (forall k :: 0 <= k < |now| && k in pos && before[k].Some? ==> have[k])
  }

  /** One more slot filled, when it had not been seen. */
  lemma FillsUnseen(before: Slots, now: Slots, have: seq<bool>, pos: seq<int>, k: nat, x: Option<Tx>)
    requires Kept(before, now, have, pos) && k < |now| && k in pos && !have[k] && x.Some?
    ensures Kept(before, now[k := x], have[k := true], pos) && (Lost(before, now[k := x]) <==> Lost(before, now))
  {
    assert before[k].None?;
    if Lost(before, now) {
      var j :| 0 <= j < |now| && before[j].Some? && now[j].None?;
      assert now[k := x][j].None?;
    }
  }

  /** One slot emptied: a slot filled before is lost. */
  lemma EmptiesOne(before: Slots, now: Slots, have: seq<bool>, pos: seq<int>, k: nat)
    requires Kept(before, now, have, pos) && k < |now|
    ensures Kept(before, now[k := None], have, pos)
    ensures Lost(before, now[k := None]) <==> Lost(before, now) || before[k].Some?
  {
    if before[k].Some? {
      assert now[k := None][k].None?;
    } else if Lost(before, now) {
      var j :| 0 <= j < |now| && before[j].Some? && now[j].None?;
      assert now[k := None][j].None?;
    }
  }

  // ----------------------------------------------------------------- filling

  /** The slots with the missing transactions put into the empty ones, in order. */
  function Filled(slots: Slots, missing: seq<Tx>): (vtx: seq<Tx>)
    requires |missing| == Empties(slots)
    ensures |vtx| == |slots|
  {
    if slots == [] then [] else
      var n := |slots| - 1;
      if slots[n].Some? then Filled(slots[..n], missing) + [slots[n].value]
      else Filled(slots[..n], missing[..|missing| - 1]) + [missing[|missing| - 1]]
  }

  /** The transactions of a block that are missing from its slots, in order. */
  function Wanted(slots: Slots, vtx: seq<Tx>): (missing: seq<Tx>)
    requires |slots| == |vtx|
    ensures |missing| == Empties(slots)
  {
    if slots == [] then [] else
      var n := |slots| - 1;
      Wanted(slots[..n], vtx[..n]) + (if slots[n].None? then [vtx[n]] else [])
  }

  /** Slots that are right where they are filled are completed by what is missing. */
  lemma {:induction false} FilledWanted(slots: Slots, vtx: seq<Tx>)
    requires |slots| == |vtx| && forall k :: 0 <= k < |slots| && slots[k].Some? ==> slots[k].value == vtx[k]
    ensures Filled(slots, Wanted(slots, vtx)) == vtx
  {
    if slots != [] {
      var n := |slots| - 1;
      FilledWanted(slots[..n], vtx[..n]);
      var w := Wanted(slots, vtx);
      if slots[n].None? {
        assert w[..|w| - 1] == Wanted(slots[..n], vtx[..n]);
      } else {
        assert w == Wanted(slots[..n], vtx[..n]);
      }
      assert vtx == vtx[..n] + [vtx[n]];
    }
  }

  // ------------------------------------------------------------- whole block

  /** The message a sender builds: the first transaction in full, short ids for the others. */
  function Announced(id: nat -> nat, vtx: seq<Tx>): Compact
    requires vtx != []
  {
    Compact(false, seq<nat>(|vtx| - 1, i requires 0 <= i < |vtx| - 1 => id(vtx[i + 1].hash)),
            [Prefilled(0, Some(vtx[0]))])
  }

  /** Short ids tell the transactions of the block and the pools apart. */
  ghost predicate TellsApart(id: nat -> nat, vtx: seq<Tx>, sources: seq<Tx>) {
    forall a, b :: a in vtx && b in vtx + sources && id(a.hash) == id(b.hash) ==> a == b
  }

  lemma {:induction false} ShortIdsInOrder(c: Compact, pos: seq<int>, i: nat)
    requires Partitioned(c, pos) && |c.prefilledtxn| == 1 && PrefilledAt(c, 0) == 0 && i < |pos|
    ensures pos[i] == i + 1
  {
    AtLeast(c, pos, i);
    AtMost(c, pos, i);
  }

  lemma {:induction false} AtLeast(c: Compact, pos: seq<int>, i: nat)
    requires Partitioned(c, pos) && |c.prefilledtxn| == 1 && PrefilledAt(c, 0) == 0 && i < |pos|
    ensures pos[i] >= i + 1
  {
    if i == 0 {
      assert pos[0] in pos;
    } else {
      AtLeast(c, pos, i - 1);
    }
  }

  lemma {:induction false} AtMost(c: Compact, pos: seq<int>, i: nat)
    requires Partitioned(c, pos) && |c.prefilledtxn| == 1 && i < |pos|
    ensures pos[i] <= i + 1
    decreases |pos| - i
  {
    if i < |pos| - 1 {
      AtMost(c, pos, i + 1);
    }
  }

  /** With telling short ids, every filled slot holds the sender's transaction. */
  lemma SlotsRight(id: nat -> nat, vtx: seq<Tx>, placed: Slots, slots: Slots, pos: seq<int>, sources: seq<Tx>)
    requires vtx != [] && TellsApart(id, vtx, sources)
    requires var c := Announced(id, vtx);
             Placed(c, placed, 1) && Partitioned(c, pos) && Matching(c, id, placed, slots, pos, sources)
    ensures |slots| == |vtx| && forall k :: 0 <= k < |slots| && slots[k].Some? ==> slots[k].value == vtx[k]
  {
    var c := Announced(id, vtx);
    forall k | 0 <= k < |slots| && slots[k].Some? ensures slots[k].value == vtx[k] {
      assert PrefilledAt(c, 0) == 0;
      if k == 0 {
        assert 0 !in pos;
        assert slots[0] == placed[0] == placed[PrefilledAt(c, 0)];
      } else {
        ShortIdsInOrder(c, pos, k - 1);
        assert Matches(c, id, slots, pos, sources, k - 1);
      }
    }
  }
}
