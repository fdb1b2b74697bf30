/**
The part of a block that is filled by priority: which transactions it takes, in which order, and
when it stops, told by the list of transactions alone.
*/
module Priorities {
  import opened Sets
  import opened MinerSpec
  import opened Miner

  /** COIN * 144 / 250 */
  const ALLOW_FREE_THRESHOLD := 57600000.0

  predicate AllowFree(priority: real) {
    priority > ALLOW_FREE_THRESHOLD
  }

  /** Size and signature operations of a block with the given transactions. */
  ghost function SizeOf(pool: Pool, ts: seq<Tx>): int
    requires Elements(ts) <= pool.size.Keys
  {
    COINBASE_SIZE + Total(pool.size, Elements(ts))
  }

  ghost function SigOpsOf(pool: Pool, ts: seq<Tx>): int
    requires Elements(ts) <= pool.sigOps.Keys
  {
    COINBASE_SIGOPS + Total(pool.sigOps, Elements(ts))
  }

  ghost predicate Known(pool: Pool, ts: seq<Tx>) {
    SameKeys(pool) && Elements(ts) <= Txs(pool)
  }

  /** A transaction outside the block all of whose parents are in it. */
  predicate Ready(pool: Pool, ts: seq<Tx>, t: Tx) {
    t in pool.parents && t !in ts && pool.parents[t] <= Elements(ts)
  }

  /** A transaction that fits, by size and by signature operations, and is final. */
  ghost predicate Passes(pool: Pool, cfg: Config, ts: seq<Tx>, t: Tx)
    requires Known(pool, ts) && t in Txs(pool)
  {
    var size := SizeOf(pool, ts) + pool.size[t];
    1 <= size < cfg.maxSize && SigOpsOf(pool, ts) + pool.sigOps[t] < MaxBlockSigOps(size) && cfg.final(t)
  }

  /** A transaction that was ready and did not pass, at some time up to the n-th addition. */
  ghost predicate Rejected(pool: Pool, cfg: Config, ts: seq<Tx>, n: nat, t: Tx)
    requires Known(pool, ts) && n <= |ts|
  {
    exists k :: 0 <= k <= n && RejectedAt(pool, cfg, ts, k, t)
  }

  ghost predicate RejectedAt(pool: Pool, cfg: Config, ts: seq<Tx>, k: nat, t: Tx)
    requires Known(pool, ts) && k <= |ts|
  {
    PrefixKnown(pool, ts, k);
    Ready(pool, ts[..k], t) && !Passes(pool, cfg, ts[..k], t)
  }

  lemma PrefixKnown(pool: Pool, ts: seq<Tx>, k: nat)
    requires Known(pool, ts) && k <= |ts|
    ensures Known(pool, ts[..k])
  {
  }

  /** No transaction that was ready and not rejected has a higher priority than the one added. */
  ghost predicate BestAt(pool: Pool, cfg: Config, ts: seq<Tx>, i: nat)
    requires Known(pool, ts) && i < |ts|
  {
    forall t :: Ready(pool, ts[..i], t) ==> cfg.priority(t) <= cfg.priority(ts[i]) || Rejected(pool, cfg, ts, i, t)
  }

  /** After the i-th addition there was room left in the reserved part, and priority enough. */
  ghost predicate GoesOn(pool: Pool, cfg: Config, ts: seq<Tx>, i: nat)
    requires Known(pool, ts) && i < |ts|
  {
    PrefixKnown(pool, ts, i + 1);
    cfg.priority(ts[i]) > 57600000.0 && SizeOf(pool, ts[..i + 1]) < cfg.maxSize * cfg.priorityPercentage / 100
  }

  ghost predicate AddedAt(pool: Pool, cfg: Config, ts: seq<Tx>, i: nat)
    requires Known(pool, ts) && i < |ts|
  {
    PrefixKnown(pool, ts, i);
    Ready(pool, ts[..i], ts[i]) && Passes(pool, cfg, ts[..i], ts[i]) && BestAt(pool, cfg, ts, i)
  }

  /**
    The list was filled by priority: each transaction was ready, passed, and was the best such; and
    after each but the last the reserved part was not full and the priority high enough.
  */
  ghost predicate ByPriority(pool: Pool, cfg: Config, ts: seq<Tx>)
    requires Known(pool, ts)
  {
    && (forall i :: 0 <= i < |ts| ==> AddedAt(pool, cfg, ts, i))
    && (forall i :: 0 <= i < |ts| - 1 ==> GoesOn(pool, cfg, ts, i))
  }

  /** Every transaction that is ready was rejected: nothing is left to add. */
  ghost predicate Exhausted(pool: Pool, cfg: Config, ts: seq<Tx>)
    requires Known(pool, ts)
  {
    forall t :: Ready(pool, ts, t) ==> Rejected(pool, cfg, ts, |ts|, t)
  }

  /** A transaction too large for the block, which has less than 1000 bytes left. */
  ghost predicate Narrow(pool: Pool, cfg: Config, ts: seq<Tx>, t: Tx)
    requires Known(pool, ts) && t in Txs(pool)
  {
    var size := SizeOf(pool, ts);
    size > cfg.maxSize - 1000 && size + pool.size[t] >= cfg.maxSize
  }

  /** The transactions that were ready and failed so close to the end. */
  ghost predicate Late(pool: Pool, cfg: Config, ts: seq<Tx>, t: Tx)
    requires Known(pool, ts)
  {
    exists k :: 0 <= k <= |ts| && LateAt(pool, cfg, ts, k, t)
  }

  ghost predicate LateAt(pool: Pool, cfg: Config, ts: seq<Tx>, k: nat, t: Tx)
    requires Known(pool, ts) && k <= |ts|
  {
    PrefixKnown(pool, ts, k);
    Ready(pool, ts[..k], t) && Narrow(pool, cfg, ts[..k], t)
  }

  ghost predicate AllLate(pool: Pool, cfg: Config, ts: seq<Tx>, late: set<Tx>)
    requires Known(pool, ts)
  {
    forall t :: t in late ==> Late(pool, cfg, ts, t)
  }

  /**
    A transaction whose failure finishes the block: it is too large, with less than 100 bytes left or
    after more than 50 such failures; or it has too many signature operations, with room for fewer than two.
  */
  ghost predicate Finishes(pool: Pool, cfg: Config, ts: seq<Tx>, few: int, t: Tx)
    requires Known(pool, ts) && t in Txs(pool)
  {
    var size, sigOps := SizeOf(pool, ts), SigOpsOf(pool, ts);
    var next := size + pool.size[t];
    if next >= cfg.maxSize then
      size > cfg.maxSize - 100 || few > 50
    else
      next >= 1 && sigOps + pool.sigOps[t] >= MaxBlockSigOps(next) && sigOps > MaxBlockSigOps(next) - 2
  }

  ghost predicate Finished(pool: Pool, cfg: Config, ts: seq<Tx>, few: int)
    requires Known(pool, ts)
  {
    exists t :: Ready(pool, ts, t) && Finishes(pool, cfg, ts, few, t)
  }

  /** Why the list ends where it does. */
  ghost predicate Stopped(pool: Pool, cfg: Config, ts: seq<Tx>, late: set<Tx>)
    requires Known(pool, ts)
  {
    if cfg.priorityPercentage == 0 then
      ts == []
    else
      || (ts != [] && !GoesOn(pool, cfg, ts, |ts| - 1))
      || Exhausted(pool, cfg, ts)
      || (AllLate(pool, cfg, ts, late) && Finished(pool, cfg, ts, |late|))
  }

  // --------------------------------------------------------------- the loop

  /** While the loop runs, all additions so far went on. */
  ghost predicate SoFar(pool: Pool, cfg: Config, ts: seq<Tx>)
    requires Known(pool, ts)
  {
    forall i :: 0 <= i < |ts| ==> AddedAt(pool, cfg, ts, i) && GoesOn(pool, cfg, ts, i)
  }

  /** A transaction outside the block is in the queue, waits for a parent, or was rejected. */
  ghost predicate Placed(pool: Pool, cfg: Config, ts: seq<Tx>, queue: multiset<Tx>, wait: set<Tx>, t: Tx)
    requires Known(pool, ts)
  {
    t in Txs(pool) && t !in ts && t !in queue ==>
      (t in wait && !Ready(pool, ts, t)) || Rejected(pool, cfg, ts, |ts|, t)
  }

  ghost predicate AllPlaced(pool: Pool, cfg: Config, ts: seq<Tx>, queue: multiset<Tx>, wait: set<Tx>)
    requires Known(pool, ts)
  {
    forall t :: Placed(pool, cfg, ts, queue, wait, t)
  }

  lemma RejectedLater(pool: Pool, cfg: Config, ts: seq<Tx>, more: seq<Tx>, n: nat, m: nat, t: Tx)
    requires Known(pool, ts) && Known(pool, ts + more) && n <= |ts| && n <= m <= |ts + more|
             && Rejected(pool, cfg, ts, n, t)
    ensures Rejected(pool, cfg, ts + more, m, t)
  {
    hide Passes, Ready;
    var k :| 0 <= k <= n && RejectedAt(pool, cfg, ts, k, t);
    assert (ts + more)[..k] == ts[..k];
    assert RejectedAt(pool, cfg, ts + more, k, t);
  }

  lemma Starting(pool: Pool, cfg: Config)
    requires SameKeys(pool)
    ensures SoFar(pool, cfg, []) && AllPlaced(pool, cfg, [], multiset(Txs(pool)), {})
  {
  }

  /** A transaction that depends on another waits. */
  lemma Waits(pool: Pool, cfg: Config, ts: seq<Tx>, queue: multiset<Tx>, wait: set<Tx>, t: Tx)
    requires Known(pool, ts) && AllPlaced(pool, cfg, ts, queue, wait) && t in Txs(pool)
             && !(pool.parents[t] <= Elements(ts))
    ensures AllPlaced(pool, cfg, ts, queue - multiset{t}, wait + {t})
  {
    forall u ensures Placed(pool, cfg, ts, queue - multiset{t}, wait + {t}, u) {
      assert Placed(pool, cfg, ts, queue, wait, u);
    }
  }

  lemma NotPassed(pool: Pool, cfg: Config, ts: seq<Tx>, queue: multiset<Tx>, wait: set<Tx>, t: Tx)
    requires Known(pool, ts) && AllPlaced(pool, cfg, ts, queue, wait)
    requires t in Txs(pool) && Ready(pool, ts, t) && !Passes(pool, cfg, ts, t)
    ensures AllPlaced(pool, cfg, ts, queue - multiset{t}, wait)
  {
    hide Passes;
    assert ts[..|ts|] == ts;
    assert RejectedAt(pool, cfg, ts, |ts|, t);
    forall u ensures Placed(pool, cfg, ts, queue - multiset{t}, wait, u) {
      assert Placed(pool, cfg, ts, queue, wait, u);
    }
  }

  lemma {:induction false} AddedStays(pool: Pool, cfg: Config, ts: seq<Tx>, t: Tx, i: nat)
    requires Known(pool, ts) && Known(pool, ts + [t]) && i < |ts| && AddedAt(pool, cfg, ts, i)
    ensures AddedAt(pool, cfg, ts + [t], i) && (GoesOn(pool, cfg, ts, i) ==> GoesOn(pool, cfg, ts + [t], i))
  {
    hide Passes, Rejected;
    var all := ts + [t];
    assert all[..i] == ts[..i] && all[..i + 1] == ts[..i + 1] && all[i] == ts[i];
    forall u | Ready(pool, all[..i], u) && Rejected(pool, cfg, ts, i, u) ensures Rejected(pool, cfg, all, i, u) {
      RejectedLater(pool, cfg, ts, [t], i, i, u);
    }
  }

  /** A transaction is added that has the highest priority in the queue. */
  lemma Adds(pool: Pool, cfg: Config, ts: seq<Tx>, queue: multiset<Tx>, wait: set<Tx>, t: Tx)
    requires Known(pool, ts) && SoFar(pool, cfg, ts) && AllPlaced(pool, cfg, ts, queue, wait)
    requires t in queue && forall u :: u in queue ==> cfg.priority(u) <= cfg.priority(t)
    requires t in Txs(pool) && Ready(pool, ts, t) && Passes(pool, cfg, ts, t)
    ensures Known(pool, ts + [t]) && ByPriority(pool, cfg, ts + [t])
    ensures GoesOn(pool, cfg, ts + [t], |ts|) ==> SoFar(pool, cfg, ts + [t])
  {
    hide Passes, Rejected, GoesOn;
    var all := ts + [t];
    assert all[..|ts|] == ts;
    forall u | Ready(pool, ts, u)
      ensures cfg.priority(u) <= cfg.priority(t) || Rejected(pool, cfg, all, |ts|, u)
    {
      assert Placed(pool, cfg, ts, queue, wait, u);
      if Rejected(pool, cfg, ts, |ts|, u) {
        RejectedLater(pool, cfg, ts, [t], |ts|, |ts|, u);
      }
    }
    assert AddedAt(pool, cfg, all, |ts|);
    forall i | 0 <= i < |ts| ensures AddedAt(pool, cfg, all, i) && GoesOn(pool, cfg, all, i) {
      AddedStays(pool, cfg, ts, t, i);
    }
  }

  /** The children that wait for a transaction return to the queue. */
  ghost predicate Requeued(pool: Pool, t: Tx, queue: multiset<Tx>, wait: set<Tx>, queue': multiset<Tx>,
                           wait': set<Tx>) {
    && (forall u :: u in queue' <==>
          (u in queue && u != t) || (u in wait && u in pool.parents && t in pool.parents[u]))
    && (forall u :: u in wait' <==> u in wait && !(u in pool.parents && t in pool.parents[u]))
  }

  lemma RequeuedFrom(pool: Pool, t: Tx, queue: multiset<Tx>, wait: set<Tx>, queue': multiset<Tx>, wait': set<Tx>)
    requires Requeued(pool, t, queue - multiset{t}, wait, queue', wait')
    ensures Requeued(pool, t, queue, wait, queue', wait')
  {
  }

  lemma Returns(pool: Pool, cfg: Config, ts: seq<Tx>, queue: multiset<Tx>, wait: set<Tx>, t: Tx,
                queue': multiset<Tx>, wait': set<Tx>)
    requires Known(pool, ts) && Known(pool, ts + [t]) && AllPlaced(pool, cfg, ts, queue, wait) && t in Txs(pool)
    requires Requeued(pool, t, queue, wait, queue', wait')
    ensures AllPlaced(pool, cfg, ts + [t], queue', wait')
  {
    hide Rejected;
    var all := ts + [t];
    forall u ensures Placed(pool, cfg, all, queue', wait', u) {
      assert Placed(pool, cfg, ts, queue, wait, u);
      if Rejected(pool, cfg, ts, |ts|, u) {
        RejectedLater(pool, cfg, ts, [t], |ts|, |all|, u);
      }
    }
  }

  /** Transactions that left the queue for good. */
  ghost predicate Gone(late: set<Tx>, queue: multiset<Tx>, wait: set<Tx>) {
    forall t :: t in late ==> t !in queue && t !in wait
  }

  lemma GoneStays(late: set<Tx>, queue: multiset<Tx>, wait: set<Tx>, queue': multiset<Tx>, wait': set<Tx>)
    requires Gone(late, queue, wait) && forall t :: t in queue' || t in wait' ==> t in queue || t in wait
    ensures Gone(late, queue', wait')
  {
  }

  lemma FinishedBy(pool: Pool, cfg: Config, ts: seq<Tx>, few: int, t: Tx)
    requires Known(pool, ts) && Ready(pool, ts, t) && Finishes(pool, cfg, ts, few, t)
    ensures Finished(pool, cfg, ts, few)
  {
  }

  lemma LateStays(pool: Pool, cfg: Config, ts: seq<Tx>, t: Tx, late: set<Tx>)
    requires Known(pool, ts) && Known(pool, ts + [t]) && AllLate(pool, cfg, ts, late)
    ensures AllLate(pool, cfg, ts + [t], late)
  {
    hide Narrow, Ready;
    forall u | u in late ensures Late(pool, cfg, ts + [t], u) {
      assert Late(pool, cfg, ts, u);
      var k :| 0 <= k <= |ts| && LateAt(pool, cfg, ts, k, u);
      assert (ts + [t])[..k] == ts[..k];
      assert LateAt(pool, cfg, ts + [t], k, u);
    }
  }

  lemma LateNow(pool: Pool, cfg: Config, ts: seq<Tx>, t: Tx, late: set<Tx>, queue: multiset<Tx>, wait: set<Tx>)
    requires Known(pool, ts) && AllLate(pool, cfg, ts, late) && Ready(pool, ts, t) && Narrow(pool, cfg, ts, t)
    requires Gone(late, queue, wait) && t !in queue && t !in wait
    ensures AllLate(pool, cfg, ts, late + {t}) && Gone(late + {t}, queue, wait)
  {
    hide Narrow, Ready;
    assert ts[..|ts|] == ts;
    assert LateAt(pool, cfg, ts, |ts|, t);
    assert Late(pool, cfg, ts, t);
  }

  /** With an empty queue nothing is left. */
  lemma Drained(pool: Pool, cfg: Config, ts: seq<Tx>, wait: set<Tx>)
    requires Known(pool, ts) && AllPlaced(pool, cfg, ts, multiset{}, wait)
    ensures Exhausted(pool, cfg, ts)
  {
    hide Rejected;
    forall t | Ready(pool, ts, t) ensures Rejected(pool, cfg, ts, |ts|, t) {
      assert Placed(pool, cfg, ts, multiset{}, wait, t);
    }
  }

  lemma FilledSoFar(pool: Pool, cfg: Config, ts: seq<Tx>)
    requires Known(pool, ts) && SoFar(pool, cfg, ts)
    ensures ByPriority(pool, cfg, ts)
  {
    hide AddedAt, GoesOn;
  }

  /** What the loop keeps of its list, its queue and the transactions that failed late. */
  ghost predicate Filling(pool: Pool, cfg: Config, ts: seq<Tx>, queue: multiset<Tx>, wait: set<Tx>, late: set<Tx>) {
    && Known(pool, ts) && SoFar(pool, cfg, ts) && AllPlaced(pool, cfg, ts, queue, wait)
    && AllLate(pool, cfg, ts, late) && Gone(late, queue, wait)
  }

  lemma FillingStarts(pool: Pool, cfg: Config)
    requires SameKeys(pool)
    ensures Filling(pool, cfg, [], multiset(Txs(pool)), {}, {})
  {
    Starting(pool, cfg);
  }

  lemma FillingWaits(pool: Pool, cfg: Config, ts: seq<Tx>, queue: multiset<Tx>, wait: set<Tx>, late: set<Tx>, t: Tx)
    requires Filling(pool, cfg, ts, queue, wait, late) && t in queue && t in Txs(pool)
             && !(pool.parents[t] <= Elements(ts))
    ensures Filling(pool, cfg, ts, queue - multiset{t}, wait + {t}, late)
  {
    hide SoFar, AllPlaced, AllLate, Known;
    Waits(pool, cfg, ts, queue, wait, t);
  }

  lemma FillingFails(pool: Pool, cfg: Config, ts: seq<Tx>, queue: multiset<Tx>, wait: set<Tx>, late: set<Tx>, t: Tx)
    requires Filling(pool, cfg, ts, queue, wait, late) && t in queue && queue[t] == 1 && t !in wait
    requires t in Txs(pool) && Ready(pool, ts, t) && !Passes(pool, cfg, ts, t)
    ensures Filling(pool, cfg, ts, queue - multiset{t}, wait, late) && t !in late
    ensures Narrow(pool, cfg, ts, t) ==> Filling(pool, cfg, ts, queue - multiset{t}, wait, late + {t})
  {
    hide SoFar, AllPlaced, AllLate, Known, Passes, Narrow, Ready;
    NotPassed(pool, cfg, ts, queue, wait, t);
    if Narrow(pool, cfg, ts, t) {
      LateNow(pool, cfg, ts, t, late, queue - multiset{t}, wait);
    }
  }

  lemma FillingAdds(pool: Pool, cfg: Config, ts: seq<Tx>, queue: multiset<Tx>, wait: set<Tx>, late: set<Tx>, t: Tx)
    requires Filling(pool, cfg, ts, queue, wait, late)
    requires t in queue && forall u :: u in queue ==> cfg.priority(u) <= cfg.priority(t)
    requires t in Txs(pool) && Ready(pool, ts, t) && Passes(pool, cfg, ts, t)
    ensures Known(pool, ts + [t]) && ByPriority(pool, cfg, ts + [t]) && AllLate(pool, cfg, ts + [t], late)
  {
    hide SoFar, AllPlaced, AllLate, Known, Passes, Ready, ByPriority;
    Adds(pool, cfg, ts, queue, wait, t);
    LateStays(pool, cfg, ts, t, late);
  }

  lemma FillingReturns(pool: Pool, cfg: Config, ts: seq<Tx>, queue: multiset<Tx>, wait: set<Tx>, late: set<Tx>, t: Tx,
                       queue': multiset<Tx>, wait': set<Tx>)
    requires Filling(pool, cfg, ts, queue, wait, late)
    requires t in queue && forall u :: u in queue ==> cfg.priority(u) <= cfg.priority(t)
    requires t in Txs(pool) && Ready(pool, ts, t) && Passes(pool, cfg, ts, t)
    requires Known(pool, ts + [t]) && GoesOn(pool, cfg, ts + [t], |ts|)
    requires Requeued(pool, t, queue, wait, queue', wait')
    ensures Filling(pool, cfg, ts + [t], queue', wait', late)
  {
    hide SoFar, AllPlaced, AllLate, Known, Passes, Ready, GoesOn, Gone;
    Adds(pool, cfg, ts, queue, wait, t);
    LateStays(pool, cfg, ts, t, late);
    Returns(pool, cfg, ts, queue, wait, t, queue', wait');
    GoneStays(late, queue, wait, queue', wait');
  }

  lemma FillingEnds(pool: Pool, cfg: Config, ts: seq<Tx>, queue: multiset<Tx>, wait: set<Tx>, late: set<Tx>)
    requires Filling(pool, cfg, ts, queue, wait, late)
    ensures ByPriority(pool, cfg, ts) && AllLate(pool, cfg, ts, late)
    ensures queue == multiset{} ==> Exhausted(pool, cfg, ts)
  {
    hide SoFar, AllPlaced, AllLate, Known, ByPriority, Exhausted;
    FilledSoFar(pool, cfg, ts);
    if queue == multiset{} {
      Drained(pool, cfg, ts, wait);
    }
  }

  lemma {:induction false} HighestExists(cfg: Config, queue: multiset<Tx>)
    requires queue != multiset{}
    ensures exists t :: t in queue && forall u :: u in queue ==> cfg.priority(u) <= cfg.priority(t)
    decreases |queue|
  {
    var x :| x in queue;
    var rest := queue - multiset{x};
    if rest == multiset{} {
      forall u | u in queue ensures cfg.priority(u) <= cfg.priority(x) {
        assert u != x ==> u in rest;
      }
    } else {
      HighestExists(cfg, rest);
      var t :| t in rest && forall u :: u in rest ==> cfg.priority(u) <= cfg.priority(t);
      assert forall u :: u in queue ==> u == x || u in rest;
      var best := if cfg.priority(x) > cfg.priority(t) then x else t;
      assert best in queue && forall u :: u in queue ==> cfg.priority(u) <= cfg.priority(best);
    }
  }
}
