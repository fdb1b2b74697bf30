/**
Package selection as a state machine. The candidate order, the scores, finality and the minimum
fee are parameters; what remains open is the order among equal scores and among the ancestors of
one package.
*/
module PackageRun {
  import opened Sets
  import opened MinerSpec
  import opened Miner

  datatype State = State(inBlock: set<Tx>, mods: map<Tx, Entry>, failed: set<Tx>, mi: nat, failures: nat)

  /** A candidate: from the cached order, or from the modified entries. */
  datatype Pick = Pick(tx: Tx, entry: Entry, modified: bool)

  ghost function BlockSize(pool: Pool, inBlock: set<Tx>): int
    requires inBlock <= pool.size.Keys
  {
    COINBASE_SIZE + Total(pool.size, inBlock)
  }

  ghost function BlockSigOps(pool: Pool, inBlock: set<Tx>): int
    requires inBlock <= pool.sigOps.Keys
  {
    COINBASE_SIGOPS + Total(pool.sigOps, inBlock)
  }

  ghost predicate InPool(pool: Pool, order: seq<Tx>, s: State) {
    && Sound(pool) && Elements(order) <= Txs(pool) && s.inBlock <= Txs(pool) && s.mods.Keys <= Txs(pool)
  }

  /** Whether a cached entry is passed over: selected, stale or known to fail. */
  predicate Skips(s: State, t: Tx) {
    t in s.mods || t in s.inBlock || t in s.failed
  }

  predicate Best(cfg: Config, mods: map<Tx, Entry>, t: Tx) {
    t in mods && forall m :: m in mods ==> cfg.score(mods[m]) <= cfg.score(mods[t])
  }

  /** The next cached entry or the best modified one, whichever scores higher. */
  ghost predicate Picks(pool: Pool, cfg: Config, order: seq<Tx>, s: State, pick: Pick)
    requires InPool(pool, order, s)
  {
    if pick.modified then
      && Best(cfg, s.mods, pick.tx) && pick.entry == s.mods[pick.tx] && s.mi <= |order|
      && (s.mi < |order| ==>
            order[s.mi] in pool.cached && cfg.score(pool.cached[order[s.mi]]) <= cfg.score(pick.entry))
    else
      && s.mi < |order| && pick.tx == order[s.mi] && pick.tx in pool.cached && pick.entry == pool.cached[pick.tx]
      && (forall m :: m in s.mods ==> cfg.score(s.mods[m]) <= cfg.score(pick.entry))
  }

  predicate RoomFor(cfg: Config, size: int, sigOps: int, e: Entry) {
    && 1 <= size + e.size < cfg.maxSize
    && sigOps + e.sigOps < MaxBlockSigOps(size + e.size)
  }

  /** The test of the recorded sums against the block. */
  ghost predicate Fits(pool: Pool, cfg: Config, s: State, e: Entry)
    requires s.inBlock <= pool.size.Keys && s.inBlock <= pool.sigOps.Keys
  {
    RoomFor(cfg, BlockSize(pool, s.inBlock), BlockSigOps(pool, s.inBlock), e)
  }

  /** The test of the transactions of a package. */
  ghost predicate Admissible(pool: Pool, cfg: Config, inBlock: set<Tx>, package: set<Tx>)
    requires inBlock <= pool.size.Keys && package <= pool.size.Keys
  {
    && (forall t :: t in package ==> cfg.final(t))
    && BlockSize(pool, inBlock) + Total(pool.size, package) < cfg.maxSize
  }

  /** The package enters the block and is subtracted from its descendants' entries. */
  ghost predicate Selects(pool: Pool, s: State, pick: Pick, s': State)
    requires pick.tx in pool.ancestors
  {
    var package := Unselected(pool, s.inBlock, pick.tx);
    && s'.inBlock == s.inBlock + package && s'.failed == s.failed && s'.failures == 0
    && s'.mi == (if pick.modified then s.mi else s.mi + 1)
    && forall d :: Reduced(pool, s.mods - package, s'.mods, d, Due(pool, package, package, d))
  }

  /** The candidate is dropped; a modified entry is erased and remembered as failed. */
  predicate Drops(s: State, pick: Pick, fits: bool, s': State) {
    s' == State(s.inBlock,
                if pick.modified then s.mods - {pick.tx} else s.mods,
                if pick.modified then s.failed + {pick.tx} else s.failed,
                if pick.modified then s.mi else s.mi + 1,
                if fits then s.failures else s.failures + 1)
  }

  lemma PackageKnown(pool: Pool, inBlock: set<Tx>, d: Tx)
    requires Sound(pool) && d in Txs(pool)
    ensures SameKeys(pool) && Unselected(pool, inBlock, d) <= Txs(pool)
  {
    Facts(pool, d);
  }

  ghost predicate Evaluates(pool: Pool, cfg: Config, s: State, pick: Pick, s': State)
    requires Sound(pool) && s.inBlock <= Txs(pool) && pick.tx in Txs(pool)
  {
    PackageKnown(pool, s.inBlock, pick.tx);
    var fits := Fits(pool, cfg, s, pick.entry);
    if fits && Admissible(pool, cfg, s.inBlock, Unselected(pool, s.inBlock, pick.tx)) then Selects(pool, s, pick, s')
    else Drops(s, pick, fits, s')
  }

  /** Whether the loop goes on: candidates are left, and it has not given up close to a full block. */
  ghost predicate Going(pool: Pool, cfg: Config, order: seq<Tx>, s: State)
    requires InPool(pool, order, s)
  {
    && (s.mi < |order| || s.mods != map[])
    && !(s.failures > MAX_CONSECUTIVE_FAILURES && BlockSize(pool, s.inBlock) > cfg.maxSize - 1000)
  }

  /** A candidate that is picked and pays enough. */
  ghost predicate Pays(pool: Pool, cfg: Config, order: seq<Tx>, s: State, pick: Pick)
    requires InPool(pool, order, s)
  {
    Picks(pool, cfg, order, s, pick) && pick.entry.fees >= cfg.minFee(pick.entry.size)
  }

  ghost predicate Step(pool: Pool, cfg: Config, order: seq<Tx>, s: State, s': State) {
    && InPool(pool, order, s) && InPool(pool, order, s') && Going(pool, cfg, order, s)
    && if s.mi < |order| && Skips(s, order[s.mi]) then s' == s.(mi := s.mi + 1)
       else exists pick :: Pays(pool, cfg, order, s, pick) && pick.tx in Txs(pool) && Evaluates(pool, cfg, s, pick, s')
  }

  lemma StepTaken(pool: Pool, cfg: Config, order: seq<Tx>, s: State, pick: Pick, s': State)
    requires InPool(pool, order, s) && InPool(pool, order, s') && Going(pool, cfg, order, s)
    requires !(s.mi < |order| && Skips(s, order[s.mi]))
    requires Pays(pool, cfg, order, s, pick) && pick.tx in Txs(pool) && Evaluates(pool, cfg, s, pick, s')
    ensures Step(pool, cfg, order, s, s')
  {
  }

  lemma StepSkips(pool: Pool, cfg: Config, order: seq<Tx>, s: State)
    requires InPool(pool, order, s) && Going(pool, cfg, order, s) && s.mi < |order| && Skips(s, order[s.mi])
    ensures Step(pool, cfg, order, s, s.(mi := s.mi + 1)) && InPool(pool, order, s.(mi := s.mi + 1))
  {
  }

  /** The outcome of the two tests decides what happens to the candidate. */
  lemma Evaluated(pool: Pool, cfg: Config, s: State, pick: Pick, s': State, fits: bool, selected: bool)
    requires Sound(pool) && s.inBlock <= Txs(pool) && pick.tx in Txs(pool) && SameKeys(pool)
    requires Unselected(pool, s.inBlock, pick.tx) <= Txs(pool)
    requires fits <==> Fits(pool, cfg, s, pick.entry)
    requires selected <==> fits && Admissible(pool, cfg, s.inBlock, Unselected(pool, s.inBlock, pick.tx))
    requires if selected then Selects(pool, s, pick, s') else Drops(s, pick, fits, s')
    ensures Evaluates(pool, cfg, s, pick, s')
  {
    hide Sound, Fits, Admissible, Selects, Drops;
  }

  /** Nothing is left, the block is nearly full, or the best candidate pays too little. */
  ghost predicate Ended(pool: Pool, cfg: Config, order: seq<Tx>, s: State)
    requires InPool(pool, order, s)
  {
    Going(pool, cfg, order, s) ==>
      && !(s.mi < |order| && Skips(s, order[s.mi]))
      && exists pick :: Picks(pool, cfg, order, s, pick) && !Pays(pool, cfg, order, s, pick)
  }

  ghost predicate Run(pool: Pool, cfg: Config, order: seq<Tx>, run: seq<State>) {
    run != [] && forall i :: 0 <= i < |run| - 1 ==> Step(pool, cfg, order, run[i], run[i + 1])
  }

  lemma RunStarts(pool: Pool, cfg: Config, order: seq<Tx>, s: State)
    ensures Run(pool, cfg, order, [s])
  {
  }

  lemma RunGrows(pool: Pool, cfg: Config, order: seq<Tx>, run: seq<State>, s: State)
    requires Run(pool, cfg, order, run) && Step(pool, cfg, order, run[|run| - 1], s)
    ensures Run(pool, cfg, order, run + [s])
  {
    hide Step;
    var all := run + [s];
    forall i | 0 <= i < |all| - 1 ensures Step(pool, cfg, order, all[i], all[i + 1]) {
      if i < |run| - 1 {
        assert all[i] == run[i] && all[i + 1] == run[i + 1];
      }
    }
  }

  lemma {:induction false} BestExists(cfg: Config, mods: map<Tx, Entry>)
    requires mods != map[]
    ensures exists t :: Best(cfg, mods, t)
    decreases mods.Keys
  {
    var x :| x in mods;
    var rest := mods - {x};
    if rest == map[] {
      forall m | m in mods ensures m == x {
        assert m != x ==> m in rest;
      }
      assert Best(cfg, mods, x);
    } else {
      BestExists(cfg, rest);
      var t :| Best(cfg, rest, t);
      var best := if cfg.score(mods[x]) > cfg.score(mods[t]) then x else t;
      assert forall m :: m in mods ==> m == x || m in rest;
      assert Best(cfg, mods, best);
    }
  }

  // --------------------------------------------------------- lasting failures

  /** Packages that can never be selected: too large, or with a transaction that is not final. */
  ghost predicate Doomed(pool: Pool, cfg: Config, inBlock: set<Tx>, d: Tx)
    requires Sound(pool) && inBlock <= Txs(pool) && d in Txs(pool)
  {
    PackageKnown(pool, inBlock, d);
    !Admissible(pool, cfg, inBlock, Unselected(pool, inBlock, d))
  }

  /**
    Block and unselected package together only grow, and what is not final stays unselected: a
    package that fails for its size or for finality fails for ever, whatever is selected in between.
  */
  lemma DoomedStays(pool: Pool, cfg: Config, inBlock: set<Tx>, added: set<Tx>, d: Tx)
    requires Sound(pool) && inBlock + added <= Txs(pool) && d in Txs(pool) && inBlock !! added
    requires forall t :: t in added ==> cfg.final(t)
    requires Doomed(pool, cfg, inBlock, d)
    ensures Doomed(pool, cfg, inBlock + added, d)
  {
    hide Sound, Total;
    PackageKnown(pool, inBlock, d);
    PackageKnown(pool, inBlock + added, d);
    var before, after := Unselected(pool, inBlock, d), Unselected(pool, inBlock + added, d);
    assert after == before - added;
    if t :| t in before && !cfg.final(t) {
      assert t in after;
    } else {
      TogetherGrow(pool, inBlock, added, before);
    }
  }

  lemma TogetherGrow(pool: Pool, inBlock: set<Tx>, added: set<Tx>, before: set<Tx>)
    requires Sound(pool) && inBlock + added + before <= Txs(pool) && inBlock !! added && inBlock !! before
    ensures SameKeys(pool)
    ensures BlockSize(pool, inBlock) + Total(pool.size, before)
             <= BlockSize(pool, inBlock + added) + Total(pool.size, before - added)
  {
    hide Sound, Total;
    Natural(pool, inBlock + added + before);
    TotalUnion(pool.size, inBlock, added);
    TotalMinus(pool.size, before, before * added);
    TotalMinus(pool.size, added, before * added);
    TotalNatural(pool.size, added - before * added);
    assert before - before * added == before - added;
  }

  /** A package whose ancestor's package is doomed is doomed too. */
  lemma DoomedDescendant(pool: Pool, cfg: Config, inBlock: set<Tx>, d: Tx, x: Tx)
    requires Sound(pool) && inBlock <= Txs(pool) && d in Txs(pool) && x in Txs(pool)
             && (d == x || d in pool.ancestors[x])
    requires Doomed(pool, cfg, inBlock, d)
    ensures Doomed(pool, cfg, inBlock, x)
  {
    hide Sound, Total;
    PackageKnown(pool, inBlock, d);
    PackageKnown(pool, inBlock, x);
    if d != x {
      Transitive(pool, x, d);
    }
    var inner, outer := Unselected(pool, inBlock, d), Unselected(pool, inBlock, x);
    assert inner <= outer;
    Natural(pool, outer);
    TotalMinus(pool.size, outer, inner);
    TotalNatural(pool.size, outer - inner);
  }

  /** One step keeps a doomed package doomed and out of the block. */
  lemma DoomedStep(pool: Pool, cfg: Config, order: seq<Tx>, s: State, s': State, d: Tx)
    requires Step(pool, cfg, order, s, s') && d in Txs(pool) && d !in s.inBlock && Doomed(pool, cfg, s.inBlock, d)
    ensures d !in s'.inBlock && Doomed(pool, cfg, s'.inBlock, d)
  {
    hide Sound, Total, Doomed, Reduced, Pays, Going, Fits;
    if !(s.mi < |order| && Skips(s, order[s.mi])) {
      var pick :| Pays(pool, cfg, order, s, pick) && pick.tx in Txs(pool) && Evaluates(pool, cfg, s, pick, s');
      if s'.inBlock != s.inBlock {
        PackageKnown(pool, s.inBlock, pick.tx);
        AdmittedNotDoomed(pool, cfg, s, pick, s');
        var package := Unselected(pool, s.inBlock, pick.tx);
        if d in package {
          DoomedDescendant(pool, cfg, s.inBlock, d, pick.tx);
        }
        DoomedStays(pool, cfg, s.inBlock, package, d);
      }
    }
  }

  lemma AdmittedNotDoomed(pool: Pool, cfg: Config, s: State, pick: Pick, s': State)
    requires Sound(pool) && s.inBlock <= Txs(pool) && pick.tx in Txs(pool)
    requires Evaluates(pool, cfg, s, pick, s') && s'.inBlock != s.inBlock
    ensures !Doomed(pool, cfg, s.inBlock, pick.tx) && s'.inBlock == s.inBlock + Unselected(pool, s.inBlock, pick.tx)
    ensures forall t :: t in Unselected(pool, s.inBlock, pick.tx) ==> cfg.final(t)
  {
    hide Sound, Total, Fits, Reduced;
  }

  /** In every run, a package that is too large or not final never enters the block. */
  lemma {:induction false} DoomedForever(pool: Pool, cfg: Config, order: seq<Tx>, run: seq<State>, i: nat, j: nat,
                                         d: Tx)
    requires Run(pool, cfg, order, run) && i <= j < |run| && InPool(pool, order, run[i])
    requires d in Txs(pool) && d !in run[i].inBlock && Doomed(pool, cfg, run[i].inBlock, d)
    ensures InPool(pool, order, run[j]) && d !in run[j].inBlock && Doomed(pool, cfg, run[j].inBlock, d)
    decreases j
  {
    hide Doomed, Sound;
    if i < j {
      DoomedForever(pool, cfg, order, run, i, j - 1, d);
      assert Step(pool, cfg, order, run[j - 1], run[j - 1 + 1]);
      StepInPool(pool, cfg, order, run[j - 1], run[j]);
      DoomedStep(pool, cfg, order, run[j - 1], run[j], d);
    }
  }

  lemma StepInPool(pool: Pool, cfg: Config, order: seq<Tx>, s: State, s': State)
    requires Step(pool, cfg, order, s, s')
    ensures InPool(pool, order, s) && InPool(pool, order, s')
  {
  }

  /**
    A modified entry that fails exactly, and is not doomed, fails for its signature operations. So
    these are the only failures that can come back.
  */
  lemma ReturningFailure(pool: Pool, cfg: Config, s: State, pick: Pick, s': State)
    requires Sound(pool) && s.inBlock <= Txs(pool) && pick.tx in Txs(pool) && cfg.maxSize >= 1000
    requires Covers(pool, s.inBlock, pick.tx, pick.entry, true) && Evaluates(pool, cfg, s, pick, s')
             && s'.inBlock == s.inBlock
    requires pick.tx !in s.inBlock && !Doomed(pool, cfg, s.inBlock, pick.tx)
    ensures SameKeys(pool)
    ensures var size := BlockSize(pool, s.inBlock) + pick.entry.size;
            1 <= size < cfg.maxSize && BlockSigOps(pool, s.inBlock) + pick.entry.sigOps >= MaxBlockSigOps(size)
  {
    hide Sound, Total, Covers, Selects, MaxBlockSigOps;
    PackageKnown(pool, s.inBlock, pick.tx);
    SelectsGrows(pool, s, pick, s');
    SizeKnown(pool, s.inBlock, pick);
  }

  lemma SelectsGrows(pool: Pool, s: State, pick: Pick, s': State)
    requires pick.tx in pool.ancestors && pick.tx !in s.inBlock
    ensures Selects(pool, s, pick, s') ==> s'.inBlock != s.inBlock
  {
    assert pick.tx in Unselected(pool, s.inBlock, pick.tx);
  }

  lemma SizeKnown(pool: Pool, inBlock: set<Tx>, pick: Pick)
    requires Sound(pool) && inBlock <= Txs(pool) && pick.tx in Txs(pool)
             && Covers(pool, inBlock, pick.tx, pick.entry, true)
    ensures SameKeys(pool) && Unselected(pool, inBlock, pick.tx) <= Txs(pool)
    ensures pick.entry.size == Total(pool.size, Unselected(pool, inBlock, pick.tx)) >= 0
    ensures BlockSize(pool, inBlock) >= COINBASE_SIZE
  {
    hide Sound, Total;
    Natural(pool, inBlock);
    TotalNatural(pool.size, inBlock);
  }

  /** In every run, a package that fails exactly and is selected later failed for its signature operations. */
  lemma ReturnsAreDense(pool: Pool, cfg: Config, order: seq<Tx>, run: seq<State>, i: nat, j: nat, pick: Pick)
    requires Run(pool, cfg, order, run) && i < j < |run| && InPool(pool, order, run[i]) && cfg.maxSize >= 1000
    requires pick.tx in Txs(pool) && pick.tx !in run[i].inBlock
             && Covers(pool, run[i].inBlock, pick.tx, pick.entry, true)
    requires Evaluates(pool, cfg, run[i], pick, run[i + 1]) && run[i + 1].inBlock == run[i].inBlock
    requires pick.tx in run[j].inBlock
    ensures SameKeys(pool)
    ensures var size := BlockSize(pool, run[i].inBlock) + pick.entry.size;
            1 <= size < cfg.maxSize && BlockSigOps(pool, run[i].inBlock) + pick.entry.sigOps >= MaxBlockSigOps(size)
  {
    hide Sound, Total, Run, Doomed, Evaluates, Covers;
    if Doomed(pool, cfg, run[i].inBlock, pick.tx) {
      DoomedForever(pool, cfg, order, run, i, j, pick.tx);
    }
    ReturningFailure(pool, cfg, run[i], pick, run[i + 1]);
  }

  // ----------------------------------------------------------- completeness

  /** A candidate for a transaction came up in the i-th state, paid enough, and failed a test. */
  ghost predicate FailedAt(pool: Pool, cfg: Config, order: seq<Tx>, run: seq<State>, i: int, t: Tx) {
    && 0 <= i < |run| && InPool(pool, order, run[i]) && t in Txs(pool)
    && exists pick: Pick :: pick.tx == t && Pays(pool, cfg, order, run[i], pick) && !Passing(pool, cfg, run[i], pick)
  }

  ghost predicate Passing(pool: Pool, cfg: Config, s: State, pick: Pick)
    requires Sound(pool) && s.inBlock <= Txs(pool) && pick.tx in Txs(pool)
  {
    PackageKnown(pool, s.inBlock, pick.tx);
    Fits(pool, cfg, s, pick.entry) && Admissible(pool, cfg, s.inBlock, Unselected(pool, s.inBlock, pick.tx))
  }

  ghost predicate FailedBefore(pool: Pool, cfg: Config, order: seq<Tx>, run: seq<State>, n: nat, t: Tx) {
    exists i :: 0 <= i < n && FailedAt(pool, cfg, order, run, i, t)
  }

  /** A transaction is in the block, still to come, has a modified entry, or has failed. */
  ghost predicate Upcoming(pool: Pool, cfg: Config, order: seq<Tx>, run: seq<State>, n: nat, t: Tx)
    requires n < |run|
  {
    || t in run[n].inBlock || (run[n].mi <= |order| && t in order[run[n].mi..]) || t in run[n].mods
    || FailedBefore(pool, cfg, order, run, n, t)
  }

  lemma FailedMore(pool: Pool, cfg: Config, order: seq<Tx>, run: seq<State>, n: nat, t: Tx)
    requires FailedBefore(pool, cfg, order, run, n, t)
    ensures FailedBefore(pool, cfg, order, run, n + 1, t)
  {
    hide FailedAt;
    var i :| 0 <= i < n && FailedAt(pool, cfg, order, run, i, t);
  }

  /** What one evaluation does to a transaction that it is not about, or that it is about. */
  lemma EvaluatedOther(pool: Pool, cfg: Config, s: State, pick: Pick, s': State, t: Tx)
    requires Sound(pool) && s.inBlock <= Txs(pool) && pick.tx in Txs(pool) && Evaluates(pool, cfg, s, pick, s')
    ensures s'.mi == if pick.modified then s.mi else s.mi + 1
    ensures t in s.inBlock ==> t in s'.inBlock
    ensures t in s.mods && t != pick.tx ==> t in s'.mods || t in s'.inBlock
    ensures t in s'.failed ==> t in s.failed || (t == pick.tx && !Passing(pool, cfg, s, pick))
    ensures t == pick.tx && t !in s.inBlock ==> t in s'.inBlock || !Passing(pool, cfg, s, pick)
  {
    hide Fits, Admissible, Sound;
    PackageKnown(pool, s.inBlock, pick.tx);
    var package := Unselected(pool, s.inBlock, pick.tx);
    FamilyHas(pool, pick.tx);
    if Passing(pool, cfg, s, pick) {
      assert Reduced(pool, s.mods - package, s'.mods, t, Due(pool, package, package, t));
    }
  }

  lemma FamilyHas(pool: Pool, d: Tx)
    requires Sound(pool) && d in Txs(pool)
    ensures d in pool.ancestors && d in Family(pool, d)
  {
    Facts(pool, d);
  }

  lemma {:induction false} StillPending(pool: Pool, cfg: Config, order: seq<Tx>, run: seq<State>, n: nat, t: Tx)
    requires Run(pool, cfg, order, run) && n < |run| && t in order
    requires run[0].mi == 0 && run[0].failed == {}
    ensures run[n].mi <= |order| && Upcoming(pool, cfg, order, run, n, t)
    ensures t in run[n].failed ==> FailedBefore(pool, cfg, order, run, n, t)
  {
    hide Step, FailedBefore;
    if n == 0 {
      assert order[0..] == order;
    } else {
      StillPending(pool, cfg, order, run, n - 1, t);
      var s, s' := run[n - 1], run[n];
      assert Step(pool, cfg, order, run[n - 1], run[n - 1 + 1]);
      if FailedBefore(pool, cfg, order, run, n - 1, t) {
        FailedMore(pool, cfg, order, run, n - 1, t);
      }
      if s.mi < |order| && Skips(s, order[s.mi]) {
        Skipped(pool, cfg, order, s, s');
        LaterHas(order, s.mi, t);
      } else {
        var pick := StepPick(pool, cfg, order, s, s');
        EvaluatedOther(pool, cfg, s, pick, s', t);
        PickIs(pool, cfg, order, s, pick);
        if !pick.modified {
          LaterHas(order, s.mi, t);
        }
        if t == pick.tx && !Passing(pool, cfg, s, pick) {
          assert FailedAt(pool, cfg, order, run, n - 1, t);
          FailedNow(pool, cfg, order, run, n, t);
        }
      }
    }
  }

  lemma FailedNow(pool: Pool, cfg: Config, order: seq<Tx>, run: seq<State>, n: nat, t: Tx)
    requires n > 0 && FailedAt(pool, cfg, order, run, n - 1, t)
    ensures FailedBefore(pool, cfg, order, run, n, t)
  {
  }

  lemma LaterHas(order: seq<Tx>, mi: nat, t: Tx)
    requires mi < |order|
    ensures t in order[mi..] ==> t == order[mi] || t in order[mi + 1..]
  {
    if t in order[mi..] {
      var j :| 0 <= j < |order[mi..]| && order[mi..][j] == t;
      assert j > 0 ==> order[mi + 1..][j - 1] == t;
    }
  }

  lemma Skipped(pool: Pool, cfg: Config, order: seq<Tx>, s: State, s': State)
    requires Step(pool, cfg, order, s, s') && s.mi < |order| && Skips(s, order[s.mi])
    ensures s' == s.(mi := s.mi + 1)
  {
  }

  lemma StepPick(pool: Pool, cfg: Config, order: seq<Tx>, s: State, s': State) returns (pick: Pick)
    requires Step(pool, cfg, order, s, s') && !(s.mi < |order| && Skips(s, order[s.mi]))
    ensures InPool(pool, order, s) && Pays(pool, cfg, order, s, pick) && pick.tx in Txs(pool)
    ensures Evaluates(pool, cfg, s, pick, s')
  {
    pick :| Pays(pool, cfg, order, s, pick) && pick.tx in Txs(pool) && Evaluates(pool, cfg, s, pick, s');
  }

  lemma PickIs(pool: Pool, cfg: Config, order: seq<Tx>, s: State, pick: Pick)
    requires InPool(pool, order, s) && Pays(pool, cfg, order, s, pick)
    ensures !pick.modified ==> s.mi < |order| && pick.tx == order[s.mi]
    ensures pick.modified ==> s.mi <= |order| && pick.tx in s.mods
  {
  }

  /** Numbers that a step is about: the block before it, and the package of the candidate. */
  ghost predicate Weighed(pool: Pool, cfg: Config, s: State, e: Entry, package: set<Tx>)
    requires s.inBlock <= pool.size.Keys && s.inBlock <= pool.sigOps.Keys && package <= pool.size.Keys
  {
    var size, sigOps := 1000 + Total(pool.size, s.inBlock), 100 + Total(pool.sigOps, s.inBlock);
    && 1 <= size + e.size < cfg.maxSize && sigOps + e.sigOps < MaxBlockSigOps(size + e.size)
    && size + Total(pool.size, package) < cfg.maxSize && forall t :: t in package ==> cfg.final(t)
  }

  /** A candidate: the best modified entry, or the next cached one, and no candidate scores higher. */
  ghost predicate Candidate(pool: Pool, cfg: Config, order: seq<Tx>, s: State, t: Tx, e: Entry) {
    && (|| (t in s.mods && e == s.mods[t])
        || (s.mi < |order| && t == order[s.mi] && t in pool.cached && e == pool.cached[t]))
    && (forall m :: m in s.mods ==> cfg.score(s.mods[m]) <= cfg.score(e))
    && (s.mi < |order| && order[s.mi] in pool.cached ==> cfg.score(pool.cached[order[s.mi]]) <= cfg.score(e))
  }

  /** A candidate that pays, with its outcome: it enters with its package, or it is dropped. */
  ghost predicate Considered(pool: Pool, cfg: Config, order: seq<Tx>, s: State, s': State, t: Tx, e: Entry)
    requires s.inBlock <= pool.size.Keys && s.inBlock <= pool.sigOps.Keys && t in pool.ancestors
  {
    var package := pool.ancestors[t] + {t} - s.inBlock;
    && Candidate(pool, cfg, order, s, t, e) && e.fees >= cfg.minFee(e.size) && package <= pool.size.Keys
    && if Weighed(pool, cfg, s, e, package) then s'.inBlock == s.inBlock + package && s'.failures == 0
       else s'.inBlock == s.inBlock && s.failures <= s'.failures <= s.failures + 1
  }

  /**
    What one step is: candidates are left and the search has not given up; the next transaction is passed
    over because it has an entry of its own, is in the block, or has failed; or the best candidate, which
    pays enough, is weighed, and enters the block with its package exactly if it passes.
  */
  lemma StepMeans(pool: Pool, cfg: Config, order: seq<Tx>, s: State, s': State)
    requires Step(pool, cfg, order, s, s')
    ensures SameKeys(pool) && s.inBlock <= Txs(pool)
    ensures (s.mi < |order| || s.mods != map[])
            && !(s.failures > 1000 && 1000 + Total(pool.size, s.inBlock) > cfg.maxSize - 1000)
    ensures if s.mi < |order| && (order[s.mi] in s.mods || order[s.mi] in s.inBlock || order[s.mi] in s.failed)
            then s' == s.(mi := s.mi + 1)
            else exists t, e :: t in pool.ancestors && Considered(pool, cfg, order, s, s', t, e)
  {
    hide Step, InPool, Sound, SameKeys, Total, Considered, Pays, Evaluates;
    StepKnown(pool, cfg, order, s, s');
    if !(s.mi < |order| && Skips(s, order[s.mi])) {
      var pick := StepPick(pool, cfg, order, s, s');
      PickConsidered(pool, cfg, order, s, s', pick);
    } else {
      Skipped(pool, cfg, order, s, s');
    }
  }

  lemma PickConsidered(pool: Pool, cfg: Config, order: seq<Tx>, s: State, s': State, pick: Pick)
    requires InPool(pool, order, s) && Pays(pool, cfg, order, s, pick) && pick.tx in Txs(pool)
    requires Evaluates(pool, cfg, s, pick, s')
    ensures SameKeys(pool) && pick.tx in pool.ancestors && Considered(pool, cfg, order, s, s', pick.tx, pick.entry)
  {
    hide Sound, Total, MaxBlockSigOps, Pays, Candidate;
    FamilyHas(pool, pick.tx);
    PackageKnown(pool, s.inBlock, pick.tx);
    PickCandidate(pool, cfg, order, s, pick);
    assert Family(pool, pick.tx) - s.inBlock == pool.ancestors[pick.tx] + {pick.tx} - s.inBlock;
  }

  lemma StepKnown(pool: Pool, cfg: Config, order: seq<Tx>, s: State, s': State)
    requires Step(pool, cfg, order, s, s')
    ensures SameKeys(pool) && s.inBlock <= Txs(pool) && s.inBlock <= pool.size.Keys && s.inBlock <= pool.sigOps.Keys
    ensures s.mi < |order| || s.mods != map[]
    ensures !(s.failures > 1000 && 1000 + Total(pool.size, s.inBlock) > cfg.maxSize - 1000)
  {
    hide Total, Pays, Evaluates;
  }

  lemma PickCandidate(pool: Pool, cfg: Config, order: seq<Tx>, s: State, pick: Pick)
    requires InPool(pool, order, s) && Pays(pool, cfg, order, s, pick)
    ensures Candidate(pool, cfg, order, s, pick.tx, pick.entry) && pick.entry.fees >= cfg.minFee(pick.entry.size)
  {
  }

  /** Why a run has ended. */
  lemma EndedBecause(pool: Pool, cfg: Config, order: seq<Tx>, s: State)
    requires InPool(pool, order, s) && Ended(pool, cfg, order, s)
    ensures SameKeys(pool)
    ensures || (s.mi >= |order| && s.mods == map[])
            || (s.failures > 1000 && BlockSize(pool, s.inBlock) > cfg.maxSize - 1000)
            || exists pick :: Picks(pool, cfg, order, s, pick) && pick.entry.fees < cfg.minFee(pick.entry.size)
  {
  }

  /**
    Nothing is overlooked: when a run ends because no candidates are left, every transaction outside the
    block has come up, paid enough, and failed a test.
  */
  lemma AllConsidered(pool: Pool, cfg: Config, order: seq<Tx>, run: seq<State>, t: Tx)
    requires Run(pool, cfg, order, run) && run[0].mi == 0 && run[0].failed == {} && t in order
    requires var s := run[|run| - 1]; s.mi >= |order| && s.mods == map[] && t !in s.inBlock
    ensures exists i :: FailedAt(pool, cfg, order, run, i, t)
  {
    hide FailedAt;
    StillPending(pool, cfg, order, run, |run| - 1, t);
  }
}
