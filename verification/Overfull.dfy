/**
A memory pool for which the assembler exceeds the limit on signature operations for the size of
its block. Every transaction of it keeps the default limits for transactions that are relayed.
Fifteen transactions are ordered by fee rate, as the source orders them. `heavy` is taken first,
then eight large ones and four with many signature operations. The package of `child` then fails,
because it would exceed the limit. Its entry is dropped. When `light`, the other parent, is taken,
the entry is made anew from the cached sums: they still contain `heavy`. The sums now belong to a
block of more than a megabyte, which may hold twice as many signature operations, and the package
passes.
*/
module Overfull {
  import opened Sets
  import opened MinerSpec
  import opened Miner
  import opened PackageRun
  import opened BlockAssembler

  /** Between them eight large transactions, then four with many signature operations. */
  const heavy := Tx(0)
  const light := Tx(13)
  const child := Tx(14)

  function EntryOf(t: Tx): Entry {
    if t == heavy then Entry(79000, 790000, 0)
    else if t.id <= 8 then Entry(92500, 740000, 0)
    else if t.id <= 12 then Entry(20000, 160000, 4000)
    else if t == light then Entry(1001, 1001, 0)
    else Entry(20000, 100000, 4000)
  }

  /** The transactions in the order in which they enter the block. */
  function First(n: nat): set<Tx> {
    set i: nat | i < n :: Tx(i)
  }

  lemma InFirst(n: nat, t: Tx)
    ensures t in First(n) <==> t.id < n
  {
    assert t == Tx(t.id);
  }

  lemma FirstNone()
    ensures First(0) == {}
  {
  }

  lemma FirstNext(n: nat)
    ensures First(n + 1) == First(n) + {Tx(n)} && Tx(n) !in First(n)
  {
  }

  function ParentsOf(t: Tx): set<Tx> {
    if t == child then {heavy, light} else {}
  }

  const POOL: Pool :=
    var txs := First(15);
    Pool(map t | t in txs :: ParentsOf(t), map t | t in txs :: ParentsOf(t),
         map t | t in txs :: EntryOf(t).size, map t | t in txs :: EntryOf(t).fees,
         map t | t in txs :: EntryOf(t).fees, map t | t in txs :: EntryOf(t).sigOps,
         map t | t in txs :: if t == child then Entry(100001, 891001, 4000) else EntryOf(t),
         map t | t in txs :: if t == child then 3 else 1)

  const ORDER: seq<Tx> := seq(15, i => if i <= 0 then heavy else if i == 1 then child else Tx(i - 1))

  /** The fee rate of a package. */
  function Rate(e: Entry): real {
    if e.size > 0 then e.fees as real / e.size as real else 0.0
  }

  /** Rates compare as the products that the source compares. */
  lemma RateOrder(a: Entry, b: Entry)
    requires a.size > 0 && b.size > 0
    ensures Rate(a) > Rate(b) <==> b.size * a.fees > a.size * b.fees
  {
    Cross(a.fees as real, a.size as real, b.fees as real, b.size as real);
    assert (b.size * a.fees) as real == b.size as real * a.fees as real;
    assert (a.size * b.fees) as real == a.size as real * b.fees as real;
  }

  lemma Cross(x: real, s: real, y: real, t: real)
    requires s > 0.0 && t > 0.0
    ensures x / s > y / t <==> t * x > s * y
  {
    var p, q := x / s, y / t;
    assert x == p * s && y == q * t;
    assert t * x == s * t * p && s * y == s * t * q;
    Scale(s * t, p, q);
  }

  lemma Scale(c: real, p: real, q: real)
    requires c > 0.0
    ensures p > q <==> c * p > c * q
  {
  }

  /** Final transactions, no priority area, one satoshi per byte as the lowest fee. */
  function Cfg(maxSize: nat): Config {
    Config(maxSize, 0, t => true, t => 0.0, size => size, Rate)
  }

  // ------------------------------------------------------------------ fields

  lemma Keys()
    ensures SameKeys(POOL) && Txs(POOL) == First(15)
  {
    hide First;
  }

  lemma Member(t: Tx)
    ensures t in Txs(POOL) <==> t.id < 15
    ensures t in POOL.ancestors <==> t.id < 15
  {
    hide POOL, First;
    Keys();
    InFirst(15, t);
  }

  lemma WeightOf(t: Tx)
    requires t.id < 15
    ensures t in POOL.size && t in POOL.sigOps
    ensures POOL.size[t] == EntryOf(t).size && POOL.sigOps[t] == EntryOf(t).sigOps
  {
    hide First, EntryOf;
    InFirst(15, t);
  }

  lemma FeeOf(t: Tx)
    requires t.id < 15
    ensures t in POOL.fee && t in POOL.modFee && POOL.fee[t] == POOL.modFee[t] == EntryOf(t).fees
  {
    hide First, EntryOf;
    InFirst(15, t);
  }

  lemma FamilyOf(t: Tx)
    requires t.id < 15
    ensures t in POOL.parents && t in POOL.ancestors && POOL.parents[t] == POOL.ancestors[t] == ParentsOf(t)
  {
    hide First, ParentsOf;
    InFirst(15, t);
  }

  lemma CacheOf(t: Tx)
    requires t.id < 15
    ensures t in POOL.cached && t in POOL.count
    ensures POOL.cached[t] == if t == child then Entry(100001, 891001, 4000) else EntryOf(t)
    ensures POOL.count[t] == if t == child then 3 else 1
  {
    hide First, EntryOf;
    InFirst(15, t);
  }

  lemma OrderAt(i: nat)
    requires i < 15
    ensures |ORDER| == 15 && ORDER[i] == if i == 0 then heavy else if i == 1 then child else Tx(i - 1)
  {
  }

  lemma OrderLength()
    ensures |ORDER| == 15
  {
  }

  // -------------------------------------------------------------------- sums

  lemma One(w: map<Tx, int>, t: Tx)
    requires t in w
    ensures Total(w, {t}) == w[t] && Total(w, {}) == 0
  {
    TotalWithout(w, {t}, t);
    assert {t} - {t} == {};
  }

  lemma Three(w: map<Tx, int>, a: Tx, b: Tx, c: Tx)
    requires {a, b, c} <= w.Keys && a != b && a != c && b != c
    ensures Total(w, {a, c}) == w[a] + w[c] && Total(w, {a, b, c}) == w[a] + w[b] + w[c]
  {
    hide Total;
    assert {a} + {c} == {a, c} && {a, c} + {b} == {a, b, c};
    One(w, a);
    TotalWith(w, {a}, c);
    TotalWith(w, {a, c}, b);
  }

  /** Sizes and signature operations of the transactions that enter the block first. */
  function SizeUpTo(n: nat): int {
    if n == 0 then 0 else if n <= 9 then 79000 + 92500 * (n - 1) else if n <= 13 then 819000 + 20000 * (n - 9)
    else if n == 14 then 900001 else 920001
  }

  function SigOpsUpTo(n: nat): int {
    if n <= 9 then 0 else if n <= 13 then 4000 * (n - 9) else if n == 14 then 16000 else 20000
  }

  lemma UpToNext(n: nat)
    requires n < 15
    ensures SizeUpTo(n + 1) == SizeUpTo(n) + EntryOf(Tx(n)).size
    ensures SigOpsUpTo(n + 1) == SigOpsUpTo(n) + EntryOf(Tx(n)).sigOps
  {
  }

  lemma {:induction false} Weights(n: nat)
    requires n <= 15
    ensures First(n) <= POOL.size.Keys && First(n) <= POOL.sigOps.Keys
    ensures Total(POOL.size, First(n)) == SizeUpTo(n) && Total(POOL.sigOps, First(n)) == SigOpsUpTo(n)
  {
    hide Total, POOL, First, EntryOf;
    if n == 0 {
      WeightOf(heavy);
      One(POOL.size, heavy);
      One(POOL.sigOps, heavy);
      FirstNone();
    } else {
      Weights(n - 1);
      UpToNext(n - 1);
      FirstNext(n - 1);
      WeightOf(Tx(n - 1));
      TotalWith(POOL.size, First(n - 1), Tx(n - 1));
      TotalWith(POOL.sigOps, First(n - 1), Tx(n - 1));
    }
  }

  // -------------------------------------------------------------------- pool

  lemma LineageOf(t: Tx)
    requires t.id < 15 && SameKeys(POOL) && t in Txs(POOL)
    ensures Lineage(POOL, t)
  {
    hide POOL, SameKeys;
    FamilyOf(t);
    FamilyOf(heavy);
    FamilyOf(light);
    if t == child {
      assert Inherits(POOL, t, heavy) && Inherits(POOL, t, light);
    }
  }

  lemma CachedOf(t: Tx)
    requires t.id < 15 && SameKeys(POOL) && t in Txs(POOL) && Lineage(POOL, t)
    ensures CachedOk(POOL, t)
  {
    hide POOL, Lineage, SameKeys, Total, EntryOf, ParentsOf, Family;
    FamilyIs(t);
    CacheOf(t);
    WeightOf(t);
    EntryPositive(t);
    if t == child {
      ChildSums();
    } else {
      OwnSums(t);
    }
  }

  lemma FamilyIs(t: Tx)
    requires t.id < 15
    ensures t in POOL.ancestors && Family(POOL, t) == if t == child then {heavy, light, child} else {t}
    ensures |Family(POOL, t)| == if t == child then 3 else 1
  {
    hide POOL;
    FamilyOf(t);
  }

  lemma OwnSums(t: Tx)
    requires t.id < 15
    ensures t in POOL.size && t in POOL.modFee && t in POOL.sigOps
    ensures Entry(Total(POOL.size, {t}), Total(POOL.modFee, {t}), Total(POOL.sigOps, {t})) == EntryOf(t)
  {
    hide POOL, EntryOf, Total;
    WeightOf(t);
    FeeOf(t);
    One(POOL.size, t);
    One(POOL.modFee, t);
    One(POOL.sigOps, t);
  }

  lemma EntryPositive(t: Tx)
    ensures EntryOf(t).size > 0 && EntryOf(t).sigOps >= 0
  {
  }

  lemma ChildSums()
    ensures var s := {heavy, light, child};
            && s <= POOL.size.Keys && s <= POOL.modFee.Keys && s <= POOL.sigOps.Keys
            && Entry(Total(POOL.size, s), Total(POOL.modFee, s), Total(POOL.sigOps, s)) == Entry(100001, 891001, 4000)
  {
    hide POOL, Total;
    forall t | t in {heavy, light, child}
      ensures t in POOL.size && t in POOL.modFee && t in POOL.sigOps
      ensures Entry(POOL.size[t], POOL.modFee[t], POOL.sigOps[t]) == EntryOf(t)
    {
      WeightOf(t);
      FeeOf(t);
    }
    Three(POOL.size, heavy, light, child);
    Three(POOL.modFee, heavy, light, child);
    Three(POOL.sigOps, heavy, light, child);
  }

  lemma PoolSound()
    ensures Sound(POOL) && Elements(ORDER) == Txs(POOL)
  {
    hide POOL, ORDER, First, Lineage, CachedOk, SameKeys;
    Keys();
    forall t | t in Txs(POOL) ensures Lineage(POOL, t) && CachedOk(POOL, t) {
      Member(t);
      LineageOf(t);
      CachedOf(t);
    }
    forall t ensures t in Elements(ORDER) <==> t in Txs(POOL) {
      InOrder(t);
    }
  }

  lemma InOrder(t: Tx)
    ensures t in ORDER <==> t in Txs(POOL)
  {
    hide POOL, First, SameKeys;
    Member(t);
    if t.id < 15 {
      assert ORDER[if t == heavy then 0 else if t == child then 1 else t.id + 1] == t;
    }
  }

  /** The order of the candidates is that of the fee rates of the cached sums. */
  lemma OrderByRate(i: nat, j: nat)
    requires i < j < |ORDER|
    ensures ORDER[i] in POOL.cached && ORDER[j] in POOL.cached
    ensures Rate(POOL.cached[ORDER[i]]) >= Rate(POOL.cached[ORDER[j]])
  {
    hide POOL, ORDER, Rate, EntryOf;
    OrderLength();
    RateAt(i);
    RateAt(j);
  }

  lemma RateAt(i: nat)
    requires i < 15
    ensures |ORDER| == 15 && ORDER[i] in POOL.cached
    ensures Rate(POOL.cached[ORDER[i]]) ==
              if i == 0 then 10.0 else if i == 1 then 891001.0 / 100001.0 else if i < 14 then 8.0 else 1.0
  {
    hide POOL, ORDER;
    OrderAt(i);
    CacheOf(ORDER[i]);
  }

  const MAX_STANDARD_TX_SIZE := 100000
  const MAX_STANDARD_TX_SIGOPS := 4000
  const PACKAGE_LIMIT := 25
  const PACKAGE_SIZE_LIMIT := 101000

  function Descendants(pool: Pool, t: Tx): set<Tx> {
    set d | d in pool.ancestors && (d == t || t in pool.ancestors[d])
  }

  /**
    The pool keeps the default limits: below 100000 bytes and at most 4000 signature operations in a
    transaction, at most 25 transactions of together at most 101000 bytes with its ancestors and
    with its descendants, and a satoshi for every byte. No transaction needs more than one
    signature operation in five bytes.
  */
  lemma WithinLimits(t: Tx)
    requires t in Txs(POOL)
    ensures t in POOL.size && t in POOL.sigOps && t in POOL.fee && t in POOL.count && t in POOL.cached
    ensures POOL.size[t] < MAX_STANDARD_TX_SIZE && POOL.sigOps[t] <= MAX_STANDARD_TX_SIGOPS
    ensures 5 * POOL.sigOps[t] <= POOL.size[t] <= POOL.fee[t]
    ensures POOL.count[t] <= PACKAGE_LIMIT && POOL.cached[t].size <= PACKAGE_SIZE_LIMIT
    ensures |Descendants(POOL, t)| <= PACKAGE_LIMIT && Descendants(POOL, t) <= POOL.size.Keys
    ensures BytesOf(POOL, Descendants(POOL, t)) <= PACKAGE_SIZE_LIMIT
  {
    hide POOL, Descendants, BytesOf;
    Member(t);
    WeightOf(t);
    FeeOf(t);
    CacheOf(t);
    DescendantsWeigh(t);
  }

  ghost function BytesOf(pool: Pool, s: set<Tx>): int
    requires s <= pool.size.Keys
  {
    Total(pool.size, s)
  }

  lemma DescendantsWeigh(t: Tx)
    requires t.id < 15
    ensures Descendants(POOL, t) <= POOL.size.Keys && |Descendants(POOL, t)| <= 2
    ensures BytesOf(POOL, Descendants(POOL, t)) ==
              EntryOf(t).size + if t == heavy || t == light then EntryOf(child).size else 0
  {
    hide POOL, Descendants, Total, EntryOf;
    DescendantsOf(t);
    WeightOf(t);
    WeightOf(child);
    One(POOL.size, t);
    if t == heavy || t == light {
      assert {t} + {child} == {t, child};
      TotalWith(POOL.size, {t}, child);
    }
  }

  lemma DescendantsOf(t: Tx)
    requires t.id < 15
    ensures Descendants(POOL, t) == if t == heavy || t == light then {t, child} else {t}
  {
    hide POOL;
    forall d ensures d in Descendants(POOL, t) <==> d == t || (d == child && (t == heavy || t == light)) {
      Member(d);
      if d.id < 15 {
        FamilyOf(d);
      }
    }
  }

  // --------------------------------------------------------------------- run

  const EXACT := Entry(21001, 101001, 4000)
  const ANEW := Entry(99000, 890000, 4000)

  /** How many transactions are in the block after so many steps. */
  function Count(k: nat): nat {
    if k <= 1 then k else if k <= 14 then k - 1 else k - 2
  }

  /**
    Heavy is taken; the child is skipped, as it has an entry of its own now; the twelve others are
    taken; the child fails; light is taken; the child is taken.
  */
  function At(k: nat): State {
    State(First(Count(k)),
          if 1 <= k <= 14 then map[child := EXACT] else if k == 16 then map[child := ANEW] else map[],
          if k <= 14 then {} else {child},
          if k <= 14 then k else if k == 15 then 14 else 15,
          if k == 15 then 1 else 0)
  }

  /** The candidate in each state but the second, where one is skipped, and the last. */
  function Chosen(k: nat): Pick {
    if k == 14 then Pick(child, EXACT, true)
    else if k == 16 then Pick(child, ANEW, true)
    else Pick(Tx(Count(k)), EntryOf(Tx(Count(k))), false)
  }

  lemma OnlyPick(maxSize: nat, k: nat, pick: Pick)
    requires k < 17 && k != 1 && InPool(POOL, ORDER, At(k)) && Picks(POOL, Cfg(maxSize), ORDER, At(k), pick)
    ensures pick == Chosen(k) && Pays(POOL, Cfg(maxSize), ORDER, At(k), pick)
  {
    hide POOL, ORDER, First, InPool, Rate;
    var s := At(k);
    Rates();
    if s.mi < 15 {
      RateAt(s.mi);
      OrderAt(s.mi);
      CacheOf(ORDER[s.mi]);
    } else {
      OrderLength();
    }
    assert child in s.mods || s.mods == map[];
  }

  /** The exact entry of the child scores between the two kinds of others. */
  lemma Rates()
    ensures 1.0 < Rate(EXACT) < 8.0
  {
  }

  /** Entries of the child after one of its parents is subtracted from the cached sums. */
  lemma Anew(a: Tx, mods: map<Tx, Entry>)
    requires a == heavy || a == light
    requires forall d :: Reduced(POOL, map[], mods, d, Due(POOL, {a}, {a}, d))
    ensures mods == map[child := if a == heavy then EXACT else ANEW]
  {
    hide Total, POOL, Due;
    WeightOf(a);
    FeeOf(a);
    CacheOf(child);
    One(POOL.size, a);
    One(POOL.fee, a);
    One(POOL.sigOps, a);
    DueIs(a, child);
    assert {a} - {a} == {};
    assert Reduced(POOL, map[], mods, child, Due(POOL, {a}, {a}, child));
    forall d ensures d in mods <==> d == child {
      DueIs(a, d);
      assert Reduced(POOL, map[], mods, d, Due(POOL, {a}, {a}, d));
    }
  }

  lemma DueIs(t: Tx, d: Tx)
    ensures Due(POOL, {t}, {t}, d) == if d == child && (t == heavy || t == light) then {t} else {}
  {
    hide POOL;
    Member(d);
    if d.id < 15 {
      FamilyOf(d);
    }
    assert t == heavy || t == light ==> {heavy, light} * {t} == {t};
    assert t != heavy && t != light ==> {heavy, light} * {t} == {};
  }

  /** Entries do not change when a transaction without descendants is selected. */
  lemma Unchanged(t: Tx, mods: map<Tx, Entry>, mods': map<Tx, Entry>)
    requires t != heavy && t != light
    requires forall d :: Reduced(POOL, mods, mods', d, Due(POOL, {t}, {t}, d))
    ensures mods' == mods
  {
    hide Total, POOL, Due, EntryOf;
    WeightOf(heavy);
    FeeOf(heavy);
    One(POOL.size, heavy);
    One(POOL.fee, heavy);
    One(POOL.sigOps, heavy);
    forall d ensures (d in mods' <==> d in mods) && (d in mods ==> mods'[d] == mods[d]) {
      DueIs(t, d);
      assert Reduced(POOL, mods, mods', d, Due(POOL, {t}, {t}, d));
    }
  }

  /** Every candidate passes the first test but the exact entry of the child. */
  lemma FitsAt(maxSize: nat, k: nat)
    requires maxSize > ONE_MEGABYTE + 1 && k < 17 && k != 1
    ensures At(k).inBlock <= POOL.size.Keys && At(k).inBlock <= POOL.sigOps.Keys
    ensures Fits(POOL, Cfg(maxSize), At(k), Chosen(k).entry) <==> k != 14
  {
    hide Total, First, POOL, RoomFor, SizeUpTo, SigOpsUpTo, MaxBlockSigOps;
    Weights(Count(k));
    RoomAt(maxSize, k);
  }

  lemma RoomAt(maxSize: nat, k: nat)
    requires maxSize > ONE_MEGABYTE + 1 && k < 17 && k != 1
    ensures var size, sigOps := COINBASE_SIZE + SizeUpTo(Count(k)), COINBASE_SIGOPS + SigOpsUpTo(Count(k));
            RoomFor(Cfg(maxSize), size, sigOps, Chosen(k).entry) <==> k != 14
  {
    var size := COINBASE_SIZE + SizeUpTo(Count(k)) + Chosen(k).entry.size;
    assert size <= ONE_MEGABYTE + 1 && (size > ONE_MEGABYTE <==> k == 16);
  }

  /** The package of a candidate that passes is that candidate alone. */
  lemma AloneAt(maxSize: nat, k: nat)
    requires maxSize > ONE_MEGABYTE + 1 && k < 17 && k != 1 && k != 14
    ensures Chosen(k).tx == Tx(Count(k)) && Chosen(k).tx in POOL.ancestors && Chosen(k).tx in POOL.size
    ensures At(k).inBlock <= POOL.size.Keys
    ensures Unselected(POOL, At(k).inBlock, Chosen(k).tx) == {Chosen(k).tx}
    ensures At(k).inBlock + {Chosen(k).tx} == First(Count(k) + 1)
    ensures Admissible(POOL, Cfg(maxSize), At(k).inBlock, {Chosen(k).tx})
  {
    hide Total, First, POOL;
    var t := Tx(Count(k));
    FamilyOf(t);
    WeightOf(t);
    Weights(Count(k));
    FirstNext(Count(k));
    InFirst(Count(k), heavy);
    InFirst(Count(k), light);
    One(POOL.size, t);
  }

  lemma SelectedNext(maxSize: nat, k: nat, s': State)
    requires maxSize > ONE_MEGABYTE + 1 && k < 17 && k != 1 && k != 14
    requires Chosen(k).tx in POOL.ancestors && Selects(POOL, At(k), Chosen(k), s')
    ensures s' == At(k + 1)
  {
    hide Reduced, Admissible, First, POOL, Unselected, Due, EntryOf;
    AloneAt(maxSize, k);
    var t, mods := Chosen(k).tx, At(k).mods;
    if k == 0 || k == 15 {
      assert mods - {t} == map[];
      Anew(t, s'.mods);
    } else {
      assert mods - {t} == if k == 16 then map[] else mods;
      Unchanged(t, mods - {t}, s'.mods);
    }
  }

  lemma NextState(maxSize: nat, k: nat, s': State)
    requires maxSize > ONE_MEGABYTE + 1 && k < 17 && Step(POOL, Cfg(maxSize), ORDER, At(k), s')
    ensures s' == At(k + 1)
  {
    hide Sound, Total, Picks, Pays, Going, Fits, Admissible, Selects, First, POOL, ORDER, Skips, SameKeys;
    NotSkipped(k);
    if k != 1 {
      var pick :| Pays(POOL, Cfg(maxSize), ORDER, At(k), pick) && pick.tx in Txs(POOL)
                  && Evaluates(POOL, Cfg(maxSize), At(k), pick, s');
      PaysPicks(POOL, Cfg(maxSize), ORDER, At(k), pick);
      OnlyPick(maxSize, k, pick);
      FitsAt(maxSize, k);
      if k == 14 {
        assert map[child := EXACT] - {child} == map[];
      } else {
        AloneAt(maxSize, k);
        SelectedNext(maxSize, k, s');
      }
    }
  }

  lemma Left(k: nat)
    requires k <= 17
    ensures (At(k).mi < |ORDER| || At(k).mods != map[] <==> k < 17) && At(k).failures <= 1
  {
    if k == 16 {
      assert child in At(k).mods;
    }
  }

  lemma NotSkipped(k: nat)
    requires k < 17
    ensures At(k).mi < |ORDER| && Skips(At(k), ORDER[At(k).mi]) <==> k == 1
  {
    hide First, ORDER;
    OrderAt(if At(k).mi < 15 then At(k).mi else 0);
    if At(k).mi < 15 {
      InFirst(Count(k), ORDER[At(k).mi]);
    }
  }

  lemma PaysPicks(pool: Pool, cfg: Config, order: seq<Tx>, s: State, pick: Pick)
    requires InPool(pool, order, s) && Pays(pool, cfg, order, s, pick)
    ensures Picks(pool, cfg, order, s, pick)
  {
  }

  /** The run goes on until all transactions are in the block. */
  lemma NotEnded(maxSize: nat, k: nat)
    requires maxSize > ONE_MEGABYTE + 1 && k <= 17 && InPool(POOL, ORDER, At(k))
    ensures Going(POOL, Cfg(maxSize), ORDER, At(k)) <==> k < 17
    ensures k < 17 ==> !Ended(POOL, Cfg(maxSize), ORDER, At(k))
  {
    hide Sound, Total, Picks, Pays, POOL, ORDER, First;
    Left(k);
    if k < 17 {
      NotSkipped(k);
      forall pick | k != 1 && Picks(POOL, Cfg(maxSize), ORDER, At(k), pick)
        ensures Pays(POOL, Cfg(maxSize), ORDER, At(k), pick)
      {
        OnlyPick(maxSize, k, pick);
      }
    }
  }

  lemma {:induction false} RunAt(maxSize: nat, run: seq<State>, i: nat)
    requires maxSize > ONE_MEGABYTE + 1 && Run(POOL, Cfg(maxSize), ORDER, run) && run[0] == At(0) && i < |run|
    ensures i <= 17 && run[i] == At(i)
  {
    hide Step, At;
    if i > 0 {
      RunAt(maxSize, run, i - 1);
      assert Step(POOL, Cfg(maxSize), ORDER, run[i - 1], run[i - 1 + 1]);
      StepInPool(POOL, Cfg(maxSize), ORDER, run[i - 1], run[i]);
      NotEnded(maxSize, i - 1);
      StepGoes(POOL, Cfg(maxSize), ORDER, run[i - 1], run[i]);
      NextState(maxSize, i - 1, run[i]);
    }
  }

  lemma StepGoes(pool: Pool, cfg: Config, order: seq<Tx>, s: State, s': State)
    requires Step(pool, cfg, order, s, s')
    ensures InPool(pool, order, s) && Going(pool, cfg, order, s)
  {
  }

  /** Every complete run ends with all transactions in the block. */
  lemma AllSelected(maxSize: nat, run: seq<State>)
    requires maxSize > ONE_MEGABYTE + 1 && Run(POOL, Cfg(maxSize), ORDER, run) && run[0] == At(0)
    requires InPool(POOL, ORDER, run[|run| - 1]) && Ended(POOL, Cfg(maxSize), ORDER, run[|run| - 1])
    ensures run[|run| - 1].inBlock == First(15)
  {
    hide POOL, ORDER, First, Step, Ended;
    RunAt(maxSize, run, |run| - 1);
    NotEnded(maxSize, |run| - 1);
  }

  lemma StartsEmpty(s: State)
    requires s.inBlock == {} && s.failed == {} && s.mi == 0 && s.failures == 0
    requires forall d :: Reduced(POOL, map[], s.mods, d, Due(POOL, {}, {}, d))
    ensures s == At(0)
  {
    hide POOL, First;
    FirstNone();
    forall d ensures d !in s.mods {
      assert Reduced(POOL, map[], s.mods, d, Due(POOL, {}, {}, d));
    }
  }

  /**
    For every maximum size of more than a megabyte the assembler makes a block from this pool that
    has more signature operations than its size allows. With the promise of `CreateNewBlock` for
    smaller sizes this is exact.
  */
  method ExceedLimit(maxSize: nat) returns (a: Assembler)
    requires maxSize > ONE_MEGABYTE + 1
    ensures fresh(a) && a.Valid() && a.pool == POOL && a.cfg.maxSize == maxSize
    ensures a.nBlockSize >= 1 && a.nBlockSigOps >= MaxBlockSigOps(a.nBlockSize)
  {
    hide Sound, Run, Ended, Going, InPool, Shape, Total, POOL, ORDER, First, At, SameKeys, MaxBlockSigOps;
    PoolSound();
    a := new Assembler(POOL, Cfg(maxSize));
    var fees, recycled, run, reserved, late := a.CreateNewBlock(ORDER);
    StartsEmpty(run[0]);
    AllSelected(maxSize, run);
    a.Counted(a.Model());
    TooMany();
  }

  lemma TooMany()
    ensures First(15) <= POOL.size.Keys && First(15) <= POOL.sigOps.Keys && BlockSize(POOL, First(15)) >= 1
    ensures BlockSigOps(POOL, First(15)) >= MaxBlockSigOps(BlockSize(POOL, First(15)))
  {
    hide POOL, First, Total;
    Weights(15);
  }
}
