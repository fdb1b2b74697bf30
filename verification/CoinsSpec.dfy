/**
The write-back coin caches (CCoinsViewCache) as values: a view is the coin
database or a cache over another view. Every cache operation is a function on
views, and the whole stack is related to a stack of plain coin maps, one per
level, which is what callers are entitled to see.
*/
module CoinsSpec {

  datatype OutPoint = OutPoint(hash: nat, n: nat)

  datatype TxOut = TxOut(value: nat, script: seq<nat>)

  /** A coin whose output is null counts as spent. */
  datatype Coin = Spent | Unspent(out: TxOut, height: nat, coinbase: bool)

  const OP_RETURN := 0x6a
  const MAX_SCRIPT_SIZE := 10000

  predicate Unspendable(out: TxOut) {
    (|out.script| > 0 && out.script[0] == OP_RETURN) || |out.script| > MAX_SCRIPT_SIZE
  }

  datatype Entry = Entry(coin: Coin, dirty: bool, isFresh: bool)

  type CoinsMap = map<OutPoint, Entry>

  datatype View = Store(coins: map<OutPoint, Coin>) | Cache(entries: CoinsMap, base: View)

  // ---------------------------------------------------------------- reading

  /** The coin a lookup through the view yields; Spent when there is none. */
  function Visible(v: View, o: OutPoint): Coin {
    match v
    case Store(m) => if o in m then m[o] else Spent
    case Cache(e, b) => if o in e then e[o].coin else Visible(b, o)
  }

  /** GetCoin's return value: some level has a record of the outpoint, spent or not. */
  predicate Found(v: View, o: OutPoint) {
    match v
    case Store(m) => o in m
    case Cache(e, b) => o in e || Found(b, o)
  }

  /** FetchCoin: every cache that misses copies the record from its base. */
  function Fetch(v: View, o: OutPoint): View {
    match v
    case Store(_) => v
    case Cache(e, b) =>
      if o in e then v
      else if !Found(b, o) then Cache(e, Fetch(b, o))
      else Cache(e[o := Fetched(b, o)], Fetch(b, o))
  }

  function Fetched(b: View, o: OutPoint): Entry {
    Entry(Visible(b, o), false, Visible(b, o).Spent?)
  }

  // ---------------------------------------------------------------- writing

  /** AddCoin's throw: an unspent entry would be replaced without permission. */
  predicate AddThrows(v: View, o: OutPoint, coin: Coin, possibleOverwrite: bool)
    requires v.Cache? && coin.Unspent?
  {
    !Unspendable(coin.out) && !possibleOverwrite && o in v.entries && v.entries[o].coin.Unspent?
  }

  function Add(v: View, o: OutPoint, coin: Coin, possibleOverwrite: bool): View
    requires v.Cache? && coin.Unspent?
  {
    if Unspendable(coin.out) || AddThrows(v, o, coin, possibleOverwrite) then v
    else
      var prior := if o in v.entries then v.entries[o] else Entry(Spent, false, false);
      var nowFresh := !possibleOverwrite && !prior.dirty;
      v.(entries := v.entries[o := Entry(coin, true, prior.isFresh || nowFresh)])
  }

  function Spend(v: View, o: OutPoint): View
    requires v.Cache?
  {
    SpendCached(Fetch(v, o), o)
  }

  function SpendCached(v: View, o: OutPoint): View
    requires v.Cache?
  {
    if o !in v.entries then v
    else if v.entries[o].isFresh then v.(entries := v.entries - {o})
    else v.(entries := v.entries[o := Entry(Spent, true, false)])
  }

  function Uncache(v: View, o: OutPoint): View
    requires v.Cache?
  {
    if o in v.entries && !v.entries[o].dirty && !v.entries[o].isFresh
    then v.(entries := v.entries - {o})
    else v
  }

  /** BatchWrite's throw for one record: a FRESH child over an unspent parent entry. */
  predicate Misapplied(parent: CoinsMap, o: OutPoint, child: Entry) {
    child.dirty && child.isFresh && o in parent && parent[o].coin.Unspent?
  }

  ghost predicate AnyMisapplied(parent: CoinsMap, child: CoinsMap) {
    exists o :: o in child && Misapplied(parent, o, child[o])
  }

  /** What BatchWrite does to the parent's entries for one record of the child. */
  function MergeOne(parent: CoinsMap, o: OutPoint, child: Entry): CoinsMap {
    if !child.dirty then parent
    else if o !in parent then
      if child.isFresh && child.coin.Spent? then parent else parent[o := child]
    else if parent[o].isFresh && child.coin.Spent? then parent - {o}
    else parent[o := Entry(child.coin, true, parent[o].isFresh)]
  }

  /** BatchWrite over a whole child map; records do not interact, so order is irrelevant. */
  ghost function Merge(parent: CoinsMap, child: CoinsMap): CoinsMap {
    map o | o in parent.Keys + child.Keys && o in MergeAt(parent, child, o) :: MergeAt(parent, child, o)[o]
  }

  ghost function MergeAt(parent: CoinsMap, child: CoinsMap, o: OutPoint): CoinsMap {
    if o in child then MergeOne(parent, o, child[o]) else parent
  }

  /** The database's BatchWrite: dirty records are written, or erased when spent. */
  ghost function Commit(coins: map<OutPoint, Coin>, child: CoinsMap): map<OutPoint, Coin> {
    map o | o in coins.Keys + child.Keys && o in CommitAt(coins, child, o) :: CommitAt(coins, child, o)[o]
  }

  ghost function CommitAt(coins: map<OutPoint, Coin>, child: CoinsMap, o: OutPoint): map<OutPoint, Coin> {
    if o in child then CommitOne(coins, o, child[o]) else coins
  }

  function CommitOne(coins: map<OutPoint, Coin>, o: OutPoint, child: Entry): map<OutPoint, Coin> {
    if !child.dirty then coins
    else if child.coin.Spent? then coins - {o}
    else coins[o := child.coin]
  }

  ghost function BatchWrite(b: View, child: CoinsMap): View {
    match b
    case Store(m) => Store(Commit(m, child))
    case Cache(e, bb) => Cache(Merge(e, child), bb)
  }

  ghost predicate FlushThrows(v: View)
    requires v.Cache?
  {
    v.base.Cache? && AnyMisapplied(v.base.entries, v.entries)
  }

  ghost function Flush(v: View): View
    requires v.Cache?
  {
    if FlushThrows(v) then v else Cache(map[], BatchWrite(v.base, v.entries))
  }

  // -------------------------------------------------------------- invariant

  /** The documented meaning of the DIRTY and FRESH flags, at every level. */
  ghost predicate Valid(v: View) {
    match v
    case Store(m) => forall o :: o in m ==> m[o].Unspent?
    case Cache(e, b) => Valid(b) && forall o :: o in e ==> EntryValid(e[o], Visible(b, o))
  }

  predicate EntryValid(entry: Entry, below: Coin) {
    && (!entry.dirty ==> entry.coin == below)
    && (entry.isFresh ==> below.Spent?)
  }

  /** The plain map a view stands for. */
  ghost function Contents(v: View): map<OutPoint, Coin> {
    match v
    case Store(m) => m
    case Cache(e, b) =>
      map o | o in e.Keys + Contents(b).Keys && Visible(v, o).Unspent? :: Visible(v, o)
  }

  lemma {:induction false} ContentsAreVisible(v: View)
    requires Valid(v)
    ensures forall o :: o in Contents(v) <==> Visible(v, o).Unspent?
    ensures forall o :: o in Contents(v) ==> Contents(v)[o] == Visible(v, o)
  {
    if v.Cache? {
      ContentsAreVisible(v.base);
    }
  }

  lemma ContentsDetermined(v: View, m: map<OutPoint, Coin>)
    requires Valid(v)
    requires forall o :: o in m <==> Visible(v, o).Unspent?
    requires forall o :: o in m ==> m[o] == Visible(v, o)
    ensures Contents(v) == m
  {
    ContentsAreVisible(v);
  }

  // ------------------------------------------------ one operation at a time

  lemma {:induction false} FoundOrSpent(v: View, o: OutPoint)
    ensures !Found(v, o) ==> Visible(v, o).Spent?
  {
    if v.Cache? {
      FoundOrSpent(v.base, o);
    }
  }

  /** Reading fills caches at every level and shows nothing different anywhere. */
  lemma {:induction false} FetchKeepsView(v: View, o: OutPoint)
    requires Valid(v)
    ensures Valid(Fetch(v, o))
    ensures forall p :: Visible(Fetch(v, o), p) == Visible(v, p)
  {
    if v.Cache? {
      FetchKeepsView(v.base, o);
      FoundOrSpent(v.base, o);
    }
  }

  lemma {:induction false} FetchKeepsSnapshots(v: View, o: OutPoint)
    requires Valid(v)
    ensures Snapshots(Fetch(v, o)) == Snapshots(v)
  {
    if v.Cache? && o !in v.entries {
      FetchKeepsSnapshots(v.base, o);
      FetchKeepsView(v, o);
      SameVisibleSameContents(v, Fetch(v, o));
    }
  }

  lemma AddIsInsert(v: View, o: OutPoint, coin: Coin, possibleOverwrite: bool)
    requires Valid(v) && v.Cache? && coin.Unspent?
    requires !possibleOverwrite ==> Visible(v, o).Spent?
    ensures !AddThrows(v, o, coin, possibleOverwrite)
    ensures var w := Add(v, o, coin, possibleOverwrite);
            Valid(w) && w.base == v.base
            && Contents(w) == if Unspendable(coin.out) then Contents(v) else Contents(v)[o := coin]
  {
    var w := Add(v, o, coin, possibleOverwrite);
    ContentsAreVisible(v);
    assert o in v.entries ==> EntryValid(v.entries[o], Visible(v.base, o));
    if !Unspendable(coin.out) {
      assert forall p :: Visible(w, p) == if p == o then coin else Visible(v, p);
      assert forall p :: p in w.entries && p != o ==> p in v.entries && w.entries[p] == v.entries[p];
      ContentsDetermined(w, Contents(v)[o := coin]);
    }
  }

  /**
    The duty is exact: adding over a visible coin without permission either throws or
    misapplies FRESH, and then spending the new coin brings the old one back.
  */
  lemma AddNeedsDuty(v: View, o: OutPoint, coin: Coin)
    requires Valid(v) && v.Cache? && coin.Unspent? && !Unspendable(coin.out)
    requires Visible(v, o).Unspent?
    ensures AddThrows(v, o, coin, false) <==> o in v.entries
    ensures o !in v.entries ==>
              var w := Add(v, o, coin, false);
              !Valid(w) && Visible(Spend(w, o), o) == Visible(v, o)
  {
    if o !in v.entries {
      var w := Add(v, o, coin, false);
      assert o in w.entries && !EntryValid(w.entries[o], Visible(w.base, o));
    }
  }

  lemma SpendIsRemove(v: View, o: OutPoint)
    requires Valid(v) && v.Cache?
    ensures var w := Spend(v, o);
            Valid(w) && Snapshots(w.base) == Snapshots(v.base)
            && Contents(w) == Contents(v) - {o}
  {
    var f, w := Fetch(v, o), Spend(v, o);
    FetchKeepsView(v, o);
    assert f.base == v.base || f.base == Fetch(v.base, o);
    FetchKeepsSnapshots(v.base, o);
    FoundOrSpent(v, o);
    FoundInEntries(v, o);
    SpendFetched(f, o);
    SameVisibleSameContents(v, f);
  }

  lemma FoundInEntries(v: View, o: OutPoint)
    requires v.Cache?
    ensures Fetch(v, o).Cache? && (o in Fetch(v, o).entries <==> Found(v, o))
  {
  }

  /** Spending once the record is in the cache, if there is one. */
  lemma SpendFetched(f: View, o: OutPoint)
    requires Valid(f) && f.Cache? && (o !in f.entries ==> Visible(f, o).Spent?)
    ensures var w := SpendCached(f, o);
            Valid(w) && w.base == f.base && Contents(w) == Contents(f) - {o}
  {
    var w := SpendCached(f, o);
    ContentsAreVisible(f);
    assert o in f.entries ==> EntryValid(f.entries[o], Visible(f.base, o));
    assert forall p :: p in w.entries && p != o ==> p in f.entries && w.entries[p] == f.entries[p];
    assert forall p :: Visible(w, p) == if p == o then Spent else Visible(f, p);
    ContentsDetermined(w, Contents(f) - {o});
  }

  lemma UncacheKeepsView(v: View, o: OutPoint)
    requires Valid(v) && v.Cache?
    ensures Valid(Uncache(v, o)) && Uncache(v, o).base == v.base
    ensures forall p :: Visible(Uncache(v, o), p) == Visible(v, p)
  {
  }

  lemma BatchWriteShowsChild(b: View, child: CoinsMap, p: OutPoint)
    requires Valid(b) && Valid(Cache(child, b))
    requires !FlushThrows(Cache(child, b))
    ensures Visible(BatchWrite(b, child), p) == Visible(Cache(child, b), p)
  {
    assert p in child ==> EntryValid(child[p], Visible(b, p));
    if b.Cache? {
      assert p in b.entries ==> EntryValid(b.entries[p], Visible(b.base, p));
      assert p in Merge(b.entries, child) <==> p in MergeAt(b.entries, child, p);
    }
  }

  lemma BatchWriteKeepsFlags(b: View, child: CoinsMap)
    requires Valid(b) && Valid(Cache(child, b))
    requires !FlushThrows(Cache(child, b))
    ensures Valid(BatchWrite(b, child))
  {
    if b.Cache? {
      forall o | o in Merge(b.entries, child)
        ensures EntryValid(Merge(b.entries, child)[o], Visible(b.base, o))
      {
        assert o in child ==> EntryValid(child[o], Visible(b, o));
        assert o in b.entries ==> EntryValid(b.entries[o], Visible(b.base, o));
      }
    }
  }

  /** A flush never trips over a misapplied FRESH flag, and shows the same coins afterwards. */
  lemma FlushKeepsView(v: View)
    requires Valid(v) && v.Cache?
    ensures !FlushThrows(v)
    ensures Valid(Flush(v)) && Flush(v).Cache?
    ensures forall p :: Visible(Flush(v), p) == Visible(v, p)
    ensures forall p :: Visible(Flush(v).base, p) == Visible(v, p)
    ensures v.base.Cache? ==> Flush(v).base.Cache? && Flush(v).base.base == v.base.base
    ensures v.base.Store? ==> Flush(v).base.Store?
  {
    forall o | o in v.entries && v.base.Cache?
      ensures !Misapplied(v.base.entries, o, v.entries[o])
    {
      assert EntryValid(v.entries[o], Visible(v.base, o));
    }
    forall p ensures Visible(Flush(v), p) == Visible(v, p) == Visible(Flush(v).base, p) {
      BatchWriteShowsChild(v.base, v.entries, p);
    }
    BatchWriteKeepsFlags(v.base, v.entries);
  }

  // ------------------------------------------------------- stacks and runs

  /** The plain maps shown at each level, the store first and the top cache last. */
  ghost function Snapshots(v: View): (s: seq<map<OutPoint, Coin>>)
    ensures |s| == Depth(v) + 1
  {
    match v
    case Store(m) => [m]
    case Cache(_, b) => Snapshots(b) + [Contents(v)]
  }

  /** Number of caches in the stack. */
  function Depth(v: View): nat {
    match v
    case Store(_) => 0
    case Cache(_, b) => 1 + Depth(b)
  }

  /** Operations name a cache by its level, 1 for the one on the store; writes go to the top. */
  datatype Op =
    | Get(level: nat, o: OutPoint)
    | Drop(level: nat, o: OutPoint)
    | Sync(level: nat)
    | Insert(o: OutPoint, coin: Coin, possibleOverwrite: bool)
    | Remove(o: OutPoint)
    | Push
    | Pop

  predicate Enabled(depth: nat, op: Op) {
    match op
    case Get(level, _) => 1 <= level <= depth
    case Drop(level, _) => 1 <= level <= depth
    case Sync(level) => 1 <= level <= depth
    case Insert(_, coin, _) => 1 <= depth && coin.Unspent?
    case Remove(_) => 1 <= depth
    case Push => true
    case Pop => 1 <= depth
  }

  /** Performs a read, uncache or flush on the cache at the given level. */
  ghost function AtLevel(v: View, level: nat, op: Op): View
    requires 1 <= level <= Depth(v)
    requires op.Get? || op.Drop? || op.Sync?
  {
    if level < Depth(v) then v.(base := AtLevel(v.base, level, op))
    else match op
      case Get(_, o) => Fetch(v, o)
      case Drop(_, o) => Uncache(v, o)
      case Sync(_) => Flush(v)
  }

  /** The cache stack's step. */
  ghost function Step(v: View, op: Op): View
    requires Enabled(Depth(v), op)
  {
    match op
    case Insert(o, coin, possibleOverwrite) => Add(v, o, coin, possibleOverwrite)
    case Remove(o) => Spend(v, o)
    case Push => Cache(map[], v)
    case Pop => v.base
    case _ => AtLevel(v, op.level, op)
  }

  /** What the operation returns: the coin read or spent. */
  function Output(v: View, op: Op): Coin
    requires Enabled(Depth(v), op)
  {
    match op
    case Get(level, o) => Visible(Level(v, level), o)
    case Remove(o) => Visible(v, o)
    case _ => Spent
  }

  function Level(v: View, level: nat): (w: View)
    requires level <= Depth(v)
    ensures Depth(w) == level
  {
    if level < Depth(v) then Level(v.base, level) else v
  }

  /** An AddCoin or BatchWrite exception. */
  ghost predicate Throws(v: View, op: Op)
    requires Enabled(Depth(v), op)
  {
    match op
    case Insert(o, coin, possibleOverwrite) => AddThrows(v, o, coin, possibleOverwrite)
    case Sync(level) => FlushThrows(Level(v, level))
    case _ => false
  }

  /** The same operations on a stack of plain maps. */
  ghost function PlainStep(s: seq<map<OutPoint, Coin>>, op: Op): (t: seq<map<OutPoint, Coin>>)
    requires |s| > 0 && Enabled(|s| - 1, op)
    ensures |t| > 0
  {
    var top := |s| - 1;
    match op
    case Sync(level) => s[level - 1 := s[level]]
    case Insert(o, coin, _) => if Unspendable(coin.out) then s else s[top := s[top][o := coin]]
    case Remove(o) => s[top := s[top] - {o}]
    case Push => s + [s[top]]
    case Pop => s[..top]
    case _ => s
  }

  function PlainOutput(s: seq<map<OutPoint, Coin>>, op: Op): Coin
    requires |s| > 0 && Enabled(|s| - 1, op)
  {
    match op
    case Get(level, o) => if o in s[level] then s[level][o] else Spent
    case Remove(o) => if o in s[|s| - 1] then s[|s| - 1][o] else Spent
    case _ => Spent
  }

  /** The caller's only duty: an insertion that rules out overwriting overwrites nothing. */
  predicate CallerDuty(s: seq<map<OutPoint, Coin>>, op: Op)
    requires |s| > 0
  {
    op.Insert? && !op.possibleOverwrite ==> op.o !in s[|s| - 1]
  }

  lemma {:induction false} LevelSnapshot(v: View, level: nat)
    requires Valid(v) && level <= Depth(v)
    ensures Valid(Level(v, level))
    ensures Snapshots(v)[level] == Contents(Level(v, level))
  {
    if level < Depth(v) {
      LevelSnapshot(v.base, level);
    }
  }

  /** Swapping the base of a cache for one that shows the same coins keeps the cache valid. */
  lemma RebaseKeepsView(v: View, b: View)
    requires Valid(v) && v.Cache? && Valid(b)
    requires forall p :: Visible(b, p) == Visible(v.base, p)
    ensures Valid(v.(base := b)) && Contents(v.(base := b)) == Contents(v)
    ensures forall p :: Visible(v.(base := b), p) == Visible(v, p)
  {
    ContentsAreVisible(v);
    var w := v.(base := b);
    assert forall p :: Visible(w, p) == Visible(v, p);
    ContentsDetermined(w, Contents(v));
  }

  lemma SameVisibleSameContents(v: View, w: View)
    requires Valid(v) && Valid(w)
    requires forall p :: Visible(v, p) == Visible(w, p)
    ensures Contents(v) == Contents(w)
  {
    ContentsAreVisible(v);
    ContentsAreVisible(w);
  }

  lemma FlushSnapshots(v: View, w: View)
    requires Valid(v) && v.Cache? && Valid(w) && w.Cache?
    requires forall p :: Visible(w, p) == Visible(v, p)
    requires forall p :: Visible(w.base, p) == Visible(v, p)
    requires (v.base.Store? && w.base.Store?)
             || (v.base.Cache? && w.base.Cache? && w.base.base == v.base.base)
    ensures Snapshots(w) == Snapshots(v)[Depth(v) - 1 := Contents(v)]
  {
    hide Valid, Visible, Contents;
    BaseValid(w);
    SameVisibleSameContents(v, w);
    SameVisibleSameContents(v, w.base);
    StoreSnapshot(v.base);
    StoreSnapshot(w.base);
  }

  lemma StoreSnapshot(v: View)
    ensures v.Store? ==> Snapshots(v) == [Contents(v)]
  {
  }

  lemma {:induction false} AtLevelRefines(v: View, level: nat, op: Op)
    requires Valid(v) && 1 <= level <= Depth(v)
    requires op.Get? || op.Drop? || op.Sync?
    ensures Valid(AtLevel(v, level, op)) && Depth(AtLevel(v, level, op)) == Depth(v)
    ensures forall p :: Visible(AtLevel(v, level, op), p) == Visible(v, p)
    ensures Snapshots(AtLevel(v, level, op)) ==
            if op.Sync? then Snapshots(v)[level - 1 := Snapshots(v)[level]] else Snapshots(v)
  {
    hide Valid, Visible, Snapshots;
    if level < Depth(v) {
      BaseValid(v);
      AtLevelRefines(v.base, level, op);
      Above(v, AtLevel(v.base, level, op), level, op.Sync?);
    } else {
      TopRefines(v, op);
    }
  }

  lemma BaseValid(v: View)
    requires Valid(v) && v.Cache?
    ensures Valid(v.base)
  {
  }

  /** What happens below the top of a stack happens to the stack. */
  lemma Above(v: View, b: View, level: nat, sync: bool)
    requires Valid(v) && v.Cache? && Valid(b) && Depth(b) == Depth(v.base) && 1 <= level <= Depth(b)
    requires forall p :: Visible(b, p) == Visible(v.base, p)
    requires Snapshots(b) ==
               if sync then Snapshots(v.base)[level - 1 := Snapshots(v.base)[level]] else Snapshots(v.base)
    ensures Valid(v.(base := b)) && Depth(v.(base := b)) == Depth(v)
    ensures forall p :: Visible(v.(base := b), p) == Visible(v, p)
    ensures Snapshots(v.(base := b)) == if sync then Snapshots(v)[level - 1 := Snapshots(v)[level]] else Snapshots(v)
  {
    RebaseKeepsView(v, b);
  }

  lemma TopRefines(v: View, op: Op)
    requires Valid(v) && 1 <= Depth(v)
    requires op.Get? || op.Drop? || op.Sync?
    ensures Valid(AtLevel(v, Depth(v), op)) && Depth(AtLevel(v, Depth(v), op)) == Depth(v)
    ensures forall p :: Visible(AtLevel(v, Depth(v), op), p) == Visible(v, p)
    ensures Snapshots(AtLevel(v, Depth(v), op)) ==
            if op.Sync? then Snapshots(v)[Depth(v) - 1 := Snapshots(v)[Depth(v)]] else Snapshots(v)
  {
    match op
    case Get(_, o) =>
      FetchKeepsView(v, o);
      FetchKeepsSnapshots(v, o);
    case Drop(_, o) =>
      UncacheKeepsView(v, o);
      SameVisibleSameContents(v, Uncache(v, o));
    case Sync(_) =>
      FlushKeepsView(v);
      FlushSnapshots(v, Flush(v));
  }

  /** Every step of the cache stack is the same step of the plain stack, and none throws. */
  lemma StepRefines(v: View, op: Op)
    requires Valid(v) && Enabled(Depth(v), op)
    requires CallerDuty(Snapshots(v), op)
    ensures !Throws(v, op)
    ensures Valid(Step(v, op))
    ensures Snapshots(Step(v, op)) == PlainStep(Snapshots(v), op)
    ensures Output(v, op) == PlainOutput(Snapshots(v), op)
  {
    if op.Insert? || op.Remove? || op.Push? || op.Pop? {
      TopStepRefines(v, op);
    } else {
      LevelStepRefines(v, op);
    }
  }

  lemma TopStepRefines(v: View, op: Op)
    requires Valid(v) && Enabled(Depth(v), op) && (op.Insert? || op.Remove? || op.Push? || op.Pop?)
    requires CallerDuty(Snapshots(v), op)
    ensures !Throws(v, op)
    ensures Valid(Step(v, op))
    ensures Snapshots(Step(v, op)) == PlainStep(Snapshots(v), op)
    ensures Output(v, op) == PlainOutput(Snapshots(v), op)
  {
    hide Valid, Visible, Contents, Add, Spend, AddThrows;
    TopSnapshot(v);
    match op
    case Insert(o, coin, possibleOverwrite) =>
      InsertSnapshots(v, o, coin, possibleOverwrite);
    case Remove(o) =>
      RemoveSnapshots(v, o);
    case Push =>
      PushSnapshots(v);
    case Pop =>
      BaseValid(v);
  }

  lemma TopSnapshot(v: View)
    requires Valid(v)
    ensures Snapshots(v)[Depth(v)] == Contents(v)
    ensures forall o :: Visible(v, o) == if o in Contents(v) then Contents(v)[o] else Spent
  {
    ContentsAreVisible(v);
  }

  lemma InsertSnapshots(v: View, o: OutPoint, coin: Coin, possibleOverwrite: bool)
    requires Valid(v) && v.Cache? && coin.Unspent? && (!possibleOverwrite ==> o !in Contents(v))
    ensures !AddThrows(v, o, coin, possibleOverwrite) && Valid(Add(v, o, coin, possibleOverwrite))
    ensures Snapshots(Add(v, o, coin, possibleOverwrite)) ==
            if Unspendable(coin.out) then Snapshots(v) else Snapshots(v)[Depth(v) := Contents(v)[o := coin]]
  {
    TopSnapshot(v);
    AddIsInsert(v, o, coin, possibleOverwrite);
  }

  lemma RemoveSnapshots(v: View, o: OutPoint)
    requires Valid(v) && v.Cache?
    ensures Valid(Spend(v, o)) && Snapshots(Spend(v, o)) == Snapshots(v)[Depth(v) := Contents(v) - {o}]
  {
    SpendIsRemove(v, o);
  }

  lemma PushSnapshots(v: View)
    requires Valid(v)
    ensures Valid(Cache(map[], v)) && Snapshots(Cache(map[], v)) == Snapshots(v) + [Contents(v)]
  {
    SameVisibleSameContents(v, Cache(map[], v));
  }

  lemma LevelStepRefines(v: View, op: Op)
    requires Valid(v) && Enabled(Depth(v), op) && (op.Get? || op.Drop? || op.Sync?)
    ensures !Throws(v, op)
    ensures Valid(Step(v, op))
    ensures Snapshots(Step(v, op)) == PlainStep(Snapshots(v), op)
    ensures Output(v, op) == PlainOutput(Snapshots(v), op)
  {
    hide Valid, Visible, Contents, AtLevel, Snapshots, Level, FlushThrows;
    match op
    case Get(level, o) =>
      AtLevelRefines(v, level, op);
      LevelSnapshot(v, level);
      ContentsAreVisible(Level(v, level));
    case Drop(level, _) =>
      AtLevelRefines(v, level, op);
    case Sync(level) =>
      AtLevelRefines(v, level, op);
      LevelSnapshot(v, level);
      FlushKeepsView(Level(v, level));
  }

  /** A caller's history, judged on the plain maps alone: each operation exists and keeps the duty. */
  ghost predicate Legal(s: seq<map<OutPoint, Coin>>, ops: seq<Op>)
    decreases |ops|
  {
    ops == [] ||
    (|s| > 0 && Enabled(|s| - 1, ops[0]) && CallerDuty(s, ops[0]) && Legal(PlainStep(s, ops[0]), ops[1..]))
  }

  /** One line of a trace: what came back, and whether an exception was raised. */
  datatype Event = Event(output: Coin, threw: bool)

  datatype Trace<S> = Trace(final: S, events: seq<Event>)

  ghost function Run(v: View, ops: seq<Op>): Trace<View>
    decreases |ops|
  {
    if ops == [] || !Enabled(Depth(v), ops[0]) then Trace(v, [])
    else
      var rest := Run(Step(v, ops[0]), ops[1..]);
      Trace(rest.final, [Event(Output(v, ops[0]), Throws(v, ops[0]))] + rest.events)
  }

  /** The plain stack never raises an exception. */
  ghost function PlainRun(s: seq<map<OutPoint, Coin>>, ops: seq<Op>): Trace<seq<map<OutPoint, Coin>>>
    requires |s| > 0
    decreases |ops|
  {
    if ops == [] || !Enabled(|s| - 1, ops[0]) then Trace(s, [])
    else
      var rest := PlainRun(PlainStep(s, ops[0]), ops[1..]);
      Trace(rest.final, [Event(PlainOutput(s, ops[0]), false)] + rest.events)
  }

  /**
    Over every history of any length on any number of caches: the coins shown at each
    level, and every value returned, are those of the stack of plain maps; the flags
    keep their meaning; and no exception is reachable.
  */
  lemma {:induction false} RunRefines(v: View, ops: seq<Op>)
    requires Valid(v) && Legal(Snapshots(v), ops)
    ensures Valid(Run(v, ops).final)
    ensures Snapshots(Run(v, ops).final) == PlainRun(Snapshots(v), ops).final
    ensures Run(v, ops).events == PlainRun(Snapshots(v), ops).events
    ensures |Run(v, ops).events| == |ops|
    decreases |ops|
  {
    if ops != [] {
      StepRefines(v, ops[0]);
      RunRefines(Step(v, ops[0]), ops[1..]);
    }
  }
}
