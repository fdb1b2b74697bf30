/**
What reading gives for any stream, written by Serialize or not: the entries are numbered as they
come, take the slots they can, and those without a slot are deleted. Tables, random order and
counters are right for every stream. Names and times are right exactly when the records allow it.
*/
module AddrRead {
  import opened AddrSpec
  import opened AddrSteps
  import opened AddrDisk

  // ------------------------------------------------------------------ steps

  /** An entry without slots, under the next id. */
  function Push(s: State, i: Info): State {
    s.(idCount := s.idCount + 1,
       infos := s.infos[s.idCount := i.(randomPos := |s.random|)],
       ids := s.ids[i.service.ip := s.idCount],
       random := s.random + [s.idCount])
  }

  /** A new entry: without a usable table it takes the slot of its primary source, if that is free. */
  function AddNew(h: Hashes, s: State, r: Record, sameTable: bool): State {
    var t, u := Push(s, FromRecord(r)), NewSlot(h, s.key, r.service, r.source);
    if sameTable || u in s.news then t else Ref(t, u, s.idCount)
  }

  /** A tried entry, unless its slot is taken. */
  function AddTried(h: Hashes, s: State, r: Record): State {
    var k := TriedSlot(h, s.key, r.service);
    if k in s.tried then s else Try(Push(s, FromRecord(r)), k, s.idCount)
  }

  /** One index of a bucket. */
  function AddIndex(h: Hashes, s: State, nNew: nat, bucket: nat, n: int): State {
    if 0 <= n < nNew && n in s.infos && s.infos[n].refCount < NEW_BUCKETS_PER_ADDRESS
       && SlotIn(h, s.key, bucket, s.infos[n].service) !in s.news
    then Ref(s, SlotIn(h, s.key, bucket, s.infos[n].service), n)
    else s
  }

  /** An entry that has no slot. */
  predicate Unplaced(i: Info) {
    !i.inTried && i.refCount == 0
  }

  function DeleteUnplaced(s: State, id: int): State {
    if id in s.infos && Unplaced(s.infos[id]) then Delete(s, id) else s
  }

  // ------------------------------------------------------------------- runs

  function AddNews(h: Hashes, s: State, rs: seq<Record>, n: nat, sameTable: bool): State
    requires n <= |rs|
  {
    if n == 0 then s else AddNew(h, AddNews(h, s, rs, n - 1, sameTable), rs[n - 1], sameTable)
  }

  function AddTrieds(h: Hashes, s: State, rs: seq<Record>, n: nat): State
    requires n <= |rs|
  {
    if n == 0 then s else AddTried(h, AddTrieds(h, s, rs, n - 1), rs[n - 1])
  }

  function AddBucket(h: Hashes, s: State, nNew: nat, bucket: nat, list: seq<int>, n: nat): State
    requires n <= |list|
  {
    if n == 0 then s else AddIndex(h, AddBucket(h, s, nNew, bucket, list, n - 1), nNew, bucket, list[n - 1])
  }

  function AddBuckets(h: Hashes, s: State, nNew: nat, buckets: seq<seq<int>>, n: nat): State
    requires n <= |buckets|
  {
    if n == 0 then s else
      AddBucket(h, AddBuckets(h, s, nNew, buckets, n - 1), nNew, n - 1, buckets[n - 1], |buckets[n - 1]|)
  }

  function Prune(s: State, n: nat): State {
    if n == 0 then s else DeleteUnplaced(Prune(s, n - 1), n - 1)
  }

  /** The count of tried entries has no part in reading new ones. */
  lemma AddNewCount(h: Hashes, s: State, r: Record, sameTable: bool, n: int)
    ensures AddNew(h, s.(nTried := n), r, sameTable) == AddNew(h, s, r, sameTable).(nTried := n)
  {
    hide NewSlot, Push, Ref;
    var i, u := FromRecord(r), NewSlot(h, s.key, r.service, r.source);
    PushCount(s, i, n);
    if !sameTable && u !in s.news {
      RefCount(Push(s, i), u, s.idCount, n);
    }
  }

  lemma PushCount(s: State, i: Info, n: int)
    ensures Push(s.(nTried := n), i) == Push(s, i).(nTried := n) && s.idCount in Push(s, i).infos
  {
  }

  lemma RefCount(s: State, u: Slot, id: int, n: int)
    requires id in s.infos
    ensures Ref(s.(nTried := n), u, id) == Ref(s, u, id).(nTried := n)
  {
  }

  // ---------------------------------------------------------------- streams

  /** A 32-bit word read as a signed integer. */
  function Signed(x: bv32): int {
    if x < 0x8000_0000 then x as int else x as int - 0x1_0000_0000
  }

  function BucketCount(d: Stream): bv32 {
    if d.version != 0 then d.nUBuckets ^ 0x4000_0000 else d.nUBuckets
  }

  predicate SameTable(d: Stream) {
    d.version == 1 && BucketCount(d) == 1024
  }

  /** A stream that is long enough for the counts in its header. */
  predicate Complete(d: Stream) {
    d.nNew <= |d.newRecords| && d.nTried <= |d.triedRecords| && Signed(BucketCount(d)) <= |d.buckets|
  }

  predicate Readable(d: Stream) {
    && d.keySize == 32 && d.nNew <= NEW_BUCKET_COUNT * BUCKET_SIZE && d.nTried <= TRIED_BUCKET_COUNT * BUCKET_SIZE
    && Complete(d)
  }

  function Header(d: Stream): State {
    Empty(d.key).(nNew := d.nNew)
  }

  function AllNews(h: Hashes, d: Stream): State
    requires Complete(d)
  {
    AddNews(h, Header(d), d.newRecords, d.nNew, SameTable(d))
  }

  function AllTried(h: Hashes, d: Stream): State
    requires Complete(d)
  {
    AddTrieds(h, AllNews(h, d), d.triedRecords, d.nTried)
  }

  /** The manager before entries without a slot are deleted. */
  function Filled(h: Hashes, d: Stream): State
    requires Complete(d)
  {
    if SameTable(d) then AddBuckets(h, AllTried(h, d), d.nNew, d.buckets, NEW_BUCKET_COUNT) else AllTried(h, d)
  }

  function Read(h: Hashes, d: Stream): State
    requires Complete(d)
  {
    Prune(Filled(h, d), Filled(h, d).idCount)
  }

  // -------------------------------------------------------- while filling up

  ghost function Waiting(infos: map<int, Info>): set<int> {
    set id | id in infos && Unplaced(infos[id])
  }

  /** The name of an address is that of its last entry. */
  predicate Latest(s: State, id: int)
    requires id in s.infos
  {
    0 <= id < s.idCount && s.infos[id].service.ip in s.ids && id <= s.ids[s.infos[id].service.ip]
  }

  ghost predicate LastNamed(s: State) {
    && (forall id :: id in s.infos ==> Latest(s, id))
    && (forall ip :: ip in s.ids ==> OwnerOk(s, ip))
  }

  /** Everything but names and times, where entries may still wait for a slot. */
  ghost predicate Tables(h: Hashes, s: State, gap: int) {
    RandomOk(s) && TriedOk(h, s) && NewsOk(h, s) && Counted(s, gap) && Referenced(s, Waiting(s.infos))
  }

  ghost predicate Filling(h: Hashes, s: State, gap: int) {
    Tables(h, s, gap) && LastNamed(s)
  }

  /** The entries below n are outside the tried table. */
  ghost predicate FreshBelow(s: State, n: nat) {
    forall id :: id in s.infos && id < n ==> !s.infos[id].inTried
  }

  lemma StartsFilling(h: Hashes, d: Stream)
    ensures Filling(h, Header(d), 0 - d.nNew)
  {
  }

  lemma NextIdFree(s: State)
    requires LastNamed(s)
    ensures s.idCount !in s.infos
  {
    assert s.idCount in s.infos ==> Latest(s, s.idCount);
  }

  lemma PushNames(s: State, i: Info)
    requires LastNamed(s)
    ensures LastNamed(Push(s, i))
  {
    var t := Push(s, i);
    NextIdFree(s);
    forall id | id in t.infos ensures Latest(t, id) {
      assert id != s.idCount ==> Latest(s, id);
    }
    forall ip | ip in t.ids ensures OwnerOk(t, ip) {
      assert ip != i.service.ip ==> OwnerOk(s, ip);
    }
  }

  lemma PushRandom(s: State, i: Info)
    requires RandomOk(s) && s.idCount !in s.infos
    ensures RandomOk(Push(s, i))
  {
    var t := Push(s, i);
    forall id | id in t.infos ensures PlaceOk(t, id) {
      assert id != s.idCount ==> PlaceOk(s, id);
    }
    forall j | 0 <= j < |t.random| ensures ListedOk(t, j) {
      assert j < |s.random| ==> ListedOk(s, j);
    }
  }

  lemma PushFills(h: Hashes, s: State, i: Info, gap: int)
    requires Filling(h, s, gap) && Unplaced(i)
    ensures s.idCount !in s.infos && Filling(h, Push(s, i), gap + 1)
  {
    hide RandomOk, TriedOk, NewsOk, LastNamed;
    var t := Push(s, i);
    NextIdFree(s);
    PushNames(s, i);
    PushRandom(s, i);
    TriedKeep(h, s, t);
    NewsKeep(h, s, t);
    OneMoreFresh(s.infos, t.infos, s.idCount);
    assert Waiting(t.infos) == Waiting(s.infos) + {s.idCount};
  }

  lemma NamesStay(s: State, t: State)
    requires LastNamed(s) && t.ids == s.ids && t.idCount == s.idCount && forall id :: SameService(s, t, id)
    ensures LastNamed(t)
  {
    forall id | id in t.infos ensures Latest(t, id) {
      assert SameService(s, t, id) && Latest(s, id);
    }
    forall ip | ip in t.ids ensures OwnerOk(t, ip) {
      assert SameService(s, t, s.ids[ip]) && OwnerOk(s, ip);
    }
  }

  lemma RefFills(h: Hashes, s: State, u: Slot, id: int, gap: int)
    requires Filling(h, s, gap) && id in s.infos && !s.infos[id].inTried
    requires u !in s.news && u.bucket < NEW_BUCKET_COUNT && u == SlotIn(h, s.key, u.bucket, s.infos[id].service)
    requires s.infos[id].refCount < NEW_BUCKETS_PER_ADDRESS
    ensures Filling(h, Ref(s, u, id), gap)
  {
    hide RandomOk, TriedOk, NewsOk, LastNamed;
    var t := Ref(s, u, id);
    RefsNatural(h, s, id);
    RefKeepsNews(h, s, u, id);
    RandomKeep(s, t);
    TriedKeep(h, s, t);
    CountedKeep(s, t, gap);
    NamesStay(s, t);
    assert Waiting(t.infos) == Waiting(s.infos) - {id};
  }

  lemma TryFills(h: Hashes, s: State, k: Slot, id: int, gap: int)
    requires Filling(h, s, gap) && id in s.infos && Unplaced(s.infos[id])
    requires k == TriedSlot(h, s.key, s.infos[id].service) && k !in s.tried
    ensures Filling(h, Try(s, k, id), gap - 1)
  {
    hide RandomOk, TriedOk, NewsOk, LastNamed;
    var t := Try(s, k, id);
    TryKeepsTables(h, s, k, id);
    RandomKeep(s, t);
    ChangeSides(s.infos, t.infos, id);
    NamesStay(s, t);
    assert Waiting(t.infos) == Waiting(s.infos) - {id};
  }

  lemma AddNewFills(h: Hashes, s: State, r: Record, sameTable: bool, gap: int)
    requires Filling(h, s, gap) && FreshBelow(s, s.idCount)
    ensures Filling(h, AddNew(h, s, r, sameTable), gap + 1)
    ensures AddNew(h, s, r, sameTable).idCount == s.idCount + 1 && FreshBelow(AddNew(h, s, r, sameTable), s.idCount + 1)
  {
    hide Filling;
    PushFills(h, s, FromRecord(r), gap);
    var t, u := Push(s, FromRecord(r)), NewSlot(h, s.key, r.service, r.source);
    if !sameTable && u !in s.news {
      RefFills(h, t, u, s.idCount, gap + 1);
    }
  }

  lemma {:induction false} AddNewsFill(h: Hashes, s: State, rs: seq<Record>, n: nat, sameTable: bool, gap: int)
    requires n <= |rs| && Filling(h, s, gap) && s.idCount == 0 && FreshBelow(s, 0)
    ensures var t := AddNews(h, s, rs, n, sameTable);
            Filling(h, t, gap + n) && t.idCount == n && FreshBelow(t, n)
  {
    hide Filling, FreshBelow, AddNew;
    if n > 0 {
      AddNewsFill(h, s, rs, n - 1, sameTable, gap);
      AddNewFills(h, AddNews(h, s, rs, n - 1, sameTable), rs[n - 1], sameTable, gap + n - 1);
    }
  }

  lemma AddTriedFills(h: Hashes, s: State, r: Record, n: nat, gap: int)
    requires Filling(h, s, gap) && FreshBelow(s, n) && n <= s.idCount
    ensures Filling(h, AddTried(h, s, r), gap)
    ensures AddTried(h, s, r).idCount >= s.idCount && FreshBelow(AddTried(h, s, r), n)
  {
    hide Filling;
    var k := TriedSlot(h, s.key, r.service);
    if k !in s.tried {
      PushFills(h, s, FromRecord(r), gap);
      TryFills(h, Push(s, FromRecord(r)), k, s.idCount, gap + 1);
    }
  }

  lemma {:induction false} AddTriedsFill(h: Hashes, s: State, rs: seq<Record>, j: nat, n: nat, gap: int)
    requires j <= |rs| && Filling(h, s, gap) && FreshBelow(s, n) && n <= s.idCount
    ensures var t := AddTrieds(h, s, rs, j);
            Filling(h, t, gap) && t.idCount >= n && FreshBelow(t, n)
  {
    hide Filling, FreshBelow, AddTried;
    if j > 0 {
      AddTriedsFill(h, s, rs, j - 1, n, gap);
      AddTriedFills(h, AddTrieds(h, s, rs, j - 1), rs[j - 1], n, gap);
    }
  }

  lemma AddIndexFills(h: Hashes, s: State, nNew: nat, bucket: nat, n: int, gap: int)
    requires Filling(h, s, gap) && FreshBelow(s, nNew) && bucket < NEW_BUCKET_COUNT
    ensures Filling(h, AddIndex(h, s, nNew, bucket, n), gap) && FreshBelow(AddIndex(h, s, nNew, bucket, n), nNew)
  {
    hide Filling;
    if 0 <= n < nNew && n in s.infos && s.infos[n].refCount < NEW_BUCKETS_PER_ADDRESS {
      var u := SlotIn(h, s.key, bucket, s.infos[n].service);
      if u !in s.news {
        RefFills(h, s, u, n, gap);
      }
    }
  }

  lemma {:induction false} AddBucketFills(
      h: Hashes, s: State, nNew: nat, bucket: nat, list: seq<int>, n: nat, gap: int)
    requires n <= |list| && Filling(h, s, gap) && FreshBelow(s, nNew) && bucket < NEW_BUCKET_COUNT
    ensures var t := AddBucket(h, s, nNew, bucket, list, n);
            Filling(h, t, gap) && FreshBelow(t, nNew)
  {
    hide Filling, FreshBelow, AddIndex;
    if n > 0 {
      AddBucketFills(h, s, nNew, bucket, list, n - 1, gap);
      AddIndexFills(h, AddBucket(h, s, nNew, bucket, list, n - 1), nNew, bucket, list[n - 1], gap);
    }
  }

  lemma {:induction false} AddBucketsFill(h: Hashes, s: State, nNew: nat, buckets: seq<seq<int>>, n: nat, gap: int)
    requires n <= |buckets| && n <= NEW_BUCKET_COUNT && Filling(h, s, gap) && FreshBelow(s, nNew)
    ensures var t := AddBuckets(h, s, nNew, buckets, n);
            Filling(h, t, gap) && FreshBelow(t, nNew)
  {
    hide Filling, FreshBelow, AddBucket;
    if n > 0 {
      AddBucketsFill(h, s, nNew, buckets, n - 1, gap);
      AddBucketFills(h, AddBuckets(h, s, nNew, buckets, n - 1), nNew, n - 1, buckets[n - 1], |buckets[n - 1]|, gap);
    }
  }

  lemma FilledFills(h: Hashes, d: Stream)
    requires Complete(d)
    ensures Filling(h, Filled(h, d), 0)
  {
    hide Filling, FreshBelow, AddNews, AddTrieds, AddBuckets;
    StartsFilling(h, d);
    NoneBelow(Header(d));
    AddNewsFill(h, Header(d), d.newRecords, d.nNew, SameTable(d), 0 - d.nNew);
    AddTriedsFill(h, AllNews(h, d), d.triedRecords, d.nTried, d.nNew, 0);
    if SameTable(d) {
      AddBucketsFill(h, AllTried(h, d), d.nNew, d.buckets, NEW_BUCKET_COUNT, 0);
    }
  }

  lemma NoneBelow(s: State)
    requires s.infos == map[]
    ensures FreshBelow(s, 0)
  {
  }

  // ---------------------------------------------------------------- pruning

  /** Whether an entry is among those that are deleted before the n-th. */
  predicate Goes(p: State, n: nat, id: int) {
    id in p.infos && id < n && Unplaced(p.infos[id])
  }

  /** What is left of an entry and of a name when the unplaced entries below n are gone. */
  predicate EntryLeft(p: State, s: State, n: nat, id: int) {
    && (id in s.infos <==> id in p.infos && !Goes(p, n, id))
    && (id in s.infos ==> s.infos[id] == p.infos[id].(randomPos := s.infos[id].randomPos))
  }

  ghost predicate NameLeft(p: State, s: State, n: nat, ip: NetAddr) {
    && (ip in s.ids <==> ip in p.ids && forall id :: Goes(p, n, id) ==> p.infos[id].service.ip != ip)
    && (ip in s.ids ==> s.ids[ip] == p.ids[ip])
  }

  ghost predicate Pruned(p: State, s: State, n: nat) {
    (forall id :: EntryLeft(p, s, n, id)) && (forall ip :: NameLeft(p, s, n, ip)) && s.idCount == p.idCount
  }

  lemma DeleteTables(h: Hashes, s: State, id: int)
    requires Tables(h, s, 0) && id in s.infos && Unplaced(s.infos[id])
    ensures Tables(h, Delete(s, id), 0)
  {
    hide RandomOk, TriedOk, NewsOk;
    var t := Delete(s, id);
    DeleteLeaves(s, id);
    DeleteKeepsRandom(s, id);
    hide Delete;
    forall x ensures SameTried(s, t, x) && SameRefs(s, t, x) {
      assert LeftBy(s, t, id, x);
    }
    TriedKeep(h, s, t);
    NewsKeep(h, s, t);
    OneFreshLess(s, t, id);
    forall x | x in t.infos && !t.infos[x].inTried && x !in Waiting(t.infos)
      ensures 1 <= t.infos[x].refCount <= NEW_BUCKETS_PER_ADDRESS
    {
      assert LeftBy(s, t, id, x);
    }
  }

  lemma {:induction false} PruneTables(h: Hashes, p: State, n: nat)
    requires Filling(h, p, 0)
    ensures Tables(h, Prune(p, n), 0) && Pruned(p, Prune(p, n), n)
  {
    hide Tables, Pruned, Delete;
    if n == 0 {
      NothingPruned(p);
    } else {
      PruneTables(h, p, n - 1);
      var s := Prune(p, n - 1);
      TablesRandom(h, s);
      if n - 1 in s.infos && Unplaced(s.infos[n - 1]) {
        DeleteTables(h, s, n - 1);
        PrunedDelete(p, s, n);
      } else {
        PrunedSkip(p, s, n);
      }
    }
  }

  lemma TablesRandom(h: Hashes, s: State)
    requires Tables(h, s, 0)
    ensures RandomOk(s)
  {
  }

  lemma NothingPruned(p: State)
    requires LastNamed(p)
    ensures Pruned(p, p, 0)
  {
    forall id ensures EntryLeft(p, p, 0, id) {
      assert id in p.infos ==> Latest(p, id);
    }
  }

  lemma PrunedSkip(p: State, s: State, n: nat)
    requires n > 0 && Pruned(p, s, n - 1) && !(n - 1 in s.infos && Unplaced(s.infos[n - 1]))
    ensures Pruned(p, s, n)
  {
    assert EntryLeft(p, s, n - 1, n - 1);
    forall id ensures EntryLeft(p, s, n, id) && (Goes(p, n, id) <==> Goes(p, n - 1, id)) {
      assert EntryLeft(p, s, n - 1, id);
    }
    forall ip ensures NameLeft(p, s, n, ip) {
      assert NameLeft(p, s, n - 1, ip);
    }
  }

  lemma PrunedDelete(p: State, s: State, n: nat)
    requires n > 0 && Pruned(p, s, n - 1) && RandomOk(s) && n - 1 in s.infos && Unplaced(s.infos[n - 1])
    ensures Pruned(p, Delete(s, n - 1), n)
  {
    var t := Delete(s, n - 1);
    DeleteLeaves(s, n - 1);
    hide Delete, RandomOk;
    assert EntryLeft(p, s, n - 1, n - 1);
    forall id ensures EntryLeft(p, t, n, id) && (Goes(p, n, id) <==> Goes(p, n - 1, id) || id == n - 1) {
      assert EntryLeft(p, s, n - 1, id) && LeftBy(s, t, n - 1, id) && (id != n - 1 ==> KeptAt(s, t, id));
    }
    forall ip ensures NameLeft(p, t, n, ip) {
      assert NameLeft(p, s, n - 1, ip);
    }
  }

  // ---------------------------------------------------------- what is right

  /** Two entries of one address: neither of them may stay. */
  predicate NoClash(p: State, a: int, b: int)
    requires a in p.infos && b in p.infos
  {
    a != b && p.infos[a].service.ip == p.infos[b].service.ip ==> Unplaced(p.infos[a]) && Unplaced(p.infos[b])
  }

  ghost predicate NoClashes(p: State) {
    forall a, b :: a in p.infos && b in p.infos ==> NoClash(p, a, b)
  }

  ghost predicate KeptTimes(p: State) {
    forall id :: id in p.infos && !Unplaced(p.infos[id]) ==> TimeOk(p.infos[id])
  }

  /** All of the invariant but names and times holds for every stream. */
  lemma ReadTables(h: Hashes, d: Stream)
    requires Complete(d)
    ensures var s := Read(h, d);
            RandomOk(s) && TriedOk(h, s) && NewsOk(h, s) && Counted(s, 0) && Referenced(s, {})
    ensures Pruned(Filled(h, d), Read(h, d), Filled(h, d).idCount)
  {
    hide Filled, Prune, RandomOk, TriedOk, NewsOk, Counted, LastNamed;
    var p := Filled(h, d);
    FilledFills(h, d);
    PruneTables(h, p, p.idCount);
    NoneWaits(p, Read(h, d));
  }

  lemma NoneWaits(p: State, s: State)
    requires LastNamed(p) && Pruned(p, s, p.idCount)
    ensures Waiting(s.infos) == {}
  {
    forall id | id in s.infos ensures !Unplaced(s.infos[id]) {
      assert EntryLeft(p, s, p.idCount, id) && Latest(p, id);
    }
  }

  lemma NamesIffNoClash(p: State, s: State)
    requires LastNamed(p) && Pruned(p, s, p.idCount)
    ensures NamesOk(s) <==> NoClashes(p)
  {
    if NoClashes(p) {
      forall id | id in s.infos ensures NameOk(s, id) {
        KeptNamed(p, s, id);
      }
      forall ip | ip in s.ids ensures OwnerOk(s, ip) {
        assert NameLeft(p, s, p.idCount, ip) && OwnerOk(p, ip) && EntryLeft(p, s, p.idCount, p.ids[ip]);
        assert Latest(p, p.ids[ip]);
      }
    }
    forall a, b | a in p.infos && b in p.infos && !NoClash(p, a, b) ensures !NamesOk(s) {
      ClashUnnames(p, s, if Unplaced(p.infos[a]) then b else a, if Unplaced(p.infos[a]) then a else b);
    }
  }

  lemma KeptNamed(p: State, s: State, id: int)
    requires LastNamed(p) && Pruned(p, s, p.idCount) && NoClashes(p) && id in s.infos
    ensures NameOk(s, id)
  {
    assert EntryLeft(p, s, p.idCount, id) && Latest(p, id);
    var ip := p.infos[id].service.ip;
    assert NameLeft(p, s, p.idCount, ip) && OwnerOk(p, ip);
    assert NoClash(p, id, p.ids[ip]);
    forall x | Goes(p, p.idCount, x) ensures p.infos[x].service.ip != ip {
      assert NoClash(p, id, x);
    }
  }

  lemma ClashUnnames(p: State, s: State, a: int, b: int)
    requires LastNamed(p) && Pruned(p, s, p.idCount) && a in p.infos && b in p.infos && a != b
    requires p.infos[a].service.ip == p.infos[b].service.ip && !Unplaced(p.infos[a])
    ensures !NamesOk(s)
  {
    assert EntryLeft(p, s, p.idCount, a) && EntryLeft(p, s, p.idCount, b) && Latest(p, b);
    if Goes(p, p.idCount, b) {
      assert NameLeft(p, s, p.idCount, p.infos[a].service.ip);
      assert !NameOk(s, a);
    } else {
      assert !(NameOk(s, a) && NameOk(s, b));
    }
  }

  lemma TimesIffKept(p: State, s: State)
    requires LastNamed(p) && Pruned(p, s, p.idCount)
    ensures TimesOk(s) <==> KeptTimes(p)
  {
    forall id ensures id in s.infos <==> id in p.infos && !Unplaced(p.infos[id]) {
      assert EntryLeft(p, s, p.idCount, id);
      assert id in p.infos ==> Latest(p, id);
    }
    forall id | id in s.infos ensures TimeOk(s.infos[id]) <==> TimeOk(p.infos[id]) {
      assert EntryLeft(p, s, p.idCount, id);
    }
  }

  /**
    Reading gives a consistent manager if and only if no entry that has a slot shares its address with
    another, and every entry that has a slot has sensible times.
  */
  lemma ReadConsistent(h: Hashes, d: Stream)
    requires Complete(d)
    ensures Inv(h, Read(h, d)) <==> NoClashes(Filled(h, d)) && KeptTimes(Filled(h, d))
  {
    hide Filled, Read, Pruned, NoClashes, KeptTimes, NamesOk, TimesOk, RandomOk, TriedOk, NewsOk, Counted, Referenced,
         LastNamed;
    FilledFills(h, d);
    ReadTables(h, d);
    NamesIffNoClash(Filled(h, d), Read(h, d));
    TimesIffKept(Filled(h, d), Read(h, d));
  }

  // -------------------------------------------------- a condition on records

  function Records(d: Stream): seq<Record>
    requires Complete(d)
  {
    d.newRecords[..d.nNew] + d.triedRecords[..d.nTried]
  }

  predicate Distinct(rs: seq<Record>) {
    forall i, j :: 0 <= i < j < |rs| ==> rs[i].service.ip != rs[j].service.ip
  }

  /** A record with the time of its last success, which every tried entry has. */
  predicate Dated(r: Record, tried: bool) {
    r.lastSuccess >= 0 && (tried ==> r.lastSuccess > 0)
  }

  /** No address comes twice, and the times are sensible. */
  predicate Sensible(d: Stream)
    requires Complete(d)
  {
    && Distinct(Records(d))
    && (forall n :: 0 <= n < d.nNew ==> Dated(d.newRecords[n], false))
    && (forall n :: 0 <= n < d.nTried ==> Dated(d.triedRecords[n], true))
  }

  /** Every name is that of one of the first n records. */
  ghost predicate NamedBy(s: State, rs: seq<Record>, n: nat)
    requires n <= |rs|
  {
    forall ip :: ip in s.ids ==> exists i :: 0 <= i < n && rs[i].service.ip == ip
  }

  /** While the first n records are read. */
  ghost predicate Naming(s: State, rs: seq<Record>, n: nat)
    requires n <= |rs|
  {
    NamesOk(s) && TimesOk(s) && NamedBy(s, rs, n)
  }

  lemma PushNaming(s: State, rs: seq<Record>, n: nat)
    requires n < |rs| && Distinct(rs) && Naming(s, rs, n) && Dated(rs[n], false)
    ensures Naming(Push(s, FromRecord(rs[n])), rs, n + 1) && s.idCount !in s.infos
  {
    var t, ip := Push(s, FromRecord(rs[n])), rs[n].service.ip;
    assert s.idCount in s.infos ==> NameOk(s, s.idCount);
    assert ip !in s.ids;
    forall id | id in t.infos ensures NameOk(t, id) {
      assert id != s.idCount ==> NameOk(s, id);
    }
    forall x | x in t.ids ensures OwnerOk(t, x) && exists i :: 0 <= i < n + 1 && rs[i].service.ip == x {
      if x != ip {
        assert OwnerOk(s, x);
        var i :| 0 <= i < n && rs[i].service.ip == x;
      }
    }
  }

  lemma NamingKeeps(s: State, t: State, rs: seq<Record>, n: nat)
    requires n <= |rs| && Naming(s, rs, n) && t.ids == s.ids && t.idCount == s.idCount && TimesOk(t)
    requires forall id :: SameService(s, t, id)
    ensures Naming(t, rs, n)
  {
    hide NamesOk;
    NamesKeep(s, t);
  }

  lemma NamingMore(s: State, rs: seq<Record>, n: nat)
    requires n < |rs| && Naming(s, rs, n)
    ensures Naming(s, rs, n + 1)
  {
    hide NamesOk, TimesOk;
    forall ip | ip in s.ids ensures exists i :: 0 <= i < n + 1 && rs[i].service.ip == ip {
      var i :| 0 <= i < n && rs[i].service.ip == ip;
    }
  }

  lemma AddNewNaming(h: Hashes, s: State, rs: seq<Record>, n: nat, sameTable: bool)
    requires n < |rs| && Distinct(rs) && Naming(s, rs, n) && Dated(rs[n], false)
    ensures Naming(AddNew(h, s, rs[n], sameTable), rs, n + 1)
  {
    hide Distinct, Naming, NewSlot;
    PushNaming(s, rs, n);
    var t, u := Push(s, FromRecord(rs[n])), NewSlot(h, s.key, rs[n].service, rs[n].source);
    if !sameTable && u !in s.news {
      RefNaming(t, rs, n + 1, u, s.idCount);
    }
  }

  lemma RefNaming(s: State, rs: seq<Record>, n: nat, u: Slot, id: int)
    requires n <= |rs| && Naming(s, rs, n) && id in s.infos
    ensures Naming(Ref(s, u, id), rs, n)
  {
    assert TimeOk(s.infos[id]);
    NamingKeeps(s, Ref(s, u, id), rs, n);
  }

  lemma AddTriedNaming(h: Hashes, s: State, rs: seq<Record>, n: nat)
    requires n < |rs| && Distinct(rs) && Naming(s, rs, n) && Dated(rs[n], true)
    ensures Naming(AddTried(h, s, rs[n]), rs, n + 1)
  {
    hide Distinct, NamesOk, NamedBy, TriedSlot;
    var k := TriedSlot(h, s.key, rs[n].service);
    if k in s.tried {
      NamingMore(s, rs, n);
    } else {
      PushNaming(s, rs, n);
      var t := Push(s, FromRecord(rs[n]));
      NamingKeeps(t, Try(t, k, s.idCount), rs, n + 1);
    }
  }

  lemma {:induction false} AddNewsNaming(h: Hashes, d: Stream, n: nat)
    requires Complete(d) && Sensible(d) && n <= d.nNew
    ensures Naming(AddNews(h, Header(d), d.newRecords, n, SameTable(d)), Records(d), n)
  {
    hide Naming, AddNew, Distinct, SameTable;
    if n == 0 {
      NothingNamed(d);
    } else {
      AddNewsNaming(h, d, n - 1);
      AddNewNaming(h, AddNews(h, Header(d), d.newRecords, n - 1, SameTable(d)), Records(d), n - 1, SameTable(d));
    }
  }

  lemma NothingNamed(d: Stream)
    requires Complete(d)
    ensures Naming(Header(d), Records(d), 0)
  {
  }

  lemma {:induction false} AddTriedsNaming(h: Hashes, d: Stream, n: nat)
    requires Complete(d) && Sensible(d) && n <= d.nTried
    ensures Naming(AddTrieds(h, AllNews(h, d), d.triedRecords, n), Records(d), d.nNew + n)
  {
    hide Naming, AddTried, Distinct, SameTable, AddNews;
    if n == 0 {
      AddNewsNaming(h, d, d.nNew);
    } else {
      AddTriedsNaming(h, d, n - 1);
      AddTriedNaming(h, AddTrieds(h, AllNews(h, d), d.triedRecords, n - 1), Records(d), d.nNew + n - 1);
    }
  }

  lemma {:induction false} AddBucketNaming(
      h: Hashes, s: State, nNew: nat, bucket: nat, list: seq<int>, n: nat, rs: seq<Record>)
    requires n <= |list| && Naming(s, rs, |rs|)
    ensures Naming(AddBucket(h, s, nNew, bucket, list, n), rs, |rs|)
  {
    hide Naming, SlotIn;
    if n > 0 {
      AddBucketNaming(h, s, nNew, bucket, list, n - 1, rs);
      var t, k := AddBucket(h, s, nNew, bucket, list, n - 1), list[n - 1];
      if k in t.infos {
        RefNaming(t, rs, |rs|, SlotIn(h, t.key, bucket, t.infos[k].service), k);
      }
    }
  }

  lemma {:induction false} AddBucketsNaming(
      h: Hashes, s: State, nNew: nat, buckets: seq<seq<int>>, n: nat, rs: seq<Record>)
    requires n <= |buckets| && Naming(s, rs, |rs|)
    ensures Naming(AddBuckets(h, s, nNew, buckets, n), rs, |rs|)
  {
    hide Naming, AddBucket;
    if n > 0 {
      AddBucketsNaming(h, s, nNew, buckets, n - 1, rs);
      AddBucketNaming(h, AddBuckets(h, s, nNew, buckets, n - 1), nNew, n - 1, buckets[n - 1], |buckets[n - 1]|, rs);
    }
  }

  /** Reading a stream in which no address comes twice gives a consistent manager. */
  lemma SensibleConsistent(h: Hashes, d: Stream)
    requires Complete(d) && Sensible(d)
    ensures Inv(h, Read(h, d))
  {
    hide Naming, AddNews, AddTrieds, AddBuckets, AddBucket, Sensible, Read, Inv, NoClashes, KeptTimes;
    AddTriedsNaming(h, d, d.nTried);
    if SameTable(d) {
      AddBucketsNaming(h, AllTried(h, d), d.nNew, d.buckets, NEW_BUCKET_COUNT, Records(d));
    }
    NamingAgrees(Filled(h, d), Records(d));
    ReadConsistent(h, d);
  }

  lemma NamingAgrees(p: State, rs: seq<Record>)
    requires Naming(p, rs, |rs|)
    ensures NoClashes(p) && KeptTimes(p)
  {
    forall a, b | a in p.infos && b in p.infos ensures NoClash(p, a, b) {
      assert NameOk(p, a) && NameOk(p, b);
    }
  }

  // ------------------------------------------------------- an address twice

  /** The new entries as read so far: the first has a slot. */
  ghost predicate FirstPlaced(s: State, rs: seq<Record>, n: nat)
    requires n <= |rs|
  {
    && s.idCount >= n && (forall id :: 0 <= id < n ==> id in s.infos && s.infos[id].service == rs[id].service)
    && (n > 0 ==> s.infos[0].refCount > 0)
    && (n == 0 ==> s.news == map[])
  }

  lemma {:induction false} AddNewsPlaced(h: Hashes, d: Stream, n: nat)
    requires Complete(d) && !SameTable(d) && n <= d.nNew
    ensures var t := AddNews(h, Header(d), d.newRecords, n, false);
            FirstPlaced(t, d.newRecords, n) && t.idCount == n
  {
    hide AddNew, FirstPlaced;
    if n == 0 {
      NothingPlaced(d);
    } else {
      AddNewsPlaced(h, d, n - 1);
      AddNewPlaced(h, AddNews(h, Header(d), d.newRecords, n - 1, false), d.newRecords, n - 1);
    }
  }

  lemma NothingPlaced(d: Stream)
    ensures FirstPlaced(Header(d), d.newRecords, 0)
  {
  }

  lemma AddNewPlaced(h: Hashes, s: State, rs: seq<Record>, n: nat)
    requires n < |rs| && FirstPlaced(s, rs, n) && s.idCount == n
    ensures FirstPlaced(AddNew(h, s, rs[n], false), rs, n + 1) && AddNew(h, s, rs[n], false).idCount == n + 1
  {
    hide NewSlot;
    var t := AddNew(h, s, rs[n], false);
    forall id | 0 <= id < n + 1 ensures id in t.infos && t.infos[id].service == rs[id].service {
    }
  }

  lemma {:induction false} AddTriedsPlaced(h: Hashes, s: State, ts: seq<Record>, j: nat, rs: seq<Record>, n: nat)
    requires j <= |ts| && 0 < n <= |rs| && FirstPlaced(s, rs, n)
    ensures FirstPlaced(AddTrieds(h, s, ts, j), rs, n)
  {
    hide TriedSlot;
    if j > 0 {
      AddTriedsPlaced(h, s, ts, j - 1, rs, n);
    }
  }

  /** Without a usable table, reading is never consistent when the address of the first record comes again. */
  lemma TwiceInconsistent(h: Hashes, d: Stream, n: nat)
    requires Complete(d) && !SameTable(d) && 0 < n < d.nNew
    requires d.newRecords[n].service.ip == d.newRecords[0].service.ip
    ensures !Inv(h, Read(h, d))
  {
    hide AddNews, AddTrieds, Read, Inv, KeptTimes, SameTable;
    AddNewsPlaced(h, d, d.nNew);
    AddTriedsPlaced(h, AllNews(h, d), d.triedRecords, d.nTried, d.newRecords, d.nNew);
    assert !NoClash(Filled(h, d), 0, n);
    ReadConsistent(h, d);
  }

  // ------------------------------------------------- which record is where

  /** An entry as its record has it; what is kept in memory only is lost. */
  predicate Copies(i: Info, r: Record, tried: bool) {
    && i.service == r.service && i.services == r.services && i.time == r.time && i.source == r.source
    && i.lastSuccess == r.lastSuccess && i.attempts == r.attempts && i.inTried == tried
    && i.lastTry == 0 && i.lastCountAttempt == 0
  }

  /** The first of some records for a slot. */
  predicate FirstFor(slots: seq<Slot>, u: Slot, j: int) {
    0 <= j < |slots| && slots[j] == u && forall i :: 0 <= i < j ==> slots[i] != u
  }

  function TriedSlots(h: Hashes, key: Key, rs: seq<Record>): (slots: seq<Slot>)
    ensures |slots| == |rs| && forall j :: 0 <= j < |rs| ==> slots[j] == TriedSlot(h, key, rs[j].service)
  {
    seq(|rs|, j requires 0 <= j < |rs| => TriedSlot(h, key, rs[j].service))
  }

  function NewSlots(h: Hashes, key: Key, rs: seq<Record>): (slots: seq<Slot>)
    ensures |slots| == |rs| && forall j :: 0 <= j < |rs| ==> slots[j] == NewSlot(h, key, rs[j].service, rs[j].source)
  {
    seq(|rs|, j requires 0 <= j < |rs| => NewSlot(h, key, rs[j].service, rs[j].source))
  }

  /** The new entries are numbered as their records. */
  ghost predicate NewCopies(s: State, rs: seq<Record>, n: nat)
    requires n <= |rs|
  {
    forall id :: 0 <= id < n && id in s.infos ==> Copies(s.infos[id], rs[id], false)
  }

  /** A tried slot is taken if it is that of one of the first n records, and holds the first of them. */
  ghost predicate TriedHolds(s: State, slots: seq<Slot>, rs: seq<Record>, n: nat, u: Slot)
    requires n <= |rs| == |slots|
  {
    && (u in s.tried <==> exists j :: FirstFor(slots, u, j) && j < n)
    && (u in s.tried ==>
          s.tried[u] in s.infos
          && exists j :: FirstFor(slots, u, j) && j < n && Copies(s.infos[s.tried[u]], rs[j], true))
  }

  ghost predicate TriedRecords(s: State, slots: seq<Slot>, rs: seq<Record>, n: nat)
    requires n <= |rs| == |slots|
  {
    forall u :: TriedHolds(s, slots, rs, n, u)
  }

  /** Without a usable table a new slot is taken by the first record whose primary slot it is. */
  ghost predicate NewHolds(s: State, slots: seq<Slot>, n: nat, u: Slot)
    requires n <= |slots|
  {
    && (u in s.news <==> exists j :: FirstFor(slots, u, j) && j < n)
    && (u in s.news ==> FirstFor(slots, u, s.news[u]) && s.news[u] < n)
  }

  ghost predicate NewRecords(s: State, slots: seq<Slot>, n: nat)
    requires n <= |slots|
  {
    forall u :: NewHolds(s, slots, n, u)
  }

  lemma {:induction false} FirstExists(slots: seq<Slot>, u: Slot, n: nat) returns (j: nat)
    requires n < |slots| && slots[n] == u
    ensures j <= n && FirstFor(slots, u, j)
  {
    if exists i :: 0 <= i < n && slots[i] == u {
      var i :| 0 <= i < n && slots[i] == u;
      j := FirstExists(slots, u, i);
    } else {
      j := n;
    }
  }

  lemma AddNewHolds(h: Hashes, s: State, rs: seq<Record>, n: nat, slots: seq<Slot>)
    requires n < |rs| && slots == NewSlots(h, s.key, rs) && s.idCount == n && NewCopies(s, rs, n)
    requires NewRecords(s, slots, n)
    ensures var t := AddNew(h, s, rs[n], false);
            && t.key == s.key && t.idCount == n + 1 && NewCopies(t, rs, n + 1) && t.tried == s.tried
            && NewRecords(t, slots, n + 1)
  {
    hide NewSlot;
    var t, v, k := AddNew(h, s, rs[n], false), slots[n], n + 1;
    assert NewHolds(s, slots, n, v);
    var j := FirstExists(slots, v, n);
    forall u ensures NewHolds(t, slots, k, u) {
      assert NewHolds(s, slots, n, u);
      assert FirstFor(slots, u, n) ==> u == v;
    }
  }

  lemma AddNewCopies(h: Hashes, s: State, rs: seq<Record>, n: nat)
    requires n < |rs| && s.idCount == n && NewCopies(s, rs, n)
    ensures var t := AddNew(h, s, rs[n], true);
            t.key == s.key && t.idCount == n + 1 && NewCopies(t, rs, n + 1) && t.tried == s.tried && t.news == s.news
  {
    hide NewSlot;
  }

  lemma {:induction false} AddNewsRecords(h: Hashes, d: Stream, n: nat)
    requires n <= d.nNew <= |d.newRecords|
    ensures var t, slots := AddNews(h, Header(d), d.newRecords, n, SameTable(d)), NewSlots(h, d.key, d.newRecords);
            && t.key == d.key && t.idCount == n && NewCopies(t, d.newRecords, n) && t.tried == map[]
            && (!SameTable(d) ==> NewRecords(t, slots, n))
  {
    hide AddNew, SameTable, NewCopies, NewRecords;
    var slots := NewSlots(h, d.key, d.newRecords);
    if n == 0 {
      NothingHeld(d, slots);
    } else {
      AddNewsRecords(h, d, n - 1);
      var s := AddNews(h, Header(d), d.newRecords, n - 1, SameTable(d));
      if SameTable(d) {
        AddNewCopies(h, s, d.newRecords, n - 1);
      } else {
        AddNewHolds(h, s, d.newRecords, n - 1, slots);
      }
    }
  }

  lemma NothingHeld(d: Stream, slots: seq<Slot>)
    ensures NewCopies(Header(d), d.newRecords, 0) && NewRecords(Header(d), slots, 0)
  {
  }

  lemma AddTriedHolds(h: Hashes, s: State, rs: seq<Record>, n: nat, slots: seq<Slot>)
    requires n < |rs| && slots == TriedSlots(h, s.key, rs) && TriedRecords(s, slots, rs, n) && s.idCount !in s.infos
    ensures TriedRecords(AddTried(h, s, rs[n]), slots, rs, n + 1)
  {
    hide TriedSlot;
    var t, v, k := AddTried(h, s, rs[n]), slots[n], n + 1;
    assert TriedHolds(s, slots, rs, n, v);
    var f := FirstExists(slots, v, n);
    if v !in s.tried {
      assert Copies(t.infos[s.idCount], rs[n], true);
    }
    forall u ensures TriedHolds(t, slots, rs, k, u) {
      assert TriedHolds(s, slots, rs, n, u);
      assert FirstFor(slots, u, n) ==> u == v;
    }
  }

  /** What is known of the entries while tried ones are read, and after. */
  ghost predicate Copied(h: Hashes, d: Stream, s: State, n: nat)
    requires d.nNew <= |d.newRecords| && n <= |d.triedRecords|
  {
    && s.key == d.key && s.idCount >= d.nNew && NewCopies(s, d.newRecords, d.nNew)
    && (forall id :: id in s.infos ==> 0 <= id < s.idCount && (s.infos[id].inTried <==> id >= d.nNew))
    && TriedRecords(s, TriedSlots(h, d.key, d.triedRecords), d.triedRecords, n)
  }

  lemma AddTriedCopied(h: Hashes, d: Stream, s: State, n: nat)
    requires d.nNew <= |d.newRecords| && n < |d.triedRecords| && Copied(h, d, s, n)
    ensures Copied(h, d, AddTried(h, s, d.triedRecords[n]), n + 1) && AddTried(h, s, d.triedRecords[n]).news == s.news
  {
    hide TriedRecords, TriedSlots, TriedSlot;
    AddTriedHolds(h, s, d.triedRecords, n, TriedSlots(h, s.key, d.triedRecords));
  }

  lemma NewsCopied(h: Hashes, d: Stream)
    requires Complete(d)
    ensures var s := AllNews(h, d);
            Copied(h, d, s, 0) && (!SameTable(d) ==> NewRecords(s, NewSlots(h, d.key, d.newRecords), d.nNew))
  {
    hide AddNews, SameTable, NewSlots;
    AddNewsRecords(h, d, d.nNew);
    AddNewsFresh(h, d);
    NoneTried(h, d, AllNews(h, d));
  }

  lemma {:induction false} AddTriedsCopied(h: Hashes, d: Stream, n: nat)
    requires Complete(d) && n <= d.nTried
    ensures var t := AddTrieds(h, AllNews(h, d), d.triedRecords, n);
            Copied(h, d, t, n) && (!SameTable(d) ==> NewRecords(t, NewSlots(h, d.key, d.newRecords), d.nNew))
  {
    hide AddTried, AddNews, SameTable, NewSlots;
    if n == 0 {
      NewsCopied(h, d);
    } else {
      hide Copied, NewRecords;
      AddTriedsCopied(h, d, n - 1);
      var s := AddTrieds(h, AllNews(h, d), d.triedRecords, n - 1);
      AddTriedCopied(h, d, s, n - 1);
      if !SameTable(d) {
        NewRecordsKept(s, AddTried(h, s, d.triedRecords[n - 1]), NewSlots(h, d.key, d.newRecords), d.nNew);
      }
    }
  }

  lemma NewRecordsKept(s: State, t: State, slots: seq<Slot>, n: nat)
    requires n <= |slots| && NewRecords(s, slots, n) && t.news == s.news
    ensures NewRecords(t, slots, n)
  {
    forall u ensures NewHolds(t, slots, n, u) {
      assert NewHolds(s, slots, n, u);
    }
  }

  lemma NoneTried(h: Hashes, d: Stream, s: State)
    requires s.tried == map[]
    ensures TriedRecords(s, TriedSlots(h, d.key, d.triedRecords), d.triedRecords, 0)
  {
  }

  lemma AddNewsFresh(h: Hashes, d: Stream)
    requires Complete(d)
    ensures var s := AllNews(h, d);
            forall id :: id in s.infos ==> 0 <= id < s.idCount && !s.infos[id].inTried
  {
    hide AddNews, SameTable, Tables;
    StartsFilling(h, d);
    NoneBelow(Header(d));
    AddNewsFill(h, Header(d), d.newRecords, d.nNew, SameTable(d), 0 - d.nNew);
    var s := AllNews(h, d);
    forall id | id in s.infos ensures 0 <= id < s.idCount && !s.infos[id].inTried {
      assert Latest(s, id);
    }
  }

  lemma RefCopied(h: Hashes, d: Stream, s: State, u: Slot, id: int)
    requires d.nNew <= |d.newRecords| && d.nTried <= |d.triedRecords| && Copied(h, d, s, d.nTried) && id in s.infos
    ensures Copied(h, d, Ref(s, u, id), d.nTried)
  {
    hide TriedSlots;
    var t, slots := Ref(s, u, id), TriedSlots(h, d.key, d.triedRecords);
    forall v ensures TriedHolds(t, slots, d.triedRecords, d.nTried, v) {
      assert TriedHolds(s, slots, d.triedRecords, d.nTried, v);
    }
  }

  lemma {:induction false} AddBucketCopied(h: Hashes, d: Stream, s: State, bucket: nat, list: seq<int>, n: nat)
    requires d.nNew <= |d.newRecords| && d.nTried <= |d.triedRecords| && n <= |list| && Copied(h, d, s, d.nTried)
    ensures Copied(h, d, AddBucket(h, s, d.nNew, bucket, list, n), d.nTried)
  {
    hide Copied, SlotIn;
    if n > 0 {
      AddBucketCopied(h, d, s, bucket, list, n - 1);
      var t, k := AddBucket(h, s, d.nNew, bucket, list, n - 1), list[n - 1];
      if k in t.infos {
        RefCopied(h, d, t, SlotIn(h, t.key, bucket, t.infos[k].service), k);
      }
    }
  }

  lemma {:induction false} AddBucketsCopied(h: Hashes, d: Stream, s: State, n: nat)
    requires d.nNew <= |d.newRecords| && d.nTried <= |d.triedRecords| && n <= |d.buckets| && Copied(h, d, s, d.nTried)
    ensures Copied(h, d, AddBuckets(h, s, d.nNew, d.buckets, n), d.nTried)
  {
    hide Copied, AddBucket;
    if n > 0 {
      AddBucketsCopied(h, d, s, n - 1);
      AddBucketCopied(h, d, AddBuckets(h, s, d.nNew, d.buckets, n - 1), n - 1, d.buckets[n - 1], |d.buckets[n - 1]|);
    }
  }

  lemma DeleteTablesSame(s: State, id: int)
    ensures Delete(s, id).tried == s.tried && Delete(s, id).news == s.news && Delete(s, id).key == s.key
  {
  }

  lemma {:induction false} PruneTablesSame(s: State, n: nat)
    ensures Prune(s, n).tried == s.tried && Prune(s, n).news == s.news && Prune(s, n).key == s.key
  {
    hide Delete;
    if n > 0 {
      PruneTablesSame(s, n - 1);
      DeleteTablesSame(Prune(s, n - 1), n - 1);
    }
  }

  lemma PrunedCopied(h: Hashes, d: Stream, p: State, s: State, n: nat)
    requires d.nNew <= |d.newRecords| && d.nTried <= |d.triedRecords| && Copied(h, d, p, d.nTried)
    requires Pruned(p, s, n) && s.tried == p.tried && s.news == p.news && s.key == p.key
    ensures Copied(h, d, s, d.nTried)
  {
    hide TriedSlots;
    var slots := TriedSlots(h, d.key, d.triedRecords);
    forall v ensures TriedHolds(s, slots, d.triedRecords, d.nTried, v) {
      assert TriedHolds(p, slots, d.triedRecords, d.nTried, v);
      assert v in p.tried ==> EntryLeft(p, s, n, p.tried[v]);
    }
    forall id | id in s.infos
      ensures 0 <= id < s.idCount && (s.infos[id].inTried <==> id >= d.nNew)
      ensures id < d.nNew ==> Copies(s.infos[id], d.newRecords[id], false)
    {
      assert EntryLeft(p, s, n, id);
    }
  }

  /**
    For every stream, each entry of the result copies its record: a new entry the one of its number, and
    a tried slot the first tried record whose slot it is. Without a usable table a new slot holds the
    first new record whose primary slot it is.
  */
  lemma ReadRecords(h: Hashes, d: Stream)
    requires Complete(d)
    ensures var s := Read(h, d);
            && Copied(h, d, s, d.nTried)
            && (!SameTable(d) ==> NewRecords(s, NewSlots(h, d.key, d.newRecords), d.nNew))
  {
    hide Copied, NewRecords, NewSlots, AddTrieds, AddBuckets, AddNews, Prune, Pruned, SameTable;
    var p := Filled(h, d);
    AddTriedsCopied(h, d, d.nTried);
    if SameTable(d) {
      TableFits(d);
      AddBucketsCopied(h, d, AllTried(h, d), NEW_BUCKET_COUNT);
    }
    ReadTables(h, d);
    PruneTablesSame(p, p.idCount);
    PrunedCopied(h, d, p, Read(h, d), p.idCount);
    if !SameTable(d) {
      NewRecordsKept(p, Read(h, d), NewSlots(h, d.key, d.newRecords), d.nNew);
    }
  }

  lemma TableFits(d: Stream)
    requires Complete(d) && SameTable(d)
    ensures |d.buckets| >= NEW_BUCKET_COUNT
  {
  }
}
