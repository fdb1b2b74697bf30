/**
CAddrMan's Serialize and Unserialize: loops that write the entries and the new
buckets of one manager and fill another from them. Reading back what was written
gives the manager of AddrDisk: nothing lost, tables equal up to renaming of ids.
*/
module AddrStore {
  import opened Sets
  import opened AddrSpec
  import opened AddrSteps
  import opened AddrDisk
  import opened AddrRead
  import AddrMan

  // ---------------------------------------------------------------- writing

  /** The keys of a map in the order in which std::map visits them. */
  method KeysInOrder(infos: map<int, Info>) returns (keys: seq<int>)
    ensures Ascending(infos.Keys, keys)
  {
    keys := [];
    var todo := infos.Keys;
    while todo != {}
      invariant todo <= infos.Keys
      invariant Ascending(infos.Keys - todo, keys)
      invariant forall a, b :: a in keys && b in todo ==> a < b
      decreases todo
    {
      LeastExists(todo);
      var n :| n in todo && forall m :: m in todo ==> n <= m;
      AscendingPush(infos.Keys - todo, keys, n);
      assert infos.Keys - (todo - {n}) == infos.Keys - todo + {n};
      keys, todo := keys + [n], todo - {n};
    }
    assert infos.Keys - todo == infos.Keys;
  }

  lemma AscendingPush(ids: set<int>, order: seq<int>, n: int)
    requires Ascending(ids, order) && forall a :: a in order ==> a < n
    ensures Ascending(ids + {n}, order + [n])
  {
    forall i, j | 0 <= i < j < |order + [n]| ensures (order + [n])[i] < (order + [n])[j] {
      assert order != [] ==> order[i] in order;
    }
  }

  ghost function Side(infos: map<int, Info>, tried: bool): set<int> {
    if tried then TriedIds(infos) else FreshIds(infos)
  }

  /** The ids of one side among the first keys. */
  ghost function Seen(infos: map<int, Info>, keys: seq<int>, j: nat, tried: bool): set<int>
    requires j <= |keys|
  {
    Elements(keys[..j]) * Side(infos, tried)
  }

  lemma SeenStep(infos: map<int, Info>, keys: seq<int>, j: nat, tried: bool)
    requires Ascending(infos.Keys, keys) && j < |keys|
    ensures keys[j] in infos
    ensures var id := keys[j];
            && Seen(infos, keys, j + 1, tried) ==
               (if id in Side(infos, tried) then Seen(infos, keys, j, tried) + {id} else Seen(infos, keys, j, tried))
            && (forall a :: a in Seen(infos, keys, j, tried) ==> a < id)
            && Seen(infos, keys, j + 1, tried) <= Side(infos, tried)
  {
    hide Side;
    var id := keys[j];
    assert id in keys && keys[..j + 1] == keys[..j] + [id];
    forall a | a in keys[..j] ensures a < id {
    }
  }

  lemma SeenNext(infos: map<int, Info>, keys: seq<int>, j: nat, tried: bool, order: seq<int>)
    requires Ascending(infos.Keys, keys) && j < |keys| && Ascending(Seen(infos, keys, j, tried), order)
    ensures keys[j] in infos
    ensures var id := keys[j];
            && Seen(infos, keys, j + 1, tried) ==
               (if id in Side(infos, tried) then Seen(infos, keys, j, tried) + {id} else Seen(infos, keys, j, tried))
            && (id in Side(infos, tried) ==> Ascending(Seen(infos, keys, j + 1, tried), order + [id]))
            && (id in Side(infos, tried) ==> |order| < |Side(infos, tried)|)
            && id !in Seen(infos, keys, j, tried)
  {
    hide Side;
    var id := keys[j];
    var seen := Seen(infos, keys, j, tried);
    SeenStep(infos, keys, j, tried);
    assert forall a :: a in order ==> a in seen;
    hide Seen;
    if id in Side(infos, tried) {
      AscendingPush(seen, order, id);
      AscendingSize(seen, order);
      SubsetSize(seen + {id}, Side(infos, tried));
    }
  }

  lemma SeenAll(infos: map<int, Info>, keys: seq<int>, tried: bool)
    requires Ascending(infos.Keys, keys)
    ensures Seen(infos, keys, |keys|, tried) == Side(infos, tried)
  {
    assert keys[..|keys|] == keys;
    forall id | id in Side(infos, tried) ensures id in keys {
      assert id in infos.Keys;
    }
  }

  predicate Positions(order: seq<int>, unkIds: map<int, int>, id: int) {
    id in unkIds && 0 <= unkIds[id] < |order| && order[unkIds[id]] == id
  }

  predicate RecordAt(infos: map<int, Info>, order: seq<int>, records: seq<Record>, k: int)
    requires 0 <= k < |order| == |records|
  {
    order[k] in infos && records[k] == ToRecord(infos[order[k]])
  }

  /** One of Serialize's two loops over all entries: those of one side, in order of id. */
  method WriteSide(infos: map<int, Info>, keys: seq<int>, tried: bool, expected: int)
    returns (records: seq<Record>, ghost order: seq<int>, unkIds: map<int, int>)
    requires Ascending(infos.Keys, keys) && |Side(infos, tried)| == expected
    requires forall id :: id in infos ==> (infos[id].refCount != 0 <==> !infos[id].inTried)
    ensures |records| == expected
    ensures Ascending(Side(infos, tried), order) && |records| == |order|
    ensures forall k :: 0 <= k < |order| ==> RecordAt(infos, order, records, k)
    ensures forall id :: id in Side(infos, tried) ==> Positions(order, unkIds, id)
  {
    hide Ascending, Seen;
    records, order, unkIds := [], [], map[];
    var nIds := 0;
    NothingSeen(infos, keys, tried);
    for j := 0 to |keys|
      invariant Ascending(Seen(infos, keys, j, tried), order) && nIds == |records| == |order|
      invariant forall k :: 0 <= k < |order| ==> RecordAt(infos, order, records, k)
      invariant forall id :: id in Seen(infos, keys, j, tried) ==> Positions(order, unkIds, id)
    {
      var id := keys[j];
      SeenNext(infos, keys, j, tried, order);
      unkIds := unkIds[id := nIds];
      var info := infos[id];
      if (if tried then info.inTried else info.refCount != 0) {
        assert nIds != expected;
        WriteNext(infos, order, records, unkIds, Seen(infos, keys, j, tried), id);
        records, order := records + [ToRecord(info)], order + [id];
        nIds := nIds + 1;
      }
    }
    SeenAll(infos, keys, tried);
    AscendingSize(Side(infos, tried), order);
  }

  lemma NothingSeen(infos: map<int, Info>, keys: seq<int>, tried: bool)
    ensures Ascending(Seen(infos, keys, 0, tried), []) && Seen(infos, keys, 0, tried) == {}
  {
  }

  lemma WriteNext(infos: map<int, Info>, order: seq<int>, records: seq<Record>, unkIds: map<int, int>, seen: set<int>,
                  id: int)
    requires |order| == |records| && id in infos && id in unkIds && unkIds[id] == |order|
    requires forall k :: 0 <= k < |order| ==> RecordAt(infos, order, records, k)
    requires forall x :: x in seen ==> Positions(order, unkIds, x)
    ensures forall k :: 0 <= k < |order + [id]| ==> RecordAt(infos, order + [id], records + [ToRecord(infos[id])], k)
    ensures forall x :: x in seen + {id} ==> Positions(order + [id], unkIds, x)
  {
    forall k | 0 <= k < |order + [id]| ensures RecordAt(infos, order + [id], records + [ToRecord(infos[id])], k) {
      assert k < |order| ==> RecordAt(infos, order, records, k);
    }
    forall x | x in seen + {id} ensures Positions(order + [id], unkIds, x) {
      assert x in seen ==> Positions(order, unkIds, x);
    }
  }

  lemma SidesByRefs(h: Hashes, s: State, id: int)
    requires Inv(h, s) && id in s.infos
    ensures s.infos[id].refCount != 0 <==> !s.infos[id].inTried
  {
    if s.infos[id].inTried {
      TriedUnreferenced(h, s, id);
    }
  }

  lemma FreshIndex(s: State, o: Orders, unkIds: map<int, int>, id: int)
    requires OrdersOf(s, o) && id in s.infos && !s.infos[id].inTried && Positions(o.news, unkIds, id)
    ensures unkIds[id] == Renamed(s, o, id)
  {
    IndexUnique(FreshIds(s.infos), o.news, unkIds[id]);
  }

  lemma SlotFresh(h: Hashes, s: State, u: Slot)
    requires Inv(h, s) && u in s.news
    ensures s.news[u] in s.infos && !s.infos[s.news[u]].inTried
  {
    assert NewSlotOk(h, s, u);
  }

  /** Writes the slots of one new bucket. */
  method WriteBucket(m: AddrMan.Manager, bucket: nat, unkIds: map<int, int>, ghost o: Orders) returns (list: seq<int>)
    requires m.Valid() && bucket < NEW_BUCKET_COUNT && OrdersOf(m.Model(), o) && TablesClosed(m.Model())
    requires forall id :: id in FreshIds(m.mapInfo) ==> Positions(o.news, unkIds, id)
    ensures list == BucketList(m.Model(), o, bucket, BUCKET_SIZE)
  {
    hide Inv, OrdersOf, TablesClosed, Renamed, AddrMan.Table, Positions;
    list := [];
    for i := 0 to BUCKET_SIZE
      invariant list == BucketList(m.Model(), o, bucket, i)
    {
      AddrMan.TableAt(m.vvNew, bucket, i);
      if m.vvNew[bucket, i] != -1 {
        SlotFresh(m.h, m.Model(), Slot(bucket, i));
        var id := m.vvNew[bucket, i];
        FreshIndex(m.Model(), o, unkIds, id);
        assert Positions(o.news, unkIds, id);
        PositionKnown(o.news, unkIds, id);
        list := list + [unkIds[id]];
      }
    }
  }

  lemma PositionKnown(order: seq<int>, unkIds: map<int, int>, id: int)
    requires Positions(order, unkIds, id)
    ensures id in unkIds
  {
  }

  /** Each record written for the new side is that of an entry outside the tried table. */
  lemma RecordsReal(s: State, o: Orders, d: Stream)
    requires OrdersOf(s, o) && TablesClosed(s) && Encodes(s, o, d)
    ensures |d.newRecords| == |FreshIds(s.infos)| && |d.triedRecords| == |TriedIds(s.infos)|
    ensures forall r :: r in d.newRecords ==>
              exists id :: id in s.infos && !s.infos[id].inTried && r == ToRecord(s.infos[id])
  {
    AscendingSize(FreshIds(s.infos), o.news);
    AscendingSize(TriedIds(s.infos), o.tried);
    forall r | r in d.newRecords
      ensures exists id :: id in s.infos && !s.infos[id].inTried && r == ToRecord(s.infos[id])
    {
      var k :| 0 <= k < |d.newRecords| && d.newRecords[k] == r;
      assert NewRecordOk(s, o, d, k);
      assert o.news[k] in o.news;
    }
  }

  method Serialize(m: AddrMan.Manager) returns (d: Stream, ghost o: Orders)
    requires m.Valid()
    ensures OrdersOf(m.Model(), o) && TablesClosed(m.Model()) && Encodes(m.Model(), o, d)
    ensures d.nNew == |d.newRecords| && d.nTried == |d.triedRecords| && |d.buckets| == NEW_BUCKET_COUNT
    ensures forall r :: r in d.newRecords ==>
              exists id :: id in m.mapInfo && !m.mapInfo[id].inTried && r == ToRecord(m.mapInfo[id])
  {
    hide Amid, AddrMan.Table, BucketList;
    ghost var s := m.Model();
    InvClosed(m.h, s);
    forall id | id in s.infos ensures s.infos[id].refCount != 0 <==> !s.infos[id].inTried {
      SidesByRefs(m.h, s, id);
    }
    CountsOf(m.h, s);
    var keys := KeysInOrder(m.mapInfo);
    var newRecords, triedRecords, unkIds;
    ghost var news, tried;
    newRecords, news, unkIds := WriteSide(m.mapInfo, keys, false, m.nNew);
    var unused;
    triedRecords, tried, unused := WriteSide(m.mapInfo, keys, true, m.nTried);
    o := Orders(news, tried);
    var buckets := [];
    for bucket := 0 to NEW_BUCKET_COUNT
      invariant |buckets| == bucket
      invariant forall b :: 0 <= b < bucket ==> buckets[b] == BucketList(s, o, b, BUCKET_SIZE)
    {
      var list := WriteBucket(m, bucket, unkIds, o);
      buckets := buckets + [list];
    }
    d := Stream(1, 32, m.nKey, m.nNew, m.nTried, BUCKETS_MARK, newRecords, triedRecords, buckets);
    forall k | 0 <= k < |o.news| ensures NewRecordOk(s, o, d, k) {
      assert RecordAt(s.infos, news, newRecords, k);
    }
    forall k | 0 <= k < |o.tried| ensures TriedRecordOk(s, o, d, k) {
      assert RecordAt(s.infos, tried, triedRecords, k);
    }
    RecordsReal(s, o, d);
  }

  lemma CountsOf(h: Hashes, s: State)
    requires Inv(h, s)
    ensures |Side(s.infos, false)| == s.nNew && |Side(s.infos, true)| == s.nTried
  {
  }

  // ---------------------------------------------------------------- reading

  /** What a stream came from, when it was written by Serialize. */
  datatype Origin = Unknown | Written(h: Hashes, s: State, o: Orders)

  ghost predicate Genuine(h: Hashes, d: Stream, from: Origin) {
    from.Written? ==>
      from.h == h && Inv(h, from.s) && OrdersOf(from.s, from.o) && TablesClosed(from.s) && Encodes(from.s, from.o, d)
  }

  /** The first n entries while the new table is being filled: a reference for each slot so far. */
  ghost function Loading(s: State, o: Orders, n: nat, news: map<Slot, int>): map<int, Info>
    requires OrdersOf(s, o) && n <= |o.news| + |o.tried|
  {
    map k | 0 <= k < n :: Reentry(s, o, k).(refCount := |SlotsOf(news, k)|)
  }

  ghost function NamesUpTo(s: State, o: Orders, n: nat): map<NetAddr, int>
    requires OrdersOf(s, o) && TablesClosed(s)
  {
    map ip | ip in s.ids && Renamed(s, o, s.ids[ip]) < n :: Renamed(s, o, s.ids[ip])
  }

  ghost function TriedUpTo(s: State, o: Orders, n: nat): map<Slot, int>
    requires OrdersOf(s, o) && TablesClosed(s)
  {
    map u | u in s.tried && Renamed(s, o, s.tried[u]) < n :: Renamed(s, o, s.tried[u])
  }

  predicate Before(u: Slot, bucket: nat, pos: nat) {
    u.bucket < bucket || (u.bucket == bucket && u.pos < pos)
  }

  ghost function NewsUpTo(s: State, o: Orders, bucket: nat, pos: nat): map<Slot, int>
    requires OrdersOf(s, o) && TablesClosed(s)
  {
    map u | u in s.news && Before(u, bucket, pos) :: Renamed(s, o, s.news[u])
  }

  /** The manager after loading n entries and the given new slots. */
  ghost function Partial(s: State, o: Orders, n: nat, news: map<Slot, int>, idCount: nat): State
    requires OrdersOf(s, o) && TablesClosed(s) && n <= |o.news| + |o.tried|
  {
    State(s.key, idCount, Loading(s, o, n, news), NamesUpTo(s, o, n), seq(n, i => i),
          s.nTried, TriedUpTo(s, o, n), s.nNew, news, 1)
  }

  lemma LoadedNext(s: State, o: Orders, n: nat)
    requires OrdersOf(s, o) && n < |o.news| + |o.tried|
    ensures Loading(s, o, n + 1, map[]) == Loading(s, o, n, map[])[n := Reentry(s, o, n).(refCount := 0)]
  {
    assert forall k :: SlotsOf(map[], k) == {};
  }

  lemma NamesNext(h: Hashes, s: State, o: Orders, n: nat)
    requires Inv(h, s) && OrdersOf(s, o) && TablesClosed(s) && n < |o.news| + |o.tried|
    ensures Entry(o, n) in s.infos
    ensures NamesUpTo(s, o, n + 1) == NamesUpTo(s, o, n)[s.infos[Entry(o, n)].service.ip := n]
  {
    hide TriedOk, RandomOk, NewsOk, Counted, Referenced, OrdersOf, Renamed;
    EntryRenamed(s, o, n);
    var id: int := Entry(o, n);
    assert NameOk(s, id);
    forall ip | ip in s.ids ensures Renamed(s, o, s.ids[ip]) == n <==> ip == s.infos[id].service.ip {
      assert OwnerOk(s, ip);
      RenamedEntry(s, o, s.ids[ip]);
    }
  }

  lemma TriedNext(h: Hashes, s: State, o: Orders, n: nat)
    requires Inv(h, s) && OrdersOf(s, o) && TablesClosed(s) && n < |o.news| + |o.tried|
    ensures Entry(o, n) in s.infos
    ensures n < |o.news| ==> TriedUpTo(s, o, n + 1) == TriedUpTo(s, o, n) == map[]
    ensures n >= |o.news| ==>
              var k := TriedSlot(h, s.key, s.infos[Entry(o, n)].service);
              k !in TriedUpTo(s, o, n) && TriedUpTo(s, o, n + 1) == TriedUpTo(s, o, n)[k := n]
  {
    hide NamesOk, RandomOk, NewsOk, Counted, Referenced, OrdersOf, Renamed;
    EntryRenamed(s, o, n);
    var id: int := Entry(o, n);
    assert TriedEntryOk(h, s, id);
    forall u | u in s.tried
      ensures Renamed(s, o, s.tried[u]) >= |o.news|
      ensures Renamed(s, o, s.tried[u]) == n <==> n >= |o.news| && u == TriedSlot(h, s.key, s.infos[id].service)
    {
      assert TriedSlotOk(h, s, u);
      RenamedEntry(s, o, s.tried[u]);
    }
  }

  lemma EntryRecord(s: State, o: Orders, d: Stream, n: nat)
    requires OrdersOf(s, o) && TablesClosed(s) && Encodes(s, o, d) && n < |o.news| + |o.tried|
    ensures n < |o.news| ==> FromRecord(d.newRecords[n]).(randomPos := n) == Reentry(s, o, n).(refCount := 0)
    ensures n >= |o.news| ==>
              FromRecord(d.triedRecords[n - |o.news|]).(randomPos := n, inTried := true)
                == Reentry(s, o, n).(refCount := 0)
  {
    EntryRenamed(s, o, n);
    if n < |o.news| {
      assert NewRecordOk(s, o, d, n);
    } else {
      assert TriedRecordOk(s, o, d, n - |o.news|);
    }
  }

  /** The slot after the given place in a bucket: skipped when free, filled when occupied. */
  lemma NewsNext(h: Hashes, s: State, o: Orders, bucket: nat, pos: nat)
    requires Inv(h, s) && OrdersOf(s, o) && TablesClosed(s)
    ensures var u := Slot(bucket, pos);
            && u !in NewsUpTo(s, o, bucket, pos)
            && (u !in s.news ==> NewsUpTo(s, o, bucket, pos + 1) == NewsUpTo(s, o, bucket, pos))
            && (u in s.news ==>
                  NewsUpTo(s, o, bucket, pos + 1) == NewsUpTo(s, o, bucket, pos)[u := Renamed(s, o, s.news[u])])
  {
    hide Inv, OrdersOf, Renamed;
  }

  lemma NewsBucketDone(h: Hashes, s: State, o: Orders, bucket: nat)
    requires Inv(h, s) && OrdersOf(s, o) && TablesClosed(s)
    ensures NewsUpTo(s, o, bucket, BUCKET_SIZE) == NewsUpTo(s, o, bucket + 1, 0)
  {
    forall u | u in s.news ensures u.pos < BUCKET_SIZE {
      assert NewSlotOk(h, s, u);
    }
  }

  /** An entry gains a reference with each of its slots. */
  lemma LoadingRef(s: State, o: Orders, n: nat, news: map<Slot, int>, u: Slot, k: int)
    requires OrdersOf(s, o) && 0 <= k < n <= |o.news| + |o.tried| && u !in news
    ensures var infos := Loading(s, o, n, news);
            Loading(s, o, n, news[u := k]) == infos[k := infos[k].(refCount := infos[k].refCount + 1)]
  {
    forall x ensures |SlotsOf(news[u := k], x)| == |SlotsOf(news, x)| + (if x == k then 1 else 0) {
      SlotsAfterRef(news, u, k, x);
    }
  }

  /** The references so far are fewer than the entry had. */
  lemma RefsLeft(h: Hashes, s: State, o: Orders, news: map<Slot, int>, u: Slot)
    requires Inv(h, s) && OrdersOf(s, o) && TablesClosed(s) && u in s.news && u !in news
    requires forall v :: v in news ==> v in s.news && news[v] == Renamed(s, o, s.news[v])
    ensures |SlotsOf(news, Renamed(s, o, s.news[u]))| < NEW_BUCKETS_PER_ADDRESS
    ensures Renamed(s, o, s.news[u]) < |o.news|
  {
    hide NamesOk, RandomOk, TriedOk, Counted, OrdersOf, Renamed;
    assert NewSlotOk(h, s, u);
    var id: int := s.news[u];
    RenamedEntry(s, o, id);
    assert RefCountOk(s, id);
    var k := Renamed(s, o, id);
    assert SlotsOf(news, k) + {u} <= SlotsOf(s.news, id) by {
      forall v | v in SlotsOf(news, k) ensures v in SlotsOf(s.news, id) {
        RenamedEntry(s, o, s.news[v]);
      }
    }
    SubsetSize(SlotsOf(news, k) + {u}, SlotsOf(s.news, id));
  }

  lemma NewsAll(h: Hashes, s: State, o: Orders)
    requires Inv(h, s) && OrdersOf(s, o) && TablesClosed(s)
    ensures NewsUpTo(s, o, NEW_BUCKET_COUNT, 0) == Reloaded(s, o).news
  {
    hide Renamed, OrdersOf, Loading;
    forall u | u in s.news ensures u.bucket < NEW_BUCKET_COUNT {
      assert NewSlotOk(h, s, u);
    }
  }

  lemma EntriesAll(h: Hashes, s: State, o: Orders)
    requires Inv(h, s) && OrdersOf(s, o) && TablesClosed(s)
    ensures Loading(s, o, |o.news| + |o.tried|, Reloaded(s, o).news) == Reloaded(s, o).infos
  {
    hide Inv, NewsOk, OrdersOf, TablesClosed, Renamed;
    ReloadedNews(h, s, o);
    forall k | 0 <= k < |o.news| + |o.tried|
      ensures Reentry(s, o, k).(refCount := |SlotsOf(Reloaded(s, o).news, k)|) == Reentry(s, o, k)
    {
      CountedRefs(h, Reloaded(s, o), k);
    }
  }

  lemma CountedRefs(h: Hashes, s: State, id: int)
    requires NewsOk(h, s) && id in s.infos
    ensures RefCountOk(s, id)
  {
  }

  lemma NamesAll(s: State, o: Orders)
    requires OrdersOf(s, o) && TablesClosed(s)
    ensures NamesUpTo(s, o, |o.news| + |o.tried|) == Reloaded(s, o).ids
    ensures TriedUpTo(s, o, |o.news| + |o.tried|) == Reloaded(s, o).tried
  {
    forall ip | ip in s.ids ensures Renamed(s, o, s.ids[ip]) < |o.news| + |o.tried| {
      RenamedEntry(s, o, s.ids[ip]);
    }
    forall u | u in s.tried ensures Renamed(s, o, s.tried[u]) < |o.news| + |o.tried| {
      RenamedEntry(s, o, s.tried[u]);
    }
  }

  /** With every slot in place, the manager is complete. */
  lemma LoadedAll(h: Hashes, s: State, o: Orders)
    requires Inv(h, s) && OrdersOf(s, o) && TablesClosed(s)
    ensures var n := |o.news| + |o.tried|;
            Partial(s, o, n, NewsUpTo(s, o, NEW_BUCKET_COUNT, 0), n) == Reloaded(s, o)
  {
    hide Inv, OrdersOf, TablesClosed, Loading, NamesUpTo, TriedUpTo, NewsUpTo;
    NewsAll(h, s, o);
    EntriesAll(h, s, o);
    NamesAll(s, o);
  }

  // The tables are large enough for what a valid manager writes.

  function SlotNumber(u: Slot): int {
    u.bucket * BUCKET_SIZE + u.pos
  }

  lemma SlotNumberOnce(u: Slot, v: Slot)
    requires u.pos < BUCKET_SIZE && v.pos < BUCKET_SIZE && SlotNumber(u) == SlotNumber(v)
    ensures u == v
  {
  }

  lemma SlotNumberBelow(u: Slot, buckets: nat)
    requires u.bucket < buckets && u.pos < BUCKET_SIZE
    ensures 0 <= SlotNumber(u) < buckets * BUCKET_SIZE
  {
    assert (u.bucket + 1) * BUCKET_SIZE <= buckets * BUCKET_SIZE;
  }

  lemma {:induction false} SlotsBound(owner: map<int, Slot>, buckets: nat)
    requires forall id :: id in owner ==> owner[id].bucket < buckets && owner[id].pos < BUCKET_SIZE
    requires Injective(owner)
    ensures |owner.Keys| <= buckets * BUCKET_SIZE
  {
    hide SlotNumber;
    var f := map id | id in owner :: SlotNumber(owner[id]);
    forall a, b | a in f && b in f && f[a] == f[b] ensures a == b {
      SlotNumberOnce(owner[a], owner[b]);
    }
    InjectiveSize(f);
    var all := seq(buckets * BUCKET_SIZE, (i: int) => i);
    DistinctSize(all);
    assert f.Values <= Elements(all) by {
      forall x | x in f.Values ensures x in Elements(all) {
        var id: int := KeyOf(f, x);
        SlotNumberBelow(owner[id], buckets);
        assert all[x] == x;
      }
    }
    SubsetSize(f.Values, Elements(all));
    assert f.Keys == owner.Keys;
  }

  ghost function SomeSlot(h: Hashes, s: State, id: int): (u: Slot)
    requires Inv(h, s) && id in s.infos && !s.infos[id].inTried
    ensures u in s.news && s.news[u] == id && u.bucket < NEW_BUCKET_COUNT && u.pos < BUCKET_SIZE
  {
    assert RefCountOk(s, id);
    var u :| u in SlotsOf(s.news, id);
    assert NewSlotOk(h, s, u);
    u
  }

  lemma FewEntries(h: Hashes, s: State)
    requires Inv(h, s)
    ensures s.nNew <= NEW_BUCKET_COUNT * BUCKET_SIZE && s.nTried <= TRIED_BUCKET_COUNT * BUCKET_SIZE
  {
    hide Inv;
    FewNew(h, s);
    FewTried(h, s);
  }

  lemma FewNew(h: Hashes, s: State)
    requires Inv(h, s)
    ensures s.nNew <= NEW_BUCKET_COUNT * BUCKET_SIZE
  {
    var f := map id | id in FreshIds(s.infos) :: SomeSlot(h, s, id);
    SlotsBound(f, NEW_BUCKET_COUNT);
    assert f.Keys == FreshIds(s.infos);
  }

  lemma FewTried(h: Hashes, s: State)
    requires Inv(h, s)
    ensures s.nTried <= TRIED_BUCKET_COUNT * BUCKET_SIZE
  {
    hide TriedSlot;
    var g := map id | id in TriedIds(s.infos) :: TriedSlot(h, s.key, s.infos[id].service);
    forall id | id in g ensures g[id].bucket < TRIED_BUCKET_COUNT && g[id].pos < BUCKET_SIZE {
      TriedSlotBounds(h, s.key, s.infos[id].service);
    }
    forall a, b | a in g && b in g && g[a] == g[b] ensures a == b {
      assert TriedEntryOk(h, s, a) && TriedEntryOk(h, s, b);
    }
    SlotsBound(g, TRIED_BUCKET_COUNT);
    assert g.Keys == TriedIds(s.infos);
  }

  datatype Status = Loaded | BadKeySize | TooManyNew | TooManyTried | EndOfStream

  /** Whatever the stream, the random order indexes the entries, which are numbered from zero. */
  ghost predicate Numbered(m: AddrMan.Manager, n: nat)
    reads m, m.vvNew, m.vvTried
  {
    m.Shape() && RandomOk(m.Model()) && forall k :: k in m.mapInfo <==> 0 <= k < n
  }

  lemma PushKeepsRandom(s: State, t: State, n: nat)
    requires RandomOk(s) && n !in s.infos && t.random == s.random + [n]
    requires n in t.infos && t.infos[n].randomPos == |s.random| && t.infos == s.infos[n := t.infos[n]]
    ensures RandomOk(t)
  {
    forall id | id in t.infos ensures PlaceOk(t, id) {
      assert id != n ==> PlaceOk(s, id);
    }
    forall i | 0 <= i < |t.random| ensures ListedOk(t, i) {
      assert i < |s.random| ==> ListedOk(s, i);
    }
  }

  lemma SameRandom(s: State, t: State)
    requires RandomOk(s) && t.random == s.random && t.infos == s.infos
    ensures RandomOk(t)
  {
    RandomKeep(s, t);
  }

  /** Reads one new entry; without a usable table it gets the slot of its primary source, if free. */
  method LoadNewEntry(m: AddrMan.Manager, n: nat, record: Record, sameTable: bool)
    requires Numbered(m, n)
    modifies m`mapInfo, m`mapAddr, m`vRandom, m.vvNew
    ensures Numbered(m, n + 1)
    ensures m.Model().(idCount := n + 1) == AddNew(m.h, old(m.Model()).(idCount := n), record, sameTable)
  {
    hide AddrMan.Table, RandomOk, NewSlot, FromRecord;
    ghost var before := m.Model();
    m.mapInfo := m.mapInfo[n := FromRecord(record)];
    m.mapAddr := m.mapAddr[record.service.ip := n];
    m.mapInfo := m.mapInfo[n := m.mapInfo[n].(randomPos := |m.vRandom|)];
    m.vRandom := m.vRandom + [n];
    ServiceRead(record);
    assert m.Model().(idCount := n + 1) == Push(before.(idCount := n), FromRecord(record));
    if !sameTable {
      var u := NewSlot(m.h, m.nKey, record.service, record.source);
      NewSlotBounds(m.h, m.nKey, record.service, record.source);
      AddrMan.TableAt(m.vvNew, u.bucket, u.pos);
      if m.vvNew[u.bucket, u.pos] == -1 {
        AddrMan.WriteSlot(m.vvNew, u, n);
        m.mapInfo := m.mapInfo[n := m.mapInfo[n].(refCount := m.mapInfo[n].refCount + 1)];
      }
    }
    PushKeepsRandom(before, m.Model(), n);
  }

  lemma ServiceRead(r: Record)
    ensures FromRecord(r).service == r.service
  {
  }

  lemma NewSlotBounds(h: Hashes, key: Key, service: Service, source: NetAddr)
    ensures NewSlot(h, key, service, source).bucket < NEW_BUCKET_COUNT
            && NewSlot(h, key, service, source).pos < BUCKET_SIZE
  {
  }

  method LoadNew(m: AddrMan.Manager, d: Stream, sameTable: bool, ghost from: Origin) returns (status: Status)
    requires Numbered(m, 0) && m.nNew == d.nNew && Genuine(m.h, d, from) && (from.Written? ==> sameTable)
    requires m.Model() == Header(d).(nTried := d.nTried)
    requires from.Written? ==> m.Model() == Partial(from.s, from.o, 0, map[], 0)
    modifies m, m.vvNew
    ensures status == if d.nNew <= |d.newRecords| then Loaded else EndOfStream
    ensures status.Loaded? ==> m.Model().(nTried := 0) == AddNews(m.h, Header(d), d.newRecords, d.nNew, sameTable)
    ensures status.Loaded? ==> Numbered(m, d.nNew) && m.nIdCount == d.nNew
    ensures m.nNew == old(m.nNew) && m.nTried == old(m.nTried) && m.nKey == old(m.nKey)
    ensures from.Written? ==>
              status.Loaded? && m.Model() == Partial(from.s, from.o, |from.o.news|, map[], |from.o.news|)
  {
    hide AddrMan.Table, Inv, OrdersOf, TablesClosed, Loading, NamesUpTo, TriedUpTo, AddNew;
    GenuineCounts(m.h, d, from);
    var n := 0;
    while n < d.nNew
      invariant n <= d.nNew && n <= |d.newRecords| && Numbered(m, n)
      invariant m.Model().(idCount := n, nTried := 0) == AddNews(m.h, Header(d), d.newRecords, n, sameTable)
      invariant m.nNew == old(m.nNew) && m.nTried == old(m.nTried) && m.nKey == old(m.nKey)
      invariant from.Written? ==> m.Model() == Partial(from.s, from.o, n, map[], 0)
    {
      if n >= |d.newRecords| {
        return EndOfStream;
      }
      if from.Written? {
        NewEntryNext(m.h, d, from, n);
      }
      AddNewCount(m.h, m.Model().(idCount := n), d.newRecords[n], sameTable, 0);
      LoadNewEntry(m, n, d.newRecords[n], sameTable);
      n := n + 1;
    }
    SameRandom(m.Model(), m.Model().(idCount := d.nNew));
    m.nIdCount := d.nNew;
    status := Loaded;
  }

  lemma GenuineCounts(h: Hashes, d: Stream, from: Origin)
    requires Genuine(h, d, from)
    ensures from.Written? ==>
              d.nNew == |from.o.news| == |d.newRecords| && d.nTried == |from.o.tried| == |d.triedRecords|
  {
    if from.Written? {
      AscendingSize(FreshIds(from.s.infos), from.o.news);
      AscendingSize(TriedIds(from.s.infos), from.o.tried);
    }
  }

  lemma NewEntryNext(h: Hashes, d: Stream, from: Origin, n: nat)
    requires Genuine(h, d, from) && from.Written? && n < |from.o.news|
    ensures n < |d.newRecords|
    ensures var s, o := from.s, from.o;
            var p, q := Partial(s, o, n, map[], 0), Partial(s, o, n + 1, map[], 0);
            q.(idCount := n + 1) == AddNew(h, p.(idCount := n), d.newRecords[n], true)
  {
    hide Inv, OrdersOf, TablesClosed, Loading, NamesUpTo, TriedUpTo, TriedSlot, NewSlot;
    var s, o := from.s, from.o;
    LoadedNext(s, o, n);
    NamesNext(h, s, o, n);
    TriedNext(h, s, o, n);
    EntryRecord(s, o, d, n);
    EntryRenamed(s, o, n);
    assert seq(n + 1, i => i) == seq(n, i => i) + [n];
  }

  /** Reads one tried entry into its slot; when the slot is taken the entry is lost. */
  method LoadTriedEntry(m: AddrMan.Manager, record: Record, ghost count: int) returns (lost: bool)
    requires Numbered(m, m.nIdCount)
    modifies m`mapInfo, m`mapAddr, m`vRandom, m`nIdCount, m.vvTried
    ensures Numbered(m, m.nIdCount) && old(m.nIdCount) <= m.nIdCount
    ensures lost == (TriedSlot(m.h, m.nKey, record.service) in old(AddrMan.Table(m.vvTried)))
    ensures m.Model().(nTried := if lost then count else count + 1)
            == AddTried(m.h, old(m.Model()).(nTried := count), record)
  {
    hide AddrMan.Table, RandomOk, TriedSlot;
    ghost var before := m.Model();
    var info := FromRecord(record);
    var k := TriedSlot(m.h, m.nKey, info.service);
    TriedSlotBounds(m.h, m.nKey, info.service);
    AddrMan.TableAt(m.vvTried, k.bucket, k.pos);
    lost := m.vvTried[k.bucket, k.pos] != -1;
    if !lost {
      var n := m.nIdCount;
      info := info.(randomPos := |m.vRandom|, inTried := true);
      m.vRandom := m.vRandom + [n];
      m.mapInfo := m.mapInfo[n := info];
      m.mapAddr := m.mapAddr[info.service.ip := n];
      AddrMan.WriteSlot(m.vvTried, k, n);
      m.nIdCount := n + 1;
      PushKeepsRandom(before, m.Model(), n);
    } else {
      SameRandom(before, m.Model());
    }
  }

  lemma TriedSlotBounds(h: Hashes, key: Key, service: Service)
    ensures TriedSlot(h, key, service).bucket < TRIED_BUCKET_COUNT && TriedSlot(h, key, service).pos < BUCKET_SIZE
  {
  }

  method LoadTried(m: AddrMan.Manager, d: Stream, ghost from: Origin) returns (status: Status)
    requires Numbered(m, m.nIdCount) && m.nIdCount >= d.nNew && Genuine(m.h, d, from) && m.nTried == d.nTried
    requires from.Written? ==> m.Model() == Partial(from.s, from.o, |from.o.news|, map[], |from.o.news|)
    modifies m, m.vvTried
    ensures status == if d.nTried <= |d.triedRecords| then Loaded else EndOfStream
    ensures status.Loaded? ==> m.Model() == AddTrieds(m.h, old(m.Model()).(nTried := 0), d.triedRecords, d.nTried)
    ensures status.Loaded? ==> Numbered(m, m.nIdCount) && m.nIdCount >= d.nNew
    ensures m.nNew == old(m.nNew) && m.nKey == old(m.nKey)
    ensures from.Written? ==>
              var n := |from.o.news| + |from.o.tried|;
              status.Loaded? && m.Model() == Partial(from.s, from.o, n, map[], n)
  {
    hide AddrMan.Table, Inv, OrdersOf, TablesClosed, Loading, NamesUpTo, TriedUpTo, AddTried;
    GenuineCounts(m.h, d, from);
    ghost var start := m.Model().(nTried := 0);
    var nLost := 0;
    var n := 0;
    while n < d.nTried
      invariant n <= d.nTried && n <= |d.triedRecords| && Numbered(m, m.nIdCount) && m.nIdCount >= d.nNew
      invariant m.Model().(nTried := n - nLost) == AddTrieds(m.h, start, d.triedRecords, n)
      invariant m.nNew == old(m.nNew) && m.nTried == d.nTried && m.nKey == old(m.nKey)
      invariant from.Written? ==>
                  nLost == 0 && m.Model() == Partial(from.s, from.o, |from.o.news| + n, map[], |from.o.news| + n)
    {
      if n >= |d.triedRecords| {
        return EndOfStream;
      }
      if from.Written? {
        TriedEntryNext(m.h, d, from, n, n - nLost);
      }
      var lost := LoadTriedEntry(m, d.triedRecords[n], n - nLost);
      if lost {
        nLost := nLost + 1;
      }
      n := n + 1;
    }
    SameRandom(m.Model(), m.Model().(nTried := m.nTried - nLost));
    m.nTried := m.nTried - nLost;
    status := Loaded;
  }

  lemma TriedEntryNext(h: Hashes, d: Stream, from: Origin, j: nat, count: int)
    requires Genuine(h, d, from) && from.Written? && j < |from.o.tried|
    ensures j < |d.triedRecords|
    ensures var s, o, n := from.s, from.o, |from.o.news| + j;
            var p, q := Partial(s, o, n, map[], n), Partial(s, o, n + 1, map[], n + 1);
            && TriedSlot(h, s.key, d.triedRecords[j].service) !in p.tried
            && q.(nTried := count + 1) == AddTried(h, p.(nTried := count), d.triedRecords[j])
  {
    hide Inv, OrdersOf, TablesClosed, Loading, NamesUpTo, TriedUpTo, TriedSlot;
    var s, o, n := from.s, from.o, |from.o.news| + j;
    LoadedNext(s, o, n);
    NamesNext(h, s, o, n);
    TriedNext(h, s, o, n);
    EntryRecord(s, o, d, n);
    EntryRenamed(s, o, n);
    assert seq(n + 1, i => i) == seq(n, i => i) + [n];
  }

  /** Reads one index of a new bucket: the entry takes its slot there, if it is free. */
  method LoadIndex(m: AddrMan.Manager, bucket: nat, nIndex: int)
    requires Numbered(m, m.nIdCount) && 0 <= nIndex < m.nIdCount && bucket < NEW_BUCKET_COUNT
    modifies m`mapInfo, m.vvNew
    ensures Numbered(m, m.nIdCount)
    ensures var u := SlotIn(m.h, m.nKey, bucket, old(m.mapInfo)[nIndex].service);
            if u !in old(AddrMan.Table(m.vvNew)) && old(m.mapInfo)[nIndex].refCount < NEW_BUCKETS_PER_ADDRESS
            then m.Model() == Ref(old(m.Model()), u, nIndex)
            else m.Model() == old(m.Model())
  {
    hide AddrMan.Table, RandomOk;
    ghost var before := m.Model();
    var info := m.mapInfo[nIndex];
    var u := SlotIn(m.h, m.nKey, bucket, info.service);
    AddrMan.TableAt(m.vvNew, u.bucket, u.pos);
    if m.vvNew[u.bucket, u.pos] == -1 && info.refCount < NEW_BUCKETS_PER_ADDRESS {
      m.mapInfo := m.mapInfo[nIndex := info.(refCount := info.refCount + 1)];
      AddrMan.WriteSlot(m.vvNew, u, nIndex);
      RandomKeep(before, m.Model());
    }
  }

  /** The place of the j-th index of a bucket's list. */
  lemma {:induction false} NthOccupied(s: State, o: Orders, bucket: nat, pos: nat, j: nat) returns (p: nat)
    requires OrdersOf(s, o) && TablesClosed(s) && j < |BucketList(s, o, bucket, pos)|
    ensures p < pos && |BucketList(s, o, bucket, p)| == j && Slot(bucket, p) in s.news
    ensures BucketList(s, o, bucket, pos)[j] == Renamed(s, o, s.news[Slot(bucket, p)])
  {
    hide OrdersOf, TablesClosed, Renamed;
    if j < |BucketList(s, o, bucket, pos - 1)| {
      p := NthOccupied(s, o, bucket, pos - 1, j);
    } else {
      p := pos - 1;
    }
  }

  /** Between two places with equally long lists there is no occupied slot. */
  lemma {:induction false} NothingBetween(h: Hashes, s: State, o: Orders, bucket: nat, p: nat, q: nat)
    requires Inv(h, s) && OrdersOf(s, o) && TablesClosed(s)
    requires p <= q && |BucketList(s, o, bucket, p)| == |BucketList(s, o, bucket, q)|
    ensures NewsUpTo(s, o, bucket, p) == NewsUpTo(s, o, bucket, q)
    decreases q - p
  {
    hide Inv, OrdersOf, TablesClosed, NewsUpTo, Renamed;
    if p < q {
      ListGrows(s, o, bucket, p, q - 1);
      NothingBetween(h, s, o, bucket, p, q - 1);
      NewsNext(h, s, o, bucket, q - 1);
    }
  }

  lemma {:induction false} ListGrows(s: State, o: Orders, bucket: nat, p: nat, q: nat)
    requires OrdersOf(s, o) && TablesClosed(s) && p <= q
    ensures |BucketList(s, o, bucket, p)| <= |BucketList(s, o, bucket, q)|
    decreases q - p
  {
    hide OrdersOf, TablesClosed, Renamed;
    if p < q {
      ListGrows(s, o, bucket, p, q - 1);
    }
  }

  /** The slot loaded next in a written stream is free, and its entry can take it. */
  lemma IndexFree(h: Hashes, s: State, o: Orders, bucket: nat, p: nat)
    requires Inv(h, s) && OrdersOf(s, o) && TablesClosed(s) && Slot(bucket, p) in s.news
    ensures var u, k := Slot(bucket, p), Renamed(s, o, s.news[Slot(bucket, p)]);
            && 0 <= k < |o.news| && Entry(o, k) == s.news[u]
            && SlotIn(h, s.key, bucket, s.infos[Entry(o, k)].service) == u
            && u !in NewsUpTo(s, o, bucket, p)
            && |SlotsOf(NewsUpTo(s, o, bucket, p), k)| < NEW_BUCKETS_PER_ADDRESS
  {
    hide Inv, OrdersOf, TablesClosed, NewsUpTo, Renamed;
    var u := Slot(bucket, p);
    SlotOwner(h, s, u);
    var id: int := s.news[u];
    RenamedEntry(s, o, id);
    NewsNext(h, s, o, bucket, p);
    NewsAreRenamed(s, o, bucket, p);
    RefsLeft(h, s, o, NewsUpTo(s, o, bucket, p), u);
  }

  /** An entry as loaded so far. */
  lemma EntryLoaded(s: State, o: Orders, n: nat, news: map<Slot, int>, k: int)
    requires OrdersOf(s, o) && 0 <= k < n <= |o.news| + |o.tried|
    ensures k in Loading(s, o, n, news) && Entry(o, k) in s.infos
    ensures Loading(s, o, n, news)[k].service == s.infos[Entry(o, k)].service
    ensures Loading(s, o, n, news)[k].refCount == |SlotsOf(news, k)|
  {
    hide OrdersOf;
    EntryRenamed(s, o, k);
  }

  /** Loading one slot of a written stream. */
  lemma IndexNext(h: Hashes, s: State, o: Orders, bucket: nat, p: nat)
    requires Inv(h, s) && OrdersOf(s, o) && TablesClosed(s) && Slot(bucket, p) in s.news
    ensures var n, k := |o.news| + |o.tried|, Renamed(s, o, s.news[Slot(bucket, p)]);
            var t := Partial(s, o, n, NewsUpTo(s, o, bucket, p), n);
            && 0 <= k < |o.news| && k in t.infos
            && SlotIn(h, s.key, bucket, t.infos[k].service) == Slot(bucket, p)
            && Slot(bucket, p) !in t.news && t.infos[k].refCount < NEW_BUCKETS_PER_ADDRESS
            && Ref(t, Slot(bucket, p), k) == Partial(s, o, n, NewsUpTo(s, o, bucket, p + 1), n)
  {
    hide Inv, OrdersOf, TablesClosed, NewsUpTo, NamesUpTo, TriedUpTo, Renamed, Loading, SlotIn, Entry;
    var n, u := |o.news| + |o.tried|, Slot(bucket, p);
    IndexFree(h, s, o, bucket, p);
    SlotOwner(h, s, u);
    var k, news := Renamed(s, o, s.news[u]), NewsUpTo(s, o, bucket, p);
    EntryLoaded(s, o, n, news, k);
    NewsNext(h, s, o, bucket, p);
    LoadingRef(s, o, n, news, u, k);
  }

  lemma SlotOwner(h: Hashes, s: State, u: Slot)
    requires Inv(h, s) && u in s.news
    ensures s.news[u] in s.infos && u == SlotIn(h, s.key, u.bucket, s.infos[s.news[u]].service)
  {
    assert NewSlotOk(h, s, u);
  }

  lemma NewsAreRenamed(s: State, o: Orders, bucket: nat, pos: nat)
    requires OrdersOf(s, o) && TablesClosed(s)
    ensures forall v :: v in NewsUpTo(s, o, bucket, pos) ==>
              v in s.news && NewsUpTo(s, o, bucket, pos)[v] == Renamed(s, o, s.news[v])
  {
    hide OrdersOf, Renamed;
  }

  /** From any place after j indices to the place of the next one. */
  lemma NextPlace(h: Hashes, d: Stream, from: Origin, bucket: nat, p: nat, j: nat) returns (q: nat)
    requires Genuine(h, d, from) && from.Written? && bucket < NEW_BUCKET_COUNT
    requires |BucketList(from.s, from.o, bucket, p)| == j < |BucketList(from.s, from.o, bucket, BUCKET_SIZE)|
    ensures q < BUCKET_SIZE && Slot(bucket, q) in from.s.news
    ensures NewsUpTo(from.s, from.o, bucket, q) == NewsUpTo(from.s, from.o, bucket, p)
    ensures |BucketList(from.s, from.o, bucket, q + 1)| == j + 1
    ensures BucketList(from.s, from.o, bucket, BUCKET_SIZE)[j] == Renamed(from.s, from.o, from.s.news[Slot(bucket, q)])
  {
    hide Inv, OrdersOf, TablesClosed, NewsUpTo, Renamed, Encodes;
    q := NthOccupied(from.s, from.o, bucket, BUCKET_SIZE, j);
    if p <= q {
      NothingBetween(h, from.s, from.o, bucket, p, q);
    } else {
      NothingBetween(h, from.s, from.o, bucket, q, p);
    }
  }

  method LoadBucket(m: AddrMan.Manager, d: Stream, bucket: nat, sameTable: bool, ghost from: Origin)
    requires Numbered(m, m.nIdCount) && m.nIdCount >= d.nNew && Genuine(m.h, d, from) && bucket < |d.buckets|
    requires sameTable ==> bucket < NEW_BUCKET_COUNT
    requires from.Written? ==>
               var n := |from.o.news| + |from.o.tried|;
               sameTable && m.Model() == Partial(from.s, from.o, n, NewsUpTo(from.s, from.o, bucket, 0), n)
    modifies m`mapInfo, m.vvNew
    ensures Numbered(m, m.nIdCount)
    ensures var list := d.buckets[bucket];
            m.Model() ==
              if sameTable then AddBucket(m.h, old(m.Model()), d.nNew, bucket, list, |list|) else old(m.Model())
    ensures from.Written? ==>
              var n := |from.o.news| + |from.o.tried|;
              m.Model() == Partial(from.s, from.o, n, NewsUpTo(from.s, from.o, bucket + 1, 0), n)
  {
    hide AddrMan.Table, Inv, OrdersOf, TablesClosed, Loading, NamesUpTo, TriedUpTo, NewsUpTo, RandomOk, SlotIn;
    ghost var start := m.Model();
    GenuineCounts(m.h, d, from);
    ghost var p: nat := 0;
    var list := d.buckets[bucket];
    if from.Written? {
      assert list == BucketList(from.s, from.o, bucket, BUCKET_SIZE);
    }
    for j := 0 to |list|
      invariant Numbered(m, m.nIdCount)
      invariant m.Model() == if sameTable then AddBucket(m.h, start, d.nNew, bucket, list, j) else start
      invariant from.Written? ==>
                  var n := |from.o.news| + |from.o.tried|;
                  && p <= BUCKET_SIZE && |BucketList(from.s, from.o, bucket, p)| == j
                  && m.Model() == Partial(from.s, from.o, n, NewsUpTo(from.s, from.o, bucket, p), n)
    {
      var nIndex := list[j];
      if from.Written? {
        ghost var q := NextPlace(m.h, d, from, bucket, p, j);
        IndexNext(m.h, from.s, from.o, bucket, q);
        p := q + 1;
      }
      if 0 <= nIndex < d.nNew && sameTable {
        LoadIndex(m, bucket, nIndex);
      }
    }
    if from.Written? {
      NothingBetween(m.h, from.s, from.o, bucket, p, BUCKET_SIZE);
      NewsBucketDone(m.h, from.s, from.o, bucket);
    }
  }

  method LoadBuckets(m: AddrMan.Manager, d: Stream, nUBuckets: bv32, sameTable: bool, ghost from: Origin)
    returns (status: Status)
    requires Numbered(m, m.nIdCount) && m.nIdCount >= d.nNew && Genuine(m.h, d, from)
    requires sameTable ==> Signed(nUBuckets) == NEW_BUCKET_COUNT
    requires from.Written? ==>
               var n := |from.o.news| + |from.o.tried|;
               sameTable && m.Model() == Partial(from.s, from.o, n, map[], n)
    modifies m`mapInfo, m.vvNew
    ensures status == if Signed(nUBuckets) <= |d.buckets| then Loaded else EndOfStream
    ensures status.Loaded? ==>
              m.Model() == if sameTable then AddBuckets(m.h, old(m.Model()), d.nNew, d.buckets, NEW_BUCKET_COUNT)
                else old(m.Model())
    ensures status.Loaded? ==> Numbered(m, m.nIdCount)
    ensures from.Written? ==> status.Loaded? && m.Model() == Reloaded(from.s, from.o)
  {
    hide AddrMan.Table, Inv, OrdersOf, TablesClosed, Partial, NewsUpTo, Signed, RandomOk, Reloaded, AddBucket;
    ghost var start := m.Model();
    if from.Written? {
      NoNewsYet(from.s, from.o);
    }
    var bucket := 0;
    while bucket < Signed(nUBuckets)
      invariant 0 <= bucket <= |d.buckets| && Numbered(m, m.nIdCount) && (bucket == 0 || bucket <= Signed(nUBuckets))
      invariant m.Model() == if sameTable then AddBuckets(m.h, start, d.nNew, d.buckets, bucket) else start
      invariant from.Written? ==>
                  var n := |from.o.news| + |from.o.tried|;
                  bucket <= NEW_BUCKET_COUNT
                  && m.Model() == Partial(from.s, from.o, n, NewsUpTo(from.s, from.o, bucket, 0), n)
      decreases Signed(nUBuckets) - bucket
    {
      if bucket >= |d.buckets| {
        return EndOfStream;
      }
      LoadBucket(m, d, bucket, sameTable, from);
      bucket := bucket + 1;
    }
    if from.Written? {
      LoadedAll(m.h, from.s, from.o);
    }
    status := Loaded;
  }

  lemma NoNewsYet(s: State, o: Orders)
    requires OrdersOf(s, o) && TablesClosed(s)
    ensures NewsUpTo(s, o, 0, 0) == map[]
  {
  }

  /** Deletes entries that ended up without any slot. */
  method Prune(m: AddrMan.Manager, ghost from: Origin)
    requires Numbered(m, m.nIdCount)
    requires from.Written? ==> Inv(m.h, m.Model())
    modifies m
    ensures m.Shape() && m.Model() == AddrRead.Prune(old(m.Model()), old(m.nIdCount))
    ensures from.Written? ==> m.Model() == old(m.Model())
  {
    hide AddrMan.Table, Inv, RandomOk, Delete;
    var keys := KeysInOrder(m.mapInfo);
    KeysNumbered(m.mapInfo, keys, m.nIdCount);
    for j := 0 to |keys|
      invariant m.Shape() && RandomOk(m.Model()) && m.Model() == AddrRead.Prune(old(m.Model()), j)
      invariant from.Written? ==> m.Model() == old(m.Model())
    {
      var n := keys[j];
      if n in m.mapInfo && !m.mapInfo[n].inTried && m.mapInfo[n].refCount == 0 {
        if from.Written? {
          SidesByRefs(m.h, m.Model(), n);
        }
        DeleteKeepsRandom(m.Model(), n);
        m.DeleteEntry(n);
      }
    }
  }

  /** Entries numbered from zero are visited in that order. */
  lemma KeysNumbered(infos: map<int, Info>, keys: seq<int>, n: nat)
    requires Ascending(infos.Keys, keys) && forall k :: k in infos <==> 0 <= k < n
    ensures |keys| == n && forall j :: 0 <= j < n ==> keys[j] == j
  {
    var all := seq(n, i => i);
    forall id ensures id in all <==> id in infos.Keys {
      if 0 <= id < n {
        assert all[id] == id;
      }
    }
    assert Ascending(infos.Keys, all);
    AscendingSize(infos.Keys, all);
    AscendingSize(infos.Keys, keys);
    forall j | 0 <= j < n ensures keys[j] == j {
      AtLeast(keys, j);
      AtMost(keys, j, n - 1 - j);
      assert keys[n - 1] in keys;
    }
  }

  lemma {:induction false} AtLeast(keys: seq<int>, j: nat)
    requires j < |keys| && (forall a, b :: 0 <= a < b < |keys| ==> keys[a] < keys[b])
             && forall k :: k in keys ==> k >= 0
    ensures keys[j] >= j
  {
    if j == 0 {
      assert keys[0] in keys;
    } else {
      AtLeast(keys, j - 1);
    }
  }

  lemma {:induction false} AtMost(keys: seq<int>, j: nat, steps: nat)
    requires j + steps < |keys| && forall a, b :: 0 <= a < b < |keys| ==> keys[a] < keys[b]
    ensures keys[j] + steps <= keys[j + steps]
  {
    if steps > 0 {
      AtMost(keys, j, steps - 1);
    }
  }

  /** What becomes of a stream. */
  function Outcome(d: Stream): Status {
    if d.keySize != 32 then BadKeySize
    else if d.nNew > NEW_BUCKET_COUNT * BUCKET_SIZE then TooManyNew
    else if d.nTried > TRIED_BUCKET_COUNT * BUCKET_SIZE then TooManyTried
    else if !Complete(d) then EndOfStream
    else Loaded
  }

  /**
    Reads a stream into a newly constructed manager. Any stream that is long enough loads. The result is
    consistent if and only if no entry with a slot shares its address and all of those have sensible times.
  */
  method Unserialize(m: AddrMan.Manager, d: Stream, ghost from: Origin) returns (status: Status)
    requires m.Valid() && m.Model() == Empty(m.nKey) && Genuine(m.h, d, from)
    modifies m, m.vvNew, m.vvTried
    ensures status == Outcome(d)
    ensures status.Loaded? ==> m.Model() == Read(m.h, d) && Copied(m.h, d, m.Model(), d.nTried)
    ensures status.Loaded? ==> (m.Valid() <==> NoClashes(Filled(m.h, d)) && KeptTimes(Filled(m.h, d)))
    ensures status.Loaded? && Sensible(d) ==> m.Valid()
    ensures from.Written? ==> status.Loaded? && m.Model() == Reloaded(from.s, from.o) && m.Valid()
  {
    hide AddrMan.Table, Amid, OrdersOf, TablesClosed, Partial, Reloaded, AddNews, AddTrieds, AddBuckets, Signed,
         NoClashes, KeptTimes, Sensible, AddrRead.Prune, Copied, NewRecords;
    if d.keySize != 32 {
      return BadKeySize;
    }
    RandomOfEmpty(m.nKey);
    SameRandom(Empty(m.nKey), Empty(m.nKey).(key := d.key, nNew := d.nNew, nTried := d.nTried));
    m.nKey := d.key;
    m.nNew := d.nNew;
    m.nTried := d.nTried;
    var nUBuckets := BucketCount(d);
    WithinLimits(m.h, d, from);
    if m.nNew > NEW_BUCKET_COUNT * BUCKET_SIZE {
      return TooManyNew;
    }
    if m.nTried > TRIED_BUCKET_COUNT * BUCKET_SIZE {
      return TooManyTried;
    }
    var sameTable := SameTable(d);
    SignedSmall();
    NothingLoaded(d, from, m.h);
    status := LoadNew(m, d, sameTable, from);
    if status.Loaded? {
      status := LoadTried(m, d, from);
    }
    if status.Loaded? {
      status := LoadBuckets(m, d, nUBuckets, sameTable, from);
    }
    if status.Loaded? {
      if from.Written? {
        ReloadedKeeps(m.h, from.s, from.o);
      }
      Prune(m, from);
      ReadRecords(m.h, d);
      ReadConsistent(m.h, d);
      if Sensible(d) {
        SensibleConsistent(m.h, d);
      }
    }
  }

  lemma SignedSmall()
    ensures Signed(1024) == 1024
  {
  }

  lemma RandomOfEmpty(key: Key)
    ensures RandomOk(Empty(key))
  {
  }

  lemma WithinLimits(h: Hashes, d: Stream, from: Origin)
    requires Genuine(h, d, from)
    ensures from.Written? ==>
              && d.nNew <= NEW_BUCKET_COUNT * BUCKET_SIZE && d.nTried <= TRIED_BUCKET_COUNT * BUCKET_SIZE
              && d.version == 1 && d.keySize == 32 && d.nUBuckets ^ 0x4000_0000 == 1024
  {
    if from.Written? {
      FewEntries(h, from.s);
    }
  }

  lemma NothingLoaded(d: Stream, from: Origin, h: Hashes)
    requires Genuine(h, d, from)
    ensures from.Written? ==>
              Partial(from.s, from.o, 0, map[], 0) == Empty(d.key).(nNew := d.nNew, nTried := d.nTried)
  {
    if from.Written? {
      forall ip | ip in from.s.ids ensures Renamed(from.s, from.o, from.s.ids[ip]) >= 0 {
        RenamedEntry(from.s, from.o, from.s.ids[ip]);
      }
      forall u | u in from.s.tried ensures Renamed(from.s, from.o, from.s.tried[u]) >= 0 {
        RenamedEntry(from.s, from.o, from.s.tried[u]);
      }
    }
  }

  lemma SameNames(s: State, t: State)
    requires SameManager(s, t)
    ensures t.ids.Keys == s.ids.Keys
    ensures forall ip :: ip in s.ids ==>
              s.ids[ip] in s.infos && t.ids[ip] in t.infos && SameWritten(s.infos[s.ids[ip]], t.infos[t.ids[ip]])
  {
    hide SameHolder, SameWritten;
    forall ip
      ensures ip in t.ids <==> ip in s.ids
      ensures ip in s.ids ==>
                s.ids[ip] in s.infos && t.ids[ip] in t.infos && SameWritten(s.infos[s.ids[ip]], t.infos[t.ids[ip]])
    {
      assert SameNamed(s, t, ip);
    }
  }

  /**
    Writing any valid manager and reading it into a new one loses no address: the result is
    valid, and its tables hold the same entries in the same slots under new ids, with all fields that
    are not kept in memory only.
  */
  method RoundTrip(m: AddrMan.Manager, key: Key) returns (r: AddrMan.Manager, ghost o: Orders)
    requires m.Valid()
    ensures OrdersOf(m.Model(), o) && TablesClosed(m.Model())
    ensures r.Valid() && r.Model() == Reloaded(m.Model(), o) && SameManager(m.Model(), r.Model())
    ensures r.mapAddr.Keys == m.mapAddr.Keys
    ensures forall ip :: ip in m.mapAddr ==>
              && m.mapAddr[ip] in m.mapInfo && r.mapAddr[ip] in r.mapInfo
              && SameWritten(m.mapInfo[m.mapAddr[ip]], r.mapInfo[r.mapAddr[ip]])
  {
    hide AddrMan.Table, Amid, OrdersOf, TablesClosed, SameManager, SameWritten, Reloaded;
    var d;
    d, o := Serialize(m);
    r := new AddrMan.Manager(m.h, m.routable, key);
    var status := Unserialize(r, d, Written(m.h, m.Model(), o));
    ReloadedSame(m.Model(), o);
    SameNames(m.Model(), r.Model());
  }
}
