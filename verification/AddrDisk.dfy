/**
What the address manager writes to disk and what reading it back should give: the
entries in ascending order of id, new ones first, with ids renamed to their position
in that order.
*/
module AddrDisk {
  import opened Sets
  import opened AddrSpec
  import opened AddrSteps

  /** The part of an entry that is serialized. */
  datatype Record = Record(service: Service, services: bv64, time: nat, source: NetAddr, lastSuccess: int,
                           attempts: int)

  datatype Stream = Stream(
    version: nat, keySize: nat, key: Key, nNew: nat, nTried: nat, nUBuckets: bv32,
    newRecords: seq<Record>, triedRecords: seq<Record>, buckets: seq<seq<int>>)

  function ToRecord(i: Info): Record {
    Record(i.service, i.services, i.time, i.source, i.lastSuccess, i.attempts)
  }

  function FromRecord(r: Record): Info {
    Info(r.service, r.services, r.time, r.source, 0, 0, r.lastSuccess, r.attempts, 0, false, -1)
  }

  // ---------------------------------------------------------- order of ids

  /** The elements of a set of ids, in the order a std::map visits them. */
  ghost predicate Ascending(ids: set<int>, order: seq<int>) {
    && (forall i, j :: 0 <= i < j < |order| ==> order[i] < order[j])
    && (forall id :: id in order <==> id in ids)
  }

  ghost function Index(order: seq<int>, id: int): (k: int)
    requires id in order
    ensures 0 <= k < |order| && order[k] == id
  {
    var k :| 0 <= k < |order| && order[k] == id;
    k
  }

  lemma IndexUnique(ids: set<int>, order: seq<int>, k: int)
    requires Ascending(ids, order) && 0 <= k < |order|
    ensures order[k] in order && Index(order, order[k]) == k
  {
  }

  lemma AscendingSize(ids: set<int>, order: seq<int>)
    requires Ascending(ids, order)
    ensures |order| == |ids|
  {
    DistinctSize(order);
    assert Elements(order) == ids;
  }

  // --------------------------------------------------- what reading gives

  /** The orders in which new and tried entries are written. */
  datatype Orders = Orders(news: seq<int>, tried: seq<int>)

  ghost predicate OrdersOf(s: State, o: Orders) {
    Ascending(FreshIds(s.infos), o.news) && Ascending(TriedIds(s.infos), o.tried)
  }

  /** The new id of an entry: its position, tried entries after new ones. */
  ghost function Renamed(s: State, o: Orders, id: int): int
    requires OrdersOf(s, o) && id in s.infos
  {
    if s.infos[id].inTried then |o.news| + Index(o.tried, id) else Index(o.news, id)
  }

  function Entry(o: Orders, k: int): int
    requires 0 <= k < |o.news| + |o.tried|
  {
    if k < |o.news| then o.news[k] else o.tried[k - |o.news|]
  }

  lemma EntryRenamed(s: State, o: Orders, k: int)
    requires OrdersOf(s, o) && 0 <= k < |o.news| + |o.tried|
    ensures Entry(o, k) in s.infos && Renamed(s, o, Entry(o, k)) == k
    ensures s.infos[Entry(o, k)].inTried <==> k >= |o.news|
  {
    var id := Entry(o, k);
    if k < |o.news| {
      assert id in o.news;
      IndexUnique(FreshIds(s.infos), o.news, k);
      assert id in FreshIds(s.infos);
    } else {
      assert id in o.tried;
      IndexUnique(TriedIds(s.infos), o.tried, k - |o.news|);
      assert id in TriedIds(s.infos);
    }
  }

  lemma RenamedEntry(s: State, o: Orders, id: int)
    requires OrdersOf(s, o) && id in s.infos
    ensures 0 <= Renamed(s, o, id) < |o.news| + |o.tried| && Entry(o, Renamed(s, o, id)) == id
    ensures Renamed(s, o, id) < |o.news| <==> !s.infos[id].inTried
  {
    assert id in FreshIds(s.infos) || id in TriedIds(s.infos);
  }

  /** An entry as it comes back: statistics kept in memory only are lost. */
  function Restored(i: Info, k: int): Info {
    FromRecord(ToRecord(i)).(refCount := i.refCount, inTried := i.inTried, randomPos := k)
  }

  /** The manager read back. */
  ghost function Reloaded(s: State, o: Orders): State
    requires OrdersOf(s, o) && TablesClosed(s)
  {
    var n := |o.news| + |o.tried|;
    State(s.key, n,
          map k | 0 <= k < n :: Reentry(s, o, k),
          map ip | ip in s.ids :: Renamed(s, o, s.ids[ip]),
          seq(n, i => i),
          s.nTried, map u | u in s.tried :: Renamed(s, o, s.tried[u]),
          s.nNew, map u | u in s.news :: Renamed(s, o, s.news[u]),
          1)
  }

  ghost function Reentry(s: State, o: Orders, k: int): Info
    requires OrdersOf(s, o) && 0 <= k < |o.news| + |o.tried|
  {
    EntryRenamed(s, o, k);
    Restored(s.infos[Entry(o, k)], k)
  }

  /** Tables and names refer to entries only. */
  ghost predicate TablesClosed(s: State) {
    && (forall ip :: ip in s.ids ==> s.ids[ip] in s.infos)
    && (forall u :: u in s.tried ==> s.tried[u] in s.infos)
    && (forall u :: u in s.news ==> s.news[u] in s.infos)
  }

  lemma InvClosed(h: Hashes, s: State)
    requires Inv(h, s)
    ensures TablesClosed(s)
  {
    forall ip | ip in s.ids ensures s.ids[ip] in s.infos { assert OwnerOk(s, ip); }
    forall u | u in s.tried ensures s.tried[u] in s.infos { assert TriedSlotOk(h, s, u); }
    forall u | u in s.news ensures s.news[u] in s.infos { assert NewSlotOk(h, s, u); }
  }

  // --------------------------------------------- it satisfies Check_ again

  lemma ReloadedNames(h: Hashes, s: State, o: Orders)
    requires Inv(h, s) && OrdersOf(s, o) && TablesClosed(s)
    ensures NamesOk(Reloaded(s, o)) && RandomOk(Reloaded(s, o)) && TimesOk(Reloaded(s, o))
  {
    hide TriedOk, NewsOk, Counted, Referenced;
    var t := Reloaded(s, o);
    forall k | k in t.infos ensures NameOk(t, k) && PlaceOk(t, k) && TimeOk(t.infos[k]) {
      EntryRenamed(s, o, k);
      var id: int := Entry(o, k);
      assert NameOk(s, id) && TimeOk(s.infos[id]);
    }
    forall ip | ip in t.ids ensures OwnerOk(t, ip) {
      assert OwnerOk(s, ip);
      RenamedEntry(s, o, s.ids[ip]);
    }
    forall i | 0 <= i < |t.random| ensures ListedOk(t, i) {
    }
  }

  lemma ReloadedTried(h: Hashes, s: State, o: Orders)
    requires Inv(h, s) && OrdersOf(s, o) && TablesClosed(s)
    ensures TriedOk(h, Reloaded(s, o))
  {
    hide NamesOk, RandomOk, NewsOk, Counted, Referenced;
    var t := Reloaded(s, o);
    forall u | u in t.tried ensures TriedSlotOk(h, t, u) {
      assert TriedSlotOk(h, s, u);
      RenamedEntry(s, o, s.tried[u]);
    }
    forall k | k in t.infos ensures TriedEntryOk(h, t, k) {
      EntryRenamed(s, o, k);
      var id: int := Entry(o, k);
      assert TriedEntryOk(h, s, id);
    }
  }

  lemma ReloadedNews(h: Hashes, s: State, o: Orders)
    requires Inv(h, s) && OrdersOf(s, o) && TablesClosed(s)
    ensures NewsOk(h, Reloaded(s, o))
  {
    hide NamesOk, RandomOk, TriedOk, Counted, Referenced;
    var t := Reloaded(s, o);
    forall u | u in t.news ensures NewSlotOk(h, t, u) {
      assert NewSlotOk(h, s, u);
      RenamedEntry(s, o, s.news[u]);
    }
    forall k | k in t.infos ensures RefCountOk(t, k) {
      EntryRenamed(s, o, k);
      var id: int := Entry(o, k);
      assert RefCountOk(s, id);
      assert SlotsOf(t.news, k) == SlotsOf(s.news, id) by {
        forall u | u in s.news ensures s.news[u] == id <==> t.news[u] == k {
          RenamedEntry(s, o, s.news[u]);
        }
      }
    }
  }

  /** Renaming keeps the number of entries on each side. */
  lemma SideSize(s: State, o: Orders, side: set<int>, side': set<int>)
    requires OrdersOf(s, o)
    requires forall id :: id in side ==> id in s.infos && Renamed(s, o, id) in side'
    requires forall k :: k in side' ==> 0 <= k < |o.news| + |o.tried| && Entry(o, k) in side
    ensures |side'| == |side|
  {
    hide OrdersOf, Renamed, Entry;
    var f := map id | id in side :: Renamed(s, o, id);
    var g := map k | k in side' :: Entry(o, k);
    forall id | id in f ensures f[id] in g && g[f[id]] == id {
      RenamedEntry(s, o, id);
    }
    forall k | k in g ensures g[k] in f && f[g[k]] == k {
      EntryRenamed(s, o, k);
    }
    BijectionSize(f, g);
    assert f.Keys == side && g.Keys == side';
  }

  lemma ReloadedCounted(h: Hashes, s: State, o: Orders)
    requires Inv(h, s) && OrdersOf(s, o) && TablesClosed(s)
    ensures Counted(Reloaded(s, o), 0) && Referenced(Reloaded(s, o), {})
  {
    hide NamesOk, RandomOk, TriedOk, NewsOk, OrdersOf, Renamed, TablesClosed;
    var t := Reloaded(s, o);
    forall k | k in t.infos
      ensures Entry(o, k) in s.infos && t.infos[k].inTried == s.infos[Entry(o, k)].inTried
      ensures !t.infos[k].inTried ==> 1 <= t.infos[k].refCount <= NEW_BUCKETS_PER_ADDRESS
    {
      EntryRenamed(s, o, k);
      var id: int := Entry(o, k);
      assert id in s.infos;
    }
    forall id | id in s.infos
      ensures Renamed(s, o, id) in t.infos && t.infos[Renamed(s, o, id)].inTried == s.infos[id].inTried
    {
      RenamedEntry(s, o, id);
    }
    SideSize(s, o, FreshIds(s.infos), FreshIds(t.infos));
    SideSize(s, o, TriedIds(s.infos), TriedIds(t.infos));
  }

  /** The manager read back satisfies the invariant. */
  lemma ReloadedKeeps(h: Hashes, s: State, o: Orders)
    requires Inv(h, s) && OrdersOf(s, o) && TablesClosed(s)
    ensures Inv(h, Reloaded(s, o))
  {
    hide Reloaded, NamesOk, RandomOk, TriedOk, NewsOk, TimesOk, Counted, Referenced;
    ReloadedNames(h, s, o);
    ReloadedTried(h, s, o);
    ReloadedNews(h, s, o);
    ReloadedCounted(h, s, o);
  }

  /** Entries agree on all that is written, and on their side. */
  predicate SameWritten(i: Info, j: Info) {
    && i.service == j.service && i.services == j.services && i.time == j.time && i.source == j.source
    && i.lastSuccess == j.lastSuccess && i.attempts == j.attempts && i.inTried == j.inTried
  }

  /** The entry of an address and the entry in a slot, in the manager and in the one read back. */
  ghost predicate SameNamed(s: State, t: State, ip: NetAddr) {
    && (ip in t.ids <==> ip in s.ids)
    && (ip in s.ids ==>
          && s.ids[ip] in s.infos && t.ids[ip] in t.infos && SameWritten(s.infos[s.ids[ip]], t.infos[t.ids[ip]])
          && t.infos[t.ids[ip]].refCount == s.infos[s.ids[ip]].refCount)
  }

  ghost predicate SameHolder(infos: map<int, Info>, table: map<Slot, int>, infos': map<int, Info>,
                             table': map<Slot, int>, u: Slot) {
    && (u in table' <==> u in table)
    && (u in table ==>
          && table[u] in infos && table'[u] in infos'
          && infos[table[u]].service.ip == infos'[table'[u]].service.ip)
  }

  /** The same addresses with the same entries in the same slots, whatever their ids. */
  ghost predicate SameManager(s: State, t: State) {
    && t.key == s.key && t.nTried == s.nTried && t.nNew == s.nNew && (forall ip :: SameNamed(s, t, ip))
    && (forall u :: SameHolder(s.infos, s.news, t.infos, t.news, u))
    && (forall u :: SameHolder(s.infos, s.tried, t.infos, t.tried, u))
  }

  /** Reading back loses nothing that is written. */
  lemma ReloadedSame(s: State, o: Orders)
    requires OrdersOf(s, o) && TablesClosed(s)
    ensures SameManager(s, Reloaded(s, o))
  {
    hide OrdersOf, Renamed, Entry, Reentry, SameNamed, SameHolder;
    var t := Reloaded(s, o);
    forall ip ensures SameNamed(s, t, ip) {
      ReloadedName(s, o, ip);
    }
    forall u
      ensures SameHolder(s.infos, s.news, t.infos, t.news, u) && SameHolder(s.infos, s.tried, t.infos, t.tried, u)
    {
      ReloadedHolder(s, o, u);
    }
  }

  lemma ReloadedEntry(s: State, o: Orders, id: int)
    requires OrdersOf(s, o) && TablesClosed(s) && id in s.infos
    ensures var t, k := Reloaded(s, o), Renamed(s, o, id);
            k in t.infos && SameWritten(s.infos[id], t.infos[k]) && t.infos[k].refCount == s.infos[id].refCount
  {
    hide OrdersOf, Renamed, Entry;
    RenamedEntry(s, o, id);
  }

  lemma ReloadedName(s: State, o: Orders, ip: NetAddr)
    requires OrdersOf(s, o) && TablesClosed(s)
    ensures SameNamed(s, Reloaded(s, o), ip)
  {
    hide OrdersOf, Renamed, Entry, Reentry, SameWritten;
    if ip in s.ids {
      ReloadedEntry(s, o, s.ids[ip]);
    }
  }

  lemma ReloadedHolder(s: State, o: Orders, u: Slot)
    requires OrdersOf(s, o) && TablesClosed(s)
    ensures var t := Reloaded(s, o);
            SameHolder(s.infos, s.news, t.infos, t.news, u) && SameHolder(s.infos, s.tried, t.infos, t.tried, u)
  {
    hide OrdersOf, Renamed, Entry, Reentry;
    if u in s.news {
      ReloadedEntry(s, o, s.news[u]);
    }
    if u in s.tried {
      ReloadedEntry(s, o, s.tried[u]);
    }
  }

  // ------------------------------------------------------------- encoding

  /** The indices written for the first slots of a new bucket. */
  ghost function BucketList(s: State, o: Orders, bucket: nat, pos: nat): seq<int>
    requires OrdersOf(s, o) && TablesClosed(s)
  {
    if pos == 0 then []
    else
      var u := Slot(bucket, pos - 1);
      BucketList(s, o, bucket, pos - 1) + (if u in s.news then [Renamed(s, o, s.news[u])] else [])
  }

  /** NEW_BUCKET_COUNT ^ (1 << 30) */
  const BUCKETS_MARK: bv32 := 1024 ^ 0x4000_0000

  /** The stream is what serializing the manager produces. */
  ghost predicate Encodes(s: State, o: Orders, d: Stream)
    requires OrdersOf(s, o) && TablesClosed(s)
  {
    && d.version == 1 && d.keySize == 32 && d.key == s.key && d.nUBuckets == BUCKETS_MARK
    && d.nNew == s.nNew && d.nTried == s.nTried
    && |d.newRecords| == |o.news| && |d.triedRecords| == |o.tried|
    && (forall k :: 0 <= k < |o.news| ==> NewRecordOk(s, o, d, k))
    && (forall k :: 0 <= k < |o.tried| ==> TriedRecordOk(s, o, d, k))
    && |d.buckets| == NEW_BUCKET_COUNT
    && (forall b :: 0 <= b < NEW_BUCKET_COUNT ==> d.buckets[b] == BucketList(s, o, b, BUCKET_SIZE))
  }

  ghost predicate NewRecordOk(s: State, o: Orders, d: Stream, k: int)
    requires 0 <= k < |o.news| && k < |d.newRecords|
  {
    o.news[k] in s.infos && d.newRecords[k] == ToRecord(s.infos[o.news[k]])
  }

  ghost predicate TriedRecordOk(s: State, o: Orders, d: Stream, k: int)
    requires 0 <= k < |o.tried| && k < |d.triedRecords|
  {
    o.tried[k] in s.infos && d.triedRecords[k] == ToRecord(s.infos[o.tried[k]])
  }
}
