/**
The address manager (CAddrMan) as a value: its maps, its random order, its two
bucket tables and its counters, with every operation a function on that value and
the conditions of Check_ as an invariant. Hashes, clock readings and random numbers
are parameters.
*/
module AddrSpec {
  import opened Sets

  type NetAddr = nat
  type Key = nat

  /** A network address with a port; the manager knows at most one port per address. */
  datatype Service = Service(ip: NetAddr, port: nat)

  /** CAddress. */
  datatype Address = Address(service: Service, services: bv64, time: nat)

  /** CAddrInfo. */
  datatype Info = Info(
    service: Service, services: bv64, time: nat, source: NetAddr,
    lastTry: int, lastCountAttempt: int, lastSuccess: int, attempts: int,
    refCount: int, inTried: bool, randomPos: int)

  const TRIED_BUCKET_COUNT := 256
  const NEW_BUCKET_COUNT := 1024
  const BUCKET_SIZE := 64
  const NEW_BUCKETS_PER_ADDRESS := 8
  const HORIZON_DAYS := 30
  const RETRIES := 3
  const MAX_FAILURES := 10
  const MIN_FAIL_DAYS := 7
  const GETADDR_MAX_PCT := 23
  const GETADDR_MAX := 2500

  datatype Slot = Slot(bucket: nat, pos: nat)

  /** The keyed hashes behind bucket choice, before reduction. */
  datatype Hashes = Hashes(
    tried: (Key, Service) -> nat, source: (Key, Service, NetAddr) -> nat, position: (Key, bool, nat, Service) -> nat)

  datatype State = State(
    key: Key, idCount: nat, infos: map<int, Info>, ids: map<NetAddr, int>, random: seq<int>,
    nTried: int, tried: map<Slot, int>, nNew: int, news: map<Slot, int>, lastGood: int)

  function Empty(key: Key): State {
    State(key, 0, map[], map[], [], 0, map[], 0, map[], 1)
  }

  // -------------------------------------------------------------- placement

  function Position(h: Hashes, key: Key, isNew: bool, bucket: nat, service: Service): nat {
    h.position(key, isNew, bucket, service) % BUCKET_SIZE
  }

  function TriedSlot(h: Hashes, key: Key, service: Service): Slot {
    var bucket := h.tried(key, service) % TRIED_BUCKET_COUNT;
    Slot(bucket, Position(h, key, false, bucket, service))
  }

  function NewSlot(h: Hashes, key: Key, service: Service, source: NetAddr): Slot {
    SlotIn(h, key, h.source(key, service, source) % NEW_BUCKET_COUNT, service)
  }

  /** Where a service goes within a given new bucket. */
  function SlotIn(h: Hashes, key: Key, bucket: nat, service: Service): Slot {
    Slot(bucket, Position(h, key, true, bucket, service))
  }

  predicate IsTerrible(i: Info, now: int) {
    if i.lastTry != 0 && i.lastTry >= now - 60 then false
    else if i.time > now + 10 * 60 then true
    else if i.time == 0 || now - i.time > HORIZON_DAYS * 24 * 60 * 60 then true
    else if i.lastSuccess == 0 && i.attempts >= RETRIES then true
    else now - i.lastSuccess > MIN_FAIL_DAYS * 24 * 60 * 60 && i.attempts >= MAX_FAILURES
  }

  // -------------------------------------------------------------- invariant

  ghost function SlotsOf(table: map<Slot, int>, id: int): set<Slot> {
    set u | u in table && table[u] == id
  }

  ghost function FreshIds(infos: map<int, Info>): set<int> {
    set id | id in infos && !infos[id].inTried
  }

  ghost function TriedIds(infos: map<int, Info>): set<int> {
    set id | id in infos && infos[id].inTried
  }

  /** mapAddr names every entry once, and ids are below nIdCount. */
  predicate NameOk(s: State, id: int)
    requires id in s.infos
  {
    0 <= id < s.idCount && s.infos[id].service.ip in s.ids && s.ids[s.infos[id].service.ip] == id
  }

  predicate OwnerOk(s: State, ip: NetAddr)
    requires ip in s.ids
  {
    s.ids[ip] in s.infos && s.infos[s.ids[ip]].service.ip == ip
  }

  ghost predicate NamesOk(s: State) {
    && (forall id :: id in s.infos ==> NameOk(s, id))
    && (forall ip :: ip in s.ids ==> OwnerOk(s, ip))
  }

  /** vRandom and nRandomPos are inverse. */
  predicate PlaceOk(s: State, id: int)
    requires id in s.infos
  {
    0 <= s.infos[id].randomPos < |s.random| && s.random[s.infos[id].randomPos] == id
  }

  predicate ListedOk(s: State, i: int)
    requires 0 <= i < |s.random|
  {
    s.random[i] in s.infos && s.infos[s.random[i]].randomPos == i
  }

  ghost predicate RandomOk(s: State) {
    && (forall id :: id in s.infos ==> PlaceOk(s, id))
    && (forall i :: 0 <= i < |s.random| ==> ListedOk(s, i))
  }

  /** The tried table holds exactly the tried entries, each at its hashed slot. */
  predicate TriedSlotOk(h: Hashes, s: State, u: Slot)
    requires u in s.tried
  {
    && s.tried[u] in s.infos && s.infos[s.tried[u]].inTried
    && u == TriedSlot(h, s.key, s.infos[s.tried[u]].service)
  }

  predicate TriedEntryOk(h: Hashes, s: State, id: int)
    requires id in s.infos
  {
    var u := TriedSlot(h, s.key, s.infos[id].service);
    s.infos[id].inTried ==> u in s.tried && s.tried[u] == id
  }

  ghost predicate TriedOk(h: Hashes, s: State) {
    && (forall u :: u in s.tried ==> TriedSlotOk(h, s, u))
    && (forall id :: id in s.infos ==> TriedEntryOk(h, s, id))
  }

  /** New slots hold untried entries at their hashed position; reference counts count slots. */
  predicate NewSlotOk(h: Hashes, s: State, u: Slot)
    requires u in s.news
  {
    && u.bucket < NEW_BUCKET_COUNT
    && s.news[u] in s.infos && !s.infos[s.news[u]].inTried
    && u == SlotIn(h, s.key, u.bucket, s.infos[s.news[u]].service)
  }

  ghost predicate RefCountOk(s: State, id: int)
    requires id in s.infos
  {
    s.infos[id].refCount == |SlotsOf(s.news, id)|
  }

  ghost predicate NewsOk(h: Hashes, s: State) {
    && (forall u :: u in s.news ==> NewSlotOk(h, s, u))
    && (forall id :: id in s.infos ==> RefCountOk(s, id))
  }

  predicate TimeOk(i: Info) {
    i.lastTry >= 0 && i.lastSuccess >= 0 && (i.inTried ==> i.lastSuccess > 0)
  }

  predicate TimesOk(s: State) {
    forall id :: id in s.infos ==> TimeOk(s.infos[id])
  }

  ghost predicate Core(h: Hashes, s: State) {
    NamesOk(s) && RandomOk(s) && TriedOk(h, s) && NewsOk(h, s) && TimesOk(s)
  }

  /** Counters, where gap entries outside the tried table are not counted in nNew at the moment. */
  ghost predicate Counted(s: State, gap: int) {
    s.nTried == |TriedIds(s.infos)| && s.nNew + gap == |FreshIds(s.infos)|
  }

  /** Entries outside the tried table have between one and eight references, except the given ones. */
  ghost predicate Referenced(s: State, except: set<int>) {
    forall id :: id in s.infos && !s.infos[id].inTried && id !in except ==>
      1 <= s.infos[id].refCount <= NEW_BUCKETS_PER_ADDRESS
  }

  /** The invariant while an operation is under way. */
  ghost predicate Amid(h: Hashes, s: State, gap: int, except: set<int>) {
    Core(h, s) && Counted(s, gap) && Referenced(s, except)
  }

  /** The invariant between operations. */
  ghost predicate Inv(h: Hashes, s: State) {
    Amid(h, s, 0, {})
  }

  /** The sizes Check_ compares follow: every entry is either tried or new, and is listed once. */
  lemma SizesAgree(h: Hashes, s: State)
    requires Inv(h, s)
    ensures |s.random| == |s.infos| == |s.ids| == s.nTried + s.nNew
  {
    assert s.infos.Keys == TriedIds(s.infos) + FreshIds(s.infos);
    ListedOnce(s);
    NamedOnce(s);
  }

  lemma ListedOnce(s: State)
    requires RandomOk(s)
    ensures |s.random| == |s.infos|
  {
    assert Elements(s.random) == s.infos.Keys by {
      forall id | id in s.infos ensures id in Elements(s.random) {
        assert PlaceOk(s, id);
      }
      forall i | 0 <= i < |s.random| ensures s.random[i] in s.infos {
        assert ListedOk(s, i);
      }
    }
    forall i, j | 0 <= i < j < |s.random| ensures s.random[i] != s.random[j] {
      assert ListedOk(s, i) && ListedOk(s, j);
    }
    DistinctSize(s.random);
  }

  lemma NamedOnce(s: State)
    requires NamesOk(s)
    ensures |s.ids| == |s.infos|
  {
    forall a, b | a in s.ids && b in s.ids && s.ids[a] == s.ids[b] ensures a == b {
      assert OwnerOk(s, a) && OwnerOk(s, b);
    }
    InjectiveSize(s.ids);
    assert s.ids.Values == s.infos.Keys by {
      forall id | id in s.infos ensures id in s.ids.Values {
        assert NameOk(s, id);
      }
      forall ip | ip in s.ids ensures s.ids[ip] in s.infos {
        assert OwnerOk(s, ip);
      }
    }
  }
}
