/**
The address manager's operations (Add_, Good_, Attempt_, Connected_, SetServices_,
GetAddr_) as functions on its state, and the main results: every run from an empty
manager keeps the whole of Check_, and what each operation does to the addresses known.
*/
module AddrOps {
  import opened Common
  import opened Powers
  import opened AddrSpec
  import opened AddrSteps

  // ---------------------------------------------------------------- MakeTried

  /** The occupant of a tried slot goes back to its new bucket, clearing whatever is there. */
  function Evict(h: Hashes, s: State, k: Slot): State
    requires k in s.tried
  {
    var e := s.tried[k];
    if e !in s.infos then s
    else
      var u := NewSlot(h, s.key, s.infos[e].service, s.infos[e].source);
      var c := ClearNew(Untry(s, k), u);
      if e !in c.infos then c else Ref(c, u, e).(nNew := c.nNew + 1)
  }

  ghost function MakeTried(h: Hashes, s: State, id: int): State
    requires id in s.infos
  {
    MoveIn(h, LeaveNew(s, id), id)
  }

  /** The entry leaves the new table and its count. */
  ghost function LeaveNew(s: State, id: int): (m: State)
    requires id in s.infos
    ensures id in m.infos && m.infos[id] == s.infos[id].(refCount := m.infos[id].refCount)
    ensures m.key == s.key && m.ids == s.ids
  {
    DropRefs(s, id).(nNew := s.nNew - 1)
  }

  /** The entry enters the tried table, evicting the occupant of its slot. */
  function MoveIn(h: Hashes, m: State, id: int): State
    requires id in m.infos
  {
    var k := TriedSlot(h, m.key, m.infos[id].service);
    var e := if k in m.tried then Evict(h, m, k) else m;
    if id !in e.infos then e else Try(e, k, id)
  }

  lemma CountersOnly(h: Hashes, s: State, t: State, gap: int, gap': int, except: set<int>)
    requires Amid(h, s, gap, except)
    requires t == s.(nNew := t.nNew, lastGood := t.lastGood) && t.nNew + gap' == s.nNew + gap
    ensures Amid(h, t, gap', except)
  {
    NamesKeep(s, t);
    RandomKeep(s, t);
    TriedKeep(h, s, t);
    NewsKeep(h, s, t);
  }

  lemma SlotNotOf(h: Hashes, s: State, u: Slot, id: int)
    requires NewsOk(h, s) && id in s.infos && s.infos[id].refCount == 0
    ensures u in s.news ==> s.news[u] != id
  {
    if u in s.news {
      SlotsMeanRefs(h, s, u);
    }
  }

  lemma SlotNotAmid(h: Hashes, s: State, u: Slot, id: int, gap: int, except: set<int>)
    requires Amid(h, s, gap, except) && id in s.infos && s.infos[id].refCount == 0
    ensures u in s.news ==> s.news[u] != id
  {
    SlotNotOf(h, s, u, id);
  }

  lemma EvictKeeps(h: Hashes, s: State, k: Slot, id: int)
    requires Amid(h, s, 1, {id}) && id in s.infos && !s.infos[id].inTried && s.infos[id].refCount == 0 && k in s.tried
    ensures s.tried[k] in s.infos && s.infos[s.tried[k]].inTried
    ensures var t := Evict(h, s, k);
            Amid(h, t, 1, {id}) && KeptAt(s, t, id) && t.tried == s.tried - {k} && t.key == s.key
  {
    hide Amid, ClearNew, Others;
    UntryKeeps(h, s, k, 1, {id});
    var e, m := s.tried[k], Untry(s, k);
    var u := NewSlot(h, m.key, m.infos[e].service, m.infos[e].source);
    assert {id} + {e} == {id, e};
    SlotNotAmid(h, m, u, id, 2, {id, e});
    SlotNotAmid(h, m, u, e, 2, {id, e});
    ClearNewKeeps(h, m, u, 2, {id, e});
    ClearNewSpares(h, m, u, e, 2, {id, e});
    ClearNewSpares(h, m, u, id, 2, {id, e});
    var c := ClearNew(m, u);
    RefKeeps(h, c, u, e, 2, {id, e});
    assert {id, e} - {e} == {id};
    CountersOnly(h, Ref(c, u, e), Evict(h, s, k), 2, 1, {id});
  }

  lemma MoveInKeeps(h: Hashes, m: State, id: int)
    requires Amid(h, m, 1, {id}) && id in m.infos && !m.infos[id].inTried && m.infos[id].refCount == 0
    requires m.infos[id].lastSuccess > 0
    ensures var t := MoveIn(h, m, id);
            Inv(h, t) && id in t.infos && t.infos[id].inTried && t.infos[id].service == m.infos[id].service
  {
    hide Amid, Evict;
    var k := TriedSlot(h, m.key, m.infos[id].service);
    assert {id} - {id} == {};
    if k in m.tried {
      EvictKeeps(h, m, k, id);
      TryKeeps(h, Evict(h, m, k), k, id, 1, {id});
    } else {
      TryKeeps(h, m, k, id, 1, {id});
    }
  }

  lemma LeaveNewKeeps(h: Hashes, s: State, id: int)
    requires Inv(h, s) && id in s.infos
    ensures Amid(h, LeaveNew(s, id), 1, {id}) && LeaveNew(s, id).infos[id].refCount == 0
  {
    DropRefsKeeps(h, s, id);
    CountersOnly(h, DropRefs(s, id), LeaveNew(s, id), 0, 1, {id});
  }

  lemma MakeTriedKeeps(h: Hashes, s: State, id: int)
    requires Inv(h, s) && id in s.infos && !s.infos[id].inTried && s.infos[id].lastSuccess > 0
    ensures var t := MakeTried(h, s, id);
            Inv(h, t) && id in t.infos && t.infos[id].inTried && t.infos[id].service == s.infos[id].service
  {
    hide Amid, LeaveNew, MoveIn;
    LeaveNewKeeps(h, s, id);
    MoveInKeeps(h, LeaveNew(s, id), id);
  }

  // ---------------------------------------------------------------- operations

  /** The entry an operation on a service applies to: same address and same port. */
  predicate Matches(s: State, service: Service) {
    Known(s, service.ip) && s.infos[s.ids[service.ip]].service == service
  }

  /** The entry sits in the given new bucket. */
  predicate InBucket(h: Hashes, s: State, id: int, bucket: nat)
    requires id in s.infos
  {
    var u := SlotIn(h, s.key, bucket, s.infos[id].service);
    bucket < NEW_BUCKET_COUNT && u in s.news && s.news[u] == id
  }

  ghost function Good(h: Hashes, s: State, service: Service, time: int): State {
    var g := s.(lastGood := time);
    if !Matches(s, service) then g
    else
      var id := s.ids[service.ip];
      var t := SetInfo(g, id, s.infos[id].(lastSuccess := time, lastTry := time, attempts := 0));
      if s.infos[id].inTried || !(exists b: nat :: InBucket(h, t, id, b)) then t else MakeTried(h, t, id)
  }

  function Attempt(s: State, service: Service, countFailure: bool, time: int): State {
    if !Matches(s, service) then s
    else
      var id := s.ids[service.ip];
      var i := s.infos[id].(lastTry := time);
      SetInfo(s, id,
              if countFailure && i.lastCountAttempt < s.lastGood
              then i.(lastCountAttempt := time, attempts := i.attempts + 1) else i)
  }

  function Connected(s: State, service: Service, time: nat): State {
    if !Matches(s, service) then s
    else
      var id := s.ids[service.ip];
      SetInfo(s, id, if time - s.infos[id].time > 20 * 60 then s.infos[id].(time := time) else s.infos[id])
  }

  function SetServices(s: State, service: Service, services: bv64): State {
    if !Matches(s, service) then s
    else SetInfo(s, s.ids[service.ip], s.infos[s.ids[service.ip]].(services := services))
  }

  // -------------------------------------------------------------------- Add_

  /** An addition either stops after updating a known entry, or goes on to place an entry. */
  datatype Prepared = Stop(state: State) | Go(state: State, id: int, isNew: bool)

  /** How many times harder it is to gain another reference. */
  function Factor(refCount: int): nat {
    if refCount <= 0 then 1 else Shl(1, refCount)
  }

  /** Service bits offered by either. */
  function Joined(a: bv64, b: bv64): bv64 {
    a | b
  }

  function Refreshed(i: Info, addr: Address, penalty: int, now: int): Info {
    var interval := if now - addr.time < 24 * 60 * 60 then 60 * 60 else 24 * 60 * 60;
    var j := if addr.time != 0 && (i.time == 0 || i.time < addr.time - interval - penalty)
             then i.(time := Max(0, addr.time - penalty)) else i;
    j.(services := Joined(j.services, addr.services))
  }

  function Prepare(s: State, addr: Address, source: NetAddr, timePenalty: int, now: int, coin: nat): Prepared {
    var penalty := if addr.service.ip == source then 0 else timePenalty;
    if Known(s, addr.service.ip) then
      var id := s.ids[addr.service.ip];
      var i := Refreshed(s.infos[id], addr, penalty, now);
      var t := SetInfo(s, id, i);
      if addr.time == 0 || (i.time != 0 && addr.time <= i.time) then Stop(t)
      else if i.inTried || i.refCount == NEW_BUCKETS_PER_ADDRESS then Stop(t)
      else if Factor(i.refCount) > 1 && coin % Max(1, Factor(i.refCount)) != 0 then Stop(t)
      else Go(t, id, false)
    else
      var c := Create(s, addr, source);
      var i := c.infos[s.idCount];
      Go(SetInfo(c, s.idCount, i.(time := Max(0, i.time - penalty))).(nNew := s.nNew + 1), s.idCount, true)
  }

  /** Whether the occupant of a slot gives way to the entry being placed. */
  predicate GivesWay(s: State, u: Slot, id: int, now: int)
    requires id in s.infos && u in s.news && s.news[u] in s.infos
  {
    var x := s.infos[s.news[u]];
    IsTerrible(x, now) || (x.refCount > 1 && s.infos[id].refCount == 0)
  }

  function Place(h: Hashes, s: State, id: int, source: NetAddr, now: int): State
    requires id in s.infos
  {
    var u := NewSlot(h, s.key, s.infos[id].service, source);
    if u in s.news && s.news[u] == id then s
    else if u !in s.news || (s.news[u] in s.infos && GivesWay(s, u, id, now)) then
      var c := ClearNew(s, u);
      if id in c.infos then Ref(c, u, id) else c
    else if s.infos[id].refCount == 0 then Delete(s, id)
    else s
  }

  function Add(h: Hashes, routable: NetAddr -> bool, s: State, addr: Address, source: NetAddr,
               timePenalty: int, now: int, coin: nat): (State, bool)
  {
    if !routable(addr.service.ip) then (s, false)
    else match Prepare(s, addr, source, timePenalty, now, coin)
      case Stop(t) => (t, false)
      case Go(t, id, isNew) => (if id in t.infos then Place(h, t, id, source, now) else t, isNew)
  }

  // ----------------------------------------------------------------- GetAddr_

  function ToAddress(i: Info): Address {
    Address(i.service, i.services, i.time)
  }

  function GetAddrLimit(s: State): nat {
    var n := GETADDR_MAX_PCT * |s.random| / 100;
    if n > GETADDR_MAX then GETADDR_MAX else n
  }

  /** What GetAddr_ returns, and how many entries it looked at. */
  datatype Picked = Picked(state: State, addrs: seq<Address>, seen: nat)

  /** RandomInt(size - n) + n. */
  function Draw(random: nat, n: nat, size: nat): (q: nat)
    requires n < size
    ensures n <= q < size
  {
    random % (size - n) + n
  }

  /** Any of the entries left can be drawn. */
  lemma DrawReaches(n: nat, size: nat, q: nat)
    requires n <= q < size
    ensures Draw(q - n, n, size) == q
  {
  }

  /** The loop of GetAddr_ from position n on, drawing the n-th entry with choices(n). */
  function GetAddrFrom(s: State, n: nat, addrs: seq<Address>, limit: nat, choices: nat -> nat, now: int): Picked
    requires n <= |s.random|
    decreases |s.random| - n
  {
    if n == |s.random| || |addrs| >= limit then Picked(s, addrs, n)
    else
      var t := SwapRandom(s, n, Draw(choices(n), n, |s.random|));
      var id := t.random[n];
      var addrs' := if id in t.infos && !IsTerrible(t.infos[id], now) then addrs + [ToAddress(t.infos[id])] else addrs;
      GetAddrFrom(t, n + 1, addrs', limit, choices, now)
  }

  /** One turn of the loop, for an entry that is listed, and its end. */
  lemma GetAddrTurn(s: State, n: nat, addrs: seq<Address>, limit: nat, choices: nat -> nat, now: int)
    requires n <= |s.random|
    ensures n == |s.random| || |addrs| >= limit ==> GetAddrFrom(s, n, addrs, limit, choices, now) == Picked(s, addrs, n)
    ensures n < |s.random| && |addrs| < limit ==>
              var t := SwapRandom(s, n, Draw(choices(n), n, |s.random|));
              && |t.random| == |s.random|
              && (t.random[n] in t.infos ==>
                    GetAddrFrom(s, n, addrs, limit, choices, now) ==
                    GetAddrFrom(t, n + 1,
                                if IsTerrible(t.infos[t.random[n]], now) then addrs
                                   else addrs + [ToAddress(t.infos[t.random[n]])],
                                limit, choices, now))
  {
  }

  function GetAddr(s: State, choices: nat -> nat, now: int): Picked {
    GetAddrFrom(s, 0, [], GetAddrLimit(s), choices, now)
  }

  // ------------------------------------------------------- they keep Check_

  lemma BucketFound(h: Hashes, s: State, id: int)
    requires Inv(h, s) && id in s.infos && !s.infos[id].inTried
    ensures exists b: nat :: InBucket(h, s, id, b)
  {
    assert RefCountOk(s, id);
    var u :| u in SlotsOf(s.news, id);
    assert NewSlotOk(h, s, u);
    assert InBucket(h, s, id, u.bucket);
  }

  /** Good_ keeps the invariant, never takes its "no bucket found" exit, and ends with the service tried. */
  lemma GoodKeeps(h: Hashes, s: State, service: Service, time: int)
    requires Inv(h, s) && time > 0
    ensures Inv(h, Good(h, s, service, time))
    ensures Matches(s, service) ==>
              var t, id := Good(h, s, service, time), s.ids[service.ip];
              id in t.infos && t.infos[id].inTried && t.infos[id].service == service
  {
    hide Amid, MakeTried;
    var g := s.(lastGood := time);
    CountersOnly(h, s, g, 0, 0, {});
    if Matches(s, service) {
      var id: int := s.ids[service.ip];
      KnownEntry(h, s, id);
      var i := s.infos[id].(lastSuccess := time, lastTry := time, attempts := 0);
      TouchKeeps(h, g, id, i, 0, {});
      var t := SetInfo(g, id, i);
      if !i.inTried {
        BucketFound(h, t, id);
        MakeTriedKeeps(h, t, id);
      }
    }
  }

  lemma KnownEntry(h: Hashes, s: State, id: int)
    requires Inv(h, s) && id in s.infos
    ensures TimeOk(s.infos[id]) && NameOk(s, id)
    ensures !s.infos[id].inTried ==> 1 <= s.infos[id].refCount <= NEW_BUCKETS_PER_ADDRESS
  {
  }

  lemma KnownOwner(h: Hashes, s: State, ip: NetAddr)
    requires Inv(h, s) && Known(s, ip)
    ensures OwnerOk(s, ip)
  {
  }

  lemma StatisticsKeep(h: Hashes, s: State, service: Service, i: Info)
    requires Inv(h, s) && Matches(s, service)
    requires var j := s.infos[s.ids[service.ip]];
             Similar(j, i) && i.randomPos == j.randomPos && i.lastTry >= 0 && i.lastSuccess == j.lastSuccess
    ensures Inv(h, SetInfo(s, s.ids[service.ip], i))
  {
    var id: int := s.ids[service.ip];
    assert TimeOk(s.infos[id]);
    TouchKeeps(h, s, id, i, 0, {});
  }

  /** What Prepare hands to Place. */
  ghost predicate Ready(h: Hashes, s: State, ip: NetAddr, t: State, id: int, isNew: bool) {
    && Amid(h, t, 0, {id}) && id in t.infos && !t.infos[id].inTried
    && 0 <= t.infos[id].refCount < NEW_BUCKETS_PER_ADDRESS
    && (isNew <==> !Known(s, ip)) && (isNew <==> t.infos[id].refCount == 0)
    && t.ids == s.ids[ip := id] && t.infos[id].service.ip == ip
  }

  lemma RefreshedKeeps(i: Info, addr: Address, penalty: int, now: int)
    ensures var j := Refreshed(i, addr, penalty, now);
            Similar(i, j) && j.randomPos == i.randomPos && j.lastTry == i.lastTry && j.lastSuccess == i.lastSuccess
  {
  }

  lemma UpdateKeeps(h: Hashes, s: State, addr: Address, penalty: int, now: int)
    requires Inv(h, s) && Known(s, addr.service.ip)
    ensures var id, ip := s.ids[addr.service.ip], addr.service.ip;
            var t := SetInfo(s, id, Refreshed(s.infos[id], addr, penalty, now));
            && Inv(h, t)
            && (!s.infos[id].inTried && s.infos[id].refCount != NEW_BUCKETS_PER_ADDRESS ==>
                  Ready(h, s, ip, t, id, false))
  {
    hide Amid, Refreshed;
    var id: int := s.ids[addr.service.ip];
    RefreshedKeeps(s.infos[id], addr, penalty, now);
    KnownEntry(h, s, id);
    KnownOwner(h, s, addr.service.ip);
    TouchKeeps(h, s, id, Refreshed(s.infos[id], addr, penalty, now), 0, {});
    Weaken(h, SetInfo(s, id, Refreshed(s.infos[id], addr, penalty, now)), id);
  }

  lemma Weaken(h: Hashes, s: State, id: int)
    requires Inv(h, s)
    ensures Amid(h, s, 0, {id})
  {
  }

  lemma NewcomerKeeps(h: Hashes, s: State, addr: Address, source: NetAddr, time: nat)
    requires Inv(h, s) && !Known(s, addr.service.ip)
    ensures var c, id := Create(s, addr, source), s.idCount;
            Ready(h, s, addr.service.ip, SetInfo(c, id, c.infos[id].(time := time)).(nNew := s.nNew + 1), id, true)
  {
    hide Core, Counted, Referenced;
    CreateKeeps(h, s, addr, source);
    var c, id := Create(s, addr, source), s.idCount;
    var i := c.infos[id].(time := time);
    TouchKeeps(h, c, id, i, 1, {id});
    CountersOnly(h, SetInfo(c, id, i), SetInfo(c, id, i).(nNew := s.nNew + 1), 1, 0, {id});
  }

  lemma PrepareKeeps(h: Hashes, s: State, addr: Address, source: NetAddr, timePenalty: int, now: int, coin: nat)
    requires Inv(h, s)
    ensures match Prepare(s, addr, source, timePenalty, now, coin)
            case Stop(t) => Inv(h, t) && Known(s, addr.service.ip) && t.ids == s.ids
            case Go(t, id, isNew) => Ready(h, s, addr.service.ip, t, id, isNew)
  {
    hide Inv, Ready, Refreshed;
    var penalty := if addr.service.ip == source then 0 else timePenalty;
    if Known(s, addr.service.ip) {
      UpdateKeeps(h, s, addr, penalty, now);
      RefreshedKeeps(s.infos[s.ids[addr.service.ip]], addr, penalty, now);
    } else {
      NewcomerKeeps(h, s, addr, source, Max(0, addr.time - penalty));
    }
  }

  lemma PlaceKeeps(h: Hashes, s: State, id: int, source: NetAddr, now: int)
    requires Amid(h, s, 0, {id}) && id in s.infos && !s.infos[id].inTried
    requires 0 <= s.infos[id].refCount < NEW_BUCKETS_PER_ADDRESS
    ensures Inv(h, Place(h, s, id, source, now))
  {
    var u := NewSlot(h, s.key, s.infos[id].service, source);
    assert {id} - {id} == {};
    if u in s.news && s.news[u] == id {
      SlotsMeanRefs(h, s, u);
    } else if u !in s.news {
      RefKeeps(h, s, u, id, 0, {id});
    } else {
      assert NewSlotOk(h, s, u);
      if GivesWay(s, u, id, now) {
        ClearNewKeeps(h, s, u, 0, {id});
        assert KeptAt(s, ClearNew(s, u), id);
        RefKeeps(h, ClearNew(s, u), u, id, 0, {id});
      } else if s.infos[id].refCount == 0 {
        DeleteKeeps(h, s, id, 0, {id});
      }
    }
  }

  /** Add_ keeps the invariant, and reports success exactly for routable addresses not known before. */
  lemma AddKeeps(h: Hashes, routable: NetAddr -> bool, s: State, addr: Address, source: NetAddr,
                 timePenalty: int, now: int, coin: nat)
    requires Inv(h, s)
    ensures Inv(h, Add(h, routable, s, addr, source, timePenalty, now, coin).0)
    ensures Add(h, routable, s, addr, source, timePenalty, now, coin).1 <==>
              routable(addr.service.ip) && !Known(s, addr.service.ip)
  {
    hide Amid, Prepare, Place;
    if routable(addr.service.ip) {
      PrepareKeeps(h, s, addr, source, timePenalty, now, coin);
      match Prepare(s, addr, source, timePenalty, now, coin)
      case Stop(_) =>
      case Go(t, id, _) => PlaceKeeps(h, t, id, source, now);
    }
  }

  // -------------------------------------------------- what GetAddr_ returns

  /** The addresses of the first n entries in random order that are worth passing on. */
  function Worthy(s: State, n: nat, now: int): seq<Address>
    requires n <= |s.random|
  {
    if n == 0 then []
    else
      var id := s.random[n - 1];
      Worthy(s, n - 1, now) + (if id in s.infos && !IsTerrible(s.infos[id], now) then [ToAddress(s.infos[id])] else [])
  }

  lemma {:induction false} WorthyKept(s: State, t: State, n: nat, now: int)
    requires n <= |s.random| && n <= |t.random| && RandomOk(s) && forall x :: KeptAt(s, t, x)
    requires forall i :: 0 <= i < n ==> t.random[i] == s.random[i]
    ensures Worthy(t, n, now) == Worthy(s, n, now)
  {
    if n > 0 {
      WorthyKept(s, t, n - 1, now);
      assert ListedOk(s, n - 1) && KeptAt(s, t, s.random[n - 1]);
    }
  }

  /** Only the random order has changed. */
  ghost predicate Shuffled(s: State, t: State) {
    SameEntries(s, t) && |t.random| == |s.random| && forall x :: KeptAt(s, t, x)
  }

  lemma ShuffledReflexive(s: State)
    ensures Shuffled(s, s)
  {
  }

  lemma ShuffledTransitive(s: State, t: State, r: State)
    requires Shuffled(s, t) && Shuffled(t, r)
    ensures Shuffled(s, r)
  {
    forall x ensures SimilarAt(s, r, x) && KeptAt(s, r, x) {
      assert SimilarAt(s, t, x) && SimilarAt(t, r, x) && KeptAt(s, t, x) && KeptAt(t, r, x);
    }
  }

  lemma DrawOne(h: Hashes, s: State, n: nat, q: nat, now: int)
    requires Inv(h, s) && n < |s.random| && n <= q < |s.random|
    ensures var t := SwapRandom(s, n, q);
            Inv(h, t) && Shuffled(s, t) && |t.random| == |s.random| && Worthy(t, n, now) == Worthy(s, n, now)
  {
    SwapKeeps(h, s, n, q, 0, {});
    SwapKeepsRandom(s, n, q);
    WorthyKept(s, SwapRandom(s, n, q), n, now);
  }

  /** One turn of the loop. */
  lemma GetAddrUnfolds(h: Hashes, s: State, n: nat, limit: nat, choices: nat -> nat, now: int) returns (t: State)
    requires Inv(h, s) && n < |s.random| && |Worthy(s, n, now)| < limit
    ensures Inv(h, t) && Shuffled(s, t) && |t.random| == |s.random| && |Worthy(t, n + 1, now)| <= limit
    ensures GetAddrFrom(s, n, Worthy(s, n, now), limit, choices, now) ==
            GetAddrFrom(t, n + 1, Worthy(t, n + 1, now), limit, choices, now)
  {
    hide Inv, Shuffled, SwapRandom;
    var q := Draw(choices(n), n, |s.random|);
    t := SwapRandom(s, n, q);
    DrawOne(h, s, n, q, now);
    assert Worthy(t, n, now) + [] == Worthy(t, n, now);
  }

  /** What the loop owes its caller. */
  ghost predicate Drawn(h: Hashes, s: State, r: Picked, limit: nat, now: int) {
    && Inv(h, r.state) && Shuffled(s, r.state) && |r.addrs| <= limit
    && r.seen <= |r.state.random| && r.addrs == Worthy(r.state, r.seen, now)
    && (r.seen == |r.state.random| || |r.addrs| == limit)
  }

  lemma DrawnFurther(h: Hashes, s: State, t: State, r: Picked, limit: nat, now: int)
    requires Shuffled(s, t) && Drawn(h, t, r, limit, now)
    ensures Drawn(h, s, r, limit, now)
  {
    hide Inv, Shuffled;
    ShuffledTransitive(s, t, r.state);
  }

  lemma {:induction false} GetAddrFromKeeps(h: Hashes, s: State, n: nat, limit: nat, choices: nat -> nat, now: int)
    requires Inv(h, s) && n <= |s.random| && |Worthy(s, n, now)| <= limit
    ensures Drawn(h, s, GetAddrFrom(s, n, Worthy(s, n, now), limit, choices, now), limit, now)
    decreases |s.random| - n
  {
    hide Inv, Shuffled, Worthy;
    if n < |s.random| && |Worthy(s, n, now)| < limit {
      var t := GetAddrUnfolds(h, s, n, limit, choices, now);
      GetAddrFromKeeps(h, t, n + 1, limit, choices, now);
      DrawnFurther(h, s, t, GetAddrFrom(t, n + 1, Worthy(t, n + 1, now), limit, choices, now), limit, now);
    } else {
      ShuffledReflexive(s);
    }
  }

  /** An entry worth passing on among the first n, and its address. */
  predicate IsWorthy(s: State, n: nat, now: int, id: int) {
    id in s.infos && 0 <= s.infos[id].randomPos < n && !IsTerrible(s.infos[id], now)
  }

  lemma {:induction false} WorthyIs(h: Hashes, s: State, n: nat, now: int)
    requires Inv(h, s) && n <= |s.random|
    ensures forall a :: a in Worthy(s, n, now) ==> exists id :: IsWorthy(s, n, now, id) && a == ToAddress(s.infos[id])
    ensures forall id :: IsWorthy(s, n, now, id) ==> ToAddress(s.infos[id]) in Worthy(s, n, now)
    ensures forall i, j :: 0 <= i < j < |Worthy(s, n, now)| ==>
              Worthy(s, n, now)[i].service.ip != Worthy(s, n, now)[j].service.ip
  {
    if n > 0 {
      WorthyIs(h, s, n - 1, now);
      var id: int := s.random[n - 1];
      var before := Worthy(s, n - 1, now);
      assert ListedOk(s, n - 1);
      forall x | IsWorthy(s, n, now, x) ensures x == id || IsWorthy(s, n - 1, now, x) {
        assert PlaceOk(s, x);
      }
      forall x | IsWorthy(s, n - 1, now, x)
        ensures IsWorthy(s, n, now, x) && s.infos[x].service.ip != s.infos[id].service.ip
      {
        assert NameOk(s, x) && NameOk(s, id);
      }
      forall k | 0 <= k < |before| ensures before[k].service.ip != s.infos[id].service.ip {
        assert before[k] in before;
      }
      assert !IsTerrible(s.infos[id], now) ==> IsWorthy(s, n, now, id);
    }
  }

  lemma DrawnAreWorthy(h: Hashes, s: State, r: Picked, limit: nat, now: int, a: Address)
    requires Drawn(h, s, r, limit, now) && a in r.addrs
    ensures exists id :: id in s.infos && !IsTerrible(s.infos[id], now) && a == ToAddress(s.infos[id])
  {
    hide Inv;
    WorthyIs(h, r.state, r.seen, now);
    var id :| IsWorthy(r.state, r.seen, now, id) && a == ToAddress(r.state.infos[id]);
    assert SimilarAt(s, r.state, id) && KeptAt(s, r.state, id);
  }

  lemma WorthyAreDrawn(h: Hashes, s: State, r: Picked, limit: nat, now: int, id: int)
    requires Drawn(h, s, r, limit, now) && |r.addrs| < limit
    requires id in s.infos && !IsTerrible(s.infos[id], now)
    ensures ToAddress(s.infos[id]) in r.addrs
  {
    WorthyIs(h, r.state, r.seen, now);
    assert SimilarAt(s, r.state, id) && KeptAt(s, r.state, id) && PlaceOk(r.state, id);
    assert IsWorthy(r.state, r.seen, now, id);
  }

  lemma DrawnOnce(h: Hashes, s: State, r: Picked, limit: nat, now: int)
    requires Drawn(h, s, r, limit, now)
    ensures forall i, j :: 0 <= i < j < |r.addrs| ==> r.addrs[i].service.ip != r.addrs[j].service.ip
  {
    hide Inv, Shuffled;
    WorthyIs(h, r.state, r.seen, now);
  }

  lemma LimitIs(h: Hashes, s: State)
    requires Inv(h, s)
    ensures GetAddrLimit(s) == Min(2500, 23 * |s.infos| / 100)
  {
    ListedOnce(s);
  }

  /**
    GetAddr_ returns at most 23% of the entries and at most 2500, each the address of an entry
    that is not terrible and none twice; it returns fewer only when it returns every such entry.
  */
  lemma GetAddrReturns(h: Hashes, s: State, choices: nat -> nat, now: int)
    requires Inv(h, s)
    ensures var r, limit := GetAddr(s, choices, now), Min(2500, 23 * |s.infos| / 100);
            && Drawn(h, s, r, limit, now) && |r.addrs| <= limit
            && (forall i, j :: 0 <= i < j < |r.addrs| ==> r.addrs[i].service.ip != r.addrs[j].service.ip)
            && (forall a :: a in r.addrs ==>
                  exists id :: id in s.infos && !IsTerrible(s.infos[id], now) && a == ToAddress(s.infos[id]))
            && (|r.addrs| < limit ==>
                  forall id :: id in s.infos && !IsTerrible(s.infos[id], now) ==> ToAddress(s.infos[id]) in r.addrs)
  {
    hide Inv;
    var r, limit := GetAddr(s, choices, now), GetAddrLimit(s);
    LimitIs(h, s);
    GetAddrFromKeeps(h, s, 0, limit, choices, now);
    DrawnOnce(h, s, r, limit, now);
    forall a | a in r.addrs
      ensures exists id :: id in s.infos && !IsTerrible(s.infos[id], now) && a == ToAddress(s.infos[id])
    {
      DrawnAreWorthy(h, s, r, limit, now, a);
    }
    forall id | id in s.infos && !IsTerrible(s.infos[id], now) && |r.addrs| < limit
      ensures ToAddress(s.infos[id]) in r.addrs
    {
      WorthyAreDrawn(h, s, r, limit, now, id);
    }
  }

  // ------------------------------------------------------ forgetting addresses

  /** At most the one address has been forgotten. */
  predicate Remembers(s: State, t: State, lost: NetAddr) {
    s.ids.Keys - {lost} <= t.ids.Keys
  }

  /** An address gives up its last new slot to the address being added, because it is terrible. */
  ghost predicate Displaced(s: State, t: State, lost: NetAddr, u: Slot, ip: NetAddr, now: int) {
    && lost in s.ids && u in s.news && s.news[u] == s.ids[lost] && s.news[u] in s.infos
    && s.infos[s.news[u]].refCount == 1 && IsTerrible(s.infos[s.news[u]], now)
    && ip in t.ids && u in t.news && t.news[u] == t.ids[ip]
  }

  /**
    Add_ forgets at most one address known before: a terrible one that held no new slot but the one
    that the added address now holds.
  */
  lemma AddForgetsAtMostOne(h: Hashes, routable: NetAddr -> bool, s: State, addr: Address, source: NetAddr,
                            timePenalty: int, now: int, coin: nat) returns (lost: NetAddr, u: Slot)
    requires Inv(h, s)
    ensures var t := Add(h, routable, s, addr, source, timePenalty, now, coin).0;
            Remembers(s, t, lost)
            && (lost in s.ids && lost !in t.ids ==> Displaced(s, t, lost, u, addr.service.ip, now))
  {
    hide Amid, Prepare, Place, Displaced;
    lost, u := 0, Slot(0, 0);
    if routable(addr.service.ip) {
      PrepareKeeps(h, s, addr, source, timePenalty, now, coin);
      PrepareSame(s, addr, source, timePenalty, now, coin);
      match Prepare(s, addr, source, timePenalty, now, coin)
      case Stop(_) =>
      case Go(t, id, isNew) => lost, u := PlaceForgetsAtMostOne(h, s, addr.service.ip, t, id, isNew, source, now);
    }
  }

  /** The first half of Add_ touches no other entry and no slot. */
  lemma PrepareSame(s: State, addr: Address, source: NetAddr, timePenalty: int, now: int, coin: nat)
    ensures match Prepare(s, addr, source, timePenalty, now, coin)
            case Stop(t) => s.ids.Keys <= t.ids.Keys
            case Go(t, id, _) =>
              t.news == s.news && forall x :: x in s.infos && x != id ==> x in t.infos && t.infos[x] == s.infos[x]
  {
  }

  /** Clearing a slot forgets its occupant exactly when that was its last slot. */
  lemma ClearedKnown(t: State, u: Slot, x: int)
    requires RandomOk(t) && u in t.news && t.news[u] == x && x in t.infos
    ensures ClearNew(t, u).ids == if t.infos[x].refCount == 1 then t.ids - {t.infos[x].service.ip} else t.ids
  {
    var m := Unref(t, u);
    UnrefRandom(t, u);
    if m.infos[x].refCount == 0 {
      DeleteLeaves(m, x);
    }
  }

  lemma UnrefRandom(t: State, u: Slot)
    requires RandomOk(t) && u in t.news && t.news[u] in t.infos
    ensures RandomOk(Unref(t, u))
  {
    var m := Unref(t, u);
    forall i | 0 <= i < |m.random| ensures ListedOk(m, i) {
      assert ListedOk(t, i);
    }
    forall y | y in m.infos ensures PlaceOk(m, y) {
      assert PlaceOk(t, y);
    }
  }

  lemma PlaceForgetsAtMostOne(h: Hashes, s: State, ip: NetAddr, t: State, id: int, isNew: bool, source: NetAddr,
                              now: int)
    returns (lost: NetAddr, u: Slot)
    requires Inv(h, s) && Ready(h, s, ip, t, id, isNew)
    requires t.news == s.news && forall x :: x in s.infos && x != id ==> x in t.infos && t.infos[x] == s.infos[x]
    ensures var r := Place(h, t, id, source, now);
            Remembers(s, r, lost) && (lost in s.ids && lost !in r.ids ==> Displaced(s, r, lost, u, ip, now))
  {
    lost := 0;
    u := NewSlot(h, t.key, t.infos[id].service, source);
    if u in t.news && t.news[u] != id {
      assert NewSlotOk(h, t, u) && NewSlotOk(h, s, u);
      var x: int := t.news[u];
      if GivesWay(t, u, id, now) {
        ClearNewKeeps(h, t, u, 0, {id});
        assert KeptAt(t, ClearNew(t, u), id);
        lost := t.infos[x].service.ip;
        SlotsMeanRefs(h, s, u);
        KnownEntry(h, s, x);
        ClearedKnown(t, u, x);
        assert NameOk(t, id) && NameOk(t, x);
      } else if t.infos[id].refCount == 0 {
        DeleteKeeps(h, t, id, 0, {id});
        lost := ip;
      }
    }
  }

  /** Good_ forgets at most one address, never the service it was called for. */
  lemma GoodForgetsAtMostOne(h: Hashes, s: State, service: Service, time: int) returns (lost: NetAddr)
    requires Inv(h, s) && time > 0
    ensures Remembers(s, Good(h, s, service, time), lost)
    ensures Matches(s, service) ==> service.ip in Good(h, s, service, time).ids
  {
    hide Amid, LeaveNew, MoveIn;
    lost := 0;
    GoodKeeps(h, s, service, time);
    var r := Good(h, s, service, time);
    if Matches(s, service) {
      var id: int := s.ids[service.ip];
      KnownEntry(h, r, id);
      KnownEntry(h, s, id);
      var g := s.(lastGood := time);
      CountersOnly(h, s, g, 0, 0, {});
      var i := s.infos[id].(lastSuccess := time, lastTry := time, attempts := 0);
      TouchKeeps(h, g, id, i, 0, {});
      var t := SetInfo(g, id, i);
      if !i.inTried {
        BucketFound(h, t, id);
        LeaveNewKeeps(h, t, id);
        lost := MoveInForgetsAtMostOne(h, LeaveNew(t, id), id);
      }
    }
  }

  lemma MoveInForgetsAtMostOne(h: Hashes, m: State, id: int) returns (lost: NetAddr)
    requires Amid(h, m, 1, {id}) && id in m.infos && !m.infos[id].inTried && m.infos[id].refCount == 0
    ensures Remembers(m, MoveIn(h, m, id), lost)
  {
    hide Amid, ClearNew;
    lost := 0;
    var k := TriedSlot(h, m.key, m.infos[id].service);
    if k in m.tried {
      UntryKeeps(h, m, k, 1, {id});
      var e, n := m.tried[k], Untry(m, k);
      var u := NewSlot(h, n.key, n.infos[e].service, n.infos[e].source);
      SlotNotAmid(h, n, u, id, 2, {id} + {e});
      SlotNotAmid(h, n, u, e, 2, {id} + {e});
      ClearNewKeeps(h, n, u, 2, {id} + {e});
      if u in n.news {
        var x: int := n.news[u];
        lost := n.infos[x].service.ip;
      }
    }
  }

  // ---------------------------------------------------------------------- runs

  datatype Op =
    | DoAdd(addr: Address, source: NetAddr, timePenalty: int, now: int, coin: nat)
    | DoGood(service: Service, time: int)
    | DoAttempt(service: Service, countFailure: bool, time: int)
    | DoConnected(service: Service, seenAt: nat)
    | DoSetServices(service: Service, services: bv64)
    | DoGetAddr(choices: nat -> nat, now: int)

  /** Clock readings handed in are sensible. */
  predicate Legal(op: Op) {
    match op
    case DoGood(_, time) => time > 0
    case DoAttempt(_, _, time) => time >= 0
    case _ => true
  }

  ghost function Step(h: Hashes, routable: NetAddr -> bool, s: State, op: Op): State {
    match op
    case DoAdd(addr, source, timePenalty, now, coin) => Add(h, routable, s, addr, source, timePenalty, now, coin).0
    case DoGood(service, time) => Good(h, s, service, time)
    case DoAttempt(service, countFailure, time) => Attempt(s, service, countFailure, time)
    case DoConnected(service, time) => Connected(s, service, time)
    case DoSetServices(service, services) => SetServices(s, service, services)
    case DoGetAddr(choices, now) => GetAddr(s, choices, now).state
  }

  ghost function Run(h: Hashes, routable: NetAddr -> bool, s: State, ops: seq<Op>): State {
    if ops == [] then s else Step(h, routable, Run(h, routable, s, ops[..|ops| - 1]), ops[|ops| - 1])
  }

  lemma StepKeeps(h: Hashes, routable: NetAddr -> bool, s: State, op: Op)
    requires Inv(h, s) && Legal(op)
    ensures Inv(h, Step(h, routable, s, op))
  {
    hide Inv;
    match op
    case DoAdd(addr, source, timePenalty, now, coin) => AddKeeps(h, routable, s, addr, source, timePenalty, now, coin);
    case DoGood(service, time) => GoodKeeps(h, s, service, time);
    case DoAttempt(service, countFailure, time) => AttemptKeeps(h, s, service, countFailure, time);
    case DoConnected(service, time) => ConnectedKeeps(h, s, service, time);
    case DoSetServices(service, services) => SetServicesKeeps(h, s, service, services);
    case DoGetAddr(choices, now) => GetAddrFromKeeps(h, s, 0, GetAddrLimit(s), choices, now);
  }

  lemma AttemptKeeps(h: Hashes, s: State, service: Service, countFailure: bool, time: int)
    requires Inv(h, s) && time >= 0
    ensures Inv(h, Attempt(s, service, countFailure, time))
  {
    if Matches(s, service) {
      StatisticsKeep(h, s, service, Attempt(s, service, countFailure, time).infos[s.ids[service.ip]]);
    }
  }

  lemma ConnectedKeeps(h: Hashes, s: State, service: Service, time: nat)
    requires Inv(h, s)
    ensures Inv(h, Connected(s, service, time))
  {
    if Matches(s, service) {
      var id: int := s.ids[service.ip];
      assert TimeOk(s.infos[id]);
      StatisticsKeep(h, s, service, Connected(s, service, time).infos[id]);
    }
  }

  lemma SetServicesKeeps(h: Hashes, s: State, service: Service, services: bv64)
    requires Inv(h, s)
    ensures Inv(h, SetServices(s, service, services))
  {
    if Matches(s, service) {
      var id: int := s.ids[service.ip];
      assert TimeOk(s.infos[id]);
      StatisticsKeep(h, s, service, s.infos[id].(services := services));
    }
  }

  lemma EmptyValid(h: Hashes, key: Key)
    ensures Inv(h, Empty(key))
  {
  }

  lemma ClearNewKey(s: State, u: Slot)
    ensures ClearNew(s, u).key == s.key
  {
  }

  lemma MoveInKey(h: Hashes, m: State, id: int)
    requires id in m.infos
    ensures MoveIn(h, m, id).key == m.key
  {
    hide ClearNew, TriedSlot, NewSlot;
    var k := TriedSlot(h, m.key, m.infos[id].service);
    if k in m.tried && m.tried[k] in m.infos {
      var e := m.tried[k];
      ClearNewKey(Untry(m, k), NewSlot(h, m.key, m.infos[e].service, m.infos[e].source));
    }
  }

  lemma PlaceKey(h: Hashes, s: State, id: int, source: NetAddr, now: int)
    requires id in s.infos
    ensures Place(h, s, id, source, now).key == s.key
  {
    hide ClearNew, NewSlot, GivesWay;
    ClearNewKey(s, NewSlot(h, s.key, s.infos[id].service, source));
  }

  lemma {:induction false} GetAddrKey(s: State, n: nat, addrs: seq<Address>, limit: nat, choices: nat -> nat, now: int)
    requires n <= |s.random|
    ensures GetAddrFrom(s, n, addrs, limit, choices, now).state.key == s.key
    decreases |s.random| - n
  {
    hide IsTerrible, ToAddress, Draw;
    if n < |s.random| && |addrs| < limit {
      var t := SwapRandom(s, n, Draw(choices(n), n, |s.random|));
      var id := t.random[n];
      var addrs' := if id in t.infos && !IsTerrible(t.infos[id], now) then addrs + [ToAddress(t.infos[id])] else addrs;
      GetAddrKey(t, n + 1, addrs', limit, choices, now);
    }
  }

  lemma GoodKey(h: Hashes, s: State, service: Service, time: int)
    ensures Good(h, s, service, time).key == s.key
  {
    hide MoveIn, LeaveNew, InBucket;
    if Matches(s, service) {
      var id := s.ids[service.ip];
      var t := SetInfo(s.(lastGood := time), id, s.infos[id].(lastSuccess := time, lastTry := time, attempts := 0));
      MoveInKey(h, LeaveNew(t, id), id);
    }
  }

  lemma AddKey(h: Hashes, routable: NetAddr -> bool, s: State, addr: Address, source: NetAddr, timePenalty: int,
               now: int, coin: nat)
    ensures Add(h, routable, s, addr, source, timePenalty, now, coin).0.key == s.key
  {
    hide Place, Refreshed;
    var p := Prepare(s, addr, source, timePenalty, now, coin);
    if p.Go? && p.id in p.state.infos {
      PlaceKey(h, p.state, p.id, source, now);
    }
  }

  /** No operation changes the key. */
  lemma StepKey(h: Hashes, routable: NetAddr -> bool, s: State, op: Op)
    ensures Step(h, routable, s, op).key == s.key
  {
    hide Add, Good, GetAddrFrom, Matches;
    match op
    case DoAdd(addr, source, timePenalty, now, coin) => AddKey(h, routable, s, addr, source, timePenalty, now, coin);
    case DoGood(service, time) => GoodKey(h, s, service, time);
    case DoGetAddr(choices, now) => GetAddrKey(s, 0, [], GetAddrLimit(s), choices, now);
    case _ =>
  }

  /**
    Every run of operations from an empty manager ends in a state that passes Check_; the key, which
    Check_ wants not to be null, is the one the manager started with.
  */
  lemma {:induction false} RunKeepsCheck(h: Hashes, routable: NetAddr -> bool, key: Key, ops: seq<Op>)
    requires forall i :: 0 <= i < |ops| ==> Legal(ops[i])
    ensures Inv(h, Run(h, routable, Empty(key), ops)) && Run(h, routable, Empty(key), ops).key == key
  {
    hide Amid, Step;
    EmptyValid(h, key);
    if ops != [] {
      RunKeepsCheck(h, routable, key, ops[..|ops| - 1]);
      StepKey(h, routable, Run(h, routable, Empty(key), ops[..|ops| - 1]), ops[|ops| - 1]);
      StepKeeps(h, routable, Run(h, routable, Empty(key), ops[..|ops| - 1]), ops[|ops| - 1]);
    }
  }
}
