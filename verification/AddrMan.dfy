/**
CAddrMan as an object with its maps, its random order, its counters and its two
bucket arrays, where -1 marks a free slot. Every method is proved to perform the
operation of the same name in AddrSteps or AddrOps; the assertions of CAddrMan
are kept and proved.
*/
module AddrMan {
  import opened Common
  import opened Powers
  import opened AddrSpec
  import opened AddrSteps
  import Ops = AddrOps

  /** The occupied slots of a bucket array. */
  ghost function Table(a: array2<int>): map<Slot, int>
    reads a
  {
    map b, p | 0 <= b < a.Length0 && 0 <= p < a.Length1 && a[b, p] != -1 :: Slot(b, p) := a[b, p]
  }

  lemma TableAt(a: array2<int>, b: nat, p: nat)
    requires b < a.Length0 && p < a.Length1
    ensures Slot(b, p) in Table(a) <==> a[b, p] != -1
    ensures Slot(b, p) in Table(a) ==> Table(a)[Slot(b, p)] == a[b, p]
  {
  }

  method WriteSlot(a: array2<int>, u: Slot, id: int)
    requires u.bucket < a.Length0 && u.pos < a.Length1
    modifies a
    ensures Table(a) == if id == -1 then old(Table(a)) - {u} else old(Table(a))[u := id]
  {
    a[u.bucket, u.pos] := id;
  }

  /** The bucket looked at in the n-th turn of a search that starts at a random one. */
  function Probe(n: nat, nRnd: nat): nat {
    (n + nRnd) % NEW_BUCKET_COUNT
  }

  class Manager {
    const h: Hashes
    const routable: NetAddr -> bool
    var nKey: Key
    var nIdCount: nat
    var mapInfo: map<int, Info>
    var mapAddr: map<NetAddr, int>
    var vRandom: seq<int>
    var nTried: int
    const vvTried: array2<int>
    var nNew: int
    const vvNew: array2<int>
    var nLastGood: int

    ghost predicate Shape() {
      && vvTried.Length0 == TRIED_BUCKET_COUNT && vvTried.Length1 == BUCKET_SIZE
      && vvNew.Length0 == NEW_BUCKET_COUNT && vvNew.Length1 == BUCKET_SIZE
      && vvTried != vvNew
    }

    ghost function Model(): State
      reads this, vvTried, vvNew
    {
      State(nKey, nIdCount, mapInfo, mapAddr, vRandom, nTried, Table(vvTried), nNew, Table(vvNew), nLastGood)
    }

    ghost predicate Valid()
      reads this, vvTried, vvNew
    {
      Shape() && Inv(h, Model())
    }

    constructor (h: Hashes, routable: NetAddr -> bool, key: Key)
      ensures this.h == h && this.routable == routable && Valid() && Model() == Empty(key)
      ensures fresh(vvTried) && fresh(vvNew)
    {
      this.h, this.routable := h, routable;
      vvTried := new int[TRIED_BUCKET_COUNT, BUCKET_SIZE]((_, _) => -1);
      vvNew := new int[NEW_BUCKET_COUNT, BUCKET_SIZE]((_, _) => -1);
      nKey, nIdCount, nTried, nNew, nLastGood := key, 0, 0, 0, 1;
      mapInfo, mapAddr, vRandom := map[], map[], [];
    }

    // -------------------------------------------------------- internal steps

    method Find(ip: NetAddr) returns (found: bool, nId: int)
      ensures found == Known(Model(), ip)
      ensures found ==> nId == mapAddr[ip] && nId in mapInfo
    {
      if ip !in mapAddr {
        return false, -1;
      }
      nId := mapAddr[ip];
      found := nId in mapInfo;
    }

    method CreateEntry(addr: Address, source: NetAddr) returns (nId: int)
      modifies this
      ensures Model() == Create(old(Model()), addr, source) && nId == old(nIdCount)
    {
      nId := nIdCount;
      nIdCount := nIdCount + 1;
      mapInfo := mapInfo[nId := NewInfo(addr, source)];
      mapAddr := mapAddr[addr.service.ip := nId];
      mapInfo := mapInfo[nId := mapInfo[nId].(randomPos := |vRandom|)];
      vRandom := vRandom + [nId];
    }

    method SwapRandomPositions(nRndPos1: int, nRndPos2: int)
      requires RandomOk(Model()) && 0 <= nRndPos1 < |vRandom| && 0 <= nRndPos2 < |vRandom|
      modifies this
      ensures Model() == SwapRandom(old(Model()), nRndPos1, nRndPos2)
    {
      if nRndPos1 == nRndPos2 {
        return;
      }
      hide RandomOk, Table;
      ListedInRandom(Model(), nRndPos1);
      ListedInRandom(Model(), nRndPos2);
      var nId1, nId2 := vRandom[nRndPos1], vRandom[nRndPos2];
      assert nId1 in mapInfo;
      assert nId2 in mapInfo;
      mapInfo := mapInfo[nId1 := mapInfo[nId1].(randomPos := nRndPos2)];
      assert nId1 != nId2;
      mapInfo := mapInfo[nId2 := mapInfo[nId2].(randomPos := nRndPos1)];
      vRandom := vRandom[nRndPos1 := nId2];
      vRandom := vRandom[nRndPos2 := nId1];
    }

    /** Deletes an entry that is not tried and has no references. */
    method DeleteEntry(nId: int)
      requires RandomOk(Model()) && nId in mapInfo
      requires !mapInfo[nId].inTried && mapInfo[nId].refCount == 0
      modifies this
      ensures Model() == Delete(old(Model()), nId)
    {
      hide RandomOk, Table;
      PlacedInRandom(Model(), nId);
      var info := mapInfo[nId];
      SwapRandomPositions(info.randomPos, |vRandom| - 1);
      vRandom := vRandom[..|vRandom| - 1];
      mapAddr := mapAddr - {info.service.ip};
      mapInfo := mapInfo - {nId};
      nNew := nNew - 1;
    }

    method ClearNewSlot(u: Slot, ghost gap: int, ghost except: set<int>)
      requires Shape() && Amid(h, Model(), gap, except) && u.bucket < NEW_BUCKET_COUNT && u.pos < BUCKET_SIZE
      modifies this, vvNew
      ensures Model() == ClearNew(old(Model()), u)
    {
      hide Amid, NamesOk, RandomOk, TriedOk, NewsOk, TimesOk, Counted, Referenced, Table;
      TableAt(vvNew, u.bucket, u.pos);
      if vvNew[u.bucket, u.pos] != -1 {
        UnrefKeeps(h, Model(), u, gap, except);
        var nIdDelete := vvNew[u.bucket, u.pos];
        var infoDelete := mapInfo[nIdDelete];
        assert infoDelete.refCount > 0;
        ghost var before := Model();
        mapInfo := mapInfo[nIdDelete := infoDelete.(refCount := infoDelete.refCount - 1)];
        WriteSlot(vvNew, u, -1);
        assert Model() == Unref(before, u);
        if mapInfo[nIdDelete].refCount == 0 {
          DeleteEntry(nIdDelete);
        }
      }
    }

    /** The loop that takes an entry out of all new buckets. */
    method TakeSlots(nId: int) returns (nRefCount: int)
      requires Valid() && nId in mapInfo
      modifies vvNew
      ensures Table(vvNew) == old(Table(vvNew)) - SlotsOf(old(Table(vvNew)), nId)
      ensures nRefCount == mapInfo[nId].refCount - |SlotsOf(old(Table(vvNew)), nId)|
    {
      hide Amid, Table, SlotsBelow, SlotsOf;
      ghost var before := Model();
      ghost var news := before.news;
      IdsNatural(h, before, nId, 0, {});
      NoSlotsBelow(news, nId);
      nRefCount := mapInfo[nId].refCount;
      for bucket := 0 to NEW_BUCKET_COUNT
        invariant Table(vvNew) == news - SlotsBelow(news, nId, bucket)
        invariant nRefCount == mapInfo[nId].refCount - |SlotsBelow(news, nId, bucket)|
      {
        var u := SlotIn(h, nKey, bucket, mapInfo[nId].service);
        TableAt(vvNew, u.bucket, u.pos);
        SlotsBelowNext(h, before, nId, bucket);
        if vvNew[u.bucket, u.pos] == nId {
          WriteSlot(vvNew, u, -1);
          nRefCount := nRefCount - 1;
        }
      }
      AllSlotsBelow(h, before, nId);
    }

    method LeaveNewTable(nId: int)
      requires Valid() && nId in mapInfo
      modifies this`mapInfo, this`nNew, vvNew
      ensures Model() == Ops.LeaveNew(old(Model()), nId)
    {
      hide Inv;
      var nRefCount := TakeSlots(nId);
      mapInfo := mapInfo[nId := mapInfo[nId].(refCount := nRefCount)];
      nNew := nNew - 1;
    }

    /** Moves an entry from the new buckets to the tried table. */
    method MakeEntryTried(nId: int)
      requires Valid() && nId in mapInfo && !mapInfo[nId].inTried && mapInfo[nId].lastSuccess > 0
      modifies this, vvNew, vvTried
      ensures Model() == Ops.MakeTried(h, old(Model()), nId)
    {
      hide Amid, Ops.LeaveNew, Ops.Evict, Table;
      ghost var before := Model();
      Ops.LeaveNewKeeps(h, before, nId);
      IdsNatural(h, before, nId, 0, {});
      LeaveNewTable(nId);
      ghost var m := Model();
      assert mapInfo[nId].refCount == 0;
      var k := TriedSlot(h, nKey, mapInfo[nId].service);
      TableAt(vvTried, k.bucket, k.pos);
      if vvTried[k.bucket, k.pos] != -1 {
        Ops.EvictKeeps(h, m, k, nId);
        EvictTried(k, nId);
        assert KeptAt(m, Model(), nId);
      }
      TableAt(vvTried, k.bucket, k.pos);
      assert vvTried[k.bucket, k.pos] == -1;
      WriteSlot(vvTried, k, nId);
      nTried := nTried + 1;
      mapInfo := mapInfo[nId := mapInfo[nId].(inTried := true)];
    }

    /** Sends the occupant of a tried slot back to its new bucket. */
    method EvictTried(k: Slot, nId: int)
      requires Shape() && Amid(h, Model(), 1, {nId}) && nId in mapInfo && !mapInfo[nId].inTried
               && mapInfo[nId].refCount == 0
      requires k in Table(vvTried) && k.bucket < TRIED_BUCKET_COUNT && k.pos < BUCKET_SIZE
      modifies this, vvNew, vvTried
      ensures Model() == Ops.Evict(h, old(Model()), k)
    {
      hide Amid, ClearNew, NewSlot, Table;
      ghost var before := Model();
      UntryKeeps(h, before, k, 1, {nId});
      TableAt(vvTried, k.bucket, k.pos);
      var nIdEvict := vvTried[k.bucket, k.pos];
      assert nIdEvict in mapInfo;
      mapInfo := mapInfo[nIdEvict := mapInfo[nIdEvict].(inTried := false)];
      WriteSlot(vvTried, k, -1);
      nTried := nTried - 1;
      assert Model() == Untry(before, k);
      var u := NewSlot(h, nKey, mapInfo[nIdEvict].service, mapInfo[nIdEvict].source);
      NewSlotBounds(h, nKey, mapInfo[nIdEvict].service, mapInfo[nIdEvict].source);
      BackToNew(u, nIdEvict, nId);
    }

    /** The second half of an eviction: the entry takes over its new slot. */
    method BackToNew(u: Slot, nIdEvict: int, ghost nId: int)
      requires Shape() && u.bucket < NEW_BUCKET_COUNT && u.pos < BUCKET_SIZE
      requires Amid(h, Model(), 2, {nId} + {nIdEvict}) && nId in mapInfo && nIdEvict in mapInfo
      requires mapInfo[nId].refCount == 0 && mapInfo[nIdEvict].refCount == 0
      modifies this, vvNew
      ensures nIdEvict in ClearNew(old(Model()), u).infos
      ensures Model() == Ref(ClearNew(old(Model()), u), u, nIdEvict).(nNew := ClearNew(old(Model()), u).nNew + 1)
    {
      hide Amid, ClearNew, Table;
      ghost var m := Model();
      IdsNatural(h, m, nIdEvict, 2, {nId} + {nIdEvict});
      Ops.SlotNotAmid(h, m, u, nId, 2, {nId} + {nIdEvict});
      Ops.SlotNotAmid(h, m, u, nIdEvict, 2, {nId} + {nIdEvict});
      ClearNewSpares(h, m, u, nIdEvict, 2, {nId} + {nIdEvict});
      ClearNewSlot(u, 2, {nId} + {nIdEvict});
      TableAt(vvNew, u.bucket, u.pos);
      assert vvNew[u.bucket, u.pos] == -1;
      mapInfo := mapInfo[nIdEvict := mapInfo[nIdEvict].(refCount := 1)];
      WriteSlot(vvNew, u, nIdEvict);
      nNew := nNew + 1;
    }

    // ------------------------------------------------------------ operations

    method Good(service: Service, nTime: int, nRnd: nat)
      requires Valid() && nTime > 0
      modifies this, vvNew, vvTried
      ensures Valid() && Model() == Ops.Good(h, old(Model()), service, nTime)
    {
      hide Inv, Ops.MakeTried, Table;
      Ops.GoodKeeps(h, Model(), service, nTime);
      LastGoodKeeps(h, Model(), nTime);
      nLastGood := nTime;
      var found, nId := Find(service.ip);
      if !found || mapInfo[nId].service != service {
        return;
      }
      SuccessKeeps(h, Model(), nId, nTime);
      mapInfo := mapInfo[nId := mapInfo[nId].(lastSuccess := nTime, lastTry := nTime, attempts := 0)];
      if mapInfo[nId].inTried {
        return;
      }
      var nUBucket := FindBucket(nId, nRnd);
      assert nUBucket != -1;
      assert Ops.InBucket(h, Model(), nId, nUBucket);
      MakeEntryTried(nId);
    }

    /** The search for a bucket the entry is in, starting at a random one. It always succeeds. */
    method FindBucket(nId: int, nRnd: nat) returns (nUBucket: int)
      requires Valid() && nId in mapInfo && !mapInfo[nId].inTried
      ensures 0 <= nUBucket && Ops.InBucket(h, Model(), nId, nUBucket)
    {
      hide Amid;
      IdsNatural(h, Model(), nId, 0, {});
      ghost var found := BucketProbed(h, Model(), nId, nRnd);
      var n := 0;
      nUBucket := -1;
      while n < NEW_BUCKET_COUNT && nUBucket == -1
        invariant nUBucket == -1 ==> 0 <= n <= found
        invariant nUBucket != -1 ==> 0 <= nUBucket && Ops.InBucket(h, Model(), nId, nUBucket)
        decreases NEW_BUCKET_COUNT - n
      {
        var nB := Probe(n, nRnd);
        var u := SlotIn(h, nKey, nB, mapInfo[nId].service);
        TableAt(vvNew, u.bucket, u.pos);
        if vvNew[u.bucket, u.pos] == nId {
          nUBucket := nB;
        }
        n := n + 1;
      }
    }

    method Attempt(service: Service, fCountFailure: bool, nTime: int)
      requires Valid() && nTime >= 0
      modifies this
      ensures Valid() && Model() == Ops.Attempt(old(Model()), service, fCountFailure, nTime)
    {
      hide Inv;
      Ops.AttemptKeeps(h, Model(), service, fCountFailure, nTime);
      var found, nId := Find(service.ip);
      if found && mapInfo[nId].service == service {
        var info := mapInfo[nId].(lastTry := nTime);
        if fCountFailure && info.lastCountAttempt < nLastGood {
          info := info.(lastCountAttempt := nTime, attempts := info.attempts + 1);
        }
        mapInfo := mapInfo[nId := info];
      }
    }

    method Connected(service: Service, nTime: nat)
      requires Valid()
      modifies this
      ensures Valid() && Model() == Ops.Connected(old(Model()), service, nTime)
    {
      hide Inv;
      Ops.ConnectedKeeps(h, Model(), service, nTime);
      var found, nId := Find(service.ip);
      if found && mapInfo[nId].service == service {
        var info := mapInfo[nId];
        if nTime - info.time > 20 * 60 {
          info := info.(time := nTime);
        }
        mapInfo := mapInfo[nId := info];
      }
    }

    method SetServices(service: Service, nServices: bv64)
      requires Valid()
      modifies this
      ensures Valid() && Model() == Ops.SetServices(old(Model()), service, nServices)
    {
      hide Inv;
      Ops.SetServicesKeeps(h, Model(), service, nServices);
      var found, nId := Find(service.ip);
      if found && mapInfo[nId].service == service {
        mapInfo := mapInfo[nId := mapInfo[nId].(services := nServices)];
      }
    }

    method Add(addr: Address, source: NetAddr, nTimePenalty: int, now: int, coin: nat) returns (fNew: bool)
      requires Valid()
      modifies this, vvNew
      ensures Valid() && (Model(), fNew) == Ops.Add(h, routable, old(Model()), addr, source, nTimePenalty, now, coin)
    {
      hide Inv, Amid;
      Ops.AddKeeps(h, routable, Model(), addr, source, nTimePenalty, now, coin);
      if !routable(addr.service.ip) {
        return false;
      }
      Ops.PrepareKeeps(h, Model(), addr, source, nTimePenalty, now, coin);
      var go, nId;
      go, nId, fNew := PrepareAdd(addr, source, nTimePenalty, now, coin);
      if go {
        PlaceEntry(nId, source, now);
      }
    }

    /** The first half of Add_: finds and refreshes the entry, or creates it. */
    method PrepareAdd(addr: Address, source: NetAddr, nTimePenalty: int, now: int, coin: nat)
      returns (go: bool, nId: int, fNew: bool)
      requires Valid()
      modifies this
      ensures match Ops.Prepare(old(Model()), addr, source, nTimePenalty, now, coin)
              case Stop(t) => !go && !fNew && Model() == t
              case Go(t, id, isNew) => go && fNew == isNew && nId == id && Model() == t
    {
      hide Inv, Ops.Refreshed, Ops.Factor, Table;
      var penalty := if addr.service.ip == source then 0 else nTimePenalty;
      var found;
      found, nId := Find(addr.service.ip);
      fNew := !found;
      if found {
        mapInfo := mapInfo[nId := Ops.Refreshed(mapInfo[nId], addr, penalty, now)];
        var info := mapInfo[nId];
        if addr.time == 0 || (info.time != 0 && addr.time <= info.time) {
          return false, nId, false;
        }
        if info.inTried || info.refCount == NEW_BUCKETS_PER_ADDRESS {
          return false, nId, false;
        }
        var nFactor := StochasticFactor(info.refCount);
        if nFactor > 1 && coin % nFactor != 0 {
          return false, nId, false;
        }
      } else {
        nId := CreateEntry(addr, source);
        mapInfo := mapInfo[nId := mapInfo[nId].(time := Max(0, mapInfo[nId].time - penalty))];
        nNew := nNew + 1;
      }
      go := true;
    }

    method StochasticFactor(refCount: int) returns (nFactor: nat)
      ensures nFactor == Ops.Factor(refCount) >= 1
    {
      nFactor := 1;
      var n := 0;
      while n < refCount
        invariant 0 <= n && (n <= refCount || n == 0) && nFactor == Shl(1, n) >= 1
      {
        ShlDoubles(1, n);
        nFactor := nFactor * 2;
        n := n + 1;
      }
    }

    /** The second half of Add_: gives the entry its new slot, if the occupant yields. */
    method PlaceEntry(nId: int, source: NetAddr, now: int)
      requires Shape() && Amid(h, Model(), 0, {nId}) && nId in mapInfo && !mapInfo[nId].inTried
      requires 0 <= mapInfo[nId].refCount < NEW_BUCKETS_PER_ADDRESS
      modifies this, vvNew
      ensures Model() == Ops.Place(h, old(Model()), nId, source, now)
    {
      hide Amid, ClearNew, NewSlot, Table;
      ghost var before := Model();
      var u := NewSlot(h, nKey, mapInfo[nId].service, source);
      NewSlotBounds(h, nKey, mapInfo[nId].service, source);
      TableAt(vvNew, u.bucket, u.pos);
      SlotOwnerKnown(h, before, u, 0, {nId});
      IdsNatural(h, before, nId, 0, {nId});
      if vvNew[u.bucket, u.pos] != nId {
        var fInsert := vvNew[u.bucket, u.pos] == -1;
        if !fInsert {
          var infoExisting := mapInfo[vvNew[u.bucket, u.pos]];
          fInsert := IsTerrible(infoExisting, now) || (infoExisting.refCount > 1 && mapInfo[nId].refCount == 0);
        }
        if fInsert {
          ClearNewSpares(h, before, u, nId, 0, {nId});
          ClearNewSlot(u, 0, {nId});
          mapInfo := mapInfo[nId := mapInfo[nId].(refCount := mapInfo[nId].refCount + 1)];
          WriteSlot(vvNew, u, nId);
        } else if mapInfo[nId].refCount == 0 {
          RandomAmid(h, before, 0, {nId});
          DeleteEntry(nId);
        }
      }
    }

    method GetAddr(choices: nat -> nat, now: int) returns (vAddr: seq<Address>)
      requires Valid()
      modifies this
      ensures Valid() && Model() == Ops.GetAddr(old(Model()), choices, now).state
      ensures vAddr == Ops.GetAddr(old(Model()), choices, now).addrs
    {
      hide Inv, RandomOk, SwapRandom, Ops.Drawn, Table, Ops.GetAddrFrom, IsTerrible, Ops.Draw;
      ghost var result := Ops.GetAddr(Model(), choices, now);
      Ops.GetAddrFromKeeps(h, Model(), 0, Ops.GetAddrLimit(Model()), choices, now);
      DrawnIsValid(h, Model(), result, Ops.GetAddrLimit(Model()), now);
      var nNodes := GETADDR_MAX_PCT * |vRandom| / 100;
      if nNodes > GETADDR_MAX {
        nNodes := GETADDR_MAX;
      }
      vAddr := [];
      var n := 0;
      while n < |vRandom| && |vAddr| < nNodes
        invariant Valid() && n <= |vRandom|
        invariant Ops.GetAddrFrom(Model(), n, vAddr, nNodes, choices, now) == result
        decreases |vRandom| - n
      {
        Ops.GetAddrTurn(Model(), n, vAddr, nNodes, choices, now);
        var nRndPos := Ops.Draw(choices(n), n, |vRandom|);
        SwapInvKeeps(h, Model(), n, nRndPos);
        SwapRandomPositions(n, nRndPos);
        ListedInRandom(Model(), n);
        assert vRandom[n] in mapInfo;
        var ai := mapInfo[vRandom[n]];
        if !IsTerrible(ai, now) {
          vAddr := vAddr + [Ops.ToAddress(ai)];
        }
        n := n + 1;
      }
      Ops.GetAddrTurn(Model(), n, vAddr, nNodes, choices, now);
    }
  }

  lemma ListedInRandom(s: State, i: int)
    requires RandomOk(s) && 0 <= i < |s.random|
    ensures ListedOk(s, i)
  {
  }

  lemma NewSlotBounds(h: Hashes, key: Key, service: Service, source: NetAddr)
    ensures NewSlot(h, key, service, source).bucket < NEW_BUCKET_COUNT
    ensures NewSlot(h, key, service, source).pos < BUCKET_SIZE
  {
  }

  lemma IdsNatural(h: Hashes, s: State, id: int, gap: int, except: set<int>)
    requires Amid(h, s, gap, except) && id in s.infos
    ensures id >= 0
  {
    assert NameOk(s, id);
  }

  /** The turn in which the search comes across the entry. */
  lemma BucketProbed(h: Hashes, s: State, id: int, nRnd: nat) returns (n: nat)
    requires Inv(h, s) && id in s.infos && !s.infos[id].inTried
    ensures n < NEW_BUCKET_COUNT && Ops.InBucket(h, s, id, Probe(n, nRnd))
  {
    Ops.BucketFound(h, s, id);
    var b: nat :| Ops.InBucket(h, s, id, b);
    n := (b - nRnd) % NEW_BUCKET_COUNT;
    assert Probe(n, nRnd) == b;
  }

  lemma RandomAmid(h: Hashes, s: State, gap: int, except: set<int>)
    requires Amid(h, s, gap, except)
    ensures RandomOk(s)
  {
  }

  lemma SlotOwnerKnown(h: Hashes, s: State, u: Slot, gap: int, except: set<int>)
    requires Amid(h, s, gap, except)
    ensures u in s.news ==> s.news[u] in s.infos
  {
    assert u in s.news ==> NewSlotOk(h, s, u);
  }

  lemma LastGoodKeeps(h: Hashes, s: State, time: int)
    requires Inv(h, s)
    ensures Inv(h, s.(lastGood := time))
  {
    Ops.CountersOnly(h, s, s.(lastGood := time), 0, 0, {});
  }

  lemma SuccessKeeps(h: Hashes, s: State, id: int, time: int)
    requires Inv(h, s) && id in s.infos && time > 0
    ensures Inv(h, SetInfo(s, id, s.infos[id].(lastSuccess := time, lastTry := time, attempts := 0)))
  {
    TouchKeeps(h, s, id, s.infos[id].(lastSuccess := time, lastTry := time, attempts := 0), 0, {});
  }

  lemma SwapInvKeeps(h: Hashes, s: State, p: int, q: int)
    requires Inv(h, s) && 0 <= p < |s.random| && 0 <= q < |s.random|
    ensures RandomOk(s) && Inv(h, SwapRandom(s, p, q)) && RandomOk(SwapRandom(s, p, q))
    ensures |SwapRandom(s, p, q).random| == |s.random|
  {
    SwapKeeps(h, s, p, q, 0, {});
    SwapKeepsRandom(s, p, q);
  }

  lemma DrawnIsValid(h: Hashes, s: State, r: Ops.Picked, limit: nat, now: int)
    requires Ops.Drawn(h, s, r, limit, now)
    ensures Inv(h, r.state)
  {
  }

  /** The slots of an entry in the first buckets. */
  ghost function SlotsBelow(news: map<Slot, int>, id: int, bucket: nat): set<Slot> {
    set u | u in news && news[u] == id && u.bucket < bucket
  }

  lemma NoSlotsBelow(news: map<Slot, int>, id: int)
    ensures SlotsBelow(news, id, 0) == {}
  {
  }

  lemma SlotsBelowNext(h: Hashes, s: State, id: int, bucket: nat)
    requires Inv(h, s) && id in s.infos
    ensures var u := SlotIn(h, s.key, bucket, s.infos[id].service);
            && u !in SlotsBelow(s.news, id, bucket)
            && SlotsBelow(s.news, id, bucket + 1) ==
               SlotsBelow(s.news, id, bucket) + (if u in s.news && s.news[u] == id then {u} else {})
  {
    forall v | v in s.news && s.news[v] == id ensures v == SlotIn(h, s.key, v.bucket, s.infos[id].service) {
      assert NewSlotOk(h, s, v);
    }
  }

  lemma AllSlotsBelow(h: Hashes, s: State, id: int)
    requires Inv(h, s) && id in s.infos
    ensures SlotsBelow(s.news, id, NEW_BUCKET_COUNT) == SlotsOf(s.news, id)
  {
    forall v | v in s.news ensures v.bucket < NEW_BUCKET_COUNT {
      assert NewSlotOk(h, s, v);
    }
  }
}
