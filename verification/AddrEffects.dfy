/**
What the operations of the address manager do to the entries, the slots and the names, told by
the state before and the state after: who is stored and where, who gives way, what changes in an
entry, and that nothing else does.
*/
module AddrEffects {
  import opened Common
  import opened Powers
  import opened AddrSpec
  import opened AddrSteps
  import opened AddrOps

  /** Not tried in the last minute, and from the future, too old, or unsuccessful for too long. */
  lemma TerribleIs(i: Info, now: int)
    ensures IsTerrible(i, now) <==>
              && (i.lastTry == 0 || i.lastTry < now - 60)
              && (|| i.time > now + 600 || i.time == 0 || i.time < now - 2592000
                  || (i.lastSuccess == 0 && i.attempts >= 3)
                  || (i.lastSuccess < now - 604800 && i.attempts >= 10))
  {
  }

  // ------------------------------------------------------------ giving way

  /** All other entries are as before, up to their place in the random order. */
  ghost predicate OthersKept(s: State, t: State, but: set<int>) {
    forall x :: x !in but ==> KeptAt(s, t, x) && (x in t.infos ==> x in s.infos)
  }

  /** An entry has given up one slot: it is forgotten with its last one. */
  predicate GaveUp(s: State, t: State, x: int)
    requires x in s.infos
  {
    if s.infos[x].refCount > 1
    then
      && x in t.infos
      && t.infos[x] == s.infos[x].(refCount := s.infos[x].refCount - 1, randomPos := t.infos[x].randomPos)
    else x !in t.infos && s.infos[x].service.ip !in t.ids
  }

  /** The names when an entry has given up one slot. */
  function NamesLeft(s: State, x: int): map<NetAddr, int>
    requires x in s.infos
  {
    if s.infos[x].refCount > 1 then s.ids else s.ids - {s.infos[x].service.ip}
  }

  lemma OwnerKnown(h: Hashes, s: State, u: Slot, gap: int, except: set<int>)
    requires Amid(h, s, gap, except) && u in s.news
    ensures s.news[u] in s.infos && !s.infos[s.news[u]].inTried && s.infos[s.news[u]].refCount >= 1
  {
    assert NewSlotOk(h, s, u);
    SlotsMeanRefs(h, s, u);
  }

  lemma RandomOf(h: Hashes, s: State, gap: int, except: set<int>)
    requires Amid(h, s, gap, except)
    ensures RandomOk(s)
  {
  }

  lemma ClearNewIs(h: Hashes, s: State, u: Slot, gap: int, except: set<int>)
    requires Amid(h, s, gap, except) && u in s.news && s.news[u] !in except
    ensures s.news[u] in s.infos
    ensures var t, x := ClearNew(s, u), s.news[u];
            && t.ids == NamesLeft(s, x) && GaveUp(s, t, x) && OthersKept(s, t, {x})
            && t.news == s.news - {u} && t.tried == s.tried && t.key == s.key && t.lastGood == s.lastGood
  {
    hide Amid, RandomOk, Delete;
    OwnerKnown(h, s, u, gap, except);
    RandomOf(h, s, gap, except);
    ClearNewKeeps(h, s, u, gap, except);
    var x: int := s.news[u];
    ClearedKnown(s, u, x);
    var m := Unref(s, u);
    UnrefRandom(s, u);
    if m.infos[x].refCount == 0 {
      DeleteIs(m, x);
    }
  }

  lemma DeleteIs(s: State, id: int)
    requires RandomOk(s) && id in s.infos
    ensures var t := Delete(s, id);
            && id !in t.infos && OthersKept(s, t, {id}) && t.ids == s.ids - {s.infos[id].service.ip}
            && t.news == s.news && t.tried == s.tried && t.key == s.key && t.lastGood == s.lastGood
  {
    hide RandomOk;
    DeleteLeaves(s, id);
    var t := Delete(s, id);
    forall x | x != id ensures KeptAt(s, t, x) && (x in t.infos ==> x in s.infos) {
      assert LeftBy(s, t, id, x) && KeptAt(s, t, x);
    }
  }

  // -------------------------------------------------------------------- Add_

  /** A slot that an entry without any slot takes: free, or its occupant is terrible or has others. */
  predicate Vacant(s: State, u: Slot, now: int) {
    u in s.news ==> s.news[u] in s.infos && (IsTerrible(s.infos[s.news[u]], now) || s.infos[s.news[u]].refCount > 1)
  }

  /** A slot that another entry takes: free, or its occupant is terrible. */
  predicate Yielding(s: State, u: Slot, id: int, now: int) {
    u in s.news ==> s.news[u] != id && s.news[u] in s.infos && IsTerrible(s.infos[s.news[u]], now)
  }

  /** The entry has taken the slot; the occupant, if there was one, has given it up. */
  ghost predicate Took(s: State, t: State, u: Slot, id: int) {
    && t.news == s.news[u := id] && t.tried == s.tried && t.key == s.key && t.lastGood == s.lastGood
    && (u in s.news && s.news[u] in s.infos ==> GaveUp(s, t, s.news[u]) && OthersKept(s, t, {s.news[u], id}))
    && (u !in s.news ==> OthersKept(s, t, {id}))
  }

  /** No slot has changed hands, and no other entry has changed. */
  ghost predicate NobodyMoved(s: State, t: State, id: int) {
    t.news == s.news && t.tried == s.tried && t.key == s.key && t.lastGood == s.lastGood && OthersKept(s, t, {id})
  }

  lemma PlaceTakes(h: Hashes, s: State, id: int, source: NetAddr, now: int)
    requires Amid(h, s, 0, {id}) && id in s.infos && !s.infos[id].inTried && s.infos[id].refCount >= 0
    requires var u := NewSlot(h, s.key, s.infos[id].service, source);
             if s.infos[id].refCount == 0 then Vacant(s, u, now) else Yielding(s, u, id, now)
    ensures var t, u := Place(h, s, id, source, now), NewSlot(h, s.key, s.infos[id].service, source);
            && Took(s, t, u, id) && id in t.infos
            && t.infos[id] == s.infos[id].(refCount := s.infos[id].refCount + 1, randomPos := t.infos[id].randomPos)
            && t.ids == if u in s.news && s.news[u] in s.infos then NamesLeft(s, s.news[u]) else s.ids
  {
    hide Amid, NewSlot, ClearNew, IsTerrible, NamesLeft;
    var u := NewSlot(h, s.key, s.infos[id].service, source);
    if s.infos[id].refCount == 0 {
      SlotNotAmid(h, s, u, id, 0, {id});
    }
    if u in s.news {
      ClearNewIs(h, s, u, 0, {id});
      var c := ClearNew(s, u);
      assert KeptAt(s, c, id);
      assert (s.news - {u})[u := id] == s.news[u := id];
    } else {
      ClearNewKeeps(h, s, u, 0, {id});
    }
  }

  lemma PlaceLeaves(h: Hashes, s: State, id: int, source: NetAddr, now: int)
    requires Amid(h, s, 0, {id}) && id in s.infos && !s.infos[id].inTried && s.infos[id].refCount >= 0
    requires var u := NewSlot(h, s.key, s.infos[id].service, source);
             if s.infos[id].refCount == 0 then !Vacant(s, u, now) else !Yielding(s, u, id, now)
    ensures var t := Place(h, s, id, source, now);
            && NobodyMoved(s, t, id)
            && (s.infos[id].refCount == 0 ==> id !in t.infos && t.ids == s.ids - {s.infos[id].service.ip})
            && (s.infos[id].refCount > 0 ==> t == s)
  {
    hide Amid, NewSlot, ClearNew, IsTerrible, Delete, RandomOk;
    var u := NewSlot(h, s.key, s.infos[id].service, source);
    OwnerKnown(h, s, u, 0, {id});
    RandomOf(h, s, 0, {id});
    if s.infos[id].refCount == 0 {
      SlotNotAmid(h, s, u, id, 0, {id});
      DeleteIs(s, id);
    }
  }

  lemma NewcomerIs(s: State, addr: Address, source: NetAddr, timePenalty: int, now: int, coin: nat)
    requires !Known(s, addr.service.ip)
    ensures var p := Prepare(s, addr, source, timePenalty, now, coin);
            var time := Max(0, addr.time - if addr.service.ip == source then 0 else timePenalty);
            && p.Go? && p.id == s.idCount && p.state.idCount == s.idCount + 1
            && p.state.infos ==
               s.infos[p.id := Info(addr.service, addr.services, time, source, 0, 0, 0, 0, 0, false, |s.random|)]
            && p.state.ids == s.ids[addr.service.ip := p.id]
            && p.state.news == s.news && p.state.tried == s.tried && p.state.key == s.key
            && p.state.lastGood == s.lastGood
  {
  }

  /** The other entries, the slots and the names do not differ for an entry that was just entered or refreshed. */
  ghost predicate SameBut(s: State, t: State, id: int) {
    && t.news == s.news && t.tried == s.tried && t.key == s.key && t.lastGood == s.lastGood
    && forall x :: x != id ==> (x in t.infos <==> x in s.infos) && (x in s.infos ==> t.infos[x] == s.infos[x])
  }

  lemma TookFrom(s: State, m: State, t: State, u: Slot, id: int)
    requires SameBut(s, m, id) && Took(m, t, u, id) && (u in s.news ==> s.news[u] != id && s.news[u] in s.infos)
    ensures Took(s, t, u, id)
  {
    forall x | x != id && (u in s.news ==> x != s.news[u])
      ensures KeptAt(s, t, x) && (x in t.infos ==> x in s.infos)
    {
      assert KeptAt(m, t, x);
    }
  }

  lemma NobodyMovedFrom(s: State, m: State, t: State, id: int)
    requires SameBut(s, m, id) && NobodyMoved(m, t, id)
    ensures NobodyMoved(s, t, id)
  {
    forall x | x != id ensures KeptAt(s, t, x) && (x in t.infos ==> x in s.infos) {
      assert KeptAt(m, t, x);
    }
  }

  /**
    A routable address that is not known is stored if and only if its slot is free, or the occupant is
    terrible or has other slots. It is stored in that slot and in no other. Otherwise nothing changes
    but the random order.
  */
  lemma AddNewcomer(h: Hashes, routable: NetAddr -> bool, s: State, addr: Address, source: NetAddr,
                    timePenalty: int, now: int, coin: nat)
    requires Inv(h, s) && routable(addr.service.ip) && addr.service.ip !in s.ids
    ensures var t, ip := Add(h, routable, s, addr, source, timePenalty, now, coin).0, addr.service.ip;
            var u := NewSlot(h, s.key, addr.service, source);
            var time := Max(0, addr.time - if ip == source then 0 else timePenalty);
            && (ip in t.ids <==> Vacant(s, u, now))
            && (ip in t.ids ==>
                  && t.ids[ip] in t.infos && t.ids[ip] !in s.infos && Took(s, t, u, t.ids[ip])
                  && t.infos[t.ids[ip]] == Info(addr.service, addr.services, time, source, 0, 0, 0, 0, 1, false,
                                                t.infos[t.ids[ip]].randomPos)
                  && t.ids - {ip} == if u in s.news && s.news[u] in s.infos then NamesLeft(s, s.news[u]) else s.ids)
            && (ip !in t.ids ==> NobodyMoved(s, t, s.idCount) && t.ids == s.ids && s.idCount !in t.infos)
  {
    hide Amid, Prepare, Place, NewSlot, IsTerrible, Took, NobodyMoved;
    var ip, u := addr.service.ip, NewSlot(h, s.key, addr.service, source);
    var p := Prepare(s, addr, source, timePenalty, now, coin);
    NewcomerIs(s, addr, source, timePenalty, now, coin);
    PrepareKeeps(h, s, addr, source, timePenalty, now, coin);
    NextFree(h, s);
    var m, id := p.state, p.id;
    if u in s.news {
      OwnerKnown(h, s, u, 0, {});
      OwnName(h, s, s.news[u]);
    }
    assert SameBut(s, m, id) && (Vacant(m, u, now) <==> Vacant(s, u, now));
    if Vacant(m, u, now) {
      PlaceTakes(h, m, id, source, now);
      TookFrom(s, m, Place(h, m, id, source, now), u, id);
    } else {
      PlaceLeaves(h, m, id, source, now);
      NobodyMovedFrom(s, m, Place(h, m, id, source, now), id);
    }
  }

  lemma NextFree(h: Hashes, s: State)
    requires Inv(h, s)
    ensures s.idCount !in s.infos
  {
    assert s.idCount in s.infos ==> NameOk(s, s.idCount);
  }

  lemma OwnName(h: Hashes, s: State, id: int)
    requires Inv(h, s) && id in s.infos
    ensures s.infos[id].service.ip in s.ids && s.ids[s.infos[id].service.ip] == id
  {
    assert NameOk(s, id);
  }

  /** The time of a known entry after its address was announced again. */
  function Announced(i: Info, addr: Address, penalty: int, now: int): nat {
    var interval := if now - addr.time < 86400 then 3600 else 86400;
    if addr.time != 0 && (i.time == 0 || i.time < addr.time - interval - penalty)
    then Max(0, addr.time - penalty) else i.time
  }

  /** An announcement that may gain a known entry another slot: it is news, there is room, and the coin says so. */
  predicate Eligible(i: Info, addr: Address, penalty: int, now: int, coin: nat) {
    && addr.time != 0 && (Announced(i, addr, penalty, now) == 0 || Announced(i, addr, penalty, now) < addr.time)
    && !i.inTried && 0 <= i.refCount < 8 && coin % Pow2(i.refCount) == 0
  }

  lemma {:induction false} ShlIsPow2(n: nat)
    ensures Shl(1, n) == Pow2(n)
  {
    if n > 0 {
      ShlDoubles(1, n - 1);
      ShlIsPow2(n - 1);
    }
  }

  lemma KnownIs(s: State, addr: Address, source: NetAddr, timePenalty: int, now: int, coin: nat)
    requires Known(s, addr.service.ip)
    requires var i := s.infos[s.ids[addr.service.ip]]; i.inTried || 1 <= i.refCount <= 8
    ensures var p, id := Prepare(s, addr, source, timePenalty, now, coin), s.ids[addr.service.ip];
            var i, penalty := s.infos[id], if addr.service.ip == source then 0 else timePenalty;
            && p.state == SetInfo(s, id, Refreshed(i, addr, penalty, now))
            && (p.Go? <==> Eligible(i, addr, penalty, now, coin)) && (p.Go? ==> p.id == id)
  {
    hide Refreshed, Factor, Pow2, Joined;
    var i, penalty := s.infos[s.ids[addr.service.ip]], if addr.service.ip == source then 0 else timePenalty;
    RefreshedTime(i, addr, penalty, now);
    hide Announced;
    if i.refCount >= 1 {
      CoinIs(i.refCount, coin);
    }
  }

  lemma RefreshedIs(i: Info, addr: Address, penalty: int, now: int)
    ensures Refreshed(i, addr, penalty, now) ==
            i.(time := Announced(i, addr, penalty, now), services := Joined(i.services, addr.services))
  {
    hide Joined;
  }

  /** A service is missing if and only if both miss it. */
  lemma JoinedIs(a: bv64, b: bv64)
    ensures !Joined(a, b) == !a & !b
  {
  }

  lemma RefreshedTime(i: Info, addr: Address, penalty: int, now: int)
    ensures var j := Refreshed(i, addr, penalty, now);
            j.time == Announced(i, addr, penalty, now) && j.inTried == i.inTried && j.refCount == i.refCount
  {
    hide Joined;
  }

  lemma CoinIs(refCount: nat, coin: nat)
    requires refCount >= 1
    ensures Factor(refCount) > 1 && Factor(refCount) == Pow2(refCount) && Max(1, Factor(refCount)) == Pow2(refCount)
  {
    ShlIsPow2(refCount);
  }

  /**
    An address that is known keeps its entry. Its time follows newer announcements, its services add
    up, and it takes its slot for this source if and only if it is eligible and the slot is free or its
    occupant terrible.
  */
  lemma AddKnown(h: Hashes, routable: NetAddr -> bool, s: State, addr: Address, source: NetAddr,
                 timePenalty: int, now: int, coin: nat)
    requires Inv(h, s) && routable(addr.service.ip) && addr.service.ip in s.ids
    ensures s.ids[addr.service.ip] in s.infos
    ensures var t, ip := Add(h, routable, s, addr, source, timePenalty, now, coin).0, addr.service.ip;
            var id := s.ids[ip];
            var i, u := s.infos[id], NewSlot(h, s.key, s.infos[id].service, source);
            var penalty := if ip == source then 0 else timePenalty;
            var takes := Eligible(i, addr, penalty, now, coin) && Yielding(s, u, id, now);
            && id in t.infos && ip in t.ids && t.ids[ip] == id
            && t.infos[id] == i.(time := Announced(i, addr, penalty, now),
                                 services := Joined(i.services, addr.services),
                                 refCount := if takes then i.refCount + 1 else i.refCount,
                                 randomPos := t.infos[id].randomPos)
            && (takes ==>
                  && Took(s, t, u, id)
                  && t.ids == if u in s.news && s.news[u] in s.infos then NamesLeft(s, s.news[u]) else s.ids)
            && (!takes ==> NobodyMoved(s, t, id) && t.ids == s.ids)
  {
    hide Amid, Prepare, Place, NewSlot, IsTerrible, Took, NobodyMoved, Eligible, Announced, Refreshed,
         Joined;
    var ip, id := addr.service.ip, s.ids[addr.service.ip];
    NameKnown(h, s, ip);
    KnownEntry(h, s, id);
    KnownIs(s, addr, source, timePenalty, now, coin);
    RefreshedIs(s.infos[id], addr, if ip == source then 0 else timePenalty, now);
    PrepareKeeps(h, s, addr, source, timePenalty, now, coin);
    var p := Prepare(s, addr, source, timePenalty, now, coin);
    var i, u := s.infos[id], NewSlot(h, s.key, s.infos[id].service, source);
    var m := p.state;
    assert SameBut(s, m, id);
    if p.Go? {
      EligibleRoom(i, addr, if ip == source then 0 else timePenalty, now, coin);
      if u in s.news {
        OwnerKnown(h, s, u, 0, {});
        OwnName(h, s, s.news[u]);
      }
      assert Yielding(m, u, id, now) <==> Yielding(s, u, id, now);
      if Yielding(m, u, id, now) {
        PlaceTakes(h, m, id, source, now);
        TookFrom(s, m, Place(h, m, id, source, now), u, id);
      } else {
        PlaceLeaves(h, m, id, source, now);
        NobodyMovedFrom(s, m, Place(h, m, id, source, now), id);
      }
    } else {
      NobodyMovedYet(s, m, id);
    }
  }

  lemma EligibleRoom(i: Info, addr: Address, penalty: int, now: int, coin: nat)
    requires Eligible(i, addr, penalty, now, coin)
    ensures !i.inTried
  {
  }

  lemma NobodyMovedYet(s: State, t: State, id: int)
    requires SameBut(s, t, id)
    ensures NobodyMoved(s, t, id)
  {
  }

  lemma NameKnown(h: Hashes, s: State, ip: NetAddr)
    requires Inv(h, s) && ip in s.ids
    ensures Known(s, ip) && s.infos[s.ids[ip]].service.ip == ip
  {
    assert OwnerOk(s, ip);
  }

  // ------------------------------------------------------------------- Good_

  lemma LeaveNewIs(h: Hashes, s: State, id: int)
    requires Inv(h, s) && id in s.infos
    ensures var m := LeaveNew(s, id);
            && m.infos == s.infos[id := s.infos[id].(refCount := 0)] && m.news == s.news - SlotsOf(s.news, id)
            && m.tried == s.tried && m.key == s.key && m.ids == s.ids && m.lastGood == s.lastGood
  {
    assert RefCountOk(s, id);
  }

  /**
    The occupant of a tried slot has gone back to its new slot, whose occupant has given that up. The
    new slots are those given; the entries in `but` may have changed otherwise.
  */
  ghost predicate WentBack(h: Hashes, s: State, news: map<Slot, int>, t: State, e: int, but: set<int>)
    requires e in s.infos
  {
    var v := NewSlot(h, s.key, s.infos[e].service, s.infos[e].source);
    && e in t.infos
    && t.infos[e] == s.infos[e].(inTried := false, refCount := 1, randomPos := t.infos[e].randomPos)
    && t.news == news[v := e]
    && if v in news && news[v] in s.infos
       then GaveUp(s, t, news[v]) && t.ids == NamesLeft(s, news[v]) && OthersKept(s, t, {e, news[v]} + but)
       else t.ids == s.ids && OthersKept(s, t, {e} + but)
  }

  lemma EvictIs(h: Hashes, s: State, k: Slot, id: int)
    requires Amid(h, s, 1, {id}) && id in s.infos && !s.infos[id].inTried && s.infos[id].refCount == 0 && k in s.tried
    ensures s.tried[k] in s.infos && s.tried[k] != id
    ensures var t := Evict(h, s, k);
            && WentBack(h, s, s.news, t, s.tried[k], {}) && KeptAt(s, t, id) && id in t.infos
            && t.tried == s.tried - {k} && t.key == s.key && t.lastGood == s.lastGood
  {
    hide Amid, ClearNew, NewSlot;
    UntryKeeps(h, s, k, 1, {id});
    var e, m := s.tried[k], Untry(s, k);
    var u := NewSlot(h, m.key, m.infos[e].service, m.infos[e].source);
    assert {id} + {e} == {id, e};
    TriedFree(h, s, k, 1, {id});
    SlotNotAmid(h, m, u, id, 2, {id, e});
    SlotNotAmid(h, m, u, e, 2, {id, e});
    ClearNewKeeps(h, m, u, 2, {id, e});
    ClearNewSpares(h, m, u, e, 2, {id, e});
    ClearNewSpares(h, m, u, id, 2, {id, e});
    assert (m.news - {u})[u := e] == s.news[u := e];
    if u in m.news {
      ClearNewIs(h, m, u, 2, {id, e});
    }
  }

  lemma TriedFree(h: Hashes, s: State, k: Slot, gap: int, except: set<int>)
    requires Amid(h, s, gap, except) && k in s.tried
    ensures s.tried[k] in s.infos && s.infos[s.tried[k]].inTried && s.infos[s.tried[k]].refCount == 0
  {
    assert TriedSlotOk(h, s, k);
    TriedUnreferenced(h, s, s.tried[k]);
  }

  lemma WentBackFrom(h: Hashes, s: State, m: State, t: State, id: int, e: int)
    requires e in s.infos && e in m.infos && e != id && m.key == s.key && m.ids == s.ids
    requires forall x :: x != id ==> (x in m.infos <==> x in s.infos) && (x in s.infos ==> m.infos[x] == s.infos[x])
    requires WentBack(h, m, m.news, t, e, {}) && forall v :: v in m.news ==> m.news[v] != id
    ensures WentBack(h, s, m.news, t, e, {id})
  {
    hide NewSlot;
    var v := NewSlot(h, s.key, s.infos[e].service, s.infos[e].source);
    var but := if v in m.news && m.news[v] in s.infos then {e, m.news[v]} + {id} else {e} + {id};
    forall x | x !in but ensures KeptAt(s, t, x) && (x in t.infos ==> x in s.infos) {
      assert KeptAt(m, t, x);
    }
  }

  /** An entry has moved from its new slots to its tried slot. */
  ghost predicate Promoted(h: Hashes, s: State, t: State, id: int)
    requires id in s.infos
  {
    var k, news := TriedSlot(h, s.key, s.infos[id].service), s.news - SlotsOf(s.news, id);
    && t.tried == s.tried[k := id]
    && if k in s.tried && s.tried[k] in s.infos then WentBack(h, s, news, t, s.tried[k], {id})
       else t.news == news && t.ids == s.ids && OthersKept(s, t, {id})
  }

  lemma MoveInIs(h: Hashes, s: State, m: State, id: int)
    requires Amid(h, m, 1, {id}) && id in s.infos && id in m.infos && !m.infos[id].inTried && m.infos[id].refCount == 0
    requires m.key == s.key && m.ids == s.ids && m.tried == s.tried && m.news == s.news - SlotsOf(s.news, id)
    requires m.infos[id].service == s.infos[id].service
    requires forall x :: x != id ==> (x in m.infos <==> x in s.infos) && (x in s.infos ==> m.infos[x] == s.infos[x])
    ensures var t := MoveIn(h, m, id);
            && Promoted(h, s, t, id) && id in t.infos && t.key == s.key && t.lastGood == m.lastGood
            && t.infos[id] == m.infos[id].(inTried := true, randomPos := t.infos[id].randomPos)
  {
    hide Amid, Evict, NewSlot, TriedSlot;
    var k := TriedSlot(h, m.key, m.infos[id].service);
    if k in m.tried {
      EvictIs(h, m, k, id);
      var e := m.tried[k];
      WentBackFrom(h, s, m, Evict(h, m, k), id, e);
      hide WentBack;
      assert (s.tried - {k})[k := id] == s.tried[k := id];
      WentBackTry(h, s, m.news, Evict(h, m, k), e, k, id);
    }
  }

  /** Entering the tried table does not concern the others. */
  lemma WentBackTry(h: Hashes, s: State, news: map<Slot, int>, t: State, e: int, k: Slot, id: int)
    requires e in s.infos && e != id && id in t.infos && WentBack(h, s, news, t, e, {id})
    requires forall v :: v in news ==> news[v] != id
    ensures WentBack(h, s, news, Try(t, k, id), e, {id})
  {
    hide NewSlot;
    var r, v := Try(t, k, id), NewSlot(h, s.key, s.infos[e].service, s.infos[e].source);
    var but := if v in news && news[v] in s.infos then {e, news[v]} + {id} else {e} + {id};
    forall x | x !in but ensures KeptAt(s, r, x) && (x in r.infos ==> x in s.infos) {
      assert KeptAt(s, t, x);
    }
  }

  /**
    Good_ on a service that is known under its port: the entry is in its tried slot and in no new one,
    its times are the given one and its failures forgotten. An entry that held the tried slot is back in
    the new slot of its source. Nothing else has changed.
  */
  lemma GoodPromotes(h: Hashes, s: State, service: Service, time: int)
    requires Inv(h, s) && time > 0 && service.ip in s.ids
    requires s.ids[service.ip] in s.infos && s.infos[s.ids[service.ip]].service == service
    ensures var t, id := Good(h, s, service, time), s.ids[service.ip];
            && id in t.infos && t.lastGood == time && t.key == s.key
            && t.infos[id] == s.infos[id].(lastSuccess := time, lastTry := time, attempts := 0, refCount := 0,
                                           inTried := true, randomPos := t.infos[id].randomPos)
            && (s.infos[id].inTried ==>
                  t.tried == s.tried && t.news == s.news && t.ids == s.ids && OthersKept(s, t, {id}))
            && (!s.infos[id].inTried ==> Promoted(h, s, t, id))
  {
    hide Amid, LeaveNew, MoveIn, Promoted, InBucket;
    var id, g := s.ids[service.ip], s.(lastGood := time);
    var i := s.infos[id].(lastSuccess := time, lastTry := time, attempts := 0);
    KnownEntry(h, s, id);
    CountersOnly(h, s, g, 0, 0, {});
    TouchKeeps(h, g, id, i, 0, {});
    var m := SetInfo(g, id, i);
    if i.inTried {
      TriedBare(h, s, id);
    } else {
      BucketFound(h, m, id);
      LeaveNewKeeps(h, m, id);
      LeaveNewIs(h, m, id);
      MoveInIs(h, s, LeaveNew(m, id), id);
    }
  }

  lemma TriedBare(h: Hashes, s: State, id: int)
    requires Inv(h, s) && id in s.infos && s.infos[id].inTried
    ensures s.infos[id].refCount == 0
  {
    TriedUnreferenced(h, s, id);
  }

  /** On any other service Good_ only remembers the time. */
  lemma GoodIgnores(h: Hashes, s: State, service: Service, time: int)
    requires !(service.ip in s.ids && s.ids[service.ip] in s.infos && s.infos[s.ids[service.ip]].service == service)
    ensures Good(h, s, service, time) == s.(lastGood := time)
  {
  }

  // -------------------------------------------------------------- statistics

  /** The entry of a service, under its port. */
  predicate KnownAs(s: State, service: Service, id: int) {
    service.ip in s.ids && s.ids[service.ip] == id && id in s.infos && s.infos[id].service == service
  }

  /**
    Attempt_, Connected_ and SetServices_ change one entry: the last attempt, the failures since the
    last success anywhere, the time if it is more than twenty minutes old, the services. Other services
    are ignored.
  */
  lemma StatisticsChange(s: State, service: Service, id: int, countFailure: bool, time: nat, services: bv64)
    requires KnownAs(s, service, id)
    ensures var i, counted := s.infos[id], countFailure && s.infos[id].lastCountAttempt < s.lastGood;
            && Attempt(s, service, countFailure, time) ==
               s.(infos := s.infos[id := i.(lastTry := time,
                                            lastCountAttempt := if counted then time else i.lastCountAttempt,
                                            attempts := if counted then i.attempts + 1 else i.attempts)])
            && Connected(s, service, time) ==
               s.(infos := s.infos[id := i.(time := if time > i.time + 1200 then time else i.time)])
            && SetServices(s, service, services) == s.(infos := s.infos[id := i.(services := services)])
  {
  }

  lemma StatisticsIgnore(s: State, service: Service, countFailure: bool, time: nat, services: bv64)
    requires forall id :: !KnownAs(s, service, id)
    ensures Attempt(s, service, countFailure, time) == Connected(s, service, time) == s
    ensures SetServices(s, service, services) == s
  {
    assert service.ip in s.ids ==> !KnownAs(s, service, s.ids[service.ip]);
  }
}
