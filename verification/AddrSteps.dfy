/**
The internal steps of the address manager (Create, SwapRandom, Delete, ClearNew,
MakeTried) as functions on its state, and what each keeps of the invariant while an
operation is under way.
*/
module AddrSteps {
  import opened AddrSpec

  function SetInfo(s: State, id: int, i: Info): State {
    s.(infos := s.infos[id := i])
  }

  /** Find: the entry for an address, if any. */
  predicate Known(s: State, ip: NetAddr) {
    ip in s.ids && s.ids[ip] in s.infos
  }

  // ------------------------------------------------------------- the steps

  function NewInfo(addr: Address, source: NetAddr): Info {
    Info(addr.service, addr.services, addr.time, source, 0, 0, 0, 0, 0, false, -1)
  }

  function Create(s: State, addr: Address, source: NetAddr): State {
    s.(idCount := s.idCount + 1,
       infos := s.infos[s.idCount := NewInfo(addr, source).(randomPos := |s.random|)],
       ids := s.ids[addr.service.ip := s.idCount],
       random := s.random + [s.idCount])
  }

  /** The positions SwapRandom asserts. */
  predicate Swappable(s: State, p: int, q: int) {
    0 <= p < |s.random| && 0 <= q < |s.random| && s.random[p] in s.infos && s.random[q] in s.infos
  }

  function SwapRandom(s: State, p: int, q: int): State {
    if p == q || !Swappable(s, p, q) then s
    else
      var a, b := s.random[p], s.random[q];
      s.(infos := s.infos[a := s.infos[a].(randomPos := q)][b := s.infos[b].(randomPos := p)],
         random := s.random[p := b][q := a])
  }

  function Delete(s: State, id: int): State {
    if id !in s.infos || s.random == [] then s
    else
      var last := |s.random| - 1;
      var t := SwapRandom(s, s.infos[id].randomPos, last);
      t.(random := t.random[..last], ids := t.ids - {s.infos[id].service.ip}, infos := t.infos - {id},
         nNew := t.nNew - 1)
  }

  /** Takes a new slot away from its entry. */
  function Unref(s: State, u: Slot): State
    requires u in s.news && s.news[u] in s.infos
  {
    var id := s.news[u];
    SetInfo(s, id, s.infos[id].(refCount := s.infos[id].refCount - 1)).(news := s.news - {u})
  }

  /** Gives a free new slot to an entry. */
  function Ref(s: State, u: Slot, id: int): State
    requires id in s.infos
  {
    SetInfo(s, id, s.infos[id].(refCount := s.infos[id].refCount + 1)).(news := s.news[u := id])
  }

  function ClearNew(s: State, u: Slot): State {
    if u !in s.news || s.news[u] !in s.infos then s
    else
      var t := Unref(s, u);
      if t.infos[s.news[u]].refCount == 0 then Delete(t, s.news[u]) else t
  }

  /** MakeTried's first loop: the entry gives up every new slot it holds. */
  ghost function DropRefs(s: State, id: int): State
    requires id in s.infos
  {
    SetInfo(s, id, s.infos[id].(refCount := s.infos[id].refCount - |SlotsOf(s.news, id)|))
    .(news := s.news - SlotsOf(s.news, id))
  }

  /** Takes the occupant of a tried slot out of the tried table. */
  function Untry(s: State, k: Slot): State
    requires k in s.tried && s.tried[k] in s.infos
  {
    var id := s.tried[k];
    SetInfo(s, id, s.infos[id].(inTried := false)).(tried := s.tried - {k}, nTried := s.nTried - 1)
  }

  /** Puts an entry into a free tried slot. */
  function Try(s: State, k: Slot, id: int): State
    requires id in s.infos
  {
    SetInfo(s, id, s.infos[id].(inTried := true)).(tried := s.tried[k := id], nTried := s.nTried + 1)
  }

  // ------------------------------------- parts of the invariant, one by one

  /** Entries agree on everything the tables and counters depend on. */
  predicate Similar(i: Info, j: Info) {
    i.service == j.service && i.refCount == j.refCount && i.inTried == j.inTried
  }

  predicate SameService(s: State, t: State, id: int) {
    (id in t.infos <==> id in s.infos) && (id in s.infos ==> t.infos[id].service == s.infos[id].service)
  }

  lemma NamesKeep(s: State, t: State)
    requires NamesOk(s) && t.ids == s.ids && t.idCount == s.idCount
    requires forall id :: SameService(s, t, id)
    ensures NamesOk(t)
  {
    forall id | id in t.infos ensures NameOk(t, id) {
      assert SameService(s, t, id) && NameOk(s, id);
    }
    forall ip | ip in t.ids ensures OwnerOk(t, ip) {
      assert SameService(s, t, s.ids[ip]) && OwnerOk(s, ip);
    }
  }

  predicate SamePlace(s: State, t: State, id: int) {
    (id in t.infos <==> id in s.infos) && (id in s.infos ==> t.infos[id].randomPos == s.infos[id].randomPos)
  }

  lemma RandomKeep(s: State, t: State)
    requires RandomOk(s) && t.random == s.random
    requires forall id :: SamePlace(s, t, id)
    ensures RandomOk(t)
  {
    forall id | id in t.infos ensures PlaceOk(t, id) {
      assert SamePlace(s, t, id) && PlaceOk(s, id);
    }
    forall i | 0 <= i < |t.random| ensures ListedOk(t, i) {
      assert SamePlace(s, t, s.random[i]) && ListedOk(s, i);
    }
  }

  /** A tried entry of either state is a tried entry of the other, for the same service. */
  predicate SameTried(s: State, t: State, id: int) {
    && (id in s.infos && s.infos[id].inTried ==>
          id in t.infos && t.infos[id].inTried && t.infos[id].service == s.infos[id].service)
    && (id in t.infos && t.infos[id].inTried ==> id in s.infos && s.infos[id].inTried)
  }

  lemma TriedKeep(h: Hashes, s: State, t: State)
    requires TriedOk(h, s) && t.tried == s.tried && t.key == s.key
    requires forall id :: SameTried(s, t, id)
    ensures TriedOk(h, t)
  {
    forall u | u in t.tried ensures TriedSlotOk(h, t, u) {
      assert SameTried(s, t, s.tried[u]) && TriedSlotOk(h, s, u);
    }
    forall id | id in t.infos ensures TriedEntryOk(h, t, id) {
      assert SameTried(s, t, id);
      assert id in s.infos ==> TriedEntryOk(h, s, id);
    }
  }

  lemma SlotsMeanRefs(h: Hashes, s: State, u: Slot)
    requires NewsOk(h, s) && u in s.news
    ensures s.news[u] in s.infos && s.infos[s.news[u]].refCount >= 1
  {
    assert NewSlotOk(h, s, u) && RefCountOk(s, s.news[u]);
    assert u in SlotsOf(s.news, s.news[u]);
  }

  lemma RefsNatural(h: Hashes, s: State, id: int)
    requires NewsOk(h, s) && id in s.infos
    ensures s.infos[id].refCount >= 0
  {
    assert RefCountOk(s, id);
  }

  /** Only unreferenced entries come or go. */
  predicate SameRefs(s: State, t: State, id: int) {
    && (id in s.infos && id in t.infos ==> Similar(s.infos[id], t.infos[id]))
    && (id in s.infos && id !in t.infos ==> s.infos[id].refCount == 0)
    && (id in t.infos && id !in s.infos ==> t.infos[id].refCount == 0)
  }

  lemma NewsKeep(h: Hashes, s: State, t: State)
    requires NewsOk(h, s) && t.news == s.news && t.key == s.key
    requires forall id :: SameRefs(s, t, id)
    ensures NewsOk(h, t)
  {
    forall u | u in t.news ensures NewSlotOk(h, t, u) {
      assert SameRefs(s, t, s.news[u]) && NewSlotOk(h, s, u);
      SlotsMeanRefs(h, s, u);
    }
    forall id | id in t.infos ensures RefCountOk(t, id) {
      assert SameRefs(s, t, id);
      if id in s.infos {
        assert RefCountOk(s, id);
      } else {
        forall u | u in s.news ensures s.news[u] != id {
          assert NewSlotOk(h, s, u);
        }
        assert SlotsOf(t.news, id) == {};
      }
    }
  }

  predicate SameSide(s: State, t: State, id: int) {
    (id in t.infos <==> id in s.infos) && (id in s.infos ==> t.infos[id].inTried == s.infos[id].inTried)
  }

  lemma CountedKeep(s: State, t: State, gap: int)
    requires Counted(s, gap) && t.nTried == s.nTried && t.nNew == s.nNew
    requires forall id :: SameSide(s, t, id)
    ensures Counted(t, gap)
  {
    forall id ensures id in FreshIds(t.infos) <==> id in FreshIds(s.infos) {
      assert SameSide(s, t, id);
    }
    forall id ensures id in TriedIds(t.infos) <==> id in TriedIds(s.infos) {
      assert SameSide(s, t, id);
    }
    assert FreshIds(t.infos) == FreshIds(s.infos);
    assert TriedIds(t.infos) == TriedIds(s.infos);
  }

  /** An entry is still there, up to its place in the random order. */
  predicate KeptAt(s: State, t: State, x: int) {
    x in s.infos ==> x in t.infos && t.infos[x] == s.infos[x].(randomPos := t.infos[x].randomPos)
  }

  /** Every entry but the given one is still there. */
  ghost predicate Others(s: State, t: State, id: int) {
    forall x :: x != id ==> KeptAt(s, t, x)
  }

  predicate SimilarAt(s: State, t: State, id: int) {
    (id in t.infos <==> id in s.infos) && (id in s.infos ==> Similar(s.infos[id], t.infos[id]))
  }

  /** Entries, tables and counters are as before, up to statistics and random order. */
  ghost predicate SameEntries(s: State, t: State) {
    && (forall id :: SimilarAt(s, t, id))
    && t.key == s.key && t.tried == s.tried && t.news == s.news && t.nTried == s.nTried && t.nNew == s.nNew
    && t.ids == s.ids && t.idCount == s.idCount
  }

  lemma SameEntriesKeep(h: Hashes, s: State, t: State, gap: int, except: set<int>)
    requires Amid(h, s, gap, except) && SameEntries(s, t) && RandomOk(t) && TimesOk(t)
    ensures Amid(h, t, gap, except)
  {
    hide NamesOk, RandomOk, TriedOk, NewsOk;
    forall id
      ensures SameService(s, t, id) && SameTried(s, t, id) && SameRefs(s, t, id) && SameSide(s, t, id)
    {
      assert SimilarAt(s, t, id);
    }
    NamesKeep(s, t);
    TriedKeep(h, s, t);
    NewsKeep(h, s, t);
    CountedKeep(s, t, gap);
    forall id | id in t.infos && !t.infos[id].inTried && id !in except
      ensures 1 <= t.infos[id].refCount <= NEW_BUCKETS_PER_ADDRESS
    {
      assert SimilarAt(s, t, id);
    }
  }

  /** Statistics of an entry may change as long as they stay sensible. */
  lemma TouchKeeps(h: Hashes, s: State, id: int, i: Info, gap: int, except: set<int>)
    requires Amid(h, s, gap, except) && id in s.infos
    requires Similar(s.infos[id], i) && i.randomPos == s.infos[id].randomPos
    requires TimeOk(i)
    ensures Amid(h, SetInfo(s, id, i), gap, except)
  {
    hide NamesOk, RandomOk, TriedOk, NewsOk, Counted, Referenced;
    RandomKeep(s, SetInfo(s, id, i));
    SameEntriesKeep(h, s, SetInfo(s, id, i), gap, except);
  }

  lemma SwapKeepsRandom(s: State, p: int, q: int)
    requires RandomOk(s) && 0 <= p < |s.random| && 0 <= q < |s.random|
    ensures RandomOk(SwapRandom(s, p, q)) && |SwapRandom(s, p, q).random| == |s.random|
    ensures SameEntries(s, SwapRandom(s, p, q)) && forall x :: KeptAt(s, SwapRandom(s, p, q), x)
    ensures p != q ==> SwapRandom(s, p, q).random[q] == s.random[p]
  {
    assert ListedOk(s, p) && ListedOk(s, q);
    var t := SwapRandom(s, p, q);
    SwapEntries(s, p, q);
    hide SwapRandom;
    forall id | id in t.infos ensures PlaceOk(t, id) {
      assert SimilarAt(s, t, id);
      assert PlaceOk(s, id);
      SwapPlace(s, p, q, id);
    }
    forall i | 0 <= i < |t.random| ensures ListedOk(t, i) {
      assert ListedOk(s, i);
      SwapListed(s, p, q, i);
    }
  }

  lemma SwapEntries(s: State, p: int, q: int)
    requires 0 <= p < |s.random| && 0 <= q < |s.random| && ListedOk(s, p) && ListedOk(s, q)
    ensures var t := SwapRandom(s, p, q);
            && |t.random| == |s.random| && SameEntries(s, t) && (forall x :: KeptAt(s, t, x))
            && (p != q ==> t.random[q] == s.random[p])
  {
    hide KeptAt, SimilarAt;
    forall x ensures SimilarAt(s, SwapRandom(s, p, q), x) && KeptAt(s, SwapRandom(s, p, q), x) {
      SwapAt(s, p, q, x);
    }
  }

  lemma SwapAt(s: State, p: int, q: int, x: int)
    requires 0 <= p < |s.random| && 0 <= q < |s.random| && ListedOk(s, p) && ListedOk(s, q)
    ensures SimilarAt(s, SwapRandom(s, p, q), x) && KeptAt(s, SwapRandom(s, p, q), x)
  {
  }

  lemma SwapPlace(s: State, p: int, q: int, id: int)
    requires 0 <= p < |s.random| && 0 <= q < |s.random| && ListedOk(s, p) && ListedOk(s, q) && id in s.infos
             && PlaceOk(s, id)
    ensures id in SwapRandom(s, p, q).infos && PlaceOk(SwapRandom(s, p, q), id)
  {
  }

  lemma SwapListed(s: State, p: int, q: int, i: int)
    requires 0 <= p < |s.random| && 0 <= q < |s.random| && ListedOk(s, p) && ListedOk(s, q)
    requires 0 <= i < |s.random| && ListedOk(s, i)
    ensures i < |SwapRandom(s, p, q).random| && ListedOk(SwapRandom(s, p, q), i)
  {
  }

  lemma SwapKeeps(h: Hashes, s: State, p: int, q: int, gap: int, except: set<int>)
    requires Amid(h, s, gap, except) && 0 <= p < |s.random| && 0 <= q < |s.random|
    ensures Amid(h, SwapRandom(s, p, q), gap, except)
  {
    hide NamesOk, RandomOk, TriedOk, NewsOk, Counted, Referenced;
    SwapKeepsRandom(s, p, q);
    forall id | id in SwapRandom(s, p, q).infos ensures TimeOk(SwapRandom(s, p, q).infos[id]) {
      assert SimilarAt(s, SwapRandom(s, p, q), id) && KeptAt(s, SwapRandom(s, p, q), id) && TimeOk(s.infos[id]);
    }
    SameEntriesKeep(h, s, SwapRandom(s, p, q), gap, except);
  }

  // ------------------------------------------------------ entries come, go

  lemma CreateKeepsIndex(s: State, addr: Address, source: NetAddr)
    requires NamesOk(s) && RandomOk(s) && !Known(s, addr.service.ip)
    ensures s.idCount !in s.infos
    ensures NamesOk(Create(s, addr, source)) && RandomOk(Create(s, addr, source))
  {
    var t, id := Create(s, addr, source), s.idCount;
    assert id in s.infos ==> NameOk(s, id);
    forall x | x in t.infos ensures NameOk(t, x) && PlaceOk(t, x) {
      if x != id {
        assert NameOk(s, x) && PlaceOk(s, x);
      }
    }
    forall ip | ip in t.ids ensures OwnerOk(t, ip) {
      assert ip in s.ids ==> OwnerOk(s, ip);
    }
    forall i | 0 <= i < |t.random| ensures ListedOk(t, i) {
      assert i < |s.random| ==> ListedOk(s, i);
    }
  }

  lemma CreateKeeps(h: Hashes, s: State, addr: Address, source: NetAddr)
    requires Inv(h, s) && !Known(s, addr.service.ip)
    ensures s.idCount !in s.infos
    ensures Amid(h, Create(s, addr, source), 1, {s.idCount})
    ensures Create(s, addr, source).infos[s.idCount].refCount == 0
  {
    hide NamesOk, RandomOk, TriedOk, NewsOk;
    var t, id := Create(s, addr, source), s.idCount;
    CreateKeepsIndex(s, addr, source);
    TriedKeep(h, s, t);
    NewsKeep(h, s, t);
    OneMoreFresh(s.infos, t.infos, id);
  }

  lemma OneMoreFresh(infos: map<int, Info>, infos': map<int, Info>, id: int)
    requires id !in infos && id in infos' && !infos'[id].inTried && infos' == infos[id := infos'[id]]
    ensures |FreshIds(infos')| == |FreshIds(infos)| + 1 && TriedIds(infos') == TriedIds(infos)
  {
    assert FreshIds(infos') == FreshIds(infos) + {id};
  }

  lemma OneFreshLess(s: State, t: State, id: int)
    requires id in s.infos && !s.infos[id].inTried && forall x :: LeftBy(s, t, id, x)
    ensures |FreshIds(t.infos)| == |FreshIds(s.infos)| - 1 && TriedIds(t.infos) == TriedIds(s.infos)
  {
    forall x
      ensures x in FreshIds(t.infos) <==> x in FreshIds(s.infos) && x != id
      ensures x in TriedIds(t.infos) <==> x in TriedIds(s.infos)
    {
      assert LeftBy(s, t, id, x);
    }
    assert FreshIds(t.infos) == FreshIds(s.infos) - {id};
  }

  lemma PlacedInRandom(s: State, id: int)
    requires RandomOk(s) && id in s.infos
    ensures PlaceOk(s, id)
  {
  }

  lemma DeleteKeepsNames(s: State, id: int)
    requires NamesOk(s) && RandomOk(s) && id in s.infos
    ensures NamesOk(Delete(s, id))
  {
    hide RandomOk;
    DeleteLeaves(s, id);
    var t := Delete(s, id);
    forall x | x in t.infos ensures NameOk(t, x) {
      assert LeftBy(s, t, id, x) && NameOk(s, x) && NameOk(s, id);
    }
    forall ip | ip in t.ids ensures OwnerOk(t, ip) {
      assert OwnerOk(s, ip) && NameOk(s, id) && LeftBy(s, t, id, s.ids[ip]);
    }
  }

  lemma DeleteLeaves(s: State, id: int)
    requires RandomOk(s) && id in s.infos
    ensures s.random != [] && Delete(s, id).ids == s.ids - {s.infos[id].service.ip}
            && Delete(s, id).idCount == s.idCount
    ensures Others(s, Delete(s, id), id) && id !in Delete(s, id).infos
    ensures forall x :: LeftBy(s, Delete(s, id), id, x)
  {
    PlacedInRandom(s, id);
    hide RandomOk;
    var p, last := s.infos[id].randomPos, |s.random| - 1;
    var m, t := SwapRandom(s, p, last), Delete(s, id);
    SwapKeepsRandom(s, p, last);
    assert t.infos == m.infos - {id};
    hide SwapRandom, Delete;
    forall x ensures LeftBy(s, t, id, x) && (x != id ==> KeptAt(s, t, x)) {
      assert SimilarAt(s, m, x) && KeptAt(s, m, x);
      DeletedAt(s, m, t, id, x);
    }
  }

  lemma DeletedAt(s: State, m: State, t: State, id: int, x: int)
    requires SimilarAt(s, m, x) && KeptAt(s, m, x) && t.infos == m.infos - {id}
    ensures LeftBy(s, t, id, x) && (x != id ==> KeptAt(s, t, x))
  {
  }

  lemma DeleteKeepsRandom(s: State, id: int)
    requires RandomOk(s) && id in s.infos
    ensures RandomOk(Delete(s, id))
  {
    assert PlaceOk(s, id);
    var p, last := s.infos[id].randomPos, |s.random| - 1;
    var m, t := SwapRandom(s, p, last), Delete(s, id);
    SwapKeepsRandom(s, p, last);
    forall x | x in t.infos ensures PlaceOk(t, x) {
      assert PlaceOk(m, x) && ListedOk(m, last);
    }
    forall i | 0 <= i < |t.random| ensures ListedOk(t, i) {
      assert ListedOk(m, i) && ListedOk(m, last);
    }
  }

  /** What is left after an entry has gone. */
  predicate LeftBy(s: State, t: State, id: int, x: int) {
    && (x in t.infos <==> x in s.infos && x != id)
    && (x in t.infos ==> Similar(s.infos[x], t.infos[x]) && t.infos[x].lastTry == s.infos[x].lastTry
                         && t.infos[x].lastSuccess == s.infos[x].lastSuccess)
  }

  lemma LeavingKeeps(h: Hashes, s: State, t: State, id: int, gap: int, except: set<int>)
    requires Amid(h, s, gap, except) && id in s.infos && !s.infos[id].inTried && s.infos[id].refCount == 0
    requires NamesOk(t) && RandomOk(t) && forall x :: LeftBy(s, t, id, x)
    requires t.tried == s.tried && t.news == s.news && t.key == s.key && t.nTried == s.nTried && t.nNew == s.nNew - 1
    ensures Amid(h, t, gap, except - {id})
  {
    hide NamesOk, RandomOk, TriedOk, NewsOk;
    forall x ensures SameTried(s, t, x) && SameRefs(s, t, x) {
      assert LeftBy(s, t, id, x);
    }
    TriedKeep(h, s, t);
    NewsKeep(h, s, t);
    OneFreshLess(s, t, id);
    forall x | x in t.infos ensures TimeOk(t.infos[x]) {
      assert LeftBy(s, t, id, x) && TimeOk(s.infos[x]);
    }
    forall x | x in t.infos && !t.infos[x].inTried && x !in except - {id}
      ensures 1 <= t.infos[x].refCount <= NEW_BUCKETS_PER_ADDRESS
    {
      assert LeftBy(s, t, id, x);
    }
  }

  /** Deleting an unreferenced entry outside the tried table. */
  lemma DeleteKeeps(h: Hashes, s: State, id: int, gap: int, except: set<int>)
    requires Amid(h, s, gap, except) && id in s.infos
    requires !s.infos[id].inTried && s.infos[id].refCount == 0
    ensures Amid(h, Delete(s, id), gap, except - {id}) && Deleted(s, Delete(s, id), id)
  {
    hide NamesOk, TriedOk, NewsOk, TimesOk, Counted, Referenced;
    assert PlaceOk(s, id);
    DeleteLeaves(s, id);
    DeleteKeepsNames(s, id);
    DeleteKeepsRandom(s, id);
    LeavingKeeps(h, s, Delete(s, id), id, gap, except);
  }

  /** The entry is gone, and nothing else but the random order has changed. */
  ghost predicate Deleted(s: State, t: State, id: int)
    requires id in s.infos
  {
    && Others(s, t, id) && id !in t.infos
    && t.news == s.news && t.tried == s.tried && t.key == s.key
    && t.ids == s.ids - {s.infos[id].service.ip}
  }

  lemma UnrefKeepsNews(h: Hashes, s: State, u: Slot)
    requires NewsOk(h, s) && u in s.news
    ensures s.news[u] in s.infos && s.infos[s.news[u]].refCount >= 1 && !s.infos[s.news[u]].inTried
    ensures NewsOk(h, Unref(s, u))
  {
    SlotsMeanRefs(h, s, u);
    var id, t := s.news[u], Unref(s, u);
    assert NewSlotOk(h, s, u);
    forall v | v in t.news ensures NewSlotOk(h, t, v) {
      assert NewSlotOk(h, s, v);
    }
    forall x | x in t.infos ensures RefCountOk(t, x) {
      assert RefCountOk(s, x);
      assert u in SlotsOf(s.news, id);
      assert SlotsOf(t.news, x) == if x == id then SlotsOf(s.news, x) - {u} else SlotsOf(s.news, x);
    }
  }

  lemma UnrefKeeps(h: Hashes, s: State, u: Slot, gap: int, except: set<int>)
    requires Amid(h, s, gap, except) && u in s.news
    ensures s.news[u] in s.infos && s.infos[s.news[u]].refCount >= 1 && !s.infos[s.news[u]].inTried
    ensures Core(h, Unref(s, u)) && Counted(Unref(s, u), gap) && Referenced(Unref(s, u), except + {s.news[u]})
  {
    hide NamesOk, RandomOk, TriedOk, NewsOk;
    UnrefKeepsNews(h, s, u);
    var t := Unref(s, u);
    NamesKeep(s, t);
    RandomKeep(s, t);
    TriedKeep(h, s, t);
    CountedKeep(s, t, gap);
  }

  /** ClearNew frees the slot, deletes at most its occupant, and touches no other entry. */
  lemma ClearNewKeeps(h: Hashes, s: State, u: Slot, gap: int, except: set<int>)
    requires Amid(h, s, gap, except)
    requires u in s.news ==> s.news[u] !in except
    ensures u in s.news ==> s.news[u] in s.infos
    ensures Amid(h, ClearNew(s, u), gap, except)
    ensures ClearNew(s, u).news == s.news - {u} && ClearNew(s, u).tried == s.tried && ClearNew(s, u).key == s.key
    ensures u !in s.news ==> ClearNew(s, u) == s
    ensures u in s.news ==> ClearedOnly(s, ClearNew(s, u), s.news[u])
  {
    hide Core, Counted;
    if u in s.news {
      UnrefKeeps(h, s, u, gap, except);
      var id, m := s.news[u], Unref(s, u);
      if m.infos[id].refCount == 0 {
        DeleteKeeps(h, m, id, gap, except + {id});
        assert except + {id} - {id} == except;
        forall x | x != id ensures KeptAt(s, Delete(m, id), x) {
          assert KeptAt(m, Delete(m, id), x);
        }
      } else {
        assert Referenced(m, except) by {
          assert m.infos[id].refCount < s.infos[id].refCount;
        }
      }
    } else {
      assert s.news - {u} == s.news;
    }
  }

  /** Nothing but the given entry has changed or gone, and no other address has been forgotten. */
  ghost predicate ClearedOnly(s: State, t: State, id: int)
    requires id in s.infos
  {
    Others(s, t, id) && s.ids.Keys - {s.infos[id].service.ip} <= t.ids.Keys <= s.ids.Keys
  }

  /** An entry that does not hold the slot survives its clearing. */
  lemma ClearNewSpares(h: Hashes, s: State, u: Slot, id: int, gap: int, except: set<int>)
    requires Amid(h, s, gap, except) && id in s.infos
    requires u in s.news ==> s.news[u] !in except && s.news[u] != id
    ensures KeptAt(s, ClearNew(s, u), id) && u !in ClearNew(s, u).news
  {
    ClearNewKeeps(h, s, u, gap, except);
    assert KeptAt(s, s, id);
  }

  lemma RefKeepsNews(h: Hashes, s: State, u: Slot, id: int)
    requires NewsOk(h, s) && id in s.infos && !s.infos[id].inTried
    requires u !in s.news && u.bucket < NEW_BUCKET_COUNT && u == SlotIn(h, s.key, u.bucket, s.infos[id].service)
    ensures NewsOk(h, Ref(s, u, id))
  {
    var t := Ref(s, u, id);
    forall v | v in t.news ensures NewSlotOk(h, t, v) {
      assert v in s.news ==> NewSlotOk(h, s, v);
    }
    forall x | x in t.infos ensures RefCountOk(t, x) {
      assert RefCountOk(s, x);
      SlotsAfterRef(s.news, u, id, x);
    }
  }

  lemma SlotsAfterRef(news: map<Slot, int>, u: Slot, id: int, x: int)
    requires u !in news
    ensures |SlotsOf(news[u := id], x)| == |SlotsOf(news, x)| + if x == id then 1 else 0
  {
    assert SlotsOf(news[u := id], x) == if x == id then SlotsOf(news, x) + {u} else SlotsOf(news, x);
  }

  lemma RefKeeps(h: Hashes, s: State, u: Slot, id: int, gap: int, except: set<int>)
    requires Amid(h, s, gap, except) && id in s.infos && !s.infos[id].inTried
    requires u !in s.news && u.bucket < NEW_BUCKET_COUNT && u == SlotIn(h, s.key, u.bucket, s.infos[id].service)
    requires s.infos[id].refCount < NEW_BUCKETS_PER_ADDRESS
    ensures Amid(h, Ref(s, u, id), gap, except - {id})
  {
    hide NamesOk, RandomOk, TriedOk, NewsOk;
    var t := Ref(s, u, id);
    RefsNatural(h, s, id);
    RefKeepsNews(h, s, u, id);
    NamesKeep(s, t);
    RandomKeep(s, t);
    TriedKeep(h, s, t);
    CountedKeep(s, t, gap);
  }

  // ------------------------------------------------- between new and tried

  lemma DropRefsKeepsNews(h: Hashes, s: State, id: int)
    requires NewsOk(h, s) && id in s.infos
    ensures NewsOk(h, DropRefs(s, id)) && DropRefs(s, id).infos[id].refCount == 0
  {
    var t := DropRefs(s, id);
    assert RefCountOk(s, id);
    forall u | u in t.news ensures NewSlotOk(h, t, u) {
      assert NewSlotOk(h, s, u);
    }
    forall x | x in t.infos ensures RefCountOk(t, x) {
      assert RefCountOk(s, x);
      assert SlotsOf(t.news, x) == if x == id then {} else SlotsOf(s.news, x);
    }
  }

  lemma DropRefsKeeps(h: Hashes, s: State, id: int)
    requires Inv(h, s) && id in s.infos
    ensures Amid(h, DropRefs(s, id), 0, {id}) && DropRefs(s, id).infos[id].refCount == 0
  {
    hide NamesOk, RandomOk, TriedOk, NewsOk;
    var t := DropRefs(s, id);
    DropRefsKeepsNews(h, s, id);
    NamesKeep(s, t);
    RandomKeep(s, t);
    TriedKeep(h, s, t);
    CountedKeep(s, t, 0);
  }

  /** Tried entries hold no new slots. */
  lemma TriedUnreferenced(h: Hashes, s: State, id: int)
    requires NewsOk(h, s) && id in s.infos && s.infos[id].inTried
    ensures s.infos[id].refCount == 0 && SlotsOf(s.news, id) == {}
  {
    forall u | u in s.news ensures s.news[u] != id {
      assert NewSlotOk(h, s, u);
    }
    assert SlotsOf(s.news, id) == {};
    assert RefCountOk(s, id);
  }

  lemma UntryKeepsTables(h: Hashes, s: State, k: Slot)
    requires TriedOk(h, s) && NewsOk(h, s) && k in s.tried
    ensures s.tried[k] in s.infos && s.infos[s.tried[k]].inTried
    ensures TriedOk(h, Untry(s, k)) && NewsOk(h, Untry(s, k))
  {
    assert TriedSlotOk(h, s, k);
    var id, t := s.tried[k], Untry(s, k);
    TriedUnreferenced(h, s, id);
    forall u | u in t.tried ensures TriedSlotOk(h, t, u) {
      assert TriedSlotOk(h, s, u);
    }
    forall x | x in t.infos ensures TriedEntryOk(h, t, x) {
      assert TriedEntryOk(h, s, x);
    }
    forall u | u in t.news ensures NewSlotOk(h, t, u) {
      assert NewSlotOk(h, s, u);
    }
    forall x | x in t.infos ensures RefCountOk(t, x) {
      assert RefCountOk(s, x);
    }
  }

  lemma UntryKeeps(h: Hashes, s: State, k: Slot, gap: int, except: set<int>)
    requires Amid(h, s, gap, except) && k in s.tried
    ensures s.tried[k] in s.infos && s.infos[s.tried[k]].inTried
    ensures Amid(h, Untry(s, k), gap + 1, except + {s.tried[k]})
    ensures Untry(s, k).infos[s.tried[k]].refCount == 0
  {
    hide NamesOk, RandomOk, TriedOk, NewsOk;
    UntryKeepsTables(h, s, k);
    var id, t := s.tried[k], Untry(s, k);
    TriedUnreferenced(h, s, id);
    NamesKeep(s, t);
    RandomKeep(s, t);
    ChangeSides(s.infos, t.infos, id);
    assert TimeOk(s.infos[id]);
  }

  /** An entry crosses from one side to the other. */
  lemma ChangeSides(infos: map<int, Info>, infos': map<int, Info>, id: int)
    requires id in infos && infos' == infos[id := infos[id].(inTried := !infos[id].inTried)]
    ensures infos[id].inTried ==>
              |FreshIds(infos')| == |FreshIds(infos)| + 1 && |TriedIds(infos')| == |TriedIds(infos)| - 1
    ensures !infos[id].inTried ==>
              |FreshIds(infos')| == |FreshIds(infos)| - 1 && |TriedIds(infos')| == |TriedIds(infos)| + 1
  {
    if infos[id].inTried {
      assert FreshIds(infos') == FreshIds(infos) + {id} && TriedIds(infos') == TriedIds(infos) - {id};
    } else {
      assert FreshIds(infos') == FreshIds(infos) - {id} && TriedIds(infos') == TriedIds(infos) + {id};
    }
  }

  lemma TryKeepsTables(h: Hashes, s: State, k: Slot, id: int)
    requires TriedOk(h, s) && NewsOk(h, s) && id in s.infos && !s.infos[id].inTried && s.infos[id].refCount == 0
    requires k == TriedSlot(h, s.key, s.infos[id].service) && k !in s.tried
    ensures TriedOk(h, Try(s, k, id)) && NewsOk(h, Try(s, k, id))
  {
    var t := Try(s, k, id);
    forall u | u in t.tried ensures TriedSlotOk(h, t, u) {
      assert u in s.tried ==> TriedSlotOk(h, s, u);
    }
    forall x | x in t.infos ensures TriedEntryOk(h, t, x) {
      assert TriedEntryOk(h, s, x);
    }
    forall u | u in t.news ensures NewSlotOk(h, t, u) {
      assert NewSlotOk(h, s, u);
      SlotsMeanRefs(h, s, u);
    }
    forall x | x in t.infos ensures RefCountOk(t, x) {
      assert RefCountOk(s, x);
    }
  }

  lemma TryKeeps(h: Hashes, s: State, k: Slot, id: int, gap: int, except: set<int>)
    requires Amid(h, s, gap, except) && id in s.infos && !s.infos[id].inTried && s.infos[id].refCount == 0
    requires k == TriedSlot(h, s.key, s.infos[id].service) && k !in s.tried && s.infos[id].lastSuccess > 0
    ensures Amid(h, Try(s, k, id), gap - 1, except - {id})
  {
    hide NamesOk, RandomOk, TriedOk, NewsOk;
    var t := Try(s, k, id);
    TryKeepsTables(h, s, k, id);
    NamesKeep(s, t);
    RandomKeep(s, t);
    ChangeSides(s.infos, t.infos, id);
    assert TimeOk(s.infos[id]);
  }
}
