/**
The cuckoo cache: a table of slots with two flags each. A collected slot may be
overwritten; the epoch flag tells entries of the current epoch from older ones.
Elements are found at one of eight hashed slots, and an insertion moves elements
along a chain of bounded length.
*/
module CuckooCache {
  import opened Common
  import opened Powers

  datatype Tagged<E> = Tagged(element: E, recent: bool)

  /** The live elements of the first n slots, each with its epoch flag. */
  ghost function Live<E>(table: seq<E>, collected: seq<bool>, epoch: seq<bool>, n: nat): multiset<Tagged<E>>
    requires n <= |table| == |collected| == |epoch|
  {
    if n == 0 then multiset{}
    else Live(table, collected, epoch, n - 1) + LiveSlot(table[n - 1], collected[n - 1], epoch[n - 1])
  }

  ghost function LiveSlot<E>(e: E, dead: bool, recent: bool): multiset<Tagged<E>> {
    if dead then multiset{} else multiset{Tagged(e, recent)}
  }

  /** How many live slots among the first n carry the given epoch flag. */
  ghost function Count(collected: seq<bool>, epoch: seq<bool>, n: nat, recent: bool): nat
    requires n <= |collected| == |epoch|
  {
    if n == 0 then 0
    else Count(collected, epoch, n - 1, recent) + CountSlot(collected[n - 1], epoch[n - 1], recent)
  }

  function CountSlot(dead: bool, flag: bool, recent: bool): nat {
    if !dead && flag == recent then 1 else 0
  }

  lemma {:induction false} LiveSame<E>(
      t: seq<E>, c: seq<bool>, ep: seq<bool>, t': seq<E>, c': seq<bool>, ep': seq<bool>, n: nat)
    requires n <= |t| == |c| == |ep| == |t'| == |c'| == |ep'|
    requires forall j :: 0 <= j < n ==> t'[j] == t[j] && c'[j] == c[j] && ep'[j] == ep[j]
    ensures Live(t', c', ep', n) == Live(t, c, ep, n)
  {
    if n > 0 {
      LiveSame(t, c, ep, t', c', ep', n - 1);
    }
  }

  lemma {:induction false} LiveUpdate<E>(
      t: seq<E>, c: seq<bool>, ep: seq<bool>, t': seq<E>, c': seq<bool>, ep': seq<bool>, n: nat, i: nat)
    requires i < n <= |t| == |c| == |ep| == |t'| == |c'| == |ep'|
    requires forall j :: 0 <= j < n && j != i ==> t'[j] == t[j] && c'[j] == c[j] && ep'[j] == ep[j]
    ensures Live(t', c', ep', n) + LiveSlot(t[i], c[i], ep[i]) == Live(t, c, ep, n) + LiveSlot(t'[i], c'[i], ep'[i])
  {
    var a, a' := Live(t, c, ep, n - 1), Live(t', c', ep', n - 1);
    var x, x' := LiveSlot(t[i], c[i], ep[i]), LiveSlot(t'[i], c'[i], ep'[i]);
    if i == n - 1 {
      LiveSame(t, c, ep, t', c', ep', n - 1);
      Commute(a, x, x');
    } else {
      LiveUpdate(t, c, ep, t', c', ep', n - 1, i);
      Exchange(a', a, x, x', LiveSlot(t[n - 1], c[n - 1], ep[n - 1]));
    }
  }

  lemma Commute<T>(a: multiset<T>, x: multiset<T>, y: multiset<T>)
    ensures (a + y) + x == (a + x) + y
  {
  }

  lemma Exchange<T>(a: multiset<T>, b: multiset<T>, x: multiset<T>, y: multiset<T>, z: multiset<T>)
    requires a + x == b + y
    ensures (a + z) + x == (b + z) + y
  {
    assert (a + z) + x == (a + x) + z;
    assert (b + z) + y == (b + y) + z;
  }

  lemma {:induction false} CountUpdate(
      collected: seq<bool>, epoch: seq<bool>, n: nat, i: nat, dead: bool, flag: bool, recent: bool)
    requires n <= |collected| == |epoch| && i < |collected|
    ensures var c, c' := Count(collected, epoch, n, recent), Count(collected[i := dead], epoch[i := flag], n, recent);
            if i < n
            then c' + CountSlot(collected[i], epoch[i], recent) == c + CountSlot(dead, flag, recent)
            else c' == c
  {
    if n > 0 {
      CountUpdate(collected, epoch, n - 1, i, dead, flag, recent);
    }
  }

  /** After ageing, the current epoch is empty and the old one holds what was current. */
  lemma {:induction false} AgedCounts(collected: seq<bool>, epoch: seq<bool>, n: nat)
    requires n <= |collected| == |epoch|
    ensures Count(Aged(collected, epoch), seq(|epoch|, _ => false), n, true) == 0
    ensures Count(Aged(collected, epoch), seq(|epoch|, _ => false), n, false) == Count(collected, epoch, n, true)
  {
    if n > 0 {
      AgedCounts(collected, epoch, n - 1);
    }
  }

  /** Collection flags after ageing: everything outside the current epoch becomes collectable. */
  function Aged(collected: seq<bool>, epoch: seq<bool>): seq<bool>
    requires |collected| == |epoch|
  {
    seq(|collected|, i requires 0 <= i < |collected| => collected[i] || !epoch[i])
  }

  lemma {:induction false} CountZero(collected: seq<bool>, epoch: seq<bool>, n: nat, recent: bool)
    requires n <= |collected| == |epoch|
    requires forall i :: 0 <= i < n ==> collected[i]
    ensures Count(collected, epoch, n, recent) == 0
  {
    if n > 0 {
      CountZero(collected, epoch, n - 1, recent);
    }
  }

  lemma MultisetUpdate<E>(s: seq<E>, i: nat, e: E)
    requires i < |s|
    ensures multiset(s[i := e]) + multiset{s[i]} == multiset(s) + multiset{e}
  {
    assert s == s[..i] + [s[i]] + s[i + 1..];
    assert s[i := e] == s[..i] + [e] + s[i + 1..];
  }

  /** The largest number of current-epoch entries, plus inserts until the next scan. */
  function EpochBound(epochSize: nat): nat {
    epochSize + Max(1, epochSize / 16)
  }

  /** 45 * size is computed in 32 bits. */
  function EpochSize(size: nat): nat {
    Max(1, 45 * size % 0x1_0000_0000 / 100)
  }

  /**
    The documented "45% of size" is met exactly by tables of at most 2^26 slots;
    from 2^27 slots on the product wraps.
  */
  lemma EpochIsFortyFivePercent(depth: nat)
    requires 1 <= depth <= 31
    ensures EpochSize(Shl(1, depth)) == Max(1, 45 * Shl(1, depth) / 100) <==> depth <= 26
  {
    LargeSizes();
    if depth <= 26 {
      ShiftBounds(depth, 26);
      NoWrap(Shl(1, depth));
    } else {
      assert depth == 27 || depth == 28 || depth == 29 || depth == 30 || depth == 31;
    }
  }

  lemma NoWrap(size: nat)
    requires size <= 67108864
    ensures 45 * size % 0x1_0000_0000 == 45 * size
  {
  }

  lemma LargeSizes()
    ensures Shl(1, 26) == 67108864 && Shl(1, 27) == 134217728 && Shl(1, 28) == 268435456
    ensures Shl(1, 29) == 536870912 && Shl(1, 30) == 1073741824 && Shl(1, 31) == 2147483648
  {
    assert Shl(1, 2) == 4;
    ShlSum(2, 2); ShlSum(4, 4); ShlSum(8, 8); ShlSum(16, 8); ShlSum(24, 2);
    ShlDoubles(1, 26); ShlDoubles(1, 27); ShlDoubles(1, 28); ShlDoubles(1, 29); ShlDoubles(1, 30);
  }

  lemma ShlSum(a: nat, b: nat)
    ensures Shl(1, a + b) == Shl(1, a) * Shl(1, b)
    decreases b
  {
    if b > 0 {
      ShlDoubles(1, a + b - 1);
      ShlDoubles(1, b - 1);
      ShlSum(a, b - 1);
    }
  }

  lemma {:induction false} ShiftBounds(a: nat, b: nat)
    requires a <= b
    ensures 1 <= Shl(1, a) <= Shl(1, b)
    decreases b
  {
    ShlMonotone(0, 1, a);
    ShlDoubles(0, a);
    if a < b {
      ShiftBounds(a, b - 1);
      ShlDoubles(1, b - 1);
    }
  }

  datatype Outcome = Refreshed | Stored | Evicted

  class Cache<E(==)> {
    const size: nat
    const depthLimit: nat
    const epochSize: nat
    const blank: E
    const hash: (nat, E) -> nat
    const table: array<E>
    const collected: array<bool>
    const epoch: array<bool>
    var counter: nat

    // ------------------------------------------------------------ meaning

    function Locs(e: E): (locs: seq<nat>)
      requires size > 0
      ensures |locs| == 8 && forall k :: 0 <= k < 8 ==> locs[k] < size
    {
      seq(8, (k: nat) => hash(k, e) % size)
    }

    ghost predicate Shape()
    {
      && table.Length == collected.Length == epoch.Length == size > 0
      && collected != epoch && depthLimit > 0 && epochSize > 0
      && (table as object != collected && table as object != epoch)
    }

    /** Every stored element is at one of its slots, and none is stored twice. */
    ghost predicate Placed(t: seq<E>)
      requires size > 0
    {
      && (forall i :: 0 <= i < |t| && t[i] != blank ==> i in Locs(t[i]))
      && (forall i, j :: 0 <= i < j < |t| && t[i] == t[j] ==> t[i] == blank)
    }

    /** A slot that is not collectable holds an element, the default one included, at one of its slots. */
    ghost predicate Alive(t: seq<E>, c: seq<bool>)
      requires size > 0 && |t| == |c|
    {
      forall i :: 0 <= i < |t| && !c[i] ==> i in Locs(t[i])
    }

    ghost function Recent(recent: bool): nat
      requires Shape()
      reads collected, epoch
    {
      Count(collected[..], epoch[..], size, recent)
    }

    ghost function LiveElements(): multiset<Tagged<E>>
      requires Shape()
      reads table, collected, epoch
    {
      Live(table[..], collected[..], epoch[..], size)
    }

    ghost predicate Valid()
      reads this, table, collected, epoch
    {
      && Shape() && Placed(table[..]) && Alive(table[..], collected[..])
      && Recent(true) + counter <= EpochBound(epochSize)
      && Recent(false) <= EpochBound(epochSize)
    }

    /** The live elements once entries have been aged, if it is time to. */
    ghost function Survivors(): multiset<Tagged<E>>
      requires Shape()
      reads this, table, collected, epoch
    {
      if counter == 0 && Recent(true) >= epochSize
      then Live(table[..], Aged(collected[..], epoch[..]), seq(size, _ => false), size)
      else LiveElements()
    }

    /** In every state the live entries of both epochs stay within twice the bound. */
    lemma TotalLiveBounded()
      requires Valid()
      ensures |LiveElements()| <= 2 * EpochBound(epochSize)
    {
      LiveCardinality(table[..], collected[..], epoch[..], size);
    }

    // --------------------------------------------------------- operations

    /** setup for a table of 2^depth slots. */
    constructor (depth: nat, blank: E, hash: (nat, E) -> nat)
      requires 1 <= depth <= 31
      ensures Valid() && fresh(table) && fresh(collected) && fresh(epoch)
      ensures size == Shl(1, depth) && depthLimit == depth && epochSize == EpochSize(size)
      ensures this.blank == blank && this.hash == hash
      ensures LiveElements() == multiset{} && forall i :: 0 <= i < size ==> table[i] == blank
    {
      ShlMonotone(0, 1, depth);
      size, depthLimit := Shl(1, depth), depth;
      epochSize := EpochSize(Shl(1, depth));
      this.blank, this.hash := blank, hash;
      table := new E[Shl(1, depth)](_ => blank);
      collected := new bool[Shl(1, depth)](_ => true);
      epoch := new bool[Shl(1, depth)](_ => false);
      counter := EpochSize(Shl(1, depth));
      new;
      CountZero(collected[..], epoch[..], size, true);
      CountZero(collected[..], epoch[..], size, false);
      LiveCardinality(table[..], collected[..], epoch[..], size);
    }

    /** Leaves room for one more current-epoch entry. */
    method EpochCheck()
      requires Valid()
      modifies this, collected, epoch
      ensures Shape() && Placed(table[..]) && Alive(table[..], collected[..])
      ensures LiveElements() == old(Survivors())
      ensures Recent(true) + 1 + counter <= EpochBound(epochSize)
      ensures Recent(false) <= EpochBound(epochSize)
      ensures counter == if old(counter) != 0 then old(counter) - 1
                         else if old(Recent(true)) >= epochSize then epochSize
                         else Max(1, Max(epochSize / 16, epochSize - old(Recent(true))))
      ensures forall i :: 0 <= i < size && old(collected[i]) ==> collected[i]
      ensures old(counter) != 0 ==> collected[..] == old(collected[..]) && epoch[..] == old(epoch[..])
      ensures old(counter) == 0 && old(Recent(true)) < epochSize ==>
                collected[..] == old(collected[..]) && epoch[..] == old(epoch[..])
      ensures old(counter) == 0 && old(Recent(true)) >= epochSize ==>
                collected[..] == Aged(old(collected[..]), old(epoch[..])) && forall i :: 0 <= i < size ==> !epoch[i]
    {
      if counter != 0 {
        counter := counter - 1;
        return;
      }
      var unused := 0;
      for i := 0 to size
        invariant unused == Count(collected[..], epoch[..], i, true)
      {
        unused := unused + (if epoch[i] && !collected[i] then 1 else 0);
      }
      if unused >= epochSize {
        AgedCounts(collected[..], epoch[..], size);
        AgeAll();
        counter := epochSize;
      } else {
        counter := Max(1, Max(epochSize / 16, epochSize - unused));
      }
    }

    /** The ageing loop of epoch_check. */
    method AgeAll()
      requires Shape()
      modifies collected, epoch
      ensures collected[..] == Aged(old(collected[..]), old(epoch[..]))
      ensures epoch[..] == seq(size, _ => false)
    {
      for i := 0 to size
        invariant forall j :: 0 <= j < i ==> collected[j] == (old(collected[j]) || !old(epoch[j])) && !epoch[j]
        invariant forall j :: i <= j < size ==> collected[j] == old(collected[j]) && epoch[j] == old(epoch[j])
      {
        if epoch[i] {
          epoch[i] := false;
        } else {
          collected[i] := true;
        }
      }
    }

    /** Scans the slots of an element for the element itself. */
    method FindElement(e: E) returns (loc: int)
      requires Shape()
      ensures loc == -1 ==> forall k :: 0 <= k < 8 ==> table[Locs(e)[k]] != e
      ensures loc != -1 ==> 0 <= loc < size && loc in Locs(e) && table[loc] == e
    {
      var locs := Locs(e);
      for k := 0 to 8
        invariant forall j :: 0 <= j < k ==> table[locs[j]] != e
      {
        if table[locs[k]] == e {
          return locs[k];
        }
      }
      return -1;
    }

    /** Scans the slots of an element for one that may be overwritten. */
    method FindCollected(locs: seq<nat>) returns (loc: int)
      requires Shape() && |locs| == 8 && forall k :: 0 <= k < 8 ==> locs[k] < size
      ensures loc == -1 ==> forall k :: 0 <= k < 8 ==> !collected[locs[k]]
      ensures loc != -1 ==> 0 <= loc < size && loc in locs && collected[loc]
      ensures loc != -1 ==> exists k :: FirstRoom(collected[..], locs, k, loc)
    {
      for k := 0 to 8
        invariant forall j :: 0 <= j < k ==> !collected[locs[j]]
      {
        if collected[locs[k]] {
          assert FirstRoom(collected[..], locs, k, locs[k]);
          return locs[k];
        }
      }
      return -1;
    }

    /** The slot after the one last written, going round; the second slot on the first turn. */
    method NextLoc(locs: seq<nat>, lastLoc: int) returns (loc: nat)
      requires |locs| == 8
      ensures loc in locs && loc == Successor(locs, lastLoc)
      ensures lastLoc !in locs ==> loc == locs[1]
      ensures lastLoc in locs ==>
                exists k :: 0 <= k < 8 && locs[k] == lastLoc && lastLoc !in locs[..k] && loc == locs[(k + 1) % 8]
    {
      var k := 0;
      while k < 8 && locs[k] != lastLoc
        invariant 0 <= k <= 8 && First(locs, lastLoc) == k + First(locs[k..], lastLoc) && lastLoc !in locs[..k]
      {
        k := k + 1;
      }
      return locs[(1 + k) % 8];
    }

    /** The first position of a slot number, or the length if there is none. */
    static function First(locs: seq<nat>, loc: int): (k: nat)
      ensures k <= |locs| && (k < |locs| ==> locs[k] == loc)
    {
      if locs == [] || locs[0] == loc then 0 else 1 + First(locs[1..], loc)
    }

    static function Successor(locs: seq<nat>, loc: int): nat
      requires |locs| == 8
    {
      locs[(1 + First(locs, loc)) % 8]
    }

    /**
      After an element has been swapped into a slot, the element that left it moves on to another slot
      exactly when its next hash, after the first that leads to this slot, leads elsewhere. Otherwise
      the next swap takes out the element just put in, and the chain is where it was.
    */
    lemma NewestStays(t: seq<E>, e: E, loc: nat)
      requires size > 0 && loc < |t| && loc in Locs(t[loc])
      ensures var k := First(Locs(t[loc]), loc);
              k < 8 && (Successor(Locs(t[loc]), loc) != loc <==>
                hash((k + 1) % 8, t[loc]) % size != hash(k, t[loc]) % size)
      ensures Successor(Locs(t[loc]), loc) == loc ==> t[loc := e][loc] == e && t[loc := e][loc := t[loc]] == t
    {
      FirstFound(Locs(t[loc]), loc);
    }

    /** With a hash that leads to one slot only, the element put in last is the next to be taken out. */
    lemma NewestLeaves(t: seq<E>, e: E)
      requires size > 0 && |t| == size && forall k, x :: hash(k, x) == 0
      ensures Locs(t[0]) == [0, 0, 0, 0, 0, 0, 0, 0] && Successor(Locs(t[0]), 0) == 0
      ensures var next := Successor(Locs(t[0]), 0);
              t[0 := e][next] == e && t[0 := e][next := t[0]] == t
    {
      assert Locs(t[0]) == [0, 0, 0, 0, 0, 0, 0, 0];
    }

    static lemma {:induction false} FirstFound(locs: seq<nat>, loc: int)
      requires loc in locs
      ensures First(locs, loc) < |locs|
    {
      if locs[0] != loc {
        FirstFound(locs[1..], loc);
      }
    }

    method Contains(e: E, erase: bool) returns (found: bool)
      requires Valid()
      modifies collected
      ensures Valid()
      ensures e != blank ==> (found <==> e in table[..])
      ensures forall i :: 0 <= i < size && !old(collected[i]) && table[i] == e ==> found
      ensures !(found && erase) ==> collected[..] == old(collected[..])
      ensures found && erase ==>
                exists i :: 0 <= i < size && table[i] == e && collected[..] == old(collected[..])[i := true]
    {
      PlacedMeansFound(table[..], e);
      var loc := FindElement(e);
      if loc == -1 {
        return false;
      }
      if erase {
        CountUpdate(collected[..], epoch[..], size, loc, true, epoch[loc], true);
        CountUpdate(collected[..], epoch[..], size, loc, true, epoch[loc], false);
        assert epoch[..][loc := epoch[loc]] == epoch[..];
        collected[loc] := true;
        assert collected[..] == old(collected[..])[loc := true];
      }
      return true;
    }

    lemma PlacedMeansFound(t: seq<E>, e: E)
      requires size > 0 && |t| == size && Placed(t)
      ensures forall c: seq<bool>, i :: |c| == |t| && Alive(t, c) && 0 <= i < |t| && !c[i] && t[i] == e ==>
                exists k :: 0 <= k < 8 && t[Locs(e)[k]] == e
      ensures e != blank ==> (e in t <==> exists k :: 0 <= k < 8 && t[Locs(e)[k]] == e)
    {
    }

    // ------------------------------------------------------ the insertion

    /** The table with an element in hand: nothing misplaced, nothing stored twice. */
    ghost predicate InHand(t: seq<E>, e: E)
      requires size > 0
    {
      Placed(t) && (e != blank ==> e !in t)
    }

    /** How a chain of swaps leads from one table to another while collection flags stay put. */
    ghost predicate Moved(t0: seq<E>, ep0: seq<bool>, c: seq<bool>, e0: E, t: seq<E>, ep: seq<bool>, e: E,
                          recent: bool) {
      && size > 0 && |t0| == |ep0| == |c| == |t| == |ep| == size
      && InHand(t, e) && Alive(t, c)
      && multiset(t) + multiset{e} == multiset(t0) + multiset{e0}
      && Live(t, c, ep, size) + multiset{Tagged(e, recent)} == Live(t0, c, ep0, size) + multiset{Tagged(e0, true)}
      && Count(c, ep, size, true) + CountSlot(false, recent, true) == Count(c, ep0, size, true) + 1
      && Count(c, ep, size, false) + CountSlot(false, recent, false) == Count(c, ep0, size, false)
      && forall i :: 0 <= i < size && t[i] != t0[i] ==> i in Locs(t[i])
    }

    lemma SwapKeepsPlaced(t: seq<E>, e: E, loc: nat)
      requires size > 0 && InHand(t, e) && loc < |t| && loc in Locs(e)
      ensures InHand(t[loc := e], t[loc])
    {
    }

    lemma SwapMoves(t0: seq<E>, ep0: seq<bool>, c: seq<bool>, e0: E, t: seq<E>, ep: seq<bool>, e: E, recent: bool,
                    loc: nat)
      requires Moved(t0, ep0, c, e0, t, ep, e, recent) && loc < size && loc in Locs(e) && !c[loc]
      ensures Moved(t0, ep0, c, e0, t[loc := e], ep[loc := recent], t[loc], ep[loc])
    {
      hide Live, Count, Locs;
      var t', ep' := t[loc := e], ep[loc := recent];
      assert InHand(t', t[loc]) by { SwapKeepsPlaced(t, e, loc); }
      assert multiset(t') + multiset{t[loc]} == multiset(t0) + multiset{e0} by { MultisetUpdate(t, loc, e); }
      assert Live(t', c, ep', size) + multiset{Tagged(t[loc], ep[loc])}
             == Live(t, c, ep, size) + multiset{Tagged(e, recent)} by {
        LiveUpdate(t, c, ep, t', c, ep', size, loc);
      }
      assert c[loc := false] == c;
      CountUpdate(c, ep, size, loc, false, recent, true);
      CountUpdate(c, ep, size, loc, false, recent, false);
    }

    /** A chain that ends in a collectable slot. */
    lemma StoreEnds(t0: seq<E>, ep0: seq<bool>, c: seq<bool>, e0: E, t: seq<E>, ep: seq<bool>, e: E, recent: bool,
                    loc: nat)
      requires Moved(t0, ep0, c, e0, t, ep, e, recent) && loc < size && loc in Locs(e) && c[loc]
      ensures var t', c', ep' := t[loc := e], c[loc := false], ep[loc := recent];
              && Placed(t') && Alive(t', c')
              && multiset(t') + multiset{t[loc]} == multiset(t0) + multiset{e0}
              && Live(t', c', ep', size) == Live(t0, c, ep0, size) + multiset{Tagged(e0, true)}
              && Count(c', ep', size, true) == Count(c, ep0, size, true) + 1
              && Count(c', ep', size, false) == Count(c, ep0, size, false)
              && forall i :: 0 <= i < size && t'[i] != t0[i] ==> i in Locs(t'[i])
    {
      hide Live, Count, Locs;
      SwapKeepsPlaced(t, e, loc);
      MultisetUpdate(t, loc, e);
      LiveUpdate(t, c, ep, t[loc := e], c[loc := false], ep[loc := recent], size, loc);
      CountUpdate(c, ep, size, loc, false, recent, true);
      CountUpdate(c, ep, size, loc, false, recent, false);
    }

    method Put(loc: nat, e: E, recent: bool)
      requires Shape() && loc < size
      modifies table, collected, epoch
      ensures table[..] == old(table[..])[loc := e]
      ensures collected[..] == old(collected[..])[loc := false]
      ensures epoch[..] == old(epoch[..])[loc := recent]
    {
      table[loc] := e;
      collected[loc] := false;
      epoch[loc] := recent;
    }

    /** The element is there already: keep it, and count it as recent. */
    method Refresh(loc: nat)
      requires Shape() && loc < size
      modifies collected, epoch
      ensures collected[..] == old(collected[..])[loc := false]
      ensures epoch[..] == old(epoch[..])[loc := true]
      ensures Recent(true) <= old(Recent(true)) + 1 && Recent(false) <= old(Recent(false))
    {
      CountUpdate(collected[..], epoch[..], size, loc, false, true, true);
      CountUpdate(collected[..], epoch[..], size, loc, false, true, false);
      collected[loc] := false;
      epoch[loc] := true;
      assert collected[..] == old(collected[..])[loc := false];
      assert epoch[..] == old(epoch[..])[loc := true];
    }

    /** The element is there already. */
    method Keep(loc: nat, e: E)
      requires Shape() && Alive(table[..], collected[..]) && loc < size && table[loc] == e && loc in Locs(e)
      modifies collected, epoch
      ensures Alive(table[..], collected[..]) && !collected[loc] && epoch[loc]
      ensures Recent(true) <= old(Recent(true)) + 1 && Recent(false) <= old(Recent(false))
      ensures LiveElements() + LiveSlot(e, old(collected[loc]), old(epoch[loc]))
              == old(LiveElements()) + multiset{Tagged(e, true)}
    {
      ghost var c0, ep0 := collected[..], epoch[..];
      Refresh(loc);
      LiveUpdate(table[..], c0, ep0, table[..], collected[..], epoch[..], size, loc);
    }

    lemma ChainStarts(t: seq<E>, ep: seq<bool>, c: seq<bool>, e: E)
      requires size > 0 && |t| == |ep| == |c| == size && InHand(t, e) && Alive(t, c)
      ensures Moved(t, ep, c, e, t, ep, e, true)
    {
    }

    /** What the chain has done when it runs out of turns. */
    lemma ChainEnds(t0: seq<E>, ep0: seq<bool>, c: seq<bool>, e0: E, t: seq<E>, ep: seq<bool>, e: E, recent: bool)
      requires Moved(t0, ep0, c, e0, t, ep, e, recent)
      ensures size > 0 && |t| == |c| == |ep| == |t0| == |ep0| == size && Placed(t) && Alive(t, c)
      ensures multiset(t) + multiset{e} == multiset(t0) + multiset{e0}
      ensures Live(t, c, ep, size) + multiset{Tagged(e, recent)} == Live(t0, c, ep0, size) + multiset{Tagged(e0, true)}
      ensures Count(c, ep, size, true) <= Count(c, ep0, size, true) + 1
              && Count(c, ep, size, false) <= Count(c, ep0, size, false)
      ensures forall i :: 0 <= i < size && t[i] != t0[i] ==> i in Locs(t[i])
    {
    }

    // ---------------------------------------------------------- its chain

    predicate NoRoom(c: seq<bool>, e: E)
      requires size > 0 && |c| == size
    {
      forall k :: 0 <= k < 8 ==> !c[Locs(e)[k]]
    }

    /** The first of an element's slots that may be overwritten. */
    predicate Room(c: seq<bool>, e: E, loc: int)
      requires size > 0 && |c| == size
    {
      exists k :: 0 <= k < 8 && Locs(e)[k] == loc && c[loc] && forall j :: 0 <= j < k ==> !c[Locs(e)[j]]
    }

    /**
      A chain of swaps along a path of slots, from one table and element in hand to another. Every
      element on the way finds no room, and goes to the slot after the one it comes from.
    */
    ghost predicate Chain(c: seq<bool>, t: seq<E>, e: E, last: int, path: seq<nat>, t': seq<E>, e': E)
      requires size > 0 && |c| == |t| == size
      decreases path
    {
      if path == [] then t' == t && e' == e
      else
        && NoRoom(c, e) && path[0] == Successor(Locs(e), last) && path[0] < size
        && Chain(c, t[path[0] := e], t[path[0]], path[0], path[1..], t', e')
    }

    function LastOf(last: int, path: seq<nat>): int {
      if path == [] then last else path[|path| - 1]
    }

    lemma {:induction false} ChainLength(c: seq<bool>, t: seq<E>, e: E, last: int, path: seq<nat>, t': seq<E>, e': E)
      requires size > 0 && |c| == |t| == size && Chain(c, t, e, last, path, t', e')
      ensures |t'| == size
      decreases path
    {
      if path != [] {
        ChainLength(c, t[path[0] := e], t[path[0]], path[0], path[1..], t', e');
      }
    }

    lemma {:induction false} ChainGrows(c: seq<bool>, t: seq<E>, e: E, last: int, path: seq<nat>, t': seq<E>, e': E,
                                        loc: nat)
      requires size > 0 && |c| == |t| == |t'| == size && Chain(c, t, e, last, path, t', e')
      requires NoRoom(c, e') && loc == Successor(Locs(e'), LastOf(last, path)) && loc < size
      ensures Chain(c, t, e, last, path + [loc], t'[loc := e'], t'[loc])
      decreases path
    {
      hide Locs, Successor, NoRoom;
      if path == [] {
        assert [loc][1..] == [];
      } else {
        ChainGrows(c, t[path[0] := e], t[path[0]], path[0], path[1..], t', e', loc);
        assert (path + [loc])[1..] == path[1..] + [loc];
      }
    }

    /** An element that finds room in one of its own slots is stored there, and nothing else moves. */
    lemma RoomMeansStored(c: seq<bool>, t: seq<E>, e: E, path: seq<nat>, t': seq<E>, e': E, loc: int)
      requires size > 0 && |c| == |t| == size && Chain(c, t, e, -1, path, t', e') && Room(c, e, loc)
      ensures path == [] && t' == t && e' == e
    {
    }

    /** insert without its call of epoch_check. removed is the element that left the table. */
    method InsertElement(e0: E)
      returns (outcome: Outcome, ghost removed: Tagged<E>, ghost path: seq<nat>, ghost before: seq<E>, ghost hand: E)
      requires Shape() && Placed(table[..]) && Alive(table[..], collected[..])
      modifies table, collected, epoch
      ensures Placed(table[..]) && Alive(table[..], collected[..])
      ensures Recent(true) <= old(Recent(true)) + 1 && Recent(false) <= old(Recent(false))
      ensures outcome.Refreshed? ==>
                && table[..] == old(table[..])
                && exists i :: && 0 <= i < size && table[i] == e0 && !collected[i] && epoch[i]
                               && LiveElements() + LiveSlot(e0, old(collected[i]), old(epoch[i]))
                                  == old(LiveElements()) + multiset{Tagged(e0, true)}
      ensures !outcome.Refreshed? ==>
                && multiset(table[..]) + multiset{removed.element} == multiset(old(table[..])) + multiset{e0}
                && forall i :: 0 <= i < size && table[..][i] != old(table[..])[i] ==> i in Locs(table[..][i])
      ensures outcome.Stored? ==>
                && LiveElements() == old(LiveElements()) + multiset{Tagged(e0, true)}
                && exists i :: 0 <= i < size && old(collected[i]) && collected[..] == old(collected[..])[i := false]
      ensures outcome.Evicted? ==>
                && LiveElements() + multiset{removed} == old(LiveElements()) + multiset{Tagged(e0, true)}
                && collected[..] == old(collected[..])
      ensures outcome.Refreshed? <==> exists k :: 0 <= k < 8 && old(table[..])[Locs(e0)[k]] == e0
      ensures !outcome.Refreshed? ==> Chain(old(collected[..]), old(table[..]), e0, -1, path, before, hand)
      ensures outcome.Stored? ==>
                |path| < depthLimit && exists loc :: Room(old(collected[..]), hand, loc) && Wrote(before, hand, loc)
      ensures outcome.Evicted? ==> |path| == depthLimit && table[..] == before && removed.element == hand
    {
      hide Placed, Alive, Moved, Locs, Live, Count, First, Successor, Chain, NoRoom, Room;
      ghost var t0, c0, ep0 := table[..], collected[..], epoch[..];
      path, before, hand, removed := [], t0, e0, Tagged(e0, true);
      var loc := FindElement(e0);
      if loc != -1 {
        Keep(loc, e0);
        outcome := Refreshed;
        return;
      }
      ChainEmpty(c0, t0, e0);
      NotThere(t0, e0);
      ChainStarts(t0, ep0, c0, e0);
      var e, recent, lastLoc: int := e0, true, -1;
      for depth := 0 to depthLimit
        invariant collected[..] == c0 && before == table[..] && hand == e && |path| == depth
                  && lastLoc == LastOf(-1, path)
        invariant Moved(t0, ep0, c0, e0, table[..], epoch[..], e, recent)
        invariant Chain(c0, t0, e0, -1, path, before, hand)
      {
        var locs := Locs(e);
        loc := FindCollected(locs);
        if loc != -1 {
          removed := Tagged(table[loc], epoch[loc]);
          StoreEnds(t0, ep0, c0, e0, table[..], epoch[..], e, recent, loc);
          RoomAt(c0, e, loc);
          Put(loc, e, recent);
          outcome := Stored;
          assert Wrote(before, hand, loc);
          return;
        }
        RoomNowhere(c0, e);
        lastLoc := NextLoc(locs, lastLoc);
        ChainGrows(c0, t0, e0, -1, path, before, hand, lastLoc);
        SwapMoves(t0, ep0, c0, e0, table[..], epoch[..], e, recent, lastLoc);
        e, recent := Swap(lastLoc, e, recent);
        path, before, hand := path + [lastLoc], table[..], e;
      }
      ChainEnds(t0, ep0, c0, e0, table[..], epoch[..], e, recent);
      outcome, removed := Evicted, Tagged(e, recent);
    }

    /** The element has been written into the slot of an otherwise unchanged table. */
    ghost predicate Wrote(before: seq<E>, e: E, loc: int)
      reads this, table
    {
      0 <= loc < |before| && table[..] == before[loc := e]
    }

    lemma ChainEmpty(c: seq<bool>, t: seq<E>, e: E)
      requires size > 0 && |c| == |t| == size
      ensures Chain(c, t, e, -1, [], t, e)
    {
    }

    lemma RoomAt(c: seq<bool>, e: E, loc: int)
      requires size > 0 && |c| == size && exists k :: FirstRoom(c, Locs(e), k, loc)
      ensures Room(c, e, loc)
    {
      hide Locs;
      var k :| FirstRoom(c, Locs(e), k, loc);
    }

    lemma RoomNowhere(c: seq<bool>, e: E)
      requires size > 0 && |c| == size && forall k :: 0 <= k < 8 ==> !c[Locs(e)[k]]
      ensures NoRoom(c, e)
    {
    }

    predicate FirstRoom(c: seq<bool>, locs: seq<nat>, k: int, loc: int)
      requires |locs| == 8 && forall i :: 0 <= i < 8 ==> locs[i] < |c|
    {
      0 <= k < 8 && locs[k] == loc && c[loc] && forall j :: 0 <= j < k ==> !c[locs[j]]
    }

    lemma NotThere(t: seq<E>, e: E)
      requires size > 0 && |t| == size && Placed(t) && forall k :: 0 <= k < 8 ==> t[Locs(e)[k]] != e
      ensures InHand(t, e)
    {
      PlacedMeansFound(t, e);
    }

    method Swap(loc: nat, e: E, recent: bool) returns (e': E, recent': bool)
      requires Shape() && loc < size
      modifies table, epoch
      ensures e' == old(table[loc]) && recent' == old(epoch[loc])
      ensures table[..] == old(table[..])[loc := e]
      ensures epoch[..] == old(epoch[..])[loc := recent]
    {
      e', recent' := table[loc], epoch[loc];
      table[loc], epoch[loc] := e, recent;
    }

    /**
      What is live after an insertion: all that survived the epoch check, the new element as a recent
      one, and without the element that ran out of turns. removed is the element that left the table,
      unless the inserted one was there already.
    */
    method Insert(e: E)
      returns (outcome: Outcome, ghost removed: Tagged<E>, ghost path: seq<nat>, ghost before: seq<E>, ghost hand: E,
               ghost free: seq<bool>)
      requires Valid()
      modifies this, table, collected, epoch
      ensures Valid()
      ensures outcome.Refreshed? ==> table[..] == old(table[..]) && e in table[..]
      ensures !outcome.Refreshed? ==>
                && multiset(table[..]) + multiset{removed.element} == multiset(old(table[..])) + multiset{e}
                && forall i :: 0 <= i < size && table[i] != old(table[i]) ==> i in Locs(table[i])
      ensures outcome.Refreshed? ==>
                exists dead, recent ::
                  LiveElements() + LiveSlot(e, dead, recent) == old(Survivors()) + multiset{Tagged(e, true)}
      ensures outcome.Stored? ==> LiveElements() == old(Survivors()) + multiset{Tagged(e, true)}
      ensures outcome.Evicted? ==> LiveElements() + multiset{removed} == old(Survivors()) + multiset{Tagged(e, true)}
      ensures free == if old(counter) == 0 && old(Recent(true)) >= epochSize
                      then Aged(old(collected[..]), old(epoch[..])) else old(collected[..])
      ensures outcome.Refreshed? <==> exists k :: 0 <= k < 8 && old(table[..])[Locs(e)[k]] == e
      ensures !outcome.Refreshed? ==> Chain(free, old(table[..]), e, -1, path, before, hand)
      ensures outcome.Stored? ==> |path| < depthLimit && exists loc :: Room(free, hand, loc) && Wrote(before, hand, loc)
      ensures outcome.Evicted? ==> |path| == depthLimit && table[..] == before && removed.element == hand
    {
      hide Live, Count, Locs, Placed, Alive, Survivors, Aged, Chain, Room;
      EpochCheck();
      free := collected[..];
      outcome, removed, path, before, hand := InsertElement(e);
    }
  }

  lemma {:induction false} LiveCardinality<E>(table: seq<E>, collected: seq<bool>, epoch: seq<bool>, n: nat)
    requires n <= |table| == |collected| == |epoch|
    ensures |Live(table, collected, epoch, n)| == Count(collected, epoch, n, true) + Count(collected, epoch, n, false)
  {
    if n > 0 {
      LiveCardinality(table, collected, epoch, n - 1);
    }
  }
}
