/**
The block index: blocks linked to their predecessors and, as a shortcut, to an ancestor
further back; and the active chain, which lists the ancestors of one tip by height.
*/
module BlockTree {
  import opened Powers
  import opened SkipHeights

  /** A block in the index; its links never change once it is entered. */
  class BlockIndex {
    const pprev: BlockIndex?
    const nHeight: int
    const pskip: BlockIndex?

    /** Enters a block: one above its predecessor, with its skip pointer built. */
    constructor (pprev: BlockIndex?)
      requires pprev != null ==> Linked(pprev) && SkipsOk(pprev)
      ensures this.pprev == pprev && Linked(this) && SkipsOk(this)
      ensures (pprev != null ==> pskip != null) && (pprev != null && Built(pprev) ==> Built(this))
              && (pprev == null ==> Built(this))
    {
      var height := if pprev == null then 0 else pprev.nHeight + 1;
      var skip: BlockIndex? := null;
      if pprev != null {
        ghost var steps;
        skip, steps := GetAncestor(pprev, GetSkipHeight(height));
      }
      this.pprev := pprev;
      this.nHeight := height;
      this.pskip := skip;
      new;
      SkipsExtend(this);
    }
  }

  lemma SkipsExtend(b: BlockIndex)
    requires b.nHeight == if b.pprev == null then 0 else b.pprev.nHeight + 1
    requires b.pprev != null ==> Linked(b.pprev) && SkipsOk(b.pprev)
    requires b.pskip == null || (b.pprev != null && b.pskip == Walk(b.pprev, GetSkipHeight(b.nHeight)))
    ensures Linked(b) && SkipsOk(b)
    ensures (b.pprev != null ==> b.pskip != null && Built(b.pprev)) ==> Built(b)
  {
    AllLinked(b);
  }

  /** Heights count the predecessors. */
  ghost predicate Linked(b: BlockIndex)
    decreases if b.nHeight >= 0 then b.nHeight + 1 else 0
  {
    && b.nHeight >= 0
    && (b.pprev == null ==> b.nHeight == 0)
    && (b.pprev != null ==> b.nHeight == b.pprev.nHeight + 1 && Linked(b.pprev))
  }

  lemma WalkHere(b: BlockIndex)
    requires Linked(b)
    ensures b.nHeight >= 0 && Walk(b, b.nHeight) == b
  {
  }

  /** The ancestor at a height, by the plain walk along predecessors. */
  ghost function Walk(b: BlockIndex, h: int): (r: BlockIndex)
    requires Linked(b) && 0 <= h <= b.nHeight
    ensures Linked(r) && r.nHeight == h
    decreases b.nHeight
  {
    if b.nHeight == h then b else Walk(b.pprev, h)
  }

  /** A block and all its ancestors. */
  ghost function Line(b: BlockIndex): set<BlockIndex>
    requires Linked(b)
    decreases b.nHeight
  {
    if b.pprev == null then {b} else {b} + Line(b.pprev)
  }

  lemma {:induction false} WalkWalk(b: BlockIndex, h: int, k: int)
    requires Linked(b) && 0 <= k <= h <= b.nHeight
    ensures Walk(Walk(b, h), k) == Walk(b, k)
    decreases b.nHeight
  {
    if b.nHeight != h {
      WalkWalk(b.pprev, h, k);
    }
  }

  lemma WalkPrev(b: BlockIndex, h: int)
    requires Linked(b) && 0 <= h <= b.nHeight
    ensures h > 0 ==> Walk(b, h).pprev == Walk(b, h - 1)
    ensures h == 0 ==> Walk(b, h).pprev == null
  {
    assert Linked(Walk(b, h));
    if h > 0 {
      WalkWalk(b, h, h - 1);
    } else {
      Genesis(Walk(b, h));
    }
  }

  lemma Genesis(b: BlockIndex)
    requires Linked(b) && b.nHeight == 0
    ensures b.pprev == null
  {
  }

  lemma {:induction false} WalkInLine(b: BlockIndex, h: int)
    requires Linked(b) && 0 <= h <= b.nHeight
    ensures Walk(b, h) in Line(b) && Line(Walk(b, h)) <= Line(b)
    decreases b.nHeight
  {
    if b.nHeight != h {
      WalkInLine(b.pprev, h);
    }
  }

  lemma {:induction false} LineIsWalk(b: BlockIndex, a: BlockIndex)
    requires Linked(b) && a in Line(b)
    ensures Linked(a) && a.nHeight <= b.nHeight && Walk(b, a.nHeight) == a
    decreases b.nHeight
  {
    if a != b {
      LineIsWalk(b.pprev, a);
    }
  }

  // ----------------------------------------------------------- skip pointers

  /** A skip pointer, where present, leads to the ancestor at the skip height. */
  ghost predicate SkipOk(b: BlockIndex)
    requires Linked(b)
  {
    b.pskip == null || (b.nHeight >= 1 && b.pskip == Walk(b, GetSkipHeight(b.nHeight)))
  }

  ghost predicate SkipsOk(b: BlockIndex)
    requires Linked(b)
  {
    forall a :: a in Line(b) ==> Linked(a) && SkipOk(a)
  }

  lemma SkipsOkBelow(b: BlockIndex, h: int)
    requires Linked(b) && 0 <= h <= b.nHeight && SkipsOk(b)
    ensures SkipsOk(Walk(b, h))
  {
    WalkInLine(b, h);
  }

  lemma AllLinked(b: BlockIndex)
    requires Linked(b)
    ensures forall a :: a in Line(b) ==> Linked(a)
  {
    forall a | a in Line(b) ensures Linked(a) {
      LineIsWalk(b, a);
    }
  }

  /** Every block but the first has its skip pointer. */
  ghost predicate Built(b: BlockIndex)
    requires Linked(b)
  {
    forall a :: a in Line(b) ==> Linked(a) && (a.nHeight > 0 ==> a.pskip != null)
  }

  /**
    The ancestor at a height, by skip pointers where they do not overshoot: the same as the plain walk.
    With all skip pointers built, blocks at heights of d bits are reached in at most d(3d - 1) / 2 steps.
  */
  method GetAncestor(b: BlockIndex, height: int) returns (r: BlockIndex?, ghost steps: nat)
    requires Linked(b) && SkipsOk(b)
    ensures r == if 0 <= height <= b.nHeight then Walk(b, height) else null
    ensures Built(b) ==> forall d: nat :: b.nHeight < Pow2(d) ==> 2 * steps <= 3 * d * d - d
  {
    hide Steps, Pow2;
    steps := 0;
    FewSteps(b.nHeight, height);
    if height > b.nHeight || height < 0 {
      r := null;
      return;
    }
    var pindexWalk := b;
    var heightWalk := b.nHeight;
    while heightWalk > height
      invariant height <= heightWalk <= b.nHeight && pindexWalk == Walk(b, heightWalk)
      invariant Built(b) ==> steps + Steps(heightWalk, height) <= Steps(b.nHeight, height)
    {
      StepsFall(heightWalk, height);
      steps := steps + 1;
      var heightSkip := GetSkipHeight(heightWalk);
      var heightSkipPrev := GetSkipHeight(heightWalk - 1);
      WalkInLine(b, heightWalk);
      assert SkipOk(pindexWalk);
      if pindexWalk.pskip != null
         && (heightSkip == height
             || (heightSkip > height && !(heightSkipPrev < heightSkip - 2 && heightSkipPrev >= height))) {
        WalkWalk(b, heightWalk, heightSkip);
        pindexWalk := pindexWalk.pskip;
        heightWalk := heightSkip;
      } else {
        WalkPrev(b, heightWalk);
        pindexWalk := pindexWalk.pprev;
        heightWalk := heightWalk - 1;
      }
    }
    r := pindexWalk;
  }

  lemma FewSteps(w: int, t: int)
    requires w >= 0
    ensures forall d: nat :: w < Pow2(d) ==> 0 <= 3 * d * d - d && (0 <= t <= w ==> 2 * Steps(w, t) <= 3 * d * d - d)
  {
    hide Steps, Pow2;
    forall d: nat | w < Pow2(d) ensures 0 <= 3 * d * d - d && (0 <= t <= w ==> 2 * Steps(w, t) <= 3 * d * d - d) {
      StepsPolylog(w, w, d);
      if 0 <= t <= w {
        StepsPolylog(w, t, d);
      }
    }
  }

  // ------------------------------------------------------------ active chain

  /** The slots of a chain hold the tip's ancestors by height. */
  ghost predicate Lists(vChain: seq<BlockIndex?>, tip: BlockIndex) {
    && Linked(tip) && |vChain| == tip.nHeight + 1
    && forall h :: 0 <= h < |vChain| ==> vChain[h] == Walk(tip, h)
  }

  /** The first slots of the chain of some tip. */
  lemma ListsBelow(vChain: seq<BlockIndex?>, tip: BlockIndex, h: int, k: int)
    requires Lists(vChain, tip) && 0 <= k <= h < |vChain|
    ensures vChain[h] != null && Linked(vChain[h]) && vChain[h].nHeight == h && vChain[k] == Walk(vChain[h], k)
  {
    WalkWalk(tip, h, k);
  }

  class Chain {
    var vChain: seq<BlockIndex?>

    ghost predicate Valid()
      reads this
    {
      vChain == [] || (vChain[|vChain| - 1] != null && Lists(vChain, vChain[|vChain| - 1]))
    }

    constructor ()
      ensures Valid() && vChain == []
    {
      vChain := [];
    }

    function Tip(): BlockIndex?
      reads this
    {
      if |vChain| > 0 then vChain[|vChain| - 1] else null
    }

    function At(nHeight: int): BlockIndex?
      reads this
    {
      if nHeight < 0 || nHeight >= |vChain| then null else vChain[nHeight]
    }

    function Height(): int
      reads this
    {
      |vChain| - 1
    }

    predicate Contains(pindex: BlockIndex)
      reads this
    {
      At(pindex.nHeight) == pindex
    }

    function Next(pindex: BlockIndex): BlockIndex?
      reads this
    {
      if !Contains(pindex) then null else At(pindex.nHeight + 1)
    }

    /** Containment is being an ancestor of the tip. */
    lemma ContainsAncestors(pindex: BlockIndex)
      requires Valid() && Linked(pindex)
      ensures Contains(pindex) <==> Tip() != null && pindex in Line(Tip())
    {
      if Tip() != null {
        if pindex in Line(Tip()) {
          LineIsWalk(Tip(), pindex);
        }
        if Contains(pindex) {
          WalkInLine(Tip(), pindex.nHeight);
        }
      }
    }

    /** The successor in the chain is the block whose predecessor this is. */
    lemma NextFollows(pindex: BlockIndex)
      requires Valid() && Linked(pindex)
      ensures Next(pindex) != null ==> Next(pindex).pprev == pindex && Contains(Next(pindex))
      ensures Next(pindex) == null <==> !Contains(pindex) || pindex == Tip()
    {
      if Contains(pindex) && pindex.nHeight + 1 < |vChain| {
        ListsBelow(vChain, Tip(), pindex.nHeight + 1, pindex.nHeight);
      }
    }

    /** Rewrites slots from the new tip downwards, stopping at the first that is already right. */
    method SetTip(pindex: BlockIndex?)
      requires Valid() && (pindex != null ==> Linked(pindex))
      modifies this
      ensures Valid() && Tip() == pindex
    {
      hide Linked, Walk;
      if pindex == null {
        vChain := [];
        return;
      }
      WalkHere(pindex);
      ghost var before := vChain;
      var size := pindex.nHeight + 1;
      vChain := if size <= |vChain| then vChain[..size] else vChain + seq(size - |vChain|, i => null);
      var walk: BlockIndex? := pindex;
      ghost var h := pindex.nHeight;
      while walk != null && vChain[walk.nHeight] != walk
        invariant -1 <= h <= pindex.nHeight && |vChain| == size
        invariant walk == if h == -1 then null else Walk(pindex, h)
        invariant forall k :: h < k < size ==> vChain[k] == Walk(pindex, k)
        invariant forall k :: 0 <= k <= h ==> vChain[k] == if k < |before| then before[k] else null
        decreases h
      {
        vChain := vChain[walk.nHeight := walk];
        WalkPrev(pindex, h);
        walk := walk.pprev;
        h := h - 1;
      }
      if walk != null {
        forall k | 0 <= k <= h ensures vChain[k] == Walk(pindex, k) {
          ListsBelow(before, before[|before| - 1], h, k);
          WalkWalk(pindex, h, k);
        }
      }
    }

    /** The highest block of the chain that is the given block or one of its ancestors. */
    method FindFork(pindex: BlockIndex?) returns (r: BlockIndex?)
      requires Valid() && (pindex != null ==> Linked(pindex) && SkipsOk(pindex))
      ensures r != null ==> pindex != null && r in Line(pindex) && Contains(r)
      ensures pindex != null ==> forall a :: a in Line(pindex) && Contains(a) ==> r != null && a.nHeight <= r.nHeight
      ensures pindex == null ==> r == null
    {
      if pindex == null {
        return null;
      }
      r := pindex;
      if pindex.nHeight > Height() {
        ghost var steps;
        r, steps := GetAncestor(pindex, Height());
      }
      ghost var h := if pindex.nHeight > Height() then Height() else pindex.nHeight;
      while r != null && !Contains(r)
        invariant -1 <= h <= pindex.nHeight && h <= Height()
        invariant r == if h == -1 then null else Walk(pindex, h)
        invariant forall k :: h < k <= pindex.nHeight ==> !Contains(Walk(pindex, k))
        decreases h
      {
        WalkPrev(pindex, h);
        r := r.pprev;
        h := h - 1;
      }
      forall a | a in Line(pindex) && Contains(a) ensures r != null && a.nHeight <= r.nHeight {
        LineIsWalk(pindex, a);
      }
      if r != null {
        WalkInLine(pindex, h);
      }
    }

    /** How far below the start the n-th entry of a locator lies: single steps, then doubling ones. */
    static function Offset(n: nat): nat {
      if n <= 10 then n else 9 + Pow2(n - 10)
    }

    static lemma OffsetsDouble(i: nat)
      requires i >= 11
      ensures Offset(i + 1) - Offset(i) == 2 * (Offset(i) - Offset(i - 1))
    {
    }

    static lemma {:induction false} OffsetsGrow(i: nat, j: nat)
      requires i < j
      ensures Offset(i) < Offset(j)
    {
      if i + 1 < j {
        OffsetsGrow(i, j - 1);
      }
    }

    /** A locator: ancestors at offsets from the start while above genesis, then genesis. */
    ghost static predicate IsLocator(vHave: seq<BlockIndex>, start: BlockIndex)
      requires Linked(start)
    {
      var last := |vHave| - 1;
      && 0 <= last
      && (forall i :: 0 <= i < last ==>
            start.nHeight - Offset(i) >= 1 && vHave[i] == Walk(start, start.nHeight - Offset(i)))
      && vHave[last] == Walk(start, 0) && start.nHeight <= Offset(last)
    }

    /** Locators descend strictly, start at the block, end at genesis and are logarithmic in height. */
    static lemma LocatorShape(vHave: seq<BlockIndex>, start: BlockIndex)
      requires Linked(start) && IsLocator(vHave, start)
      ensures vHave[0] == start && vHave[|vHave| - 1].nHeight == 0
      ensures forall i, j :: 0 <= i < j < |vHave| ==> vHave[i].nHeight > vHave[j].nHeight
      ensures forall i :: 0 <= i < |vHave| ==> vHave[i] in Line(start)
      ensures |vHave| >= 13 ==> Pow2(|vHave| - 12) <= start.nHeight - 10
    {
      var last := |vHave| - 1;
      if last >= 12 {
        assert start.nHeight - Offset(last - 1) >= 1;
      }
      forall i, j | 0 <= i < j < |vHave| ensures vHave[i].nHeight > vHave[j].nHeight {
        OffsetsGrow(i, j);
      }
      forall i | 0 <= i < |vHave| ensures vHave[i] in Line(start) {
        WalkInLine(start, vHave[i].nHeight);
      }
    }

    /** Eleven blocks in a row, then each gap twice the one before, up to genesis. */
    static lemma LocatorGaps(vHave: seq<BlockIndex>, start: BlockIndex, i: nat)
      requires Linked(start) && IsLocator(vHave, start) && i < |vHave| - 1
      ensures i <= 10 ==> vHave[i].nHeight == start.nHeight - i
      ensures 11 <= i < |vHave| - 2 ==>
                vHave[i].nHeight - vHave[i + 1].nHeight == 2 * (vHave[i - 1].nHeight - vHave[i].nHeight)
    {
      hide IsLocator, Offset, Linked;
      LocatorHeight(vHave, start, i);
      if i <= 10 {
        OffsetSmall(i);
      } else if i < |vHave| - 2 {
        OffsetsDouble(i);
        LocatorHeight(vHave, start, i - 1);
        LocatorHeight(vHave, start, i + 1);
      }
    }

    static lemma OffsetSmall(i: nat)
      requires i <= 10
      ensures Offset(i) == i
    {
    }

    static lemma LocatorHeight(vHave: seq<BlockIndex>, start: BlockIndex, i: nat)
      requires Linked(start) && IsLocator(vHave, start) && i < |vHave| - 1
      ensures vHave[i].nHeight == start.nHeight - Offset(i)
    {
      hide Offset;
    }

    lemma StartLinked(start: BlockIndex, pindex: BlockIndex?)
      requires Valid() && (start == pindex || start == Tip())
      requires pindex != null ==> Linked(pindex)
      ensures Linked(start) && start.nHeight >= 0 && Walk(start, start.nHeight) == start
    {
    }

    method GetLocator(pindex: BlockIndex?) returns (vHave: seq<BlockIndex>)
      requires Valid()
      requires pindex != null ==> Linked(pindex) && SkipsOk(pindex)
      requires Tip() != null ==> SkipsOk(Tip())
      ensures var start := if pindex == null then Tip() else pindex;
              if start == null then vHave == [] else Linked(start) && IsLocator(vHave, start)
    {
      hide Linked, Walk, SkipOk, SkipsOk;
      var nStep := 1;
      vHave := [];
      var walk := pindex;
      if walk == null {
        walk := Tip();
      }
      if walk == null {
        return;
      }
      ghost var start: BlockIndex := walk;
      StartLinked(start, pindex);
      while walk != null
        invariant Linked(start) && SkipsOk(start)
        invariant walk == Walk(start, if start.nHeight >= Offset(|vHave|) then start.nHeight - Offset(|vHave|) else 0)
        invariant nStep == if |vHave| <= 10 then 1 else Pow2(|vHave| - 10)
        invariant forall i :: 0 <= i < |vHave| ==>
                    start.nHeight - Offset(i) >= 1 && vHave[i] == Walk(start, start.nHeight - Offset(i))
        decreases if walk == null then -1 else walk.nHeight
      {
        vHave := vHave + [walk];
        if walk.nHeight == 0 {
          break;
        }
        var nHeight := if walk.nHeight - nStep > 0 then walk.nHeight - nStep else 0;
        WalkWalk(start, walk.nHeight, nHeight);
        if Contains(walk) {
          ListsBelow(vChain, Tip(), walk.nHeight, nHeight);
          walk := At(nHeight);
        } else {
          SkipsOkBelow(start, walk.nHeight);
          ghost var steps;
          walk, steps := GetAncestor(walk, nHeight);
        }
        if |vHave| > 10 {
          nStep := nStep * 2;
        }
      }
    }
  }
}
