/**
Partial Merkle trees (CPartialMerkleTree) as functions: the full tree's hashes, the
encoder's bits and hashes, the decoder's walk, and what ties them together. The pair
hash is a parameter; hashes are natural numbers, with zero for the null hash.
*/
module MerkleSpec {
  import opened Common
  import opened Powers
  import opened Sets

  type Hash = nat

  const NULL: Hash := 0

  type PairHash = (Hash, Hash) -> Hash

  ghost predicate CollisionFree(H: PairHash) {
    forall a, b, c, d :: H(a, b) == H(c, d) ==> a == c && b == d
  }

  // -------------------------------------------------------------- the tree

  /** CalcTreeWidth: the number of nodes at a height above n leaves. */
  function Width(n: nat, height: nat): nat {
    ShlPositive(height);
    Shr(n + Shl(1, height) - 1, height)
  }

  lemma ShlPositive(height: nat)
    ensures Shl(1, height) >= 1
  {
    ShlMonotone(0, 1, height);
  }

  lemma WidthHalves(n: nat, height: nat)
    requires height > 0
    ensures Width(n, height) == (Width(n, height - 1) + 1) / 2
  {
    ShlPositive(height - 1);
    var x := n + Shl(1, height - 1) - 1;
    ShlDoubles(1, height - 1);
    ShrAdd(x, 1, height - 1);
    ShrHalves(x + Shl(1, height - 1), height - 1);
  }

  /** Every node above the leaves has a left child; every node starts at a leaf of the block. */
  lemma LeftChildExists(n: nat, height: nat, pos: nat)
    requires height > 0 && pos < Width(n, height)
    ensures pos * 2 < Width(n, height - 1)
    ensures pos * 2 + 1 < Width(n, height - 1) || pos * 2 + 1 == Width(n, height - 1)
  {
    WidthHalves(n, height);
  }

  lemma {:induction false} NodeCoversLeaf(n: nat, height: nat, pos: nat)
    ensures pos < Width(n, height) <==> Shl(pos, height) < n
  {
    if height > 0 {
      WidthHalves(n, height);
      NodeCoversLeaf(n, height - 1, pos * 2);
    }
  }

  /** The height of the tree: the lowest level with a single node. */
  function Height(n: nat): (h: nat)
    ensures Width(n, h) <= 1
    ensures n > 0 ==> Width(n, h) == 1
    ensures forall k {:trigger Width(n, k)} :: 0 <= k < h ==> Width(n, k) > 1
  {
    HeightFrom(n, 0)
  }

  function HeightFrom(n: nat, from: nat): (h: nat)
    ensures h >= from && Width(n, h) <= 1
    ensures n > 0 ==> Width(n, h) == 1
    ensures forall k {:trigger Width(n, k)} :: from <= k < h ==> Width(n, k) > 1
    decreases Width(n, from)
  {
    if Width(n, from) <= 1 then
      assert n > 0 ==> Width(n, from) > 0 by { NodeCoversLeaf(n, from, 0); ShlDoubles(0, from); }
      from
    else
      WidthHalves(n, from + 1);
      HeightFrom(n, from + 1)
  }

  /** CalcHash: leaves are the txids; a missing right child repeats the left hash. */
  function CalcHash(H: PairHash, txids: seq<Hash>, height: nat, pos: nat): Hash
    requires pos < Width(|txids|, height)
  {
    if height == 0 then txids[pos]
    else
      LeftChildExists(|txids|, height, pos);
      var left := CalcHash(H, txids, height - 1, pos * 2);
      var right := if pos * 2 + 1 < Width(|txids|, height - 1) then CalcHash(H, txids, height - 1, pos * 2 + 1)
        else left;
      H(left, right)
  }

  function Root(H: PairHash, txids: seq<Hash>): Hash
    requires txids != []
  {
    CalcHash(H, txids, Height(|txids|), 0)
  }

  // ----------------------------------------------------------- the encoder

  predicate AnyMatch(mask: seq<bool>, lo: nat, hi: nat) {
    exists p :: lo <= p < hi && p < |mask| && mask[p]
  }

  /** Whether a node is the parent of a matched txid. */
  predicate Covers(mask: seq<bool>, height: nat, pos: nat) {
    AnyMatch(mask, Shl(pos, height), Shl(pos + 1, height))
  }

  datatype Partial = Partial(bits: seq<bool>, hashes: seq<Hash>)

  function Append(a: Partial, b: Partial): Partial {
    Partial(a.bits + b.bits, a.hashes + b.hashes)
  }

  /** TraverseAndBuild: the bits and hashes stored for a node, in depth-first order. */
  function Build(H: PairHash, txids: seq<Hash>, mask: seq<bool>, height: nat, pos: nat): Partial
    requires |mask| == |txids| && pos < Width(|txids|, height)
    decreases height, 1
  {
    var covers := Covers(mask, height, pos);
    if height == 0 || !covers then Partial([covers], [CalcHash(H, txids, height, pos)])
    else
      LeftChildExists(|txids|, height, pos);
      Append(Partial([true], []),
             Append(Build(H, txids, mask, height - 1, pos * 2), BuildRight(H, txids, mask, height, pos)))
  }

  function BuildRight(H: PairHash, txids: seq<Hash>, mask: seq<bool>, height: nat, pos: nat): Partial
    requires |mask| == |txids| && height > 0
    decreases height, 0
  {
    if pos * 2 + 1 < Width(|txids|, height - 1)
    then Build(H, txids, mask, height - 1, pos * 2 + 1)
    else Partial([], [])
  }

  // ----------------------------------------------------------- the decoder

  datatype Match = Match(txid: Hash, index: nat)

  /** The decoder's result and counters after a subtree. */
  datatype Walk = Walk(hash: Hash, bitsUsed: nat, hashUsed: nat, matches: seq<Match>, bad: bool)

  /** TraverseAndExtract: consumes bits and hashes of a message about n transactions. */
  function Extract(H: PairHash, n: nat, data: Partial, height: nat, pos: nat, bitsUsed: nat, hashUsed: nat): Walk {
    if bitsUsed >= |data.bits| then Walk(NULL, bitsUsed, hashUsed, [], true)
    else if height == 0 || !data.bits[bitsUsed] then
      if hashUsed >= |data.hashes| then Walk(NULL, bitsUsed + 1, hashUsed, [], true)
      else
        var hash := data.hashes[hashUsed];
        var matches := if height == 0 && data.bits[bitsUsed] then [Match(hash, pos)] else [];
        Walk(hash, bitsUsed + 1, hashUsed + 1, matches, false)
    else
      var l := Extract(H, n, data, height - 1, pos * 2, bitsUsed + 1, hashUsed);
      if pos * 2 + 1 < Width(n, height - 1)
      then Join(H, l, Extract(H, n, data, height - 1, pos * 2 + 1, l.bitsUsed, l.hashUsed))
      else l.(hash := H(l.hash, l.hash))
  }

  /** Two subtrees with the same hash are refused: all txids of a block are distinct. */
  function Join(H: PairHash, l: Walk, r: Walk): Walk {
    Walk(H(l.hash, r.hash), r.bitsUsed, r.hashUsed, l.matches + r.matches, l.bad || r.bad || r.hash == l.hash)
  }

  /** The checks of ExtractMatches around the walk. */
  predicate Accepts(n: nat, data: Partial, w: Walk) {
    && n > 0 && |data.hashes| <= n && |data.bits| >= |data.hashes|
    && !w.bad
    && (w.bitsUsed + 7) / 8 == (|data.bits| + 7) / 8
    && w.hashUsed == |data.hashes|
  }

  /** An accepted message has no hash too many and less than a byte of bits too many. */
  lemma NothingUnread(n: nat, data: Partial, w: Walk)
    requires Accepts(n, data, w)
    ensures 1 <= n && |data.hashes| <= n && |data.hashes| <= |data.bits| && !w.bad
    ensures w.hashUsed == |data.hashes| && |data.bits| < w.bitsUsed + 8
  {
  }

  /** A node with two equal subtrees is refused, and so is every node above one that is refused. */
  lemma TwinsRefused(H: PairHash, n: nat, data: Partial, height: nat, pos: nat, bitsUsed: nat, hashUsed: nat)
    requires height > 0 && bitsUsed < |data.bits| && data.bits[bitsUsed]
    ensures var l := Extract(H, n, data, height - 1, pos * 2, bitsUsed + 1, hashUsed);
            var r := Extract(H, n, data, height - 1, pos * 2 + 1, l.bitsUsed, l.hashUsed);
            var w := Extract(H, n, data, height, pos, bitsUsed, hashUsed);
            && (l.bad ==> w.bad)
            && (pos * 2 + 1 < Width(n, height - 1) ==> (w.bad <==> l.bad || r.bad || l.hash == r.hash))
  {
  }

  // -------------------------------------------------------- authentication

  /**
    Whatever bits and hashes were sent: if a subtree's hash comes out as the true one
    and no problem was flagged, every match reported below it is the true txid there.
  */
  lemma {:induction false} SubtreeAuthentic(
      H: PairHash, txids: seq<Hash>, data: Partial, height: nat, pos: nat, bitsUsed: nat, hashUsed: nat)
    requires CollisionFree(H) && pos < Width(|txids|, height)
    requires var w := Extract(H, |txids|, data, height, pos, bitsUsed, hashUsed);
             !w.bad && w.hash == CalcHash(H, txids, height, pos)
    ensures Truthful(txids, Extract(H, |txids|, data, height, pos, bitsUsed, hashUsed).matches)
    decreases height
  {
    hide Extract, CalcHash, Width, CollisionFree, Truthful;
    var n := |txids|;
    NotBadHasBit(H, n, data, height, pos, bitsUsed, hashUsed);
    if height == 0 || !data.bits[bitsUsed] {
      LeafAuthentic(H, txids, data, height, pos, bitsUsed, hashUsed);
    } else {
      LeftChildExists(n, height, pos);
      var l := Extract(H, n, data, height - 1, pos * 2, bitsUsed + 1, hashUsed);
      ExtractDescends(H, n, data, height, pos, bitsUsed, hashUsed, l);
      CalcHashDescends(H, txids, height, pos);
      var left := CalcHash(H, txids, height - 1, pos * 2);
      if pos * 2 + 1 < Width(n, height - 1) {
        var r := Extract(H, n, data, height - 1, pos * 2 + 1, l.bitsUsed, l.hashUsed);
        Unpair(H, l.hash, r.hash, left, CalcHash(H, txids, height - 1, pos * 2 + 1));
        SubtreeAuthentic(H, txids, data, height - 1, pos * 2, bitsUsed + 1, hashUsed);
        SubtreeAuthentic(H, txids, data, height - 1, pos * 2 + 1, l.bitsUsed, l.hashUsed);
        TruthfulBoth(txids, l.matches, r.matches);
      } else {
        Unpair(H, l.hash, l.hash, left, left);
        SubtreeAuthentic(H, txids, data, height - 1, pos * 2, bitsUsed + 1, hashUsed);
      }
    }
  }

  /** Every match reports the txid that the block has at its index. */
  ghost predicate Truthful(txids: seq<Hash>, matches: seq<Match>) {
    forall m :: m in matches ==> m.index < |txids| && txids[m.index] == m.txid
  }

  lemma TruthfulBoth(txids: seq<Hash>, a: seq<Match>, b: seq<Match>)
    requires Truthful(txids, a) && Truthful(txids, b)
    ensures Truthful(txids, a + b)
  {
  }

  lemma Unpair(H: PairHash, a: Hash, b: Hash, c: Hash, d: Hash)
    requires CollisionFree(H) && H(a, b) == H(c, d)
    ensures a == c && b == d
  {
  }

  lemma LeafAuthentic(H: PairHash, txids: seq<Hash>, data: Partial, height: nat, pos: nat, bitsUsed: nat, hashUsed: nat)
    requires pos < Width(|txids|, height) && bitsUsed < |data.bits| && (height == 0 || !data.bits[bitsUsed])
    requires Extract(H, |txids|, data, height, pos, bitsUsed, hashUsed).hash == CalcHash(H, txids, height, pos)
    requires !Extract(H, |txids|, data, height, pos, bitsUsed, hashUsed).bad
    ensures Truthful(txids, Extract(H, |txids|, data, height, pos, bitsUsed, hashUsed).matches)
  {
  }

  lemma NotBadHasBit(H: PairHash, n: nat, data: Partial, height: nat, pos: nat, bitsUsed: nat, hashUsed: nat)
    requires !Extract(H, n, data, height, pos, bitsUsed, hashUsed).bad
    ensures bitsUsed < |data.bits|
  {
  }

  lemma CalcHashDescends(H: PairHash, txids: seq<Hash>, height: nat, pos: nat)
    requires height > 0 && pos < Width(|txids|, height)
    ensures pos * 2 < Width(|txids|, height - 1)
    ensures CalcHash(H, txids, height, pos) ==
            H(CalcHash(H, txids, height - 1, pos * 2),
              if pos * 2 + 1 < Width(|txids|, height - 1) then CalcHash(H, txids, height - 1, pos * 2 + 1)
              else CalcHash(H, txids, height - 1, pos * 2))
  {
    LeftChildExists(|txids|, height, pos);
  }

  /** A message that extracts to the root of a list of the stated length reports only true positions. */
  lemma Authentication(H: PairHash, txids: seq<Hash>, data: Partial)
    requires CollisionFree(H) && txids != []
    requires var w := Extract(H, |txids|, data, Height(|txids|), 0, 0, 0);
             Accepts(|txids|, data, w) && w.hash == Root(H, txids)
    ensures var w := Extract(H, |txids|, data, Height(|txids|), 0, 0, 0);
            forall m :: m in w.matches ==> m.index < |txids| && txids[m.index] == m.txid
  {
    SubtreeAuthentic(H, txids, data, Height(|txids|), 0, 0, 0);
  }

  // ------------------------------------------------------------ round trip

  /** The masked txids with their indices, in order, between two leaf positions. */
  function Selected(txids: seq<Hash>, mask: seq<bool>, lo: nat, hi: nat): seq<Match>
    requires |mask| == |txids|
    decreases hi - lo
  {
    if lo >= hi || lo >= |txids| then []
    else (if mask[lo] then [Match(txids[lo], lo)] else []) + Selected(txids, mask, lo + 1, hi)
  }

  lemma {:induction false} SelectedSplit(txids: seq<Hash>, mask: seq<bool>, lo: nat, mid: nat, hi: nat)
    requires |mask| == |txids| && lo <= mid <= hi
    ensures Selected(txids, mask, lo, hi) == Selected(txids, mask, lo, mid) + Selected(txids, mask, mid, hi)
    decreases mid - lo
  {
    if lo < mid && lo < |txids| {
      SelectedSplit(txids, mask, lo + 1, mid, hi);
      var first := if mask[lo] then [Match(txids[lo], lo)] else [];
      var a, b := Selected(txids, mask, lo + 1, mid), Selected(txids, mask, mid, hi);
      assert first + (a + b) == (first + a) + b;
    } else if lo >= |txids| {
      SelectedPastEnd(txids, mask, mid, hi);
    }
  }

  lemma SelectedPastEnd(txids: seq<Hash>, mask: seq<bool>, lo: nat, hi: nat)
    requires |mask| == |txids| && (lo >= hi || lo >= |txids|)
    ensures Selected(txids, mask, lo, hi) == []
  {
  }

  lemma {:induction false} SelectedNone(txids: seq<Hash>, mask: seq<bool>, lo: nat, hi: nat)
    requires |mask| == |txids|
    ensures Selected(txids, mask, lo, hi) == [] <==> !AnyMatch(mask, lo, hi)
    decreases hi - lo
  {
    if lo < hi && lo < |txids| {
      SelectedNone(txids, mask, lo + 1, hi);
      assert AnyMatch(mask, lo, hi) <==> mask[lo] || AnyMatch(mask, lo + 1, hi) by {
        if AnyMatch(mask, lo, hi) && !mask[lo] {
          var p :| lo <= p < hi && p < |mask| && mask[p];
          assert lo + 1 <= p;
        }
      }
    }
  }

  function SelectedBelow(txids: seq<Hash>, mask: seq<bool>, height: nat, pos: nat): seq<Match>
    requires |mask| == |txids|
  {
    Selected(txids, mask, Shl(pos, height), Shl(pos + 1, height))
  }

  lemma SelectedChildren(txids: seq<Hash>, mask: seq<bool>, height: nat, pos: nat)
    requires |mask| == |txids| && height > 0
    ensures SelectedBelow(txids, mask, height, pos) ==
            SelectedBelow(txids, mask, height - 1, pos * 2) + SelectedBelow(txids, mask, height - 1, pos * 2 + 1)
    ensures pos * 2 + 1 >= Width(|txids|, height - 1) ==> SelectedBelow(txids, mask, height - 1, pos * 2 + 1) == []
  {
    var lo, mid, hi := Shl(pos, height), Shl(pos * 2 + 1, height - 1), Shl(pos + 1, height);
    ShlMonotone(pos * 2, pos * 2 + 1, height - 1);
    ShlMonotone(pos * 2 + 1, pos * 2 + 2, height - 1);
    SelectedSplit(txids, mask, lo, mid, hi);
    NodeCoversLeaf(|txids|, height - 1, pos * 2 + 1);
    if pos * 2 + 1 >= Width(|txids|, height - 1) {
      SelectedPastEnd(txids, mask, mid, hi);
    }
  }

  /** Different nodes at a height hash differently: their leftmost leaves do. */
  lemma {:induction false} NodesDiffer(H: PairHash, txids: seq<Hash>, height: nat, a: nat, b: nat)
    requires CollisionFree(H) && Distinct(txids)
    requires a < b < Width(|txids|, height)
    ensures CalcHash(H, txids, height, a) != CalcHash(H, txids, height, b)
  {
    if height > 0 {
      LeftChildExists(|txids|, height, a);
      LeftChildExists(|txids|, height, b);
      NodesDiffer(H, txids, height - 1, a * 2, b * 2);
    }
  }

  /** data holds part at the given offsets. */
  ghost predicate Holds(data: Partial, bitsUsed: nat, hashUsed: nat, part: Partial) {
    && bitsUsed + |part.bits| <= |data.bits|
    && hashUsed + |part.hashes| <= |data.hashes|
    && (forall i :: 0 <= i < |part.bits| ==> data.bits[bitsUsed + i] == part.bits[i])
    && (forall i :: 0 <= i < |part.hashes| ==> data.hashes[hashUsed + i] == part.hashes[i])
  }

  lemma HoldsAppend(data: Partial, bitsUsed: nat, hashUsed: nat, a: Partial, b: Partial)
    requires Holds(data, bitsUsed, hashUsed, Append(a, b))
    ensures Holds(data, bitsUsed, hashUsed, a)
    ensures Holds(data, bitsUsed + |a.bits|, hashUsed + |a.hashes|, b)
  {
    var c := Append(a, b);
    assert forall i :: 0 <= i < |a.bits| ==> c.bits[i] == a.bits[i];
    assert forall i :: 0 <= i < |a.hashes| ==> c.hashes[i] == a.hashes[i];
    assert forall i :: 0 <= i < |b.bits| ==> c.bits[|a.bits| + i] == b.bits[i];
    assert forall i :: 0 <= i < |b.hashes| ==> c.hashes[|a.hashes| + i] == b.hashes[i];
  }

  /** What decoding should report for a node whose encoding starts at the given offsets. */
  function Expected(H: PairHash, txids: seq<Hash>, mask: seq<bool>, height: nat, pos: nat, bitsUsed: nat,
                    hashUsed: nat): Walk
    requires |mask| == |txids| && pos < Width(|txids|, height)
  {
    var part := Build(H, txids, mask, height, pos);
    Walk(CalcHash(H, txids, height, pos), bitsUsed + |part.bits|, hashUsed + |part.hashes|,
         SelectedBelow(txids, mask, height, pos), false)
  }

  /** Decoding what was encoded for a node gives its hash and its matches, and uses all of it. */
  lemma {:induction false} SubtreeRoundTrip(
      H: PairHash, txids: seq<Hash>, mask: seq<bool>, data: Partial, height: nat, pos: nat, bitsUsed: nat,
      hashUsed: nat)
    requires CollisionFree(H) && Distinct(txids)
    requires |mask| == |txids| && pos < Width(|txids|, height)
    requires Holds(data, bitsUsed, hashUsed, Build(H, txids, mask, height, pos))
    ensures Extract(H, |txids|, data, height, pos, bitsUsed, hashUsed) ==
            Expected(H, txids, mask, height, pos, bitsUsed, hashUsed)
    decreases height
  {
    hide Build, BuildRight, Extract, CalcHash, SelectedBelow, Width, Holds, CollisionFree, Distinct, Covers;
    if height > 0 && Covers(mask, height, pos) {
      LeftChildExists(|txids|, height, pos);
      RightBuilt(H, txids, mask, height, pos);
      ChildrenHeld(H, txids, mask, data, height, pos, bitsUsed, hashUsed);
      SubtreeRoundTrip(H, txids, mask, data, height - 1, pos * 2, bitsUsed + 1, hashUsed);
      var l := Expected(H, txids, mask, height - 1, pos * 2, bitsUsed + 1, hashUsed);
      if pos * 2 + 1 < Width(|txids|, height - 1) {
        SubtreeRoundTrip(H, txids, mask, data, height - 1, pos * 2 + 1, l.bitsUsed, l.hashUsed);
      }
      ExpectedJoins(H, txids, mask, height, pos, bitsUsed, hashUsed);
      ExtractDescends(H, |txids|, data, height, pos, bitsUsed, hashUsed, l);
    } else {
      LeafRoundTrip(H, txids, mask, data, height, pos, bitsUsed, hashUsed);
    }
  }

  lemma RightBuilt(H: PairHash, txids: seq<Hash>, mask: seq<bool>, height: nat, pos: nat)
    requires |mask| == |txids| && height > 0
    ensures pos * 2 + 1 < Width(|txids|, height - 1) ==>
              BuildRight(H, txids, mask, height, pos) == Build(H, txids, mask, height - 1, pos * 2 + 1)
  {
  }

  lemma ExtractDescends(H: PairHash, n: nat, data: Partial, height: nat, pos: nat, bitsUsed: nat, hashUsed: nat,
                        l: Walk)
    requires height > 0 && bitsUsed < |data.bits| && data.bits[bitsUsed]
    requires l == Extract(H, n, data, height - 1, pos * 2, bitsUsed + 1, hashUsed)
    ensures Extract(H, n, data, height, pos, bitsUsed, hashUsed) ==
            if pos * 2 + 1 < Width(n, height - 1)
            then Join(H, l, Extract(H, n, data, height - 1, pos * 2 + 1, l.bitsUsed, l.hashUsed))
            else l.(hash := H(l.hash, l.hash))
  {
  }

  lemma LeafRoundTrip(
      H: PairHash, txids: seq<Hash>, mask: seq<bool>, data: Partial, height: nat, pos: nat, bitsUsed: nat,
      hashUsed: nat)
    requires |mask| == |txids| && pos < Width(|txids|, height)
    requires height == 0 || !Covers(mask, height, pos)
    requires Holds(data, bitsUsed, hashUsed, Build(H, txids, mask, height, pos))
    ensures Extract(H, |txids|, data, height, pos, bitsUsed, hashUsed) ==
            Expected(H, txids, mask, height, pos, bitsUsed, hashUsed)
  {
    var part := Build(H, txids, mask, height, pos);
    assert data.bits[bitsUsed + 0] == part.bits[0] && data.hashes[hashUsed + 0] == part.hashes[0];
    SelectedNone(txids, mask, Shl(pos, height), Shl(pos + 1, height));
    if height == 0 {
      assert Covers(mask, 0, pos) <==> mask[pos];
      SelectedPastEnd(txids, mask, pos + 1, pos + 1);
    }
  }

  lemma ChildrenHeld(
      H: PairHash, txids: seq<Hash>, mask: seq<bool>, data: Partial, height: nat, pos: nat, bitsUsed: nat,
      hashUsed: nat)
    requires |mask| == |txids| && 0 < height && pos < Width(|txids|, height) && Covers(mask, height, pos)
    requires Holds(data, bitsUsed, hashUsed, Build(H, txids, mask, height, pos))
    ensures pos * 2 < Width(|txids|, height - 1)
    ensures bitsUsed < |data.bits| && data.bits[bitsUsed]
    ensures var left := Build(H, txids, mask, height - 1, pos * 2);
            && Holds(data, bitsUsed + 1, hashUsed, left)
            && Holds(data, bitsUsed + 1 + |left.bits|, hashUsed + |left.hashes|,
                     BuildRight(H, txids, mask, height, pos))
  {
    LeftChildExists(|txids|, height, pos);
    var left := Build(H, txids, mask, height - 1, pos * 2);
    var right := BuildRight(H, txids, mask, height, pos);
    var bit := Partial([true], []);
    HoldsAppend(data, bitsUsed, hashUsed, bit, Append(left, right));
    assert data.bits[bitsUsed + 0] == bit.bits[0];
    HoldsAppend(data, bitsUsed + 1, hashUsed, left, right);
  }

  lemma ExpectedJoins(H: PairHash, txids: seq<Hash>, mask: seq<bool>, height: nat, pos: nat, bitsUsed: nat,
                      hashUsed: nat)
    requires CollisionFree(H) && Distinct(txids)
    requires |mask| == |txids| && 0 < height && pos < Width(|txids|, height) && Covers(mask, height, pos)
    ensures pos * 2 < Width(|txids|, height - 1)
    ensures var l := Expected(H, txids, mask, height - 1, pos * 2, bitsUsed + 1, hashUsed);
            Expected(H, txids, mask, height, pos, bitsUsed, hashUsed) ==
            if pos * 2 + 1 < Width(|txids|, height - 1)
            then Join(H, l, Expected(H, txids, mask, height - 1, pos * 2 + 1, l.bitsUsed, l.hashUsed))
            else l.(hash := H(l.hash, l.hash))
  {
    hide Build, CalcHash, SelectedBelow, Width, CollisionFree, Distinct;
    LeftChildExists(|txids|, height, pos);
    SelectedChildren(txids, mask, height, pos);
    BuildLength(H, txids, mask, height, pos);
    RightBuilt(H, txids, mask, height, pos);
    CalcHashDescends(H, txids, height, pos);
    if pos * 2 + 1 < Width(|txids|, height - 1) {
      NodesDiffer(H, txids, height - 1, pos * 2, pos * 2 + 1);
    }
  }

  lemma BuildLength(H: PairHash, txids: seq<Hash>, mask: seq<bool>, height: nat, pos: nat)
    requires |mask| == |txids| && 0 < height && pos < Width(|txids|, height) && Covers(mask, height, pos)
    ensures pos * 2 < Width(|txids|, height - 1)
    ensures var left, right := Build(H, txids, mask, height - 1, pos * 2), BuildRight(H, txids, mask, height, pos);
            var part := Build(H, txids, mask, height, pos);
            && |part.bits| == 1 + |left.bits| + |right.bits|
            && |part.hashes| == |left.hashes| + |right.hashes|
  {
    LeftChildExists(|txids|, height, pos);
  }

  // ----------------------------------------------------------- size bounds

  /** Leaves of the block below a node. */
  function LeavesBelow(n: nat, height: nat, pos: nat): int {
    Min(n, Shl(pos + 1, height)) - Shl(pos, height)
  }

  lemma LeavesBelowChildren(n: nat, height: nat, pos: nat)
    requires height > 0
    ensures pos * 2 + 1 < Width(n, height - 1) ==>
              LeavesBelow(n, height, pos)
                == LeavesBelow(n, height - 1, pos * 2) + LeavesBelow(n, height - 1, pos * 2 + 1)
    ensures pos * 2 + 1 >= Width(n, height - 1) ==>
              LeavesBelow(n, height, pos) == LeavesBelow(n, height - 1, pos * 2)
  {
    NodeCoversLeaf(n, height - 1, pos * 2 + 1);
    ShlMonotone(pos * 2 + 1, pos * 2 + 2, height - 1);
  }

  /** At most one hash is stored per leaf, and at least one bit per hash. */
  lemma {:induction false} HashesPerLeaf(H: PairHash, txids: seq<Hash>, mask: seq<bool>, height: nat, pos: nat)
    requires |mask| == |txids| && pos < Width(|txids|, height)
    ensures var part := Build(H, txids, mask, height, pos);
            1 <= |part.hashes| <= |part.bits| && |part.hashes| <= LeavesBelow(|txids|, height, pos)
    decreases height
  {
    NodeCoversLeaf(|txids|, height, pos);
    ShlMonotone(pos, pos + 1, height);
    if height > 0 && Covers(mask, height, pos) {
      LeftChildExists(|txids|, height, pos);
      LeavesBelowChildren(|txids|, height, pos);
      BuildLength(H, txids, mask, height, pos);
      HashesPerLeaf(H, txids, mask, height - 1, pos * 2);
      if pos * 2 + 1 < Width(|txids|, height - 1) {
        HashesPerLeaf(H, txids, mask, height - 1, pos * 2 + 1);
      }
    }
  }

  function Product(a: nat, b: nat): nat { a * b }

  lemma OnePerLevel(height: nat, left: nat, right: nat)
    requires height > 0
    ensures Product(left + right, height) == Product(left, height - 1) + Product(right, height - 1) + left + right
  {
    assert (left + right) * height == left * (height - 1) + right * (height - 1) + left + right;
  }

  /** Apart from one, at most one hash is stored per match and level. */
  lemma {:induction false} HashesPerMatch(H: PairHash, txids: seq<Hash>, mask: seq<bool>, height: nat, pos: nat)
    requires |mask| == |txids| && pos < Width(|txids|, height)
    ensures |Build(H, txids, mask, height, pos).hashes| <=
            1 + Product(|SelectedBelow(txids, mask, height, pos)|, height)
    decreases height
  {
    if height > 0 && Covers(mask, height, pos) {
      LeftChildExists(|txids|, height, pos);
      BuildLength(H, txids, mask, height, pos);
      SelectedChildren(txids, mask, height, pos);
      SelectedNone(txids, mask, Shl(pos, height), Shl(pos + 1, height));
      var left := |SelectedBelow(txids, mask, height - 1, pos * 2)|;
      var right := |SelectedBelow(txids, mask, height - 1, pos * 2 + 1)|;
      assert left + right == |SelectedBelow(txids, mask, height, pos)| > 0;
      OnePerLevel(height, left, right);
      HashesPerMatch(H, txids, mask, height - 1, pos * 2);
      if pos * 2 + 1 < Width(|txids|, height - 1) {
        HashesPerMatch(H, txids, mask, height - 1, pos * 2 + 1);
      }
    }
  }

  /** How many nodes the encoder descends through that have a left child only. */
  function OnlyChildren(n: nat, mask: seq<bool>, height: nat, pos: nat): nat {
    if height == 0 || !Covers(mask, height, pos) then 0
    else if pos * 2 + 1 < Width(n, height - 1)
    then OnlyChildren(n, mask, height - 1, pos * 2) + OnlyChildren(n, mask, height - 1, pos * 2 + 1)
    else 1 + OnlyChildren(n, mask, height - 1, pos * 2)
  }

  /**
    The header promises at most 2*N-1 flag bits for N hashes. The exact count is 2*N-1 plus the
    descended nodes with an only child, so the promise holds exactly when there is none.
  */
  lemma {:induction false} BitCount(H: PairHash, txids: seq<Hash>, mask: seq<bool>, height: nat, pos: nat)
    requires |mask| == |txids| && pos < Width(|txids|, height)
    ensures var part := Build(H, txids, mask, height, pos);
            |part.bits| == 2 * |part.hashes| - 1 + OnlyChildren(|txids|, mask, height, pos)
    decreases height
  {
    if height > 0 && Covers(mask, height, pos) {
      LeftChildExists(|txids|, height, pos);
      BuildLength(H, txids, mask, height, pos);
      BitCount(H, txids, mask, height - 1, pos * 2);
      if pos * 2 + 1 < Width(|txids|, height - 1) {
        BitCount(H, txids, mask, height - 1, pos * 2 + 1);
      }
    }
  }

  /** Three transactions with the last one matched break it. */
  lemma BitPromiseFails(H: PairHash, txids: seq<Hash>)
    requires |txids| == 3
    ensures 0 < Width(3, 2)
    ensures var part := Build(H, txids, [false, false, true], 2, 0);
            |part.bits| > 2 * |part.hashes| - 1
  {
    var mask := [false, false, true];
    WidthHalves(3, 1);
    WidthHalves(3, 2);
    BitCount(H, txids, mask, 2, 0);
    assert Covers(mask, 1, 1) by { assert Shl(1, 1) == 2 && Shl(2, 1) == 4 && mask[2]; }
    assert Covers(mask, 2, 0) by { assert Shl(0, 2) == 0 && Shl(1, 2) == 4 && mask[2]; }
    assert OnlyChildren(3, mask, 1, 1) >= 1;
  }

  /** What the constructor stores. */
  function Encode(H: PairHash, txids: seq<Hash>, mask: seq<bool>): Partial
    requires |mask| == |txids| && txids != []
  {
    Build(H, txids, mask, Height(|txids|), 0)
  }

  /** The whole block lies below the root. */
  lemma RootCoversAll(txids: seq<Hash>, mask: seq<bool>)
    requires |mask| == |txids| && txids != []
    ensures SelectedBelow(txids, mask, Height(|txids|), 0) == Selected(txids, mask, 0, |txids|)
    ensures LeavesBelow(|txids|, Height(|txids|), 0) == |txids|
  {
    var h := Height(|txids|);
    NodeCoversLeaf(|txids|, h, 1);
    ShlDoubles(0, h);
    SelectedSplit(txids, mask, 0, |txids|, Shl(1, h));
    SelectedPastEnd(txids, mask, |txids|, Shl(1, h));
  }

  /**
    Building and then extracting, with the bits padded to whole bytes or not, is accepted
    and returns the full root and exactly the masked txids with their indices, in order.
  */
  lemma RoundTrip(H: PairHash, txids: seq<Hash>, mask: seq<bool>, padding: seq<bool>)
    requires CollisionFree(H) && Distinct(txids)
    requires |mask| == |txids| && txids != []
    requires padding == [] || (|padding| < 8 && (|Encode(H, txids, mask).bits| + |padding|) % 8 == 0)
    ensures var part := Encode(H, txids, mask);
            var data := part.(bits := part.bits + padding);
            var w := Extract(H, |txids|, data, Height(|txids|), 0, 0, 0);
            && Accepts(|txids|, data, w)
            && w.hash == Root(H, txids)
            && w.matches == Selected(txids, mask, 0, |txids|)
  {
    hide Extract, Build, Height, Width, Accepts, CalcHash, Holds, SelectedBelow, Selected, LeavesBelow, CollisionFree,
         Distinct;
    var h := Height(|txids|);
    var part := Encode(H, txids, mask);
    var data := part.(bits := part.bits + padding);
    PaddedHolds(part, padding);
    SubtreeRoundTrip(H, txids, mask, data, h, 0, 0, 0);
    RootCoversAll(txids, mask);
    ExpectedAccepted(H, txids, mask, h, 0, data, |padding|);
  }

  lemma PaddedHolds(part: Partial, padding: seq<bool>)
    ensures Holds(part.(bits := part.bits + padding), 0, 0, part)
  {
  }

  lemma ExpectedAccepted(H: PairHash, txids: seq<Hash>, mask: seq<bool>, height: nat, pos: nat, data: Partial,
                         padding: nat)
    requires |mask| == |txids| && pos < Width(|txids|, height)
    requires LeavesBelow(|txids|, height, pos) <= |txids|
    requires var part := Build(H, txids, mask, height, pos);
             && data.hashes == part.hashes && |data.bits| == |part.bits| + padding
             && (padding == 0 || (padding < 8 && (|part.bits| + padding) % 8 == 0))
    ensures Accepts(|txids|, data, Expected(H, txids, mask, height, pos, 0, 0))
  {
    hide Build, CalcHash, SelectedBelow, Width, LeavesBelow;
    HashesPerLeaf(H, txids, mask, height, pos);
    PaddingFillsByte(|Build(H, txids, mask, height, pos).bits|, padding);
  }

  lemma PaddingFillsByte(bits: nat, padding: nat)
    requires padding == 0 || (padding < 8 && (bits + padding) % 8 == 0)
    ensures (bits + 7) / 8 == (bits + padding + 7) / 8
  {
  }

  /** The documented bounds on the number of stored hashes. */
  lemma EncodedSize(H: PairHash, txids: seq<Hash>, mask: seq<bool>)
    requires |mask| == |txids| && txids != []
    ensures |Encode(H, txids, mask).hashes| <=
            Min(|txids|, 1 + |Selected(txids, mask, 0, |txids|)| * Height(|txids|))
  {
    RootCoversAll(txids, mask);
    HashesPerLeaf(H, txids, mask, Height(|txids|), 0);
    HashesPerMatch(H, txids, mask, Height(|txids|), 0);
  }
}
