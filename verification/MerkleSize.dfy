/**
The size of a serialized partial Merkle tree. The header of the source guarantees at most
10 + ceil(32.25 * N) bytes for N hashes; this module says exactly when that is kept.
*/
module MerkleSize {
  import opened Powers
  import opened MerkleSpec

  /** The bytes of a length in front of a list. */
  function CompactSize(n: nat): nat {
    if n < 253 then 1 else if n <= 0xffff then 3 else if n <= 0xffff_ffff then 5 else 9
  }

  function FlagBytes(bits: nat): nat {
    (bits + 7) / 8
  }

  /** The number of transactions, the hashes, and the flag bits packed into bytes. */
  function SerializedSize(part: Partial): nat {
    var b := FlagBytes(|part.bits|);
    4 + CompactSize(|part.hashes|) + 32 * |part.hashes| + CompactSize(b) + b
  }

  /** 10 + ceil(32.25 * N) */
  function Promised(hashes: nat): nat {
    10 + (129 * hashes + 3) / 4
  }

  /** How many only children the promise leaves room for when N is a multiple of four. */
  function Spare(hashes: nat): int {
    if hashes < 253 then 33 else if hashes <= 1000 then 17 else if hashes <= 1004 then 9 else if hashes <= 0xffff then 1
       else -7
  }

  /** What N lacks to a multiple of four. */
  function Lacking(hashes: nat): nat {
    (4 - hashes % 4) % 4
  }

  lemma SizeArithmetic(n: nat, k: nat)
    requires n >= 1
    ensures var b := FlagBytes(2 * n - 1 + k);
            4 + CompactSize(n) + 32 * n + CompactSize(b) + b <= Promised(n) <==> k <= Spare(n) + 2 * Lacking(n)
  {
    var c, r := (n + 3) / 4, Lacking(n);
    assert n == 4 * c - r && Promised(n) == 10 + 32 * n + c;
    var b := FlagBytes(2 * n - 1 + k);
    assert 8 * b >= 8 * c - 2 * r - 1 + k && 8 * b <= 8 * c - 2 * r + 6 + k;
  }

  /**
    A partial tree keeps the promised size exactly when the encoder descended through few enough nodes
    with an only child: none more than 33 for fewer than 253 hashes, hardly any from 1005 hashes on,
    and never with more than 65535 hashes.
  */
  lemma SizeExact(H: PairHash, txids: seq<Hash>, mask: seq<bool>)
    requires |mask| == |txids| && txids != []
    ensures var part := Encode(H, txids, mask);
            var n := |part.hashes|;
            SerializedSize(part) <= Promised(n) <==>
            OnlyChildren(|txids|, mask, Height(|txids|), 0) <= Spare(n) + 2 * Lacking(n)
  {
    hide Build, Height, Width, OnlyChildren;
    HashesPerLeaf(H, txids, mask, Height(|txids|), 0);
    BitCount(H, txids, mask, Height(|txids|), 0);
    SizeArithmetic(|Encode(H, txids, mask).hashes|, OnlyChildren(|txids|, mask, Height(|txids|), 0));
  }

  // -------------------------------------------------------- only children

  /** A node that is not the last of its level has all descendants. */
  lemma {:induction false} Complete(n: nat, mask: seq<bool>, height: nat, pos: nat)
    requires pos + 1 < Width(n, height)
    ensures OnlyChildren(n, mask, height, pos) == 0
    decreases height
  {
    hide Width, Covers;
    if height > 0 {
      LeftChildExists(n, height, pos + 1);
      Complete(n, mask, height - 1, pos * 2);
      Complete(n, mask, height - 1, pos * 2 + 1);
    }
  }

  /** At most one only child on every level. */
  lemma {:induction false} OnePerHeight(n: nat, mask: seq<bool>, height: nat, pos: nat)
    requires pos < Width(n, height)
    ensures OnlyChildren(n, mask, height, pos) <= height
    decreases height
  {
    hide Width, Covers;
    if height > 0 {
      LeftChildExists(n, height, pos);
      if pos * 2 + 1 < Width(n, height - 1) {
        Complete(n, mask, height - 1, pos * 2);
        OnePerHeight(n, mask, height - 1, pos * 2 + 1);
      } else {
        OnePerHeight(n, mask, height - 1, pos * 2);
      }
    }
  }

  /** Fewer than 253 hashes keep the promise in every tree of at most 33 levels. */
  lemma SmallPromise(H: PairHash, txids: seq<Hash>, mask: seq<bool>)
    requires |mask| == |txids| && txids != [] && Height(|txids|) <= 33
    requires |Encode(H, txids, mask).hashes| < 253
    ensures var part := Encode(H, txids, mask);
            SerializedSize(part) <= Promised(|part.hashes|)
  {
    hide Width, OnlyChildren, Build;
    OnePerHeight(|txids|, mask, Height(|txids|), 0);
    SizeExact(H, txids, mask);
  }

  // ------------------------------------------------------ all transactions

  ghost predicate Full(mask: seq<bool>) {
    forall i :: 0 <= i < |mask| ==> mask[i]
  }

  lemma FullCovers(mask: seq<bool>, height: nat, pos: nat)
    requires Full(mask) && pos < Width(|mask|, height)
    ensures Covers(mask, height, pos)
  {
    NodeCoversLeaf(|mask|, height, pos);
    ShlMonotone(pos, pos + 1, height);
    assert mask[Shl(pos, height)];
  }

  /** When all transactions are matched, every leaf is stored. */
  lemma {:induction false} FullHashes(H: PairHash, txids: seq<Hash>, mask: seq<bool>, height: nat, pos: nat)
    requires |mask| == |txids| && Full(mask) && pos < Width(|txids|, height)
    ensures |Build(H, txids, mask, height, pos).hashes| == LeavesBelow(|txids|, height, pos)
    decreases height
  {
    hide Width, Covers, LeavesBelow, Full;
    FullCovers(mask, height, pos);
    if height > 0 {
      LeftChildExists(|txids|, height, pos);
      LeavesBelowChildren(|txids|, height, pos);
      BuildLength(H, txids, mask, height, pos);
      RightBuilt(H, txids, mask, height, pos);
      FullHashes(H, txids, mask, height - 1, pos * 2);
      if pos * 2 + 1 < Width(|txids|, height - 1) {
        FullHashes(H, txids, mask, height - 1, pos * 2 + 1);
      }
    } else {
      LeafAlone(|txids|, pos);
    }
  }

  lemma LeafAlone(n: nat, pos: nat)
    requires pos < Width(n, 0)
    ensures LeavesBelow(n, 0, pos) == 1
  {
  }

  /** The levels below a height with an odd number of nodes. */
  function OddLevels(n: nat, height: nat): nat {
    if height == 0 then 0 else OddLevels(n, height - 1) + Width(n, height - 1) % 2
  }

  /** Then the last node of a level counts one only child for every odd level below. */
  lemma {:induction false} FullOnlyChildren(n: nat, mask: seq<bool>, height: nat)
    requires |mask| == n && Full(mask) && Width(n, height) >= 1
    ensures OnlyChildren(n, mask, height, Width(n, height) - 1) == OddLevels(n, height)
    decreases height
  {
    hide Width, Covers, Full;
    if height > 0 {
      var last := Width(n, height) - 1;
      FullCovers(mask, height, last);
      WidthHalves(n, height);
      LeftChildExists(n, height, last);
      FullOnlyChildren(n, mask, height - 1);
      if Width(n, height - 1) % 2 == 0 {
        Complete(n, mask, height - 1, last * 2);
      }
    }
  }

  lemma WidthsOf1028()
    ensures Width(1028, 0) == 1028 && Width(1028, 1) == 514 && Width(1028, 2) == 257 && Width(1028, 3) == 129
    ensures Width(1028, 4) == 65 && Width(1028, 5) == 33 && Width(1028, 6) == 17 && Width(1028, 7) == 9
    ensures Width(1028, 8) == 5 && Width(1028, 9) == 3 && Width(1028, 10) == 2 && Width(1028, 11) == 1
  {
    assert Width(1028, 0) == 1028;
    hide Width;
    WidthHalves(1028, 1); WidthHalves(1028, 2); WidthHalves(1028, 3); WidthHalves(1028, 4);
    WidthHalves(1028, 5); WidthHalves(1028, 6); WidthHalves(1028, 7); WidthHalves(1028, 8);
    WidthHalves(1028, 9); WidthHalves(1028, 10); WidthHalves(1028, 11);
  }

  lemma OddLevelsNext(n: nat, height: nat)
    ensures OddLevels(n, height + 1) == OddLevels(n, height) + Width(n, height) % 2 && OddLevels(n, 0) == 0
  {
  }

  lemma HeightOf1028()
    ensures Height(1028) == 11 && Width(1028, 11) == 1
  {
    hide Width;
    WidthsOf1028();
  }

  lemma OddLevelsOf1028()
    ensures OddLevels(1028, 11) == 8
  {
    hide Width, OddLevels;
    WidthsOf1028();
    OddLevelsNext(1028, 0); OddLevelsNext(1028, 1); OddLevelsNext(1028, 2); OddLevelsNext(1028, 3);
    OddLevelsNext(1028, 4); OddLevelsNext(1028, 5); OddLevelsNext(1028, 6); OddLevelsNext(1028, 7);
    OddLevelsNext(1028, 8); OddLevelsNext(1028, 9); OddLevelsNext(1028, 10);
  }

  /** A block of 1028 transactions that are all matched: one byte more than guaranteed. */
  lemma SizePromiseFails(H: PairHash, txids: seq<Hash>)
    requires |txids| == 1028
    ensures var part := Encode(H, txids, seq(1028, i => true));
            |part.hashes| == 1028 && SerializedSize(part) == Promised(|part.hashes|) + 1
  {
    hide Width, OnlyChildren, Build, LeavesBelow, OddLevels;
    var mask := seq(1028, i => true);
    HeightOf1028();
    OddLevelsOf1028();
    RootCoversAll(txids, mask);
    FullHashes(H, txids, mask, 11, 0);
    FullOnlyChildren(1028, mask, 11);
    BitCount(H, txids, mask, 11, 0);
    SizeOf1028(Encode(H, txids, mask));
  }

  lemma SizeOf1028(part: Partial)
    requires |part.hashes| == 1028 && |part.bits| == 2063
    ensures SerializedSize(part) == Promised(|part.hashes|) + 1
  {
    var n, b := |part.hashes|, FlagBytes(|part.bits|);
    assert b == 258;
    assert CompactSize(n) == 3 && CompactSize(b) == 3;
    assert SerializedSize(part) == 4 + CompactSize(n) + 32 * n + CompactSize(b) + b;
  }
}
