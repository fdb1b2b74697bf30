/**
CPartialMerkleTree as an object: the constructor's and the decoder's recursive walks,
which push to and read from the object's vectors, and the packing of flag bits into
bytes. Each walk is proved to compute the function of the same purpose in MerkleSpec.
*/
module MerkleBlock {
  import opened Powers
  import opened MerkleSpec
  import opened Sets

  /** Bit k of a byte. */
  function Bit(k: nat): bv8
    requires k < 8
  {
    match k
    case 0 => 1
    case 1 => 2
    case 2 => 4
    case 3 => 8
    case 4 => 16
    case 5 => 32
    case 6 => 64
    case _ => 128
  }

  lemma SetBit(b: bv8, j: nat, k: nat)
    requires j < 8 && k < 8
    ensures (b | Bit(k)) & Bit(j) != 0 <==> j == k || b & Bit(j) != 0
  {
  }

  /** Bit p of a byte vector, least significant bit first. */
  predicate BitAt(bytes: seq<bv8>, p: nat)
    requires p / 8 < |bytes|
  {
    bytes[p / 8] & Bit(p % 8) != 0
  }

  /** The bytes carry the first count flag bits and zeros after them. */
  ghost predicate Packed(bytes: seq<bv8>, bits: seq<bool>, count: nat)
    requires count <= |bits|
  {
    forall p :: 0 <= p < 8 * |bytes| ==> (BitAt(bytes, p) <==> p < count && bits[p])
  }

  lemma PackNext(bytes: seq<bv8>, bits: seq<bool>, count: nat)
    requires count < |bits| && count / 8 < |bytes| && Packed(bytes, bits, count)
    ensures Packed(bytes[count / 8 := bytes[count / 8] | (if bits[count] then Bit(count % 8) else 0)], bits, count + 1)
  {
    var bytes' := bytes[count / 8 := bytes[count / 8] | (if bits[count] then Bit(count % 8) else 0)];
    forall p | 0 <= p < 8 * |bytes|
      ensures BitAt(bytes', p) <==> p < count + 1 && bits[p]
    {
      assert BitAt(bytes, p) <==> p < count && bits[p];
      if p / 8 == count / 8 {
        SetBit(bytes[p / 8], p % 8, count % 8);
      }
    }
  }

  class PartialMerkleTree {
    const H: PairHash
    var nTransactions: nat
    var vBits: seq<bool>
    var vHash: seq<Hash>
    var fBad: bool

    function Data(): Partial
      reads this
    {
      Partial(vBits, vHash)
    }

    constructor (H: PairHash, txids: seq<Hash>, mask: seq<bool>)
      requires txids != [] && |mask| == |txids|
      ensures this.H == H && nTransactions == |txids| && !fBad
      ensures Data() == Encode(H, txids, mask)
    {
      this.H := H;
      nTransactions, vBits, vHash, fBad := |txids|, [], [], false;
      new;
      var height := TreeHeight();
      TraverseAndBuild(height, 0, txids, mask);
    }

    method TreeHeight() returns (height: nat)
      ensures height == Height(nTransactions)
    {
      height := 0;
      while Width(nTransactions, height) > 1
        invariant HeightFrom(nTransactions, height) == Height(nTransactions)
        decreases Width(nTransactions, height)
      {
        WidthHalves(nTransactions, height + 1);
        height := height + 1;
      }
    }

    method TraverseAndBuild(height: nat, pos: nat, txids: seq<Hash>, mask: seq<bool>)
      requires nTransactions == |txids| == |mask| && pos < Width(nTransactions, height)
      modifies this`vBits, this`vHash
      ensures Data() == Append(old(Data()), Build(H, txids, mask, height, pos))
      decreases height
    {
      var fParentOfMatch := IsParentOfMatch(height, pos, mask);
      vBits := vBits + [fParentOfMatch];
      if height == 0 || !fParentOfMatch {
        vHash := vHash + [CalcHash(H, txids, height, pos)];
      } else {
        LeftChildExists(nTransactions, height, pos);
        ghost var left := Build(H, txids, mask, height - 1, pos * 2);
        TraverseAndBuild(height - 1, pos * 2, txids, mask);
        if pos * 2 + 1 < Width(nTransactions, height - 1) {
          TraverseAndBuild(height - 1, pos * 2 + 1, txids, mask);
        }
        BuildAppends(old(Data()), Data(), left, BuildRight(H, txids, mask, height, pos));
      }
    }

    /** The loop over the leaves below a node. */
    method IsParentOfMatch(height: nat, pos: nat, mask: seq<bool>) returns (fParentOfMatch: bool)
      requires nTransactions == |mask|
      ensures fParentOfMatch == Covers(mask, height, pos)
    {
      fParentOfMatch := false;
      var lo, p := Shl(pos, height), Shl(pos, height);
      while p < Shl(pos + 1, height) && p < nTransactions
        invariant fParentOfMatch <==> AnyMatch(mask, lo, p)
        invariant p == lo || p <= Shl(pos + 1, height)
      {
        assert AnyMatch(mask, lo, p + 1) <==> AnyMatch(mask, lo, p) || mask[p];
        fParentOfMatch := fParentOfMatch || mask[p];
        p := p + 1;
      }
      ShlMonotone(pos, pos + 1, height);
    }

    method TraverseAndExtract(height: nat, pos: nat, bitsUsedIn: nat, hashUsedIn: nat,
                              vMatchIn: seq<Hash>, vnIndexIn: seq<nat>)
      returns (hash: Hash, bitsUsed: nat, hashUsed: nat, vMatch: seq<Hash>, vnIndex: seq<nat>)
      modifies this`fBad
      ensures var w := Extract(H, nTransactions, Data(), height, pos, bitsUsedIn, hashUsedIn);
              && w == Walk(hash, bitsUsed, hashUsed, w.matches, w.bad)
              && fBad == (old(fBad) || w.bad)
              && vMatch == vMatchIn + Txids(w.matches) && vnIndex == vnIndexIn + Indices(w.matches)
      decreases height, 1
    {
      bitsUsed, hashUsed, vMatch, vnIndex := bitsUsedIn, hashUsedIn, vMatchIn, vnIndexIn;
      if bitsUsed >= |vBits| {
        fBad := true;
        return NULL, bitsUsed, hashUsed, vMatch, vnIndex;
      }
      var fParentOfMatch := vBits[bitsUsed];
      bitsUsed := bitsUsed + 1;
      if height == 0 || !fParentOfMatch {
        if hashUsed >= |vHash| {
          fBad := true;
          return NULL, bitsUsed, hashUsed, vMatch, vnIndex;
        }
        hash := vHash[hashUsed];
        hashUsed := hashUsed + 1;
        if height == 0 && fParentOfMatch {
          vMatch := vMatch + [hash];
          vnIndex := vnIndex + [pos];
        }
      } else {
        ghost var l := Extract(H, nTransactions, Data(), height - 1, pos * 2, bitsUsed, hashUsed);
        ExtractDescends(H, nTransactions, Data(), height, pos, bitsUsedIn, hashUsedIn, l);
        hash, bitsUsed, hashUsed, vMatch, vnIndex := ExtractChildren(height, pos, bitsUsed, hashUsed, vMatch, vnIndex);
      }
    }

    /** The branch of TraverseAndExtract that descends. */
    method ExtractChildren(height: nat, pos: nat, bitsUsedIn: nat, hashUsedIn: nat,
                           vMatchIn: seq<Hash>, vnIndexIn: seq<nat>)
      returns (hash: Hash, bitsUsed: nat, hashUsed: nat, vMatch: seq<Hash>, vnIndex: seq<nat>)
      requires height > 0
      modifies this`fBad
      ensures var l := Extract(H, nTransactions, Data(), height - 1, pos * 2, bitsUsedIn, hashUsedIn);
              var w := if pos * 2 + 1 < Width(nTransactions, height - 1)
                       then Join(H, l,
                                 Extract(H, nTransactions, Data(), height - 1, pos * 2 + 1, l.bitsUsed, l.hashUsed))
                       else l.(hash := H(l.hash, l.hash));
              && w == Walk(hash, bitsUsed, hashUsed, w.matches, w.bad)
              && fBad == (old(fBad) || w.bad)
              && vMatch == vMatchIn + Txids(w.matches) && vnIndex == vnIndexIn + Indices(w.matches)
      decreases height, 0
    {
      hide Extract, Txids, Indices, Width;
      ghost var data := Data();
      ghost var l := Extract(H, nTransactions, data, height - 1, pos * 2, bitsUsedIn, hashUsedIn);
      var left, right;
      left, bitsUsed, hashUsed, vMatch, vnIndex :=
        TraverseAndExtract(height - 1, pos * 2, bitsUsedIn, hashUsedIn, vMatchIn, vnIndexIn);
      if pos * 2 + 1 < Width(nTransactions, height - 1) {
        assert Data() == data && l.bitsUsed == bitsUsed && l.hashUsed == hashUsed && left == l.hash;
        ghost var bad := fBad;
        ghost var r := Extract(H, nTransactions, data, height - 1, pos * 2 + 1, bitsUsed, hashUsed);
        right, bitsUsed, hashUsed, vMatch, vnIndex :=
          TraverseAndExtract(height - 1, pos * 2 + 1, bitsUsed, hashUsed, vMatch, vnIndex);
        assert Data() == data && r == Walk(right, bitsUsed, hashUsed, r.matches, r.bad) && fBad == (bad || r.bad);
        if right == left {
          fBad := true;
        }
        MatchesConcat(vMatchIn, vnIndexIn, l.matches, r.matches);
        assert Join(H, l, r).matches == l.matches + r.matches;
      } else {
        right := left;
      }
      assert Data() == data;
      hash := H(left, right);
    }

    /** vMatch is replaced; vnIndex is only appended to. A null root reports failure. */
    method ExtractMatches(vnIndexIn: seq<nat>) returns (root: Hash, vMatch: seq<Hash>, vnIndex: seq<nat>)
      modifies this`fBad
      ensures var w := Extract(H, nTransactions, Data(), Height(nTransactions), 0, 0, 0);
              && root == (if !old(fBad) && Accepts(nTransactions, Data(), w) then w.hash else NULL)
              && (root != NULL ==> vMatch == Txids(w.matches) && vnIndex == vnIndexIn + Indices(w.matches))
    {
      vMatch, vnIndex := [], vnIndexIn;
      if nTransactions == 0 || |vHash| > nTransactions || |vBits| < |vHash| {
        return NULL, vMatch, vnIndex;
      }
      var height := TreeHeight();
      var bitsUsed, hashUsed;
      root, bitsUsed, hashUsed, vMatch, vnIndex := TraverseAndExtract(height, 0, 0, 0, vMatch, vnIndex);
      if fBad || (bitsUsed + 7) / 8 != (|vBits| + 7) / 8 || hashUsed != |vHash| {
        root := NULL;
      }
    }

    /** Writing: the flag bits are packed eight to a byte and padded with zeros. */
    method PackBits() returns (vBytes: seq<bv8>)
      ensures |vBytes| == (|vBits| + 7) / 8
      ensures Packed(vBytes, vBits, |vBits|)
    {
      vBytes := seq((|vBits| + 7) / 8, _ => 0);
      for p := 0 to |vBits|
        invariant |vBytes| == (|vBits| + 7) / 8
        invariant Packed(vBytes, vBits, p)
      {
        PackNext(vBytes, vBits, p);
        vBytes := vBytes[p / 8 := vBytes[p / 8] | (if vBits[p] then Bit(p % 8) else 0)];
      }
    }

    /** Reading: eight bits per byte, padding included. */
    method UnpackBits(vBytes: seq<bv8>)
      modifies this
      ensures nTransactions == old(nTransactions) && vHash == old(vHash) && !fBad
      ensures |vBits| == 8 * |vBytes|
      ensures forall p :: 0 <= p < |vBits| ==> vBits[p] == BitAt(vBytes, p)
    {
      vBits := [];
      for p := 0 to 8 * |vBytes|
        invariant |vBits| == p && nTransactions == old(nTransactions) && vHash == old(vHash)
        invariant forall q :: 0 <= q < p ==> vBits[q] == BitAt(vBytes, q)
      {
        vBits := vBits + [vBytes[p / 8] & Bit(p % 8) != 0];
      }
      fBad := false;
    }
  }

  function Txids(ms: seq<Match>): seq<Hash> {
    seq(|ms|, i requires 0 <= i < |ms| => ms[i].txid)
  }

  function Indices(ms: seq<Match>): seq<nat> {
    seq(|ms|, i requires 0 <= i < |ms| => ms[i].index)
  }

  lemma MatchesConcat(vMatch: seq<Hash>, vnIndex: seq<nat>, a: seq<Match>, b: seq<Match>)
    ensures vMatch + Txids(a) + Txids(b) == vMatch + Txids(a + b)
    ensures vnIndex + Indices(a) + Indices(b) == vnIndex + Indices(a + b)
  {
  }

  lemma BuildAppends(before: Partial, after: Partial, left: Partial, right: Partial)
    requires after == Append(Append(before.(bits := before.bits + [true]), left), right)
    ensures after == Append(before, Append(Partial([true], []), Append(left, right)))
  {
    assert after.bits == before.bits + ([true] + (left.bits + right.bits));
    assert after.hashes == before.hashes + ([] + (left.hashes + right.hashes));
  }

  /**
    A tree built from distinct txids, written to bytes, read back and decoded, yields the
    block's root and exactly the masked txids with their positions.
  */
  method SendAndReceive(H: PairHash, txids: seq<Hash>, mask: seq<bool>)
    returns (root: Hash, vMatch: seq<Hash>, vnIndex: seq<nat>)
    requires CollisionFree(H) && Distinct(txids) && txids != [] && |mask| == |txids|
    requires Root(H, txids) != NULL
    ensures root == Root(H, txids)
    ensures vMatch == Txids(Selected(txids, mask, 0, |txids|))
    ensures vnIndex == Indices(Selected(txids, mask, 0, |txids|))
  {
    hide Extract, Encode, Accepts, Root, Selected, Packed, BitAt, CollisionFree, Distinct, Txids, Indices;
    var tree := new PartialMerkleTree(H, txids, mask);
    ghost var bits := tree.vBits;
    var bytes := tree.PackBits();
    tree.UnpackBits(bytes);
    ghost var padding := tree.vBits[|bits|..];
    Unpacked(bytes, bits, tree.vBits);
    RoundTrip(H, txids, mask, padding);
    root, vMatch, vnIndex := tree.ExtractMatches([]);
  }

  /** What is read back is what was written, padded to whole bytes. */
  lemma Unpacked(bytes: seq<bv8>, bits: seq<bool>, back: seq<bool>)
    requires |bytes| == (|bits| + 7) / 8 && Packed(bytes, bits, |bits|)
    requires |back| == 8 * |bytes| && forall p :: 0 <= p < |back| ==> back[p] == BitAt(bytes, p)
    ensures |bits| <= |back| && back == bits + back[|bits|..]
    ensures |back| - |bits| < 8 && (|bits| + |back[|bits|..]|) % 8 == 0
  {
    forall p | 0 <= p < |bits| ensures back[p] == bits[p] {
      assert back[p] == BitAt(bytes, p);
    }
  }
}
