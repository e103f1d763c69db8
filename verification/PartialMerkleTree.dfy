/** `CPartialMerkleTree`: building, reading, and sending one over the wire. */
module PartialMerkleTree {
  import opened Basics
  import opened Powers
  import opened MerkleTree
  import opened PartialMerkle
  import opened BitPacking

  function Txids(matches: seq<Match>): seq<Digest> { seq(|matches|, i requires 0 <= i < |matches| => matches[i].txid) }
  function Indexes(matches: seq<Match>): seq<nat> { seq(|matches|, i requires 0 <= i < |matches| => matches[i].index) }

  lemma OneMatch(pos: nat)
    ensures Txids([]) == [] && Indexes([]) == []
    ensures forall d: Digest {:trigger Match(d, pos)} ::
      Txids([Match(d, pos)]) == [d] && Indexes([Match(d, pos)]) == [pos]
  {
  }

  lemma ListsJoin(ids: seq<Digest>, indexes: seq<nat>, a: seq<Match>, b: seq<Match>)
    ensures ids + Txids(a) + Txids(b) == ids + Txids(a + b)
    ensures indexes + Indexes(a) + Indexes(b) == indexes + Indexes(a + b)
  {
  }

  /** The bits of a node, appended one part after the other. */
  lemma BitsNode(bits: seq<bool>, mask: seq<bool>, height: nat, pos: nat)
    ensures bits + BuildBits(mask, height, pos) ==
      if height == 0 || !MatchBelow(mask, height, pos) then bits + [MatchBelow(mask, height, pos)]
      else if 2 * pos + 1 < Width(|mask|, height - 1) then
        bits + [true] + BuildBits(mask, height - 1, 2 * pos) + BuildBits(mask, height - 1, 2 * pos + 1)
      else bits + [true] + BuildBits(mask, height - 1, 2 * pos)
  {
    hide Width; hide MatchBelow;
  }

  lemma HashesNode(hashes: seq<Digest>, combine: Combine, txids: seq<Digest>, mask: seq<bool>, height: nat, pos: nat)
    requires |mask| == |txids| && pos < Width(|txids|, height)
    ensures height > 0 ==> 2 * pos < Width(|txids|, height - 1)
    ensures hashes + BuildHashes(combine, txids, mask, height, pos) ==
      if height == 0 || !MatchBelow(mask, height, pos) then hashes + [CalcHash(combine, txids, height, pos)]
      else if 2 * pos + 1 < Width(|mask|, height - 1) then
        hashes + BuildHashes(combine, txids, mask, height - 1, 2 * pos)
          + BuildHashes(combine, txids, mask, height - 1, 2 * pos + 1)
      else hashes + BuildHashes(combine, txids, mask, height - 1, 2 * pos)
  {
    hide Width; hide MatchBelow; hide CalcHash;
    if height > 0 { LeftChild(|txids|, height, pos); }
  }

  class CPartialMerkleTree {
    const hash: Combine
    var nTransactions: nat
    var vBits: seq<bool>
    var vHash: seq<Digest>
    var fBad: bool

    /** The number of levels above the leaves. */
    static method TreeHeight(n: nat) returns (height: nat)
      ensures height == Height(n)
    {
      height := 0;
      while Width(n, height) > 1
        invariant forall k :: 0 <= k < height ==> Width(n, k) > 1
        decreases Width(n, height)
      {
        WidthHalves(n, height);
        height := height + 1;
      }
    }

    /** The tree of a block's transaction ids under a mask. */
    constructor Build(combine: Combine, txids: seq<Digest>, mask: seq<bool>)
      requires |mask| == |txids| && txids != []
      ensures hash == combine && nTransactions == |txids| && !fBad
      ensures vBits == AllBits(mask) && vHash == AllHashes(combine, txids, mask)
    {
      hash, nTransactions, vBits, vHash, fBad := combine, |txids|, [], [], false;
      new;
      var height := TreeHeight(nTransactions);
      WholeRange(|txids|);
      TraverseAndBuild(height, 0, txids, mask);
    }

    /** A tree as read from the wire. */
    constructor Received(combine: Combine, n: nat, hashes: seq<Digest>, bytes: seq<byte>)
      ensures hash == combine && nTransactions == n && vHash == hashes && vBits == Unpacked(bytes) && !fBad
    {
      hash, nTransactions, vHash := combine, n, hashes;
      var bits := Unpack(bytes);
      vBits, fBad := bits, false;
    }

    method TraverseAndBuild(height: nat, pos: nat, txids: seq<Digest>, mask: seq<bool>)
      requires |mask| == |txids| == nTransactions && pos < Width(nTransactions, height)
      modifies this`vBits, this`vHash
      ensures vBits == old(vBits) + BuildBits(mask, height, pos)
      ensures vHash == old(vHash) + BuildHashes(hash, txids, mask, height, pos)
      decreases height
    {
      hide Width; hide MatchBelow; hide CalcHash; hide BuildBits; hide BuildHashes;
      BitsNode(vBits, mask, height, pos);
      HashesNode(vHash, hash, txids, mask, height, pos);
      var fParentOfMatch := ParentOfMatch(height, pos, mask);
      vBits := vBits + [fParentOfMatch];
      if height == 0 || !fParentOfMatch {
        vHash := vHash + [CalcHash(hash, txids, height, pos)];
      } else {
        TraverseAndBuild(height - 1, 2 * pos, txids, mask);
        if 2 * pos + 1 < Width(nTransactions, height - 1) {
          TraverseAndBuild(height - 1, 2 * pos + 1, txids, mask);
        }
      }
    }

    /** Whether a node is the parent of at least one matched transaction. */
    method ParentOfMatch(height: nat, pos: nat, mask: seq<bool>) returns (found: bool)
      requires |mask| == nTransactions
      ensures found <==> MatchBelow(mask, height, pos)
    {
      found := false;
      var p := pos * Pow2(height);
      while p < (pos + 1) * Pow2(height) && p < nTransactions
        invariant pos * Pow2(height) <= p
        invariant found ==> MatchBelow(mask, height, pos)
        invariant !found ==> forall q :: pos * Pow2(height) <= q < p && q < |mask| ==> !mask[q]
      {
        found := found || mask[p];
        p := p + 1;
      }
    }

    method TraverseAndExtract(height: nat, pos: nat, bitsIn: nat, hashIn: nat, matchIn: seq<Digest>, indexIn: seq<nat>)
      returns (digest: Digest, nBitsUsed: nat, nHashUsed: nat, vMatch: seq<Digest>, vnIndex: seq<nat>)
      modifies this`fBad
      ensures var r := Extract(hash, nTransactions, vBits, vHash, height, pos, bitsIn, hashIn);
        && digest == r.digest && nBitsUsed == r.bitsUsed && nHashUsed == r.hashUsed
        && vMatch == matchIn + Txids(r.matches) && vnIndex == indexIn + Indexes(r.matches)
        && fBad == (old(fBad) || r.bad)
      decreases height
    {
      hide Width; hide Txids; hide Indexes;
      OneMatch(pos);
      nBitsUsed, nHashUsed, vMatch, vnIndex := bitsIn, hashIn, matchIn, indexIn;
      if nBitsUsed >= |vBits| {
        fBad := true;
        return ZERO, nBitsUsed, nHashUsed, vMatch, vnIndex;
      }
      var fParentOfMatch := vBits[nBitsUsed];
      nBitsUsed := nBitsUsed + 1;
      if height == 0 || !fParentOfMatch {
        if nHashUsed >= |vHash| {
          fBad := true;
          return ZERO, nBitsUsed, nHashUsed, vMatch, vnIndex;
        }
        digest := vHash[nHashUsed];
        nHashUsed := nHashUsed + 1;
        if height == 0 && fParentOfMatch {
          vMatch, vnIndex := vMatch + [digest], vnIndex + [pos];
        }
      } else {
        ghost var l := Extract(hash, nTransactions, vBits, vHash, height - 1, 2 * pos, nBitsUsed, nHashUsed);
        ghost var r := Extract(hash, nTransactions, vBits, vHash, height - 1, 2 * pos + 1, l.bitsUsed, l.hashUsed);
        ListsJoin(matchIn, indexIn, l.matches, r.matches);
        var left, right;
        left, nBitsUsed, nHashUsed, vMatch, vnIndex :=
          TraverseAndExtract(height - 1, 2 * pos, nBitsUsed, nHashUsed, vMatch, vnIndex);
        if 2 * pos + 1 < Width(nTransactions, height - 1) {
          right, nBitsUsed, nHashUsed, vMatch, vnIndex :=
            TraverseAndExtract(height - 1, 2 * pos + 1, nBitsUsed, nHashUsed, vMatch, vnIndex);
          if right == left { fBad := true; }
        } else {
          right := left;
        }
        digest := hash(left, right);
      }
    }

    /**
     * `ExtractMatches`: zero when anything is wrong, otherwise the digest read. The found ids replace the
     * caller's list, the indexes are appended to it; a rejected tree may already have filled both.
     */
    method ExtractMatches(indexIn: seq<nat>) returns (root: Digest, vMatch: seq<Digest>, vnIndex: seq<nat>)
      modifies this`fBad
      ensures var r := ReadAll(hash, nTransactions, vBits, vHash);
        && (!old(fBad) && Accepts(nTransactions, vBits, vHash, r) ==>
              root == r.digest && vMatch == Txids(r.matches) && vnIndex == indexIn + Indexes(r.matches))
        && (old(fBad) || !Accepts(nTransactions, vBits, vHash, r) ==> root == ZERO)
    {
      vMatch, vnIndex := [], indexIn;
      if nTransactions == 0 { return ZERO, vMatch, vnIndex; }
      if nTransactions > MAX_TRANSACTIONS { return ZERO, vMatch, vnIndex; }
      if |vHash| > nTransactions { return ZERO, vMatch, vnIndex; }
      if |vBits| < |vHash| { return ZERO, vMatch, vnIndex; }
      var height := TreeHeight(nTransactions);
      var hashMerkleRoot, nBitsUsed, nHashUsed;
      hashMerkleRoot, nBitsUsed, nHashUsed, vMatch, vnIndex := TraverseAndExtract(height, 0, 0, 0, vMatch, vnIndex);
      if fBad { return ZERO, vMatch, vnIndex; }
      if (nBitsUsed + 7) / 8 != (|vBits| + 7) / 8 { return ZERO, vMatch, vnIndex; }
      if nHashUsed != |vHash| { return ZERO, vMatch, vnIndex; }
      return hashMerkleRoot, vMatch, vnIndex;
    }
  }

  /**
   * From sender to receiver: building, packing, unpacking and extracting gives the root and exactly the masked
   * transactions, whatever the ids; zero exactly if two equal sibling nodes have to be entered (or the root is zero).
   */
  method RoundTrip(combine: Combine, txids: seq<Digest>, mask: seq<bool>)
    returns (root: Digest, vMatch: seq<Digest>, vnIndex: seq<nat>)
    requires |mask| == |txids| && 0 < |txids| <= MAX_TRANSACTIONS
    ensures root == if NoTwins(combine, txids, mask) then Root(combine, txids) else ZERO
    ensures Injective(combine) && Distinct(txids) ==> root == Root(combine, txids)
    ensures NoTwins(combine, txids, mask) ==>
      && vMatch == Txids(Selected(txids, mask, 0, |txids|))
      && vnIndex == Indexes(Selected(txids, mask, 0, |txids|))
  {
    hide NoTwins; hide Accepts; hide Injective; hide Distinct; hide Selected;
    var sent := new CPartialMerkleTree.Build(combine, txids, mask);
    var bytes := Pack(sent.vBits);
    var received := new CPartialMerkleTree.Received(combine, sent.nTransactions, sent.vHash, bytes);
    UnpackPacked(sent.vBits, bytes);
    AcceptedIff(combine, txids, mask, Falses(8 * |bytes| - |sent.vBits|));
    if Injective(combine) && Distinct(txids) { DistinctNoTwins(combine, txids, mask); }
    root, vMatch, vnIndex := received.ExtractMatches([]);
  }

  /** Whatever a received tree claims, if it extracts to a nonzero block root of its height, its matches are real. */
  method CheckProof(tree: CPartialMerkleTree, txids: seq<Digest>)
    returns (root: Digest, vMatch: seq<Digest>, vnIndex: seq<nat>)
    requires Injective(tree.hash) && txids != [] && Root(tree.hash, txids) != ZERO
    requires Height(tree.nTransactions) == Height(|txids|) && (Distinct(txids) || |txids| <= tree.nTransactions)
    modifies tree
    ensures root == Root(tree.hash, txids) ==>
      |vMatch| == |vnIndex| && forall i :: 0 <= i < |vMatch| ==> vnIndex[i] < |txids| && vMatch[i] == txids[vnIndex[i]]
  {
    root, vMatch, vnIndex := tree.ExtractMatches([]);
    if root == Root(tree.hash, txids) { Sound(tree.hash, txids, tree.nTransactions, tree.vBits, tree.vHash); }
  }
}
