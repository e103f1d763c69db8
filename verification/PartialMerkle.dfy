/** Partial Merkle trees: the encoder and decoder as functions, completeness, soundness and the size bounds. */
module PartialMerkle {
  import opened Powers
  import opened MerkleTree

  const MAX_BLOCK_WEIGHT := 4000000
  const WITNESS_SCALE_FACTOR := 4
  const MIN_TRANSACTION_WEIGHT := WITNESS_SCALE_FACTOR * 60
  const MAX_TRANSACTIONS := MAX_BLOCK_WEIGHT / MIN_TRANSACTION_WEIGHT

  /** The flag bits of a subtree, parents first. */
  ghost function BuildBits(mask: seq<bool>, height: nat, pos: nat): seq<bool> {
    if height == 0 || !MatchBelow(mask, height, pos) then [MatchBelow(mask, height, pos)]
    else
      [true] + BuildBits(mask, height - 1, 2 * pos)
      + if 2 * pos + 1 < Width(|mask|, height - 1) then BuildBits(mask, height - 1, 2 * pos + 1) else []
  }

  /** The digests stored for a subtree. */
  ghost function BuildHashes(hash: Combine, txids: seq<Digest>, mask: seq<bool>, height: nat, pos: nat): seq<Digest>
    requires |mask| == |txids| && pos < Width(|txids|, height)
  {
    if height == 0 || !MatchBelow(mask, height, pos) then [CalcHash(hash, txids, height, pos)]
    else
      LeftChild(|txids|, height, pos);
      BuildHashes(hash, txids, mask, height - 1, 2 * pos)
      + if 2 * pos + 1 < Width(|txids|, height - 1) then BuildHashes(hash, txids, mask, height - 1, 2 * pos + 1) else []
  }

  lemma LeftChild(n: nat, height: nat, pos: nat)
    requires height >= 1 && pos < Width(n, height)
    ensures 2 * pos < Width(n, height - 1)
  {
    NodeExists(n, height, pos);
    ChildScale(height, pos);
    NodeExists(n, height - 1, 2 * pos);
  }

  /** What reading one subtree gives: its digest, the positions reached, the matches found, and whether it failed. */
  datatype Reading = Reading(digest: Digest, bitsUsed: nat, hashUsed: nat, matches: seq<Match>, bad: bool)

  /** `TraverseAndExtract`: reading goes on after a failure, which is only remembered. */
  function Extract(hash: Combine, n: nat, bits: seq<bool>, hashes: seq<Digest>, height: nat, pos: nat, b: nat,
                   k: nat): Reading {
    if b >= |bits| then Reading(ZERO, b, k, [], true)
    else if height == 0 || !bits[b] then
      if k >= |hashes| then Reading(ZERO, b + 1, k, [], true)
      else Reading(hashes[k], b + 1, k + 1, if bits[b] then [Match(hashes[k], pos)] else [], false)
    else
      var left := Extract(hash, n, bits, hashes, height - 1, 2 * pos, b + 1, k);
      if 2 * pos + 1 < Width(n, height - 1) then
        var right := Extract(hash, n, bits, hashes, height - 1, 2 * pos + 1, left.bitsUsed, left.hashUsed);
        Reading(hash(left.digest, right.digest), right.bitsUsed, right.hashUsed, left.matches + right.matches,
                left.bad || right.bad || right.digest == left.digest)
      else
        Reading(hash(left.digest, left.digest), left.bitsUsed, left.hashUsed, left.matches, left.bad)
  }

  /** Whether `ExtractMatches` accepts, given its traversal. */
  predicate Accepts(n: nat, bits: seq<bool>, hashes: seq<Digest>, r: Reading) {
    && 0 < n <= MAX_TRANSACTIONS && |hashes| <= n && |hashes| <= |bits|
    && !r.bad && (r.bitsUsed + 7) / 8 == (|bits| + 7) / 8 && r.hashUsed == |hashes|
  }

  function ReadAll(hash: Combine, n: nat, bits: seq<bool>, hashes: seq<Digest>): Reading {
    Extract(hash, n, bits, hashes, Height(n), 0, 0, 0)
  }

  // ----- completeness

  /** The leaves below a node. */
  function First(height: nat, pos: nat): nat { pos * Pow2(height) }
  function Last(n: nat, height: nat, pos: nat): nat {
    if (pos + 1) * Pow2(height) <= n then (pos + 1) * Pow2(height) else n
  }

  ghost predicate At<T>(part: seq<T>, whole: seq<T>, i: nat) {
    i + |part| <= |whole| && forall j :: 0 <= j < |part| ==> whole[i + j] == part[j]
  }

  lemma AtSplits<T>(a: seq<T>, b: seq<T>, whole: seq<T>, i: nat)
    requires At(a + b, whole, i)
    ensures At(a, whole, i) && At(b, whole, i + |a|)
  {
    forall j | 0 <= j < |a| ensures whole[i + j] == a[j] { assert (a + b)[j] == a[j]; }
    forall j | 0 <= j < |b| ensures whole[i + |a| + j] == b[j] { assert (a + b)[|a| + j] == b[j]; }
  }

  lemma LeafRange(n: nat, height: nat, pos: nat)
    requires pos < Width(n, height)
    ensures First(height, pos) < Last(n, height, pos) <= n
    ensures height == 0 ==> First(height, pos) == pos && Last(n, height, pos) == pos + 1
  {
    NodeExists(n, height, pos);
    assert (pos + 1) * Pow2(height) == pos * Pow2(height) + Pow2(height);
  }

  lemma ChildRanges(n: nat, height: nat, pos: nat)
    requires height >= 1 && pos < Width(n, height)
    ensures 2 * pos < Width(n, height - 1) && First(height - 1, 2 * pos) == First(height, pos)
    ensures if 2 * pos + 1 < Width(n, height - 1)
            then Last(n, height - 1, 2 * pos) == First(height - 1, 2 * pos + 1) &&
              Last(n, height - 1, 2 * pos + 1) == Last(n, height, pos)
            else Last(n, height - 1, 2 * pos) == Last(n, height, pos)
  {
    LeftChild(n, height, pos);
    ChildScale(height, pos);
    NodeExists(n, height - 1, 2 * pos + 1);
  }

  lemma BelowLeaf(mask: seq<bool>, pos: nat)
    requires pos < |mask|
    ensures MatchBelow(mask, 0, pos) <==> mask[pos]
  {
    if mask[pos] { assert pos * Pow2(0) <= pos < (pos + 1) * Pow2(0); }
  }

  lemma NoneBelow(txids: seq<Digest>, mask: seq<bool>, height: nat, pos: nat)
    requires |mask| == |txids| && pos < Width(|txids|, height) && !MatchBelow(mask, height, pos)
    ensures First(height, pos) <= Last(|txids|, height, pos) <= |txids|
    ensures Selected(txids, mask, First(height, pos), Last(|txids|, height, pos)) == []
  {
    LeafRange(|txids|, height, pos);
    NothingSelected(txids, mask, First(height, pos), Last(|txids|, height, pos));
  }

  /** A node that is entered and whose two children have the same digest. */
  ghost predicate Twin(hash: Combine, txids: seq<Digest>, mask: seq<bool>, height: nat, pos: nat)
    requires |mask| == |txids| && pos < Width(|txids|, height)
  {
    && height > 0 && MatchBelow(mask, height, pos) && 2 * pos + 1 < Width(|txids|, height - 1)
    && CalcHash(hash, txids, height - 1, 2 * pos) == CalcHash(hash, txids, height - 1, 2 * pos + 1)
  }

  /** There is such a node in this subtree. */
  ghost predicate HasTwin(hash: Combine, txids: seq<Digest>, mask: seq<bool>, height: nat, pos: nat)
    requires |mask| == |txids| && pos < Width(|txids|, height)
  {
    && height > 0 && MatchBelow(mask, height, pos)
    && (LeftChild(|txids|, height, pos);
        || Twin(hash, txids, mask, height, pos)
        || HasTwin(hash, txids, mask, height - 1, 2 * pos)
        || (2 * pos + 1 < Width(|txids|, height - 1) && HasTwin(hash, txids, mask, height - 1, 2 * pos + 1)))
  }

  /** What a correct reading of a subtree gives; equal siblings are what it objects to. */
  ghost function Right(hash: Combine, txids: seq<Digest>, mask: seq<bool>, height: nat, pos: nat, b: nat,
                       k: nat): Reading
    requires |mask| == |txids| && pos < Width(|txids|, height)
  {
    LeafRange(|txids|, height, pos);
    Reading(CalcHash(hash, txids, height, pos), b + |BuildBits(mask, height, pos)|,
      k + |BuildHashes(hash, txids, mask, height, pos)|,
            Selected(txids, mask, First(height, pos), Last(|txids|, height, pos)),
            HasTwin(hash, txids, mask, height, pos))
  }

  lemma RightUses(hash: Combine, txids: seq<Digest>, mask: seq<bool>, height: nat, pos: nat, b: nat, k: nat)
    requires |mask| == |txids| && pos < Width(|txids|, height)
    ensures var r := Right(hash, txids, mask, height, pos, b, k);
      && (r.bad <==> HasTwin(hash, txids, mask, height, pos))
      && r.bitsUsed == b + |BuildBits(mask, height, pos)| &&
        r.hashUsed == k + |BuildHashes(hash, txids, mask, height, pos)|
  {
  }

  /** Reading back what was built: wherever the parts lie, exactly they are consumed, and the masked ids come out. */
  lemma {:induction false} ReadsBack(hash: Combine, txids: seq<Digest>, mask: seq<bool>, height: nat, pos: nat,
                                     bits: seq<bool>, hashes: seq<Digest>, b: nat, k: nat)
    requires |mask| == |txids| && pos < Width(|txids|, height)
    requires At(BuildBits(mask, height, pos), bits, b) && At(BuildHashes(hash, txids, mask, height, pos), hashes, k)
    ensures Extract(hash, |txids|, bits, hashes, height, pos, b, k) == Right(hash, txids, mask, height, pos, b, k)
    decreases height
  {
    hide Width; hide MatchBelow; hide BuildBits; hide BuildHashes; hide CalcHash; hide At; hide Right; hide HasTwin;
    if height == 0 || !MatchBelow(mask, height, pos) {
      ReadsLeaf(hash, txids, mask, height, pos, bits, hashes, b, k);
    } else {
      BuiltChildren(hash, txids, mask, height, pos, bits, hashes, b, k);
      var left := Right(hash, txids, mask, height - 1, 2 * pos, b + 1, k);
      RightUses(hash, txids, mask, height - 1, 2 * pos, b + 1, k);
      ReadsBack(hash, txids, mask, height - 1, 2 * pos, bits, hashes, b + 1, k);
      if 2 * pos + 1 < Width(|txids|, height - 1) {
        ReadsBack(hash, txids, mask, height - 1, 2 * pos + 1, bits, hashes, left.bitsUsed, left.hashUsed);
        RightUses(hash, txids, mask, height - 1, 2 * pos + 1, left.bitsUsed, left.hashUsed);
      }
      RightJoins(hash, txids, mask, height, pos, b, k);
    }
  }

  /** Where the parts of the children lie. */
  lemma BuiltChildren(hash: Combine, txids: seq<Digest>, mask: seq<bool>, height: nat, pos: nat,
                      bits: seq<bool>, hashes: seq<Digest>, b: nat, k: nat)
    requires |mask| == |txids| && pos < Width(|txids|, height) && height > 0 && MatchBelow(mask, height, pos)
    requires At(BuildBits(mask, height, pos), bits, b) && At(BuildHashes(hash, txids, mask, height, pos), hashes, k)
    ensures b < |bits| && bits[b] && 2 * pos < Width(|txids|, height - 1)
    ensures At(BuildBits(mask, height - 1, 2 * pos), bits, b + 1) &&
      At(BuildHashes(hash, txids, mask, height - 1, 2 * pos), hashes, k)
    ensures 2 * pos + 1 < Width(|txids|, height - 1) ==>
      && At(BuildBits(mask, height - 1, 2 * pos + 1), bits, b + 1 + |BuildBits(mask, height - 1, 2 * pos)|)
      && At(BuildHashes(hash, txids, mask, height - 1, 2 * pos + 1), hashes,
        k + |BuildHashes(hash, txids, mask, height - 1, 2 * pos)|)
  {
    hide Width; hide MatchBelow; hide BuildBits; hide BuildHashes; hide At;
    LeftChild(|txids|, height, pos);
    BitParts(mask, height, pos);
    HashParts(hash, txids, mask, height, pos);
    var leftBits, leftHashes := BuildBits(mask, height - 1, 2 * pos),
      BuildHashes(hash, txids, mask, height - 1, 2 * pos);
    var two := 2 * pos + 1 < Width(|txids|, height - 1);
    var rightBits := if two then BuildBits(mask, height - 1, 2 * pos + 1) else [];
    var rightHashes := if two then BuildHashes(hash, txids, mask, height - 1, 2 * pos + 1) else [];
    AtSplits([true] + leftBits, rightBits, bits, b);
    AtSplits([true], leftBits, bits, b);
    AtSplits(leftHashes, rightHashes, hashes, k);
    AtFirst(true, bits, b);
  }

  lemma BitParts(mask: seq<bool>, height: nat, pos: nat)
    requires height > 0 && MatchBelow(mask, height, pos)
    ensures BuildBits(mask, height, pos) == [true] + BuildBits(mask, height - 1, 2 * pos)
      + if 2 * pos + 1 < Width(|mask|, height - 1) then BuildBits(mask, height - 1, 2 * pos + 1) else []
  {
  }

  lemma HashParts(hash: Combine, txids: seq<Digest>, mask: seq<bool>, height: nat, pos: nat)
    requires |mask| == |txids| && pos < Width(|txids|, height) && height > 0 && MatchBelow(mask, height, pos)
    ensures 2 * pos < Width(|txids|, height - 1)
    ensures BuildHashes(hash, txids, mask, height, pos) == BuildHashes(hash, txids, mask, height - 1, 2 * pos)
      + if 2 * pos + 1 < Width(|txids|, height - 1) then BuildHashes(hash, txids, mask, height - 1, 2 * pos + 1) else []
  {
    hide Width; hide MatchBelow; hide CalcHash;
    LeftChild(|txids|, height, pos);
  }

  lemma AtFirst<T>(x: T, whole: seq<T>, i: nat)
    requires At([x], whole, i)
    ensures i < |whole| && whole[i] == x
  {
    assert whole[i + 0] == [x][0];
  }

  /** A correct reading of a node, from those of its children. */
  lemma RightJoins(hash: Combine, txids: seq<Digest>, mask: seq<bool>, height: nat, pos: nat, b: nat, k: nat)
    requires |mask| == |txids|
    requires pos < Width(|txids|, height) && height > 0 && MatchBelow(mask, height, pos)
    ensures 2 * pos < Width(|txids|, height - 1)
    ensures var left := Right(hash, txids, mask, height - 1, 2 * pos, b + 1, k);
      Right(hash, txids, mask, height, pos, b, k) ==
        if 2 * pos + 1 < Width(|txids|, height - 1) then
          var right := Right(hash, txids, mask, height - 1, 2 * pos + 1, left.bitsUsed, left.hashUsed);
          Reading(hash(left.digest, right.digest), right.bitsUsed, right.hashUsed, left.matches + right.matches,
            left.bad || right.bad || right.digest == left.digest)
        else
          Reading(hash(left.digest, left.digest), left.bitsUsed, left.hashUsed, left.matches, left.bad)
  {
    hide Width; hide MatchBelow; hide First; hide Last; hide Selected;
    var n := |txids|;
    ChildRanges(n, height, pos);
    LeafRange(n, height, pos);
    LeafRange(n, height - 1, 2 * pos);
    if 2 * pos + 1 < Width(n, height - 1) {
      LeafRange(n, height - 1, 2 * pos + 1);
      SelectedJoins(txids, mask, First(height, pos), First(height - 1, 2 * pos + 1), Last(n, height, pos));
    }
  }

  lemma ReadsLeaf(hash: Combine, txids: seq<Digest>, mask: seq<bool>, height: nat, pos: nat,
                  bits: seq<bool>, hashes: seq<Digest>, b: nat, k: nat)
    requires |mask| == |txids| && pos < Width(|txids|, height) && (height == 0 || !MatchBelow(mask, height, pos))
    requires At(BuildBits(mask, height, pos), bits, b) && At(BuildHashes(hash, txids, mask, height, pos), hashes, k)
    ensures Extract(hash, |txids|, bits, hashes, height, pos, b, k) == Right(hash, txids, mask, height, pos, b, k)
  {
    hide Width; hide MatchBelow; hide First; hide Last;
    LeafRange(|txids|, height, pos);
    if height == 0 { BelowLeaf(mask, pos); }
    if !MatchBelow(mask, height, pos) { NoneBelow(txids, mask, height, pos); }
    assert bits[b] == MatchBelow(mask, height, pos) by {
      assert BuildBits(mask, height, pos)[0] == MatchBelow(mask, height, pos);
    }
    assert hashes[k] == CalcHash(hash, txids, height, pos) by {
      assert BuildHashes(hash, txids, mask, height, pos)[0] == CalcHash(hash, txids, height, pos);
    }
    if height == 0 && mask[pos] {
      assert Selected(txids, mask, pos + 1, pos + 1) == [];
      assert Selected(txids, mask, pos, pos + 1) == [Match(txids[pos], pos)];
    }
  }

  // ----- sizes

  /** How many transactions below a node are matched. */
  ghost function Matched(mask: seq<bool>, lo: nat, hi: nat): nat
    requires lo <= hi <= |mask|
    decreases hi - lo
  {
    if lo == hi then 0 else (if mask[lo] then 1 else 0) + Matched(mask, lo + 1, hi)
  }

  lemma {:induction false} MatchedJoins(mask: seq<bool>, lo: nat, mid: nat, hi: nat)
    requires lo <= mid <= hi <= |mask|
    ensures Matched(mask, lo, hi) == Matched(mask, lo, mid) + Matched(mask, mid, hi)
    decreases mid - lo
  {
    if lo < mid { MatchedJoins(mask, lo + 1, mid, hi); }
  }

  lemma {:induction false} MatchedSome(mask: seq<bool>, lo: nat, p: nat, hi: nat)
    requires lo <= p < hi <= |mask| && mask[p]
    ensures Matched(mask, lo, hi) >= 1
    decreases hi - lo
  {
    if lo < p { MatchedSome(mask, lo + 1, p, hi); }
  }

  /** Nodes entered that have a left child only. */
  ghost function Singles(mask: seq<bool>, height: nat, pos: nat): nat {
    if height == 0 || !MatchBelow(mask, height, pos) then 0
    else
      Singles(mask, height - 1, 2 * pos)
      + if 2 * pos + 1 < Width(|mask|, height - 1) then Singles(mask, height - 1, 2 * pos + 1) else 1
  }

  /** At most one digest per transaction below a node. */
  lemma {:induction false} HashesAtMostLeaves(hash: Combine, txids: seq<Digest>, mask: seq<bool>, height: nat, pos: nat)
    requires |mask| == |txids| && pos < Width(|txids|, height)
    ensures 1 <= |BuildHashes(hash, txids, mask, height, pos)| <= Last(|txids|, height, pos) - First(height, pos)
    decreases height
  {
    hide Width; hide MatchBelow; hide First; hide Last; hide BuildHashes;
    LeafRange(|txids|, height, pos);
    HashesSplit(hash, txids, mask, height, pos);
    if height > 0 && MatchBelow(mask, height, pos) {
      ChildRanges(|txids|, height, pos);
      HashesAtMostLeaves(hash, txids, mask, height - 1, 2 * pos);
      if 2 * pos + 1 < Width(|txids|, height - 1) { HashesAtMostLeaves(hash, txids, mask, height - 1, 2 * pos + 1); }
    }
  }

  lemma HashesSplit(hash: Combine, txids: seq<Digest>, mask: seq<bool>, height: nat, pos: nat)
    requires |mask| == |txids| && pos < Width(|txids|, height)
    ensures if height > 0 && MatchBelow(mask, height, pos) then
        && 2 * pos < Width(|txids|, height - 1)
        && |BuildHashes(hash, txids, mask, height, pos)| == |BuildHashes(hash, txids, mask, height - 1, 2 * pos)|
           + (if 2 * pos + 1 < Width(|txids|, height - 1) then
             |BuildHashes(hash, txids, mask, height - 1, 2 * pos + 1)| else 0)
      else |BuildHashes(hash, txids, mask, height, pos)| == 1
  {
    hide Width; hide MatchBelow; hide CalcHash;
    if height > 0 { LeftChild(|txids|, height, pos); }
  }

  /** At most one digest more than the matched transactions below a node times its height. */
  lemma {:induction false} HashesAtMostPaths(hash: Combine, txids: seq<Digest>, mask: seq<bool>, height: nat, pos: nat)
    requires |mask| == |txids| && pos < Width(|txids|, height)
    ensures First(height, pos) <= Last(|txids|, height, pos) <= |txids|
    ensures |BuildHashes(hash, txids, mask, height, pos)| <= 1
      + PathCells(Matched(mask, First(height, pos), Last(|txids|, height, pos)), height)
    decreases height
  {
    hide Width; hide MatchBelow; hide First; hide Last; hide Matched; hide PathCells; hide BuildHashes;
    LeafRange(|txids|, height, pos);
    HashesSplit(hash, txids, mask, height, pos);
    if height > 0 && MatchBelow(mask, height, pos) {
      SomeBelow(mask, height, pos);
      ChildRanges(|txids|, height, pos);
      HashesAtMostPaths(hash, txids, mask, height - 1, 2 * pos);
      var lo, hi, mid := First(height, pos), Last(|txids|, height, pos), Last(|txids|, height - 1, 2 * pos);
      if 2 * pos + 1 < Width(|txids|, height - 1) {
        HashesAtMostPaths(hash, txids, mask, height - 1, 2 * pos + 1);
        MatchedJoins(mask, lo, mid, hi);
        PathsAddUp(Matched(mask, lo, mid), Matched(mask, mid, hi), height);
      } else {
        PathsAddUp(Matched(mask, lo, hi), 0, height);
      }
    }
  }

  /** One node per height for every matched transaction. */
  ghost function PathCells(matched: nat, height: nat): nat { matched * height }

  lemma PathsAddUp(l: nat, r: nat, height: nat)
    requires height >= 1 && l + r >= 1
    ensures PathCells(l, height - 1) + PathCells(r, height - 1) + 1 <= PathCells(l + r, height)
    ensures PathCells(0, height - 1) == 0
  {
    assert (l + r) * height == l * (height - 1) + r * (height - 1) + l + r;
  }

  /** The number of bits: two per digest, less one, and one more for every single-child node entered. */
  lemma {:induction false} BitsExact(hash: Combine, txids: seq<Digest>, mask: seq<bool>, height: nat, pos: nat)
    requires |mask| == |txids| && pos < Width(|txids|, height)
    ensures |BuildBits(mask, height, pos)|
      == 2 * |BuildHashes(hash, txids, mask, height, pos)| - 1 + Singles(mask, height, pos)
    decreases height
  {
    hide Width; hide MatchBelow; hide BuildHashes;
    HashesSplit(hash, txids, mask, height, pos);
    if height > 0 && MatchBelow(mask, height, pos) {
      BitsExact(hash, txids, mask, height - 1, 2 * pos);
      if 2 * pos + 1 < Width(|txids|, height - 1) { BitsExact(hash, txids, mask, height - 1, 2 * pos + 1); }
    }
  }

  lemma SomeBelow(mask: seq<bool>, height: nat, pos: nat)
    requires pos < Width(|mask|, height) && MatchBelow(mask, height, pos)
    ensures First(height, pos) <= Last(|mask|, height, pos) <= |mask|
    ensures Matched(mask, First(height, pos), Last(|mask|, height, pos)) >= 1
  {
    LeafRange(|mask|, height, pos);
    var p :| pos * Pow2(height) <= p < (pos + 1) * Pow2(height) && p < |mask| && mask[p];
    MatchedSome(mask, First(height, pos), p, Last(|mask|, height, pos));
  }

  lemma WholeRange(n: nat)
    requires n > 0
    ensures First(Height(n), 0) == 0 && Last(n, Height(n), 0) == n && Width(n, Height(n)) == 1
  {
    NodeExists(n, Height(n), 0);
    NodeExists(n, Height(n), 1);
  }

  /** The encoder's output for a whole block. */
  ghost function AllBits(mask: seq<bool>): seq<bool> {
    BuildBits(mask, Height(|mask|), 0)
  }

  ghost function AllHashes(hash: Combine, txids: seq<Digest>, mask: seq<bool>): seq<Digest>
    requires |mask| == |txids| && txids != []
  {
    WholeRange(|txids|);
    BuildHashes(hash, txids, mask, Height(|txids|), 0)
  }

  /** No node that is entered has two children with the same digest. */
  ghost predicate NoTwins(hash: Combine, txids: seq<Digest>, mask: seq<bool>)
    requires |mask| == |txids|
  {
    forall h, p :: 0 < h <= Height(|txids|) && 0 <= p < Width(|txids|, h) ==> !Twin(hash, txids, mask, h, p)
  }

  lemma {:induction false} TwinFound(hash: Combine, txids: seq<Digest>, mask: seq<bool>, height: nat, pos: nat)
    returns (h: nat, p: nat)
    requires |mask| == |txids| && pos < Width(|txids|, height) && HasTwin(hash, txids, mask, height, pos)
    ensures 0 < h <= height && p < Width(|txids|, h) && Twin(hash, txids, mask, h, p)
    decreases height
  {
    hide Width; hide MatchBelow; hide Twin;
    LeftChild(|txids|, height, pos);
    if Twin(hash, txids, mask, height, pos) {
      h, p := height, pos;
    } else if HasTwin(hash, txids, mask, height - 1, 2 * pos) {
      h, p := TwinFound(hash, txids, mask, height - 1, 2 * pos);
    } else {
      h, p := TwinFound(hash, txids, mask, height - 1, 2 * pos + 1);
    }
  }

  /** Every node above one that contains such siblings contains them. */
  lemma {:induction false} TwinRises(hash: Combine, txids: seq<Digest>, mask: seq<bool>, height: nat, pos: nat,
                                     top: nat)
    requires |mask| == |txids| && pos < Width(|txids|, height) && height <= top && Width(|txids|, top) == 1
    requires HasTwin(hash, txids, mask, height, pos)
    ensures HasTwin(hash, txids, mask, top, 0)
    decreases top - height
  {
    hide Width; hide MatchBelow; hide Twin;
    if height < top {
      WidthHalves(|txids|, height);
      MatchSplits(mask, height + 1, pos / 2);
      LeftChild(|txids|, height + 1, pos / 2);
      TwinRises(hash, txids, mask, height + 1, pos / 2, top);
    }
  }

  /**
   * Exactly what the decoder makes of an encoded tree: for any ids, repeated or not, and any mask within the size
   * limit, also when the bits were padded to whole bytes, it reads the root and the masked ids with their indexes,
   * and accepts them unless two sibling nodes it entered are equal.
   */
  lemma AcceptedIff(hash: Combine, txids: seq<Digest>, mask: seq<bool>, padding: seq<bool>)
    requires |mask| == |txids| && 0 < |txids| <= MAX_TRANSACTIONS
    requires (|AllBits(mask) + padding| + 7) / 8 == (|AllBits(mask)| + 7) / 8
    ensures var bits, hashes := AllBits(mask) + padding, AllHashes(hash, txids, mask);
      var r := ReadAll(hash, |txids|, bits, hashes);
      && r.digest == Root(hash, txids)
      && r.matches == Selected(txids, mask, 0, |txids|)
      && (Accepts(|txids|, bits, hashes, r) <==> NoTwins(hash, txids, mask))
  {
    hide Twin; hide BuildBits; hide BuildHashes; hide MatchBelow; hide Width; hide HasTwin; hide CalcHash; hide Extract;
    var n := |txids|;
    var h := Height(n);
    WholeRange(n);
    var bits, hashes := BuildBits(mask, h, 0), BuildHashes(hash, txids, mask, h, 0);
    ReadsBack(hash, txids, mask, h, 0, bits + padding, hashes, 0, 0);
    HashesAtMostLeaves(hash, txids, mask, h, 0);
    BitsExact(hash, txids, mask, h, 0);
    TwinsWhole(hash, txids, mask);
  }

  lemma TwinsWhole(hash: Combine, txids: seq<Digest>, mask: seq<bool>)
    requires |mask| == |txids| && txids != []
    ensures Width(|txids|, Height(|txids|)) == 1
    ensures HasTwin(hash, txids, mask, Height(|txids|), 0) <==> !NoTwins(hash, txids, mask)
  {
    hide Twin; hide MatchBelow; hide Width;
    WholeRange(|txids|);
    var top := Height(|txids|);
    if HasTwin(hash, txids, mask, top, 0) {
      var h, p := TwinFound(hash, txids, mask, top, 0);
    }
    if !NoTwins(hash, txids, mask) {
      var h, p :| 0 < h <= top && 0 <= p < Width(|txids|, h) && Twin(hash, txids, mask, h, p);
      TwinContained(hash, txids, mask, h, p);
      TwinRises(hash, txids, mask, h, p, top);
    }
  }

  lemma TwinContained(hash: Combine, txids: seq<Digest>, mask: seq<bool>, height: nat, pos: nat)
    requires |mask| == |txids| && pos < Width(|txids|, height) && Twin(hash, txids, mask, height, pos)
    ensures HasTwin(hash, txids, mask, height, pos)
  {
    hide Width; hide MatchBelow;
  }

  /** Distinct ids make no equal siblings. */
  lemma DistinctNoTwins(hash: Combine, txids: seq<Digest>, mask: seq<bool>)
    requires Injective(hash) && Distinct(txids) && |mask| == |txids|
    ensures NoTwins(hash, txids, mask)
  {
    hide Width; hide MatchBelow; hide CalcHash;
    forall h, p | 0 < h <= Height(|txids|) && 0 <= p < Width(|txids|, h) ensures !Twin(hash, txids, mask, h, p) {
      if 2 * p + 1 < Width(|txids|, h - 1) { RowDistinct(hash, txids, h - 1, 2 * p, 2 * p + 1); }
    }
  }

  /**
   * Completeness: for distinct ids and any mask within the size limit, the decoder accepts what the encoder wrote,
   * also when the bits were padded to whole bytes, and returns the root and exactly the masked ids with their indexes.
   */
  lemma Complete(hash: Combine, txids: seq<Digest>, mask: seq<bool>, padding: seq<bool>)
    requires Injective(hash) && Distinct(txids) && |mask| == |txids| && 0 < |txids| <= MAX_TRANSACTIONS
    requires (|AllBits(mask) + padding| + 7) / 8 == (|AllBits(mask)| + 7) / 8
    ensures var bits, hashes := AllBits(mask) + padding, AllHashes(hash, txids, mask);
      var r := ReadAll(hash, |txids|, bits, hashes);
      && Accepts(|txids|, bits, hashes, r)
      && r.digest == Root(hash, txids)
      && r.matches == Selected(txids, mask, 0, |txids|)
  {
    hide *;
    DistinctNoTwins(hash, txids, mask);
    AcceptedIff(hash, txids, mask, padding);
  }

  /** With every id matched, the tree is accepted exactly when nowhere two siblings are equal. */
  lemma FullyMatched(hash: Combine, txids: seq<Digest>, mask: seq<bool>, padding: seq<bool>)
    requires |mask| == |txids| && 0 < |txids| <= MAX_TRANSACTIONS && forall i :: 0 <= i < |mask| ==> mask[i]
    requires (|AllBits(mask) + padding| + 7) / 8 == (|AllBits(mask)| + 7) / 8
    ensures var bits, hashes := AllBits(mask) + padding, AllHashes(hash, txids, mask);
      Accepts(|txids|, bits, hashes, ReadAll(hash, |txids|, bits, hashes)) <==>
        forall h, p :: 0 < h <= Height(|txids|) && 0 <= p < Width(|txids|, h) ==>
          !Siblings(hash, txids, h, p)
  {
    hide Width; hide MatchBelow; hide CalcHash; hide BuildBits; hide BuildHashes; hide Extract; hide Accepts;
    AcceptedIff(hash, txids, mask, padding);
    forall h, p | 0 < h <= Height(|txids|) && 0 <= p < Width(|txids|, h)
      ensures Twin(hash, txids, mask, h, p) <==> Siblings(hash, txids, h, p) {
      AllBelow(mask, h, p);
    }
  }

  /** A node with two children that have the same digest. */
  ghost predicate Siblings(hash: Combine, txids: seq<Digest>, height: nat, pos: nat)
    requires pos < Width(|txids|, height)
  {
    && height > 0 && 2 * pos + 1 < Width(|txids|, height - 1)
    && CalcHash(hash, txids, height - 1, 2 * pos) == CalcHash(hash, txids, height - 1, 2 * pos + 1)
  }

  lemma AllBelow(mask: seq<bool>, height: nat, pos: nat)
    requires pos < Width(|mask|, height) && forall i :: 0 <= i < |mask| ==> mask[i]
    ensures MatchBelow(mask, height, pos)
  {
    LeafRange(|mask|, height, pos);
    var p := First(height, pos);
    assert mask[p] && pos * Pow2(height) <= p < (pos + 1) * Pow2(height);
  }

  /** A repeated pair of ids one of which is matched is never accepted. */
  lemma RepeatedPairRefused(hash: Combine, txids: seq<Digest>, mask: seq<bool>, padding: seq<bool>, k: nat)
    requires |mask| == |txids| <= MAX_TRANSACTIONS && 2 * k + 1 < |txids| && txids[2 * k] == txids[2 * k + 1]
    requires mask[2 * k] || mask[2 * k + 1]
    requires (|AllBits(mask) + padding| + 7) / 8 == (|AllBits(mask)| + 7) / 8
    ensures var bits, hashes := AllBits(mask) + padding, AllHashes(hash, txids, mask);
      !Accepts(|txids|, bits, hashes, ReadAll(hash, |txids|, bits, hashes))
  {
    hide MatchBelow; hide BuildBits; hide BuildHashes; hide Extract; hide Accepts; hide Height; hide Width; hide Pow2;
    AcceptedIff(hash, txids, mask, padding);
    LeafRow(|txids|);
    MatchSplits(mask, 1, k);
    BelowLeaf(mask, 2 * k);
    BelowLeaf(mask, 2 * k + 1);
    assert Twin(hash, txids, mask, 1, k);
  }

  lemma LeafRow(n: nat)
    ensures Width(n, 0) == n && Width(n, 1) == (n + 1) / 2 && (n > 1 ==> 1 <= Height(n))
  {
    WidthHalves(n, 0);
  }

  /** The size bounds that do hold for a whole block. */
  lemma SizeBounds(hash: Combine, txids: seq<Digest>, mask: seq<bool>)
    requires |mask| == |txids| && txids != []
    ensures |AllHashes(hash, txids, mask)| <= |txids|
    ensures |AllHashes(hash, txids, mask)| <= 1 + Matched(mask, 0, |txids|) * Height(|txids|)
  {
    WholeRange(|txids|);
    HashesAtMostLeaves(hash, txids, mask, Height(|txids|), 0);
    HashesAtMostPaths(hash, txids, mask, Height(|txids|), 0);
  }

  /** A row of odd width below the root whose last node covers a matched transaction. */
  ghost predicate OddEdge(mask: seq<bool>, height: nat) {
    Width(|mask|, height) % 2 == 1 && MatchBelow(mask, height, Width(|mask|, height) - 1)
  }

  /** Only the last node of a row can have a single child. */
  lemma {:induction false} InnerNodesPair(mask: seq<bool>, height: nat, pos: nat)
    requires pos + 1 < Width(|mask|, height)
    ensures Singles(mask, height, pos) == 0
  {
    if height > 0 {
      WidthHalves(|mask|, height - 1);
      InnerNodesPair(mask, height - 1, 2 * pos);
      InnerNodesPair(mask, height - 1, 2 * pos + 1);
    }
  }

  /** The last node of a row enters a single-child node exactly when some odd row below has a match at its end. */
  lemma {:induction false} EdgeSingles(mask: seq<bool>, height: nat)
    requires mask != []
    ensures Width(|mask|, height) >= 1
    ensures Singles(mask, height, Width(|mask|, height) - 1) > 0 <==> exists k :: 0 <= k < height && OddEdge(mask, k)
    ensures (exists k :: 0 <= k < height && OddEdge(mask, k)) ==> MatchBelow(mask, height, Width(|mask|, height) - 1)
  {
    hide Width; hide MatchBelow; hide Pow2;
    var n := |mask|;
    NodeExists(n, height, 0);
    if height > 0 {
      EdgeSingles(mask, height - 1);
      WidthHalves(n, height - 1);
      var pos := Width(n, height) - 1;
      MatchSplits(mask, height, pos);
      if Width(n, height - 1) % 2 == 0 {
        InnerNodesPair(mask, height - 1, 2 * pos);
        assert forall k :: 0 <= k < height && OddEdge(mask, k) ==> k < height - 1;
      } else if MatchBelow(mask, height, pos) {
        assert OddEdge(mask, height - 1);
      }
    }
  }

  /**
   * The documented bound of two bits per digest less one holds exactly when no row of odd width below the root
   * ends in a node that covers a matched transaction.
   */
  lemma BitsBound(hash: Combine, txids: seq<Digest>, mask: seq<bool>)
    requires |mask| == |txids| && txids != []
    ensures |AllBits(mask)| <= 2 * |AllHashes(hash, txids, mask)| - 1 <==>
      forall k :: 0 <= k < Height(|mask|) ==> !OddEdge(mask, k)
  {
    hide Singles; hide OddEdge; hide BuildBits; hide BuildHashes; hide Width; hide Pow2;
    WholeRange(|txids|);
    BitsExact(hash, txids, mask, Height(|txids|), 0);
    EdgeSingles(mask, Height(|txids|));
  }

  /** It fails for three transactions of which the last is matched: four bits for two digests. */
  lemma BitsBoundFails(hash: Combine)
    ensures var txids, mask := [10, 11, 12], [false, false, true];
      AllBits(mask) == [true, false, true, true] && AllHashes(hash, txids, mask) == [hash(10, 11), 12]
  {
    var txids, mask := [10, 11, 12], [false, false, true];
    hide Pow2; hide Width; hide MatchBelow; hide CalcHash;
    ThreeWide();
    LastOfThree(mask);
    assert BuildBits(mask, 1, 1) == [true, true];
    assert BuildBits(mask, 1, 0) == [false];
    OfThree(hash, txids);
    assert BuildHashes(hash, txids, mask, 1, 0) == [hash(10, 11)];
    assert BuildHashes(hash, txids, mask, 0, 2) == [12];
    assert BuildHashes(hash, txids, mask, 1, 1) == [12];
  }

  lemma OfThree(hash: Combine, txids: seq<Digest>)
    requires txids == [10, 11, 12]
    ensures Width(3, 0) == 3 && Width(3, 1) == 2
    ensures CalcHash(hash, txids, 0, 2) == 12 && CalcHash(hash, txids, 1, 0) == hash(10, 11)
  {
    hide Pow2; hide Width;
    ThreeWide();
  }

  lemma ThreeWide()
    ensures Width(3, 0) == 3 && Width(3, 1) == 2 && Width(3, 2) == 1 && Height(3) == 2
  {
    assert Pow2(1) == 2 && Pow2(2) == 4;
  }

  lemma LastOfThree(mask: seq<bool>)
    requires mask == [false, false, true]
    ensures MatchBelow(mask, 0, 2) && !MatchBelow(mask, 1, 0) && MatchBelow(mask, 1, 1) && MatchBelow(mask, 2, 0)
  {
    assert Pow2(0) == 1 && Pow2(1) == 2 && Pow2(2) == 4;
    hide Pow2;
    assert mask[2] && 2 * Pow2(0) <= 2 < (2 + 1) * Pow2(0);
    assert 1 * Pow2(1) <= 2 < (1 + 1) * Pow2(1);
    assert 0 * Pow2(2) <= 2 < (0 + 1) * Pow2(2);
  }

  // ----- soundness

  /** Every match is a transaction of the block, at its own index. */
  ghost predicate Authentic(matches: seq<Match>, txids: seq<Digest>) {
    forall i :: 0 <= i < |matches| ==> matches[i].index < |txids| && matches[i].txid == txids[matches[i].index]
  }

  /**
   * A subtree read without failure to the digest of the real node shows only real transactions, also when another
   * number `n` of transactions is claimed: where the trees differ, a node has a second child in one of them only, and
   * then either the siblings read are equal, which is a failure, or the real ones are.
   */
  lemma {:induction false} ReadsOnlyAuthentic(hash: Combine, txids: seq<Digest>, n: nat, bits: seq<bool>,
                                              hashes: seq<Digest>, height: nat, pos: nat, b: nat, k: nat)
    requires Injective(hash) && pos < Width(|txids|, height) && pos < Width(n, height)
    requires Distinct(txids) || |txids| <= n
    requires var r := Extract(hash, n, bits, hashes, height, pos, b, k);
      !r.bad && r.digest == CalcHash(hash, txids, height, pos)
    ensures Authentic(Extract(hash, n, bits, hashes, height, pos, b, k).matches, txids)
    decreases height
  {
    hide Width; hide Pow2; hide Distinct;
    NodeExists(|txids|, height, pos);
    if height > 0 && bits[b] {
      LeftChild(|txids|, height, pos);
      LeftChild(n, height, pos);
      var left := Extract(hash, n, bits, hashes, height - 1, 2 * pos, b + 1, k);
      SameArity(hash, txids, n, height, pos);
      ReadsOnlyAuthentic(hash, txids, n, bits, hashes, height - 1, 2 * pos, b + 1, k);
      if 2 * pos + 1 < Width(n, height - 1) && 2 * pos + 1 < Width(|txids|, height - 1) {
        ReadsOnlyAuthentic(hash, txids, n, bits, hashes, height - 1, 2 * pos + 1, left.bitsUsed, left.hashUsed);
      }
    }
  }

  /** A node with a second child in the real tree alone has two different children there. */
  lemma SameArity(hash: Combine, txids: seq<Digest>, n: nat, height: nat, pos: nat)
    requires Injective(hash) && height > 0 && (Distinct(txids) || |txids| <= n)
    requires 2 * pos < Width(|txids|, height - 1)
    ensures 2 * pos + 1 < Width(|txids|, height - 1) && 2 * pos + 1 >= Width(n, height - 1) ==>
      CalcHash(hash, txids, height - 1, 2 * pos) != CalcHash(hash, txids, height - 1, 2 * pos + 1)
  {
    hide Width; hide CalcHash;
    if 2 * pos + 1 < Width(|txids|, height - 1) {
      NodeExists(|txids|, height - 1, 2 * pos + 1);
      NodeExists(n, height - 1, 2 * pos + 1);
      if Distinct(txids) { RowDistinct(hash, txids, height - 1, 2 * pos, 2 * pos + 1); }
    }
  }

  /**
   * Soundness: whatever bits and digests are accepted with the root of a block, only its own transactions come out.
   * The number of transactions claimed may be wrong, as long as the tree has the same height and, where it is too
   * small, the block's ids are distinct.
   */
  lemma Sound(hash: Combine, txids: seq<Digest>, n: nat, bits: seq<bool>, hashes: seq<Digest>)
    requires Injective(hash) && txids != [] && Height(n) == Height(|txids|) && (Distinct(txids) || |txids| <= n)
    requires var r := ReadAll(hash, n, bits, hashes);
      Accepts(n, bits, hashes, r) && r.digest == Root(hash, txids)
    ensures Authentic(ReadAll(hash, n, bits, hashes).matches, txids)
  {
    hide Width; hide Extract; hide CalcHash; hide Injective; hide Distinct;
    WholeRange(|txids|);
    WholeRange(n);
    ReadsOnlyAuthentic(hash, txids, n, bits, hashes, Height(n), 0, 0, 0);
  }

  // ----- nothing is ignored

  /** What lies behind the part that is read plays no role, unless the part was too short. */
  lemma {:induction false} ReadsAlike(hash: Combine, n: nat, bits: seq<bool>, hashes: seq<Digest>, height: nat,
                                      pos: nat, b: nat, k: nat, moreBits: seq<bool>, moreHashes: seq<Digest>)
    requires !Extract(hash, n, bits, hashes, height, pos, b, k).bad
    ensures Extract(hash, n, bits + moreBits, hashes + moreHashes, height, pos, b, k)
      == Extract(hash, n, bits, hashes, height, pos, b, k)
    decreases height
  {
    hide Width;
    if height > 0 && bits[b] {
      var left := Extract(hash, n, bits, hashes, height - 1, 2 * pos, b + 1, k);
      ReadsAlike(hash, n, bits, hashes, height - 1, 2 * pos, b + 1, k, moreBits, moreHashes);
      if 2 * pos + 1 < Width(n, height - 1) {
        ReadsAlike(hash, n, bits, hashes, height - 1, 2 * pos + 1, left.bitsUsed, left.hashUsed, moreBits, moreHashes);
      }
    }
  }

  /** An accepted tree is not accepted with more digests, nor with another byte of bits. */
  lemma NothingIgnored(hash: Combine, n: nat, bits: seq<bool>, hashes: seq<Digest>, moreBits: seq<bool>,
                       moreHashes: seq<Digest>)
    requires Accepts(n, bits, hashes, ReadAll(hash, n, bits, hashes)) && (moreHashes != [] || |moreBits| >= 8)
    ensures !Accepts(n, bits + moreBits, hashes + moreHashes, ReadAll(hash, n, bits + moreBits, hashes + moreHashes))
  {
    hide Extract;
    ReadsAlike(hash, n, bits, hashes, Height(n), 0, 0, 0, moreBits, moreHashes);
  }

  /** A tree read without failure has no more digests than bits, nor than transactions below the node. */
  lemma {:induction false} ReadsFew(hash: Combine, n: nat, bits: seq<bool>, hashes: seq<Digest>, height: nat, pos: nat,
                                    b: nat, k: nat)
    requires pos < Width(n, height) && !Extract(hash, n, bits, hashes, height, pos, b, k).bad
    ensures var r := Extract(hash, n, bits, hashes, height, pos, b, k);
      && r.hashUsed - k <= Last(n, height, pos) - First(height, pos)
      && r.hashUsed - k <= r.bitsUsed - b && r.bitsUsed <= |bits|
    decreases height
  {
    hide Width; hide First; hide Last; hide Pow2;
    LeafRange(n, height, pos);
    if height > 0 && bits[b] {
      ChildRanges(n, height, pos);
      var left := Extract(hash, n, bits, hashes, height - 1, 2 * pos, b + 1, k);
      ReadsFew(hash, n, bits, hashes, height - 1, 2 * pos, b + 1, k);
      if 2 * pos + 1 < Width(n, height - 1) {
        ReadsFew(hash, n, bits, hashes, height - 1, 2 * pos + 1, left.bitsUsed, left.hashUsed);
      }
    }
  }

  /** The tests made before reading refuse only what is too large or would fail anyway. */
  lemma EarlyTests(hash: Combine, n: nat, bits: seq<bool>, hashes: seq<Digest>)
    requires n > 0
    ensures var r := ReadAll(hash, n, bits, hashes);
      Accepts(n, bits, hashes, r) <==>
        n <= 16666 && !r.bad && (r.bitsUsed + 7) / 8 == (|bits| + 7) / 8 && r.hashUsed == |hashes|
  {
    hide Extract; hide Width;
    WholeRange(n);
    var r := ReadAll(hash, n, bits, hashes);
    if !r.bad { ReadsFew(hash, n, bits, hashes, Height(n), 0, 0, 0); }
  }
}
