/** The block's Merkle tree and its partial form: what the encoder writes and what the decoder reads, as functions. */
module MerkleTree {
  import opened Powers

  type Digest = int
  type Combine = (Digest, Digest) -> Digest

  const ZERO: Digest := 0

  ghost predicate Injective(hash: Combine) {
    forall a, b, c, d :: hash(a, b) == hash(c, d) ==> a == c && b == d
  }

  // ----- shape

  /** `CalcTreeWidth`: the number of nodes at a height. */
  function Width(n: nat, height: nat): nat {
    (n + Pow2(height) - 1) / Pow2(height)
  }

  /** A node exists exactly when its first leaf does. */
  lemma NodeExists(n: nat, height: nat, pos: nat)
    ensures pos < Width(n, height) <==> pos * Pow2(height) < n
  {
    var p := Pow2(height);
    var w := (n + p - 1) / p;
    assert w * p <= n + p - 1 < w * p + p;
    if pos < w {
      assert (pos + 1) * p <= w * p by { Monotone(pos + 1, w, p); }
    } else {
      assert w * p <= pos * p by { Monotone(w, pos, p); }
    }
  }

  lemma Monotone(a: nat, b: nat, p: nat)
    requires a <= b
    ensures a * p <= b * p
  {
  }

  lemma ChildScale(height: nat, pos: nat)
    requires height >= 1
    ensures (2 * pos) * Pow2(height - 1) == pos * Pow2(height)
    ensures (2 * pos + 1) * Pow2(height - 1) == pos * Pow2(height) + Pow2(height - 1)
    ensures (2 * pos + 2) * Pow2(height - 1) == (pos + 1) * Pow2(height)
  {
  }

  /** Each row is half of the one below, rounded up. */
  lemma WidthHalves(n: nat, height: nat)
    ensures Width(n, height + 1) == (Width(n, height) + 1) / 2
  {
    var w, half := Width(n, height), (Width(n, height) + 1) / 2;
    NodeExists(n, height + 1, half);
    ChildScale(height + 1, half);
    NodeExists(n, height, 2 * half);
    if half > 0 {
      NodeExists(n, height + 1, half - 1);
      ChildScale(height + 1, half - 1);
      NodeExists(n, height, 2 * (half - 1));
    }
  }

  /** The height at which a single node is left. */
  function Height(n: nat): (h: nat)
    ensures Width(n, h) <= 1 && forall k :: 0 <= k < h ==> Width(n, k) > 1
  {
    HeightFrom(n, 0)
  }

  function HeightFrom(n: nat, k: nat): (h: nat)
    requires forall j :: 0 <= j < k ==> Width(n, j) > 1
    ensures Width(n, h) <= 1 && forall j :: 0 <= j < h ==> Width(n, j) > 1
    decreases Width(n, k)
  {
    WidthHalves(n, k);
    if Width(n, k) <= 1 then k else HeightFrom(n, k + 1)
  }

  // ----- the whole tree

  /** `CalcHash`: the digest of a node; a missing right child counts as a copy of the left one. */
  function CalcHash(hash: Combine, txids: seq<Digest>, height: nat, pos: nat): Digest
    requires pos < Width(|txids|, height)
  {
    NodeExists(|txids|, height, pos);
    if height == 0 then txids[pos]
    else
      ChildScale(height, pos);
      NodeExists(|txids|, height - 1, 2 * pos);
      var left := CalcHash(hash, txids, height - 1, 2 * pos);
      var right := if 2 * pos + 1 < Width(|txids|, height - 1) then CalcHash(hash, txids, height - 1, 2 * pos + 1)
        else left;
      hash(left, right)
  }

  /** The root of the full tree. */
  function Root(hash: Combine, txids: seq<Digest>): Digest
    requires txids != []
  {
    NodeExists(|txids|, Height(|txids|), 0);
    CalcHash(hash, txids, Height(|txids|), 0)
  }

  /** A node without a right sibling is paired with itself. */
  lemma RootOfThree(hash: Combine, a: Digest, b: Digest, c: Digest)
    ensures Root(hash, [a, b, c]) == hash(hash(a, b), hash(c, c))
  {
    var txids := [a, b, c];
    assert Pow2(1) == 2 && Pow2(2) == 4;
    assert Width(3, 0) == 3 && Width(3, 1) == 2 && Width(3, 2) == 1;
    assert CalcHash(hash, txids, 1, 0) == hash(a, b);
    assert CalcHash(hash, txids, 1, 1) == hash(c, c);
  }

  ghost predicate Distinct(s: seq<Digest>) {
    forall i, j :: 0 <= i < j < |s| ==> s[i] != s[j]
  }

  /** Over distinct transaction ids no two nodes of a row have the same digest. */
  lemma {:induction false} RowDistinct(hash: Combine, txids: seq<Digest>, height: nat, p: nat, q: nat)
    requires Injective(hash) && Distinct(txids) && p < q < Width(|txids|, height)
    ensures CalcHash(hash, txids, height, p) != CalcHash(hash, txids, height, q)
  {
    NodeExists(|txids|, height, p);
    NodeExists(|txids|, height, q);
    if height > 0 {
      ChildScale(height, p);
      ChildScale(height, q);
      NodeExists(|txids|, height - 1, 2 * p);
      NodeExists(|txids|, height - 1, 2 * q);
      RowDistinct(hash, txids, height - 1, 2 * p, 2 * q);
    }
  }

  // ----- matched transactions

  /** Whether a node has a matched transaction below it. */
  ghost predicate MatchBelow(mask: seq<bool>, height: nat, pos: nat) {
    exists p :: pos * Pow2(height) <= p < (pos + 1) * Pow2(height) && p < |mask| && mask[p]
  }

  /** Whether a transaction from lo to hi is matched. */
  ghost predicate MatchIn(mask: seq<bool>, lo: nat, hi: nat) {
    exists p :: lo <= p < hi && p < |mask| && mask[p]
  }

  lemma MatchBelowIs(mask: seq<bool>, height: nat, pos: nat, lo: nat, hi: nat)
    requires lo == pos * Pow2(height) && hi == (pos + 1) * Pow2(height)
    ensures MatchBelow(mask, height, pos) <==> MatchIn(mask, lo, hi)
  {
    hide Pow2;
  }

  lemma MatchInSplits(mask: seq<bool>, lo: nat, mid: nat, hi: nat)
    requires lo <= mid <= hi
    ensures MatchIn(mask, lo, hi) <==> MatchIn(mask, lo, mid) || (mid < |mask| && MatchIn(mask, mid, hi))
  {
    if MatchIn(mask, lo, hi) {
      var p :| lo <= p < hi && p < |mask| && mask[p];
      assert p < mid ==> MatchIn(mask, lo, mid);
    }
  }

  lemma MatchSplits(mask: seq<bool>, height: nat, pos: nat)
    requires height >= 1 && pos < Width(|mask|, height)
    ensures MatchBelow(mask, height, pos) <==>
      MatchBelow(mask, height - 1, 2 * pos) ||
        (2 * pos + 1 < Width(|mask|, height - 1) && MatchBelow(mask, height - 1, 2 * pos + 1))
  {
    hide Pow2; hide Width; hide MatchBelow; hide MatchIn;
    ChildScale(height, pos);
    NodeExists(|mask|, height - 1, 2 * pos + 1);
    var lo, mid, hi := pos * Pow2(height), (2 * pos + 1) * Pow2(height - 1), (pos + 1) * Pow2(height);
    MatchBelowIs(mask, height, pos, lo, hi);
    MatchBelowIs(mask, height - 1, 2 * pos, lo, mid);
    MatchBelowIs(mask, height - 1, 2 * pos + 1, mid, hi);
    MatchInSplits(mask, lo, mid, hi);
  }

  /** A matched transaction with its index in the block. */
  datatype Match = Match(txid: Digest, index: nat)

  /** The matched transactions among the positions lo..hi, in order. */
  function Selected(txids: seq<Digest>, mask: seq<bool>, lo: nat, hi: nat): seq<Match>
    requires |mask| == |txids| && lo <= hi <= |txids|
    decreases hi - lo
  {
    if lo == hi then []
    else (if mask[lo] then [Match(txids[lo], lo)] else []) + Selected(txids, mask, lo + 1, hi)
  }

  lemma {:induction false} SelectedJoins(txids: seq<Digest>, mask: seq<bool>, lo: nat, mid: nat, hi: nat)
    requires |mask| == |txids| && lo <= mid <= hi <= |txids|
    ensures Selected(txids, mask, lo, hi) == Selected(txids, mask, lo, mid) + Selected(txids, mask, mid, hi)
    decreases mid - lo
  {
    if lo < mid { SelectedJoins(txids, mask, lo + 1, mid, hi); }
  }

  lemma {:induction false} NothingSelected(txids: seq<Digest>, mask: seq<bool>, lo: nat, hi: nat)
    requires |mask| == |txids| && lo <= hi <= |txids| && forall p :: lo <= p < hi ==> !mask[p]
    ensures Selected(txids, mask, lo, hi) == []
    decreases hi - lo
  {
    if lo < hi { NothingSelected(txids, mask, lo + 1, hi); }
  }
}
