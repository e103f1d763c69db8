/** The block tree with its skip list, and the active chain over it. */
module Chain {
  import opened Powers

  // ----- skip heights

  function And(x: nat, y: nat): nat {
    if x == 0 || y == 0 then 0 else (if x % 2 == 1 && y % 2 == 1 then 1 else 0) + 2 * And(x / 2, y / 2)
  }

  /** The largest power of two that divides a number. */
  function LowestOne(n: nat): (r: nat)
    requires n > 0
    ensures 0 < r <= n
  {
    if n % 2 == 1 then 1 else 2 * LowestOne(n / 2)
  }

  lemma {:induction false} LowestOneIs(n: nat) returns (k: nat)
    requires n > 0
    ensures LowestOne(n) == Pow2(k) && n % Pow2(k) == 0 && n / Pow2(k) % 2 == 1
  {
    if n % 2 == 1 {
      k := 0;
    } else {
      var i := LowestOneIs(n / 2);
      k := i + 1;
      LowestOneDoubles(n / 2, Pow2(i));
    }
  }

  lemma LowestOneDoubles(n: nat, p: nat)
    requires p > 0 && n % p == 0 && n / p % 2 == 1
    ensures 2 * n % (2 * p) == 0 && 2 * n / (2 * p) == n / p
  {
    var q := n / p;
    assert 2 * n == q * (2 * p);
    DivModUnique(2 * n, 2 * p, q, 0);
  }

  /** Clearing bits below the lowest one leaves the rest alone. */
  lemma {:induction false} AndClears(n: nat)
    requires n > 0
    ensures And(n, n - 1) == n - LowestOne(n)
  {
    if n % 2 == 1 {
      AndSame(n / 2);
    } else {
      assert (n - 1) / 2 == n / 2 - 1 && (n - 1) % 2 == 1;
      AndClears(n / 2);
    }
  }

  lemma {:induction false} AndSame(n: nat)
    ensures And(n, n) == n
  {
    if n != 0 { AndSame(n / 2); }
  }

  /** Turns the lowest set bit into a zero. */
  function InvertLowestOne(n: nat): (r: nat)
    ensures r == if n == 0 then 0 else n - LowestOne(n)
  {
    if n == 0 then 0
    else
      AndClears(n);
      And(n, n - 1)
  }

  /** Where the skip pointer of a height leads: an even height loses its lowest set bit,
      an odd one the two lowest above the last; always strictly lower. */
  function GetSkipHeight(height: nat): (r: nat)
    ensures height > 0 ==> r < height
    ensures height == 0 ==> r == 0
    ensures height > 0 && height % 2 == 0 ==> r == height - LowestOne(height)
    ensures height > 1 && height % 2 == 1 ==>
      var rest := height - LowestOne(height - 1);
      r == if rest == 1 then 1 else rest - LowestOne(rest - 1)
  {
    if height < 2 then 0
    else if height % 2 == 1 then InvertLowestOne(InvertLowestOne(height - 1)) + 1
    else InvertLowestOne(height)
  }

  // ----- blocks

  class BlockIndex {
    const hash: int
    const pprev: BlockIndex?
    const nHeight: nat
    var pskip: BlockIndex?

    constructor (h: int, prev: BlockIndex?)
      ensures hash == h && pprev == prev && nHeight == (if prev == null then 0 else prev.nHeight + 1) && pskip == null
    {
      hash, pprev, pskip := h, prev, null;
      nHeight := if prev == null then 0 else prev.nHeight + 1;
    }

    /** Following `pprev` counts the height down to genesis. */
    ghost predicate Linked()
      decreases nHeight
    {
      if pprev == null then nHeight == 0 else pprev.nHeight + 1 == nHeight && pprev.Linked()
    }

    /** The block nHeight - h steps of `pprev` back. */
    ghost function Ancestor(h: nat): (b: BlockIndex)
      requires Linked() && h <= nHeight
      ensures b.Linked() && b.nHeight == h
      decreases nHeight
    {
      if h == nHeight then this else pprev.Ancestor(h)
    }

    lemma {:induction false} AncestorOfAncestor(h: nat, g: nat)
      requires Linked() && g <= h <= nHeight
      ensures Ancestor(h).Ancestor(g) == Ancestor(g)
      decreases nHeight
    {
      if h < nHeight { pprev.AncestorOfAncestor(h, g); }
    }

    /** `GetAncestor`: walks by skip pointers where they do not overshoot. */
    method GetAncestor(height: int, ghost tree: set<BlockIndex>) returns (b: BlockIndex?)
      requires this in tree && Grown(tree)
      ensures height < 0 || height > nHeight ==> b == null
      ensures 0 <= height <= nHeight ==> Linked() && b == Ancestor(height) && b in tree
    {
      if height > nHeight || height < 0 { return null; }
      var walk, heightWalk := this, nHeight;
      while heightWalk > height
        invariant walk in tree && walk.Linked() && walk.nHeight == heightWalk >= height
        invariant walk.Ancestor(height) == Ancestor(height)
        decreases heightWalk
      {
        var heightSkip := GetSkipHeight(heightWalk);
        var heightSkipPrev := GetSkipHeight(heightWalk - 1);
        if walk.pskip != null &&
           (heightSkip == height ||
             (heightSkip > height && !(heightSkipPrev < heightSkip - 2 && heightSkipPrev >= height))) {
          walk.AncestorOfAncestor(heightSkip, height);
          walk := walk.pskip;
          heightWalk := heightSkip;
        } else {
          walk := walk.pprev;
          heightWalk := heightWalk - 1;
        }
      }
      return walk;
    }

    /** `BuildSkip`. */
    method BuildSkip(ghost tree: set<BlockIndex>)
      requires Linked() && Grown(tree) && (pprev != null ==> pprev in tree) && this !in tree && pskip == null
      modifies this`pskip
      ensures Grown(tree + {this}) && Skips(this)
    {
      if pprev != null {
        pskip := pprev.GetAncestor(GetSkipHeight(nHeight), tree);
      }
    }
  }

  /** A tree of blocks closed under `pprev`, whose skip pointers, where set, lead to the ancestor at the skip height. */
  ghost predicate Grown(tree: set<BlockIndex>)
    reads tree
  {
    forall b :: b in tree ==>
      && b.Linked()
      && (b.pprev != null ==> b.pprev in tree)
      && (b.pskip != null ==> b.nHeight > 0 && b.pskip in tree && b.pskip == b.Ancestor(GetSkipHeight(b.nHeight)))
  }

  /** A block with a parent has its skip pointer set. */
  ghost predicate Skips(b: BlockIndex)
    reads b
  {
    b.pprev != null ==> b.Linked() && b.pskip == b.Ancestor(GetSkipHeight(b.nHeight))
  }

  /** Adding a block on top of a known one, or a genesis block. */
  method AddBlock(hash: int, prev: BlockIndex?, ghost tree: set<BlockIndex>) returns (b: BlockIndex)
    requires Grown(tree) && (prev != null ==> prev in tree)
    ensures fresh(b) && b.hash == hash && b.pprev == prev && Grown(tree + {b}) && Skips(b)
  {
    b := new BlockIndex(hash, prev);
    b.BuildSkip(tree);
  }

  lemma NoBlocks()
    ensures Grown({})
  {
  }

  /** Every tree grown block by block is well formed. */
  method GrowTree(parents: seq<int>, hashes: seq<int>) returns (blocks: seq<BlockIndex>)
    requires |parents| == |hashes| && forall i :: 0 <= i < |parents| ==> -1 <= parents[i] < i
    ensures |blocks| == |parents| && Grown(set b | b in blocks)
    ensures forall i :: 0 <= i < |blocks| ==>
      blocks[i].hash == hashes[i] && blocks[i].pprev == (if parents[i] == -1 then null else blocks[parents[i]])
    ensures forall i :: 0 <= i < |blocks| ==> Skips(blocks[i])
  {
    hide Grown; hide Skips;
    blocks := [];
    NoBlocks();
    assert (set b | b in blocks) == {};
    for i := 0 to |parents|
      invariant |blocks| == i && Grown(set b | b in blocks)
      invariant forall k :: 0 <= k < i ==>
        blocks[k].hash == hashes[k] && blocks[k].pprev == (if parents[k] == -1 then null else blocks[parents[k]])
      invariant forall k :: 0 <= k < i ==> Skips(blocks[k])
    {
      ghost var tree := set b | b in blocks;
      var b := AddBlock(hashes[i], if parents[i] == -1 then null else blocks[parents[i]], tree);
      blocks := blocks + [b];
      assert tree + {b} == set x | x in blocks;
    }
  }

  // ----- the active chain

  /** A common ancestor of two blocks, or one above a height. */
  ghost predicate Meets(a: BlockIndex, b: BlockIndex, h: nat)
    requires a.Linked() && b.Linked()
  {
    h <= a.nHeight && h <= b.nHeight && a.Ancestor(h) == b.Ancestor(h)
  }

  class CChain {
    var vChain: seq<BlockIndex?>

    /** Position i holds the tip's ancestor at height i. */
    ghost predicate Valid(tree: set<BlockIndex>)
      reads this, tree
    {
      && Grown(tree)
      && (vChain != [] ==> Holds(vChain, vChain[|vChain| - 1], |vChain| - 1, tree))
    }

    constructor ()
      ensures vChain == []
    {
      vChain := [];
    }

    function At(height: int): BlockIndex?
      reads this
    {
      if height < 0 || height >= |vChain| then null else vChain[height]
    }

    function Tip(): BlockIndex?
      reads this
    {
      if |vChain| > 0 then vChain[|vChain| - 1] else null
    }

    predicate Contains(b: BlockIndex)
      reads this
    {
      At(b.nHeight) == b
    }

    /** `SetTip`: stops as soon as it meets the chain that is already there. */
    method SetTip(pindex: BlockIndex?, ghost tree: set<BlockIndex>)
      requires Valid(tree) && (pindex != null ==> pindex in tree)
      modifies this
      ensures Valid(tree) && Tip() == pindex
      ensures pindex != null ==> pindex.Linked() && |vChain| == pindex.nHeight + 1
      ensures pindex != null ==> forall i :: 0 <= i < |vChain| ==> vChain[i] == pindex.Ancestor(i)
      ensures pindex == null ==> vChain == []
    {
      hide Grown; hide Holds;
      if pindex == null {
        vChain := [];
        return;
      }
      var n := pindex.nHeight + 1;
      ghost var before := vChain;
      vChain := if n <= |vChain| then vChain[..n] else vChain + seq(n - |vChain|, i => null);
      ghost var resized := vChain;
      var done := Overwrite(pindex, tree);
      if done > 0 {
        OldEntry(before, resized, vChain, pindex, tree, done);
      }
      MakeHolds(vChain, pindex, tree);
    }

    /** The loop of `SetTip`: writes ancestors downwards until one is already in place. */
    method Overwrite(pindex: BlockIndex, ghost tree: set<BlockIndex>) returns (ghost done: nat)
      requires Grown(tree) && pindex in tree && |vChain| == pindex.nHeight + 1
      modifies this
      ensures |vChain| == |old(vChain)| && done <= |vChain| && pindex.Linked()
      ensures forall i :: 0 <= i < done ==> vChain[i] == old(vChain[i])
      ensures forall i :: done <= i < |vChain| ==> vChain[i] == pindex.Ancestor(i)
      ensures done > 0 ==> vChain[done - 1] == pindex.Ancestor(done - 1)
    {
      hide Grown;
      InTree(tree, pindex);
      var walk: BlockIndex? := pindex;
      done := |vChain|;
      while walk != null && vChain[walk.nHeight] != walk
        invariant done <= |vChain| == |old(vChain)|
        invariant walk == null ==> done == 0
        invariant walk != null ==> walk in tree && walk.nHeight + 1 == done && walk == pindex.Ancestor(done - 1)
        invariant forall i :: 0 <= i < done ==> vChain[i] == old(vChain[i])
        invariant forall i :: done <= i < |vChain| ==> vChain[i] == pindex.Ancestor(i)
        decreases done
      {
        vChain := vChain[walk.nHeight := walk];
        ParentIsAncestor(pindex, walk);
        InTree(tree, walk);
        walk := walk.pprev;
        done := done - 1;
      }
    }

    /** `FindFork`: the highest ancestor of a block that is in this chain, or null when there is none. */
    method FindFork(pindex: BlockIndex?, ghost tree: set<BlockIndex>) returns (fork: BlockIndex?)
      requires Valid(tree) && (pindex != null ==> pindex in tree)
      ensures pindex == null ==> fork == null
      ensures pindex != null ==> pindex.Linked()
      ensures pindex != null && fork != null ==>
        && Contains(fork) && fork.nHeight <= pindex.nHeight && fork == pindex.Ancestor(fork.nHeight)
        && forall h :: fork.nHeight < h <= pindex.nHeight ==> At(h) != pindex.Ancestor(h)
      ensures pindex != null && fork == null ==> forall h :: 0 <= h <= pindex.nHeight ==> At(h) != pindex.Ancestor(h)
    {
      hide Grown; hide Holds;
      if pindex == null { return null; }
      InTree(tree, pindex);
      fork := pindex;
      if pindex.nHeight > |vChain| - 1 {
        fork := pindex.GetAncestor(|vChain| - 1, tree);
      }
      while fork != null && !Contains(fork)
        invariant fork != null ==>
          fork in tree && fork.nHeight <= pindex.nHeight && fork == pindex.Ancestor(fork.nHeight)
        invariant fork != null ==> forall h :: fork.nHeight < h <= pindex.nHeight ==> At(h) != pindex.Ancestor(h)
        invariant fork == null ==> forall h :: 0 <= h <= pindex.nHeight ==> At(h) != pindex.Ancestor(h)
        decreases if fork == null then 0 else fork.nHeight + 1
      {
        ParentIsAncestor(pindex, fork);
        InTree(tree, fork);
        fork := fork.pprev;
      }
    }

    /**
     * `GetLocator`: hashes of ancestors of a block (the tip by default) at strictly decreasing heights, from the
     * block itself to genesis, at most 12 plus the binary logarithm of its height.
     */
    method GetLocator(pindex: BlockIndex?, ghost tree: set<BlockIndex>)
      returns (vHave: seq<int>, ghost blocks: seq<BlockIndex>)
      requires Valid(tree) && (pindex != null ==> pindex in tree)
      ensures pindex == null && vChain == [] ==> vHave == []
      ensures pindex != null || vChain != [] ==>
        var start := if pindex != null then pindex else Tip();
        start != null && start.Linked() && |vHave| == |blocks| && Locates(blocks, start) &&
          ShortEnough(|blocks|, start.nHeight)
      ensures forall i :: 0 <= i < |vHave| && i < |blocks| ==> vHave[i] == blocks[i].hash
    {
      hide Grown; hide Holds; hide Locates; hide ShortEnough; hide Above; hide Lower; hide Stride;
      vHave, blocks := [], [];
      var start := if pindex != null then pindex else Tip();
      StartInTree(vChain, pindex, tree);
      if start == null { return; }
      InTree(tree, start);
      NoneYet(start);
      var walk: BlockIndex := start;
      var nStep := 1;
      while true
        invariant walk in tree && walk.nHeight == Lower(start.nHeight, |blocks|) <= start.nHeight &&
          walk == start.Ancestor(walk.nHeight)
        invariant |vHave| == |blocks| && forall i :: 0 <= i < |vHave| ==> vHave[i] == blocks[i].hash
        invariant Above(blocks, start, walk.nHeight) && nStep == Stride(|blocks|)
        invariant |blocks| > 0 ==> Lower(start.nHeight, |blocks| - 1) > 0
        decreases walk.nHeight
      {
        ghost var n, before := |blocks|, blocks;
        vHave, blocks := vHave + [walk.hash], blocks + [walk];
        if walk.nHeight == 0 {
          ShortBound(n + 1, start.nHeight);
          LastPush(before, start, walk);
          break;
        }
        LowerNext(start.nHeight, n, walk.nHeight, nStep);
        var nHeight := if walk.nHeight - nStep > 0 then walk.nHeight - nStep else 0;
        AbovePush(before, start, walk, nHeight);
        start.AncestorOfAncestor(walk.nHeight, nHeight);
        walk := Back(walk, nHeight, tree);
        if |vHave| > 10 { nStep := nStep * 2; }
      }
    }

    /** One step of the locator: by index inside this chain, by skip list outside it. */
    method Back(b: BlockIndex, height: nat, ghost tree: set<BlockIndex>) returns (a: BlockIndex)
      requires Valid(tree) && b in tree && b.Linked() && height <= b.nHeight
      ensures a in tree && a == b.Ancestor(height)
    {
      hide Grown; hide Holds;
      if Contains(b) {
        ChainBelow(vChain, tree, b.nHeight);
        AncestorInTree(tree, b, height);
        return vChain[height];
      } else {
        var r := b.GetAncestor(height, tree);
        return r;
      }
    }
  }

  lemma InTree(tree: set<BlockIndex>, b: BlockIndex)
    requires Grown(tree) && b in tree
    ensures b.Linked() && (b.pprev != null ==> b.pprev in tree)
  {
  }

  lemma {:induction false} AncestorInTree(tree: set<BlockIndex>, b: BlockIndex, h: nat)
    requires Grown(tree) && b in tree && b.Linked() && h <= b.nHeight
    ensures b.Ancestor(h) in tree
    decreases b.nHeight
  {
    if h < b.nHeight { AncestorInTree(tree, b.pprev, h); }
  }

  /** The first entries of a chain, up to height h, are the ancestors of b at height h. */
  ghost predicate Holds(chain: seq<BlockIndex?>, b: BlockIndex?, h: int, tree: set<BlockIndex>) {
    && 0 <= h < |chain| && b != null && b in tree && b.Linked() && b.nHeight == h
    && forall i :: 0 <= i <= h ==> chain[i] == b.Ancestor(i)
  }

  lemma ParentIsAncestor(b: BlockIndex, a: BlockIndex)
    requires b.Linked() && a.nHeight <= b.nHeight && a == b.Ancestor(a.nHeight)
    ensures a.pprev != null ==> a.nHeight > 0 && a.pprev == b.Ancestor(a.nHeight - 1)
    ensures a.pprev == null ==> a.nHeight == 0
  {
    if a.pprev != null { b.AncestorOfAncestor(a.nHeight, a.nHeight - 1); }
  }

  lemma MakeHolds(chain: seq<BlockIndex?>, b: BlockIndex, tree: set<BlockIndex>)
    requires b in tree && b.Linked() && |chain| == b.nHeight + 1 && forall i :: 0 <= i < |chain| ==>
      chain[i] == b.Ancestor(i)
    ensures chain[|chain| - 1] == b && Holds(chain, chain[|chain| - 1], |chain| - 1, tree)
  {
  }

  /** Entries kept from the old chain below one that is an ancestor are ancestors too. */
  lemma OldEntry(before: seq<BlockIndex?>, resized: seq<BlockIndex?>, after: seq<BlockIndex?>, b: BlockIndex,
                 tree: set<BlockIndex>, done: nat)
    requires before != [] ==> Holds(before, before[|before| - 1], |before| - 1, tree)
    requires b.Linked() && |after| == |resized| == b.nHeight + 1 && 0 < done <= |after|
    requires forall i :: 0 <= i < |resized| ==> resized[i] == if i < |before| then before[i] else null
    requires (forall i :: 0 <= i < done ==> after[i] == resized[i]) && after[done - 1] == b.Ancestor(done - 1)
    ensures forall i :: 0 <= i < done ==> after[i] == b.Ancestor(i)
  {
    hide Holds;
    assert done - 1 < |before|;
    ChainBelow(before, tree, done - 1);
    forall i | 0 <= i < done ensures after[i] == b.Ancestor(i) { b.AncestorOfAncestor(done - 1, i); }
  }

  /** Below any of its entries a chain holds that entry's ancestors. */
  lemma ChainBelow(chain: seq<BlockIndex?>, tree: set<BlockIndex>, h: nat)
    requires chain != [] && Holds(chain, chain[|chain| - 1], |chain| - 1, tree) && h < |chain|
    ensures chain[h] != null && chain[h].Linked() && chain[h].nHeight == h
    ensures forall i :: 0 <= i <= h ==> chain[i] == chain[h].Ancestor(i)
  {
    var tip := chain[|chain| - 1];
    forall i | 0 <= i <= h ensures chain[i] == chain[h].Ancestor(i) { tip.AncestorOfAncestor(h, i); }
  }

  // ----- locators

  /** How far the n-th locator entry is below the start: one step each for ten, then doubling steps. */
  function Offset(n: nat): nat { if n <= 10 then n else 9 + Pow2(n - 10) }

  function Stride(n: nat): nat { if n <= 10 then 1 else Pow2(n - 10) }

  function Lower(height: nat, n: nat): nat { if height <= Offset(n) then 0 else height - Offset(n) }

  lemma LowerNext(height: nat, n: nat, at: nat, step: nat)
    requires at == Lower(height, n) && at > 0 && step == Stride(n)
    ensures Lower(height, n + 1) == (if at - step > 0 then at - step else 0) < at
    ensures Stride(n + 1) == if n + 1 > 10 then step * 2 else step
  {
    if n == 10 { assert Pow2(1) == 2; }
  }

  /** The entries so far: ancestors of the start at strictly decreasing heights, all above the given one. */
  ghost predicate Above(blocks: seq<BlockIndex>, start: BlockIndex, h: nat)
    requires start.Linked()
  {
    && (forall i :: 0 <= i < |blocks| ==>
      h < blocks[i].nHeight <= start.nHeight && blocks[i] == start.Ancestor(blocks[i].nHeight))
    && (forall i :: 0 <= i < |blocks| ==> blocks[i].nHeight == Lower(start.nHeight, i))
    && (forall i, j :: 0 <= i < j < |blocks| ==> blocks[i].nHeight > blocks[j].nHeight)
    && (if blocks == [] then h == start.nHeight else blocks[0] == start)
  }

  /** A complete locator: from the start down to genesis. */
  ghost predicate Locates(blocks: seq<BlockIndex>, start: BlockIndex)
    requires start.Linked()
  {
    && blocks != [] && blocks[0] == start && blocks[|blocks| - 1].nHeight == 0
    && (forall i :: 0 <= i < |blocks| ==> blocks[i].nHeight == Lower(start.nHeight, i))
    && (forall i :: 0 <= i < |blocks| ==>
      blocks[i].nHeight <= start.nHeight && blocks[i] == start.Ancestor(blocks[i].nHeight))
    && (forall i, j :: 0 <= i < j < |blocks| ==> blocks[i].nHeight > blocks[j].nHeight)
  }

  ghost predicate ShortEnough(n: nat, height: nat) {
    if height == 0 then n == 1 else n <= 12 + Log2(height)
  }

  lemma ShortBound(n: nat, height: nat)
    requires n >= 1 && Lower(height, n - 1) == 0 && (n >= 2 ==> Lower(height, n - 2) > 0)
    ensures ShortEnough(n, height)
  {
    if n >= 13 { Log2Bound(height, n - 12); }
  }

  lemma NoneYet(start: BlockIndex)
    requires start.Linked()
    ensures Above([], start, start.nHeight) && Lower(start.nHeight, 0) == start.nHeight && Stride(0) == 1
  {
  }

  lemma AbovePush(blocks: seq<BlockIndex>, start: BlockIndex, b: BlockIndex, h: nat)
    requires start.Linked() && b.nHeight <= start.nHeight && b == start.Ancestor(b.nHeight) &&
      Above(blocks, start, b.nHeight)
    requires b.nHeight == Lower(start.nHeight, |blocks|) && h < b.nHeight
    ensures Above(blocks + [b], start, h)
  {
    hide Lower;
    PushedAt(blocks, b);
  }

  lemma LastPush(blocks: seq<BlockIndex>, start: BlockIndex, b: BlockIndex)
    requires start.Linked() && b.nHeight <= start.nHeight && b == start.Ancestor(b.nHeight) &&
      Above(blocks, start, b.nHeight)
    requires b.nHeight == 0 == Lower(start.nHeight, |blocks|)
    ensures Locates(blocks + [b], start)
  {
    hide Lower;
    PushedAt(blocks, b);
  }

  lemma PushedAt(blocks: seq<BlockIndex>, b: BlockIndex)
    ensures forall i :: 0 <= i <= |blocks| ==> (blocks + [b])[i] == if i < |blocks| then blocks[i] else b
  {
  }

  lemma StartInTree(chain: seq<BlockIndex?>, pindex: BlockIndex?, tree: set<BlockIndex>)
    requires chain != [] ==> Holds(chain, chain[|chain| - 1], |chain| - 1, tree)
    requires pindex == null || pindex in tree
    ensures pindex == null && chain != [] ==> chain[|chain| - 1] != null && chain[|chain| - 1] in tree
  {
  }

  /** `LastCommonAncestor`: the highest block both have as ancestor, or null when they share none. */
  method LastCommonAncestor(pa: BlockIndex, pb: BlockIndex, ghost tree: set<BlockIndex>) returns (r: BlockIndex?)
    requires Grown(tree) && pa in tree && pb in tree
    ensures pa.Linked() && pb.Linked()
    ensures r != null ==> Meets(pa, pb, r.nHeight) && r == pa.Ancestor(r.nHeight)
    ensures forall h :: (r == null || h > r.nHeight) && 0 <= h ==> !Meets(pa, pb, h)
  {
    hide Grown;
    InTree(tree, pa);
    InTree(tree, pb);
    var a: BlockIndex?, b: BlockIndex? := pa, pb;
    if pa.nHeight > pb.nHeight {
      a := pa.GetAncestor(pb.nHeight, tree);
    } else if pb.nHeight > pa.nHeight {
      b := pb.GetAncestor(pa.nHeight, tree);
    }
    while a != b && a != null && b != null
      invariant a == null <==> b == null
      invariant a != null && b != null ==>
        && a in tree && b in tree && a.nHeight == b.nHeight && a.nHeight <= pa.nHeight && b.nHeight <= pb.nHeight
        && a == pa.Ancestor(a.nHeight) && b == pb.Ancestor(b.nHeight)
      invariant forall h :: 0 <= h && (a == null || h > a.nHeight) ==> !Meets(pa, pb, h)
      decreases if a == null then 0 else a.nHeight + 1
    {
      ParentIsAncestor(pa, a);
      ParentIsAncestor(pb, b);
      InTree(tree, a);
      InTree(tree, b);
      a, b := a.pprev, b.pprev;
    }
    assert a == b;
    return a;
  }
}
