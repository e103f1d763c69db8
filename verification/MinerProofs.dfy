/** What the block assembler's modified-transaction table records, and how adding a package changes it. */
module MinerProofs {
  import opened SetSum
  import opened Mempool

  /** `CTxMemPoolModifiedEntry`: package totals over the ancestors not yet in the block. */
  datatype Mod = Mod(size: int, fees: int, sigops: int)

  // ----- the block -----

  ghost predicate Closed(anc: map<int, set<int>>, inBlock: set<int>) {
    inBlock <= anc.Keys && forall t :: t in inBlock ==> anc[t] <= inBlock
  }

  /** No transaction twice, and every transaction after all its ancestors. */
  ghost predicate Ordered(anc: map<int, set<int>>, block: seq<int>) {
    && (forall i :: 0 <= i < |block| ==> block[i] in anc)
    && (forall i, j :: 0 <= i < j < |block| ==> block[i] != block[j])
    && (forall i, a :: 0 <= i < |block| && a in anc[block[i]] ==> a in block[..i])
  }

  ghost function Elements(s: seq<int>): set<int> { set x | x in s }

  lemma OrderedClosed(anc: map<int, set<int>>, block: seq<int>)
    requires Ordered(anc, block)
    ensures Closed(anc, Elements(block))
  {
    forall t, a | t in Elements(block) && a in anc[t] ensures a in Elements(block) {
      var i :| 0 <= i < |block| && block[i] == t;
      assert a in block[..i];
    }
  }

  /** The package of `t`: its ancestors outside the block, and itself. */
  ghost function Package(anc: map<int, set<int>>, inBlock: set<int>, t: int): set<int>
    requires t in anc
  {
    anc[t] - inBlock + {t}
  }

  lemma PackageCloses(p: Pool, inBlock: set<int>, t: int)
    requires ValidPool(p) && Closed(p.anc, inBlock) && t in p.anc && t !in inBlock
    ensures Package(p.anc, inBlock, t) <= p.anc.Keys && Package(p.anc, inBlock, t) !! inBlock
    ensures Closed(p.anc, inBlock + Package(p.anc, inBlock, t))
  {
    var all := inBlock + Package(p.anc, inBlock, t);
    forall x | x in all ensures p.anc[x] <= all {
      if x in p.anc[t] { AncestorsTransitive(p.parents, p.anc, t, x); }
    }
  }

  // ----- records -----

  /** The total over `t` and its ancestors, less that over `gone`. */
  ghost function Rest(p: Pool, f: map<int, int>, t: int, gone: set<int>): int
    requires t in p.anc && t in f && p.anc[t] <= f.Keys && gone <= f.Keys
  {
    WithAncestors(p.anc, f, t) - Sum(f, gone)
  }

  /** The record of `t` is the pool's cached totals less those of `gone`. */
  ghost predicate Less(p: Pool, gone: set<int>, t: int, m: Mod)
    requires ValidPool(p) && t in p.anc && gone <= p.anc.Keys
  {
    m.size == Rest(p, p.size, t, gone) && m.sigops == Rest(p, p.sigops, t, gone) && FeesLess(p, gone, t, m.fees)
  }

  /** Fees, too; but only the first taken off goes with its modified fee, the others with their base fees. */
  ghost predicate FeesLess(p: Pool, gone: set<int>, t: int, fees: int)
    requires ValidPool(p) && t in p.anc && gone <= p.anc.Keys
  {
    if gone == {} then fees == p.feesWithAncestors[t]
    else exists a :: a in gone && fees == FeesAfter(p, gone, t, a)
  }

  ghost function FeesAfter(p: Pool, gone: set<int>, t: int, a: int): int
    requires ValidPool(p) && t in p.anc && gone <= p.anc.Keys && a in gone
  {
    p.feesWithAncestors[t] - p.modFee[a] - Sum(p.fee, gone - {a})
  }

  /** The pool's cached totals. */
  function CachedRecord(p: Pool, t: int): Mod
    requires t in p.sizeWithAncestors && t in p.feesWithAncestors && t in p.sigopsWithAncestors
  {
    Mod(p.sizeWithAncestors[t], p.feesWithAncestors[t], p.sigopsWithAncestors[t])
  }

  lemma AncestorsKnown(p: Pool, t: int)
    requires ValidPool(p) && t in p.anc
    ensures p.anc[t] <= p.anc.Keys && t !in p.anc[t]
  {
  }

  lemma CachedFees(p: Pool, t: int)
    requires ValidPool(p) && t in p.anc
    ensures t in p.feesWithAncestors && p.anc[t] <= p.modFee.Keys
    ensures p.feesWithAncestors[t] == WithAncestors(p.anc, p.modFee, t)
  {
  }

  lemma CachedIsLess(p: Pool, t: int)
    requires ValidPool(p) && t in p.anc
    ensures Less(p, {}, t, CachedRecord(p, t))
  {
  }

  /** A total less some ancestors that are in the block is between the true remaining total and the cached one. */
  lemma RestBounds(p: Pool, f: map<int, int>, t: int, gone: set<int>, inBlock: set<int>)
    requires t in p.anc && t in f && p.anc[t] <= f.Keys && gone <= p.anc[t] * inBlock
    requires forall x :: x in f ==> 0 <= f[x]
    ensures f[t] + Sum(f, p.anc[t] - inBlock) <= Rest(p, f, t, gone) <= WithAncestors(p.anc, f, t)
    ensures gone == p.anc[t] * inBlock ==> Rest(p, f, t, gone) == f[t] + Sum(f, p.anc[t] - inBlock)
  {
    var a := p.anc[t];
    SumMonotone(f, {}, gone);
    assert a == gone + (a - gone);
    SumUnion(f, gone, a - gone);
    SumMonotone(f, a - inBlock, a - gone);
    if gone == a * inBlock { assert a - gone == a - inBlock; }
  }

  /** Recorded totals are never below the true ones of the package, nor above the cached ones,
      and exact when every ancestor in the block was taken off. */
  lemma RecordBounds(p: Pool, gone: set<int>, inBlock: set<int>, t: int, m: Mod)
    requires ValidPool(p) && t in p.anc && gone <= p.anc[t] * inBlock && Less(p, gone, t, m)
    ensures p.size[t] + Sum(p.size, p.anc[t] - inBlock) <= m.size <= p.sizeWithAncestors[t]
    ensures p.sigops[t] + Sum(p.sigops, p.anc[t] - inBlock) <= m.sigops <= p.sigopsWithAncestors[t]
    ensures gone == p.anc[t] * inBlock ==>
      && m.size == p.size[t] + Sum(p.size, p.anc[t] - inBlock)
      && m.sigops == p.sigops[t] + Sum(p.sigops, p.anc[t] - inBlock)
  {
    hide Dag; hide WithAncestors; hide FeesLess; hide Rest;
    AncestorsKnown(p, t);
    RestBounds(p, p.size, t, gone, inBlock);
    RestBounds(p, p.sigops, t, gone, inBlock);
  }

  /** The recorded fees are the modified fees of what remains exactly when the fee
      adjustments of all but the first ancestor taken off cancel out. */
  lemma FeesExact(p: Pool, gone: set<int>, t: int, a: int)
    requires ValidPool(p) && t in p.anc && gone <= p.anc[t] && a in gone
    ensures FeesAfter(p, gone, t, a) == p.modFee[t] + Sum(p.modFee, p.anc[t] - gone)
      <==> Sum(p.modFee, gone - {a}) == Sum(p.fee, gone - {a})
  {
    hide Dag; hide Cached; hide Sum;
    AncestorsKnown(p, t);
    assert p.feesWithAncestors[t] == WithAncestors(p.anc, p.modFee, t) by { CachedFees(p, t); }
    assert p.anc[t] == gone + (p.anc[t] - gone);
    SumUnion(p.modFee, gone, p.anc[t] - gone);
    SumRemove(p.modFee, gone, a);
  }

  // ----- reducing records -----

  /** `after` is `before` with the totals of every descendant of `added` (outside `skip`) reduced by `added`. */
  ghost predicate Reduced(p: Pool, added: set<int>, skip: set<int>, before: map<int, Mod>, after: map<int, Mod>)
    requires ValidPool(p) && added <= p.anc.Keys
  {
    && (forall d :: d in after <==> d in before || (d in p.anc && d !in skip && p.anc[d] * added != {}))
    && (forall d :: d in before && (d !in p.anc || d in skip) ==> after[d] == before[d])
    && (forall d :: d in after && d in p.anc && d !in skip ==> ReducedBy(p, p.anc[d] * added, d, before, after[d]))
  }

  /** The totals recorded for `d`, starting from `before` or from the pool's caches, less those of `gone`. */
  ghost predicate ReducedBy(p: Pool, gone: set<int>, d: int, before: map<int, Mod>, m: Mod)
    requires ValidPool(p) && d in p.anc && gone <= p.anc.Keys
  {
    if d in before then LowerBy(p, gone, before[d], m) else Less(p, gone, d, m)
  }

  ghost predicate LowerBy(p: Pool, gone: set<int>, m: Mod, n: Mod)
    requires ValidPool(p) && gone <= p.anc.Keys
  {
    && n.size == m.size - Sum(p.size, gone)
    && n.sigops == m.sigops - Sum(p.sigops, gone)
    && n.fees == m.fees - Sum(p.fee, gone)
  }

  /** Lowering a record that has begun to be taken off. */
  lemma LowerLess(p: Pool, gone: set<int>, more: set<int>, t: int, m: Mod, n: Mod)
    requires ValidPool(p) && t in p.anc && gone <= p.anc.Keys && more <= p.anc.Keys && gone !! more && gone != {}
    requires Less(p, gone, t, m) && LowerBy(p, more, m, n)
    ensures Less(p, gone + more, t, n)
  {
    hide Dag; hide Cached; hide WithAncestors;
    SumUnion(p.size, gone, more);
    SumUnion(p.sigops, gone, more);
    var a :| a in gone && m.fees == FeesAfter(p, gone, t, a);
    assert gone + more - {a} == (gone - {a}) + more;
    SumUnion(p.fee, gone - {a}, more);
    assert a in gone + more && n.fees == FeesAfter(p, gone + more, t, a);
  }

  lemma LowerTwice(p: Pool, gone: set<int>, more: set<int>, k: Mod, m: Mod, n: Mod)
    requires ValidPool(p) && gone <= p.anc.Keys && more <= p.anc.Keys && gone !! more
    requires LowerBy(p, gone, k, m) && LowerBy(p, more, m, n)
    ensures LowerBy(p, gone + more, k, n)
  {
    hide Dag; hide Cached;
    SumUnion(p.size, gone, more);
    SumUnion(p.sigops, gone, more);
    SumUnion(p.fee, gone, more);
  }

  lemma SumOne(f: map<int, int>, t: int)
    requires t in f
    ensures Sum(f, {t}) == f[t]
  {
    SumAdd(f, {}, t);
    assert {} + {t} == {t};
  }

  /** A child of two parents whose fees were both raised by five. */
  function Raised(): Pool {
    var parents := map[1 := {}, 2 := {}, 3 := {1, 2}];
    var tens := map[1 := 10, 2 := 10, 3 := 10];
    Pool(parents, parents, tens, tens, tens, tens, map[1 := 15, 2 := 15, 3 := 10], map[1 := 1, 2 := 1, 3 := 3],
         map[1 := 10, 2 := 10, 3 := 30], map[1 := 10, 2 := 10, 3 := 30], map[1 := 15, 2 := 15, 3 := 40])
  }

  /** Recorded fees can be wrong: with both parents in the block, the child is recorded with more than its own fee. */
  lemma FeesCanBeOff(after: map<int, Mod>)
    ensures ValidPool(Raised())
    ensures Reduced(Raised(), {1, 2}, {1, 2}, map[], after) ==>
      3 in after && after[3].fees == 15 != Raised().modFee[3]
  {
    hide ValidPool; hide Reduced;
    RaisedValid();
    if Reduced(Raised(), {1, 2}, {1, 2}, map[], after) { FeesOfTwo(Raised(), 1, 2, 3, after); }
  }

  lemma FeesOfTwo(p: Pool, a: int, b: int, t: int, after: map<int, Mod>)
    requires ValidPool(p) && t in p.anc && p.anc[t] == {a, b} && a != b && t != a && t != b && {a, b} <= p.anc.Keys
    requires Reduced(p, {a, b}, {a, b}, map[], after)
    ensures t in after
    ensures || after[t].fees == p.feesWithAncestors[t] - p.modFee[a] - p.fee[b]
            || after[t].fees == p.feesWithAncestors[t] - p.modFee[b] - p.fee[a]
  {
    hide Dag; hide Cached;
    assert a in p.anc[t] * {a, b};
    assert p.anc[t] * {a, b} == {a, b};
    assert {a, b} - {a} == {b} && {a, b} - {b} == {a};
    SumOne(p.fee, a);
    SumOne(p.fee, b);
    assert t in after && Less(p, {a, b}, t, after[t]);
  }

  lemma RaisedValid()
    ensures ValidPool(Raised())
  {
    hide Dag; hide Cached;
    RaisedDag();
    RaisedCached();
  }

  lemma RaisedCached()
    requires Sized(Raised()) && Dag(Raised().parents, Raised().anc)
    ensures Cached(Raised())
  {
    hide Dag; hide Sized; hide WithAncestors;
    var p := Raised();
    RaisedTotals(p.size);
    RaisedTotals(p.sigops);
    RaisedTotals(p.modFee);
    RaisedCounts(p.anc[1], p.anc[3]);
    forall t | t in p.anc
      ensures && p.countWithAncestors[t] == |p.anc[t]| + 1
              && p.sizeWithAncestors[t] == WithAncestors(p.anc, p.size, t)
              && p.sigopsWithAncestors[t] == WithAncestors(p.anc, p.sigops, t)
              && p.feesWithAncestors[t] == WithAncestors(p.anc, p.modFee, t)
    {
      assert t == 1 || t == 2 || t == 3;
    }
  }

  lemma RaisedCounts(none: set<int>, two: set<int>)
    requires none == {} && two == {1, 2}
    ensures |none| == 0 && |two| == 2
  {
  }

  lemma RaisedTotals(f: map<int, int>)
    requires f.Keys == {1, 2, 3}
    ensures WithAncestors(Raised().anc, f, 1) == f[1] && WithAncestors(Raised().anc, f, 2) == f[2]
    ensures WithAncestors(Raised().anc, f, 3) == f[1] + f[2] + f[3]
  {
    PairSum(f);
  }

  lemma RaisedDag()
    ensures Dag(Raised().parents, Raised().anc)
  {
    var parents := Raised().parents;
    assert forall t :: t in parents ==> t == 1 || t == 2 || t == 3;
    forall a ensures a in parents[3] <==> IsAncestorVia(parents, parents, 3, a) {
      assert a in parents[3] ==> a in parents;
    }
    forall t, a | t == 1 || t == 2 ensures !IsAncestorVia(parents, parents, t, a) { assert parents[t] == {}; }
  }

  lemma PairSum(f: map<int, int>)
    requires 1 in f && 2 in f
    ensures Sum(f, {1, 2}) == f[1] + f[2]
  {
    SumOne(f, 1);
    SumAdd(f, {1}, 2);
    assert {1} + {2} == {1, 2};
  }

  // ----- one parent at a time -----

  /** One reduction of a descendant's recorded totals, by the parent `t` that joined the block. */
  ghost predicate Bumped(p: Pool, t: int, ds: set<int>, before: map<int, Mod>, after: map<int, Mod>)
    requires ValidPool(p) && t in p.anc && ds <= p.anc.Keys
  {
    && (forall d :: d in after <==> d in before || d in ds)
    && (forall d :: d in before && d !in ds ==> after[d] == before[d])
    && (forall d :: d in after && d in ds ==> ReducedBy(p, {t}, d, before, after[d]))
  }

  /** The descendants of `t` that are not themselves being added. */
  ghost function Touched(p: Pool, t: int, skip: set<int>): set<int> {
    set d | d in p.anc && t in p.anc[d] && d !in skip
  }

  /** A descendant's totals, recorded or cached, less those of the parent `t`. */
  function Lowered(p: Pool, t: int, modified: map<int, Mod>, d: int): Mod
    requires ValidPool(p) && t in p.anc && d in p.anc
  {
    if d in modified then
      var m := modified[d];
      Mod(m.size - p.size[t], m.fees - p.fee[t], m.sigops - p.sigops[t])
    else
      var m := CachedRecord(p, d);
      Mod(m.size - p.size[t], m.fees - p.modFee[t], m.sigops - p.sigops[t])
  }

  lemma LoweredReduces(p: Pool, t: int, modified: map<int, Mod>, d: int)
    requires ValidPool(p) && t in p.anc && d in p.anc
    ensures ReducedBy(p, {t}, d, modified, Lowered(p, t, modified, d))
  {
    hide Dag;
    SumOne(p.size, t);
    SumOne(p.sigops, t);
    SumOne(p.fee, t);
    if d !in modified {
      assert {t} - {t} == {};
      assert t in {t} && Lowered(p, t, modified, d).fees == FeesAfter(p, {t}, d, t);
    }
  }

  lemma BumpedStart(p: Pool, t: int, m: map<int, Mod>)
    requires ValidPool(p) && t in p.anc
    ensures Bumped(p, t, {}, m, m)
  {
  }

  lemma BumpedMore(p: Pool, t: int, done: set<int>, m0: map<int, Mod>, m1: map<int, Mod>, d: int)
    requires ValidPool(p) && t in p.anc && done <= p.anc.Keys && d in p.anc && d !in done
    requires Bumped(p, t, done, m0, m1)
    ensures Bumped(p, t, done + {d}, m0, m1[d := Lowered(p, t, m1, d)])
  {
    hide ValidPool; hide ReducedBy; hide Lowered;
    assert Lowered(p, t, m1, d) == Lowered(p, t, m0, d) by { LoweredSame(p, t, m0, m1, d); }
    LoweredReduces(p, t, m0, d);
  }

  lemma LoweredSame(p: Pool, t: int, m0: map<int, Mod>, m1: map<int, Mod>, d: int)
    requires ValidPool(p) && t in p.anc && d in p.anc && (d in m0 <==> d in m1) && (d in m0 ==> m0[d] == m1[d])
    ensures Lowered(p, t, m1, d) == Lowered(p, t, m0, d)
  {
  }

  lemma ReducedStart(p: Pool, skip: set<int>, m: map<int, Mod>)
    requires ValidPool(p)
    ensures Reduced(p, {}, skip, m, m)
  {
    hide Dag; hide Cached; hide Sized;
    forall d | d in m && d in p.anc ensures ReducedBy(p, p.anc[d] * {}, d, m, m[d]) {
      assert p.anc[d] * {} == {};
    }
    assert forall d :: d in p.anc ==> p.anc[d] * {} == {};
  }

  lemma ReducedMore(p: Pool, added: set<int>, skip: set<int>, t: int,
                    m0: map<int, Mod>, m1: map<int, Mod>, m2: map<int, Mod>)
    requires ValidPool(p) && added <= p.anc.Keys && t in p.anc && t !in added
    requires Reduced(p, added, skip, m0, m1) && Bumped(p, t, Touched(p, t, skip), m1, m2)
    ensures Reduced(p, added + {t}, skip, m0, m2)
  {
    hide Dag; hide Cached; hide ReducedBy;
    forall d | d in m2 && d in p.anc && d !in skip ensures ReducedBy(p, p.anc[d] * (added + {t}), d, m0, m2[d]) {
      ReducedMoreAt(p, added, skip, t, m0, m1, m2, d);
    }
    forall d | d in p.anc ensures p.anc[d] * (added + {t}) != {} <==> p.anc[d] * added != {} || t in p.anc[d] {
      MeetsMore(p.anc[d], added, t);
    }
  }

  lemma MeetsMore(a: set<int>, added: set<int>, t: int)
    ensures a * (added + {t}) != {} <==> a * added != {} || t in a
  {
    assert forall x :: x in a * (added + {t}) <==> x in a * added || (x == t && t in a);
    if a * added != {} { Inhabited(a * added); }
    if t in a { assert t in a * (added + {t}); }
    if a * added == {} && t !in a { NoMembers(a * (added + {t})); }
  }

  lemma ReducedMoreAt(p: Pool, added: set<int>, skip: set<int>, t: int,
                      m0: map<int, Mod>, m1: map<int, Mod>, m2: map<int, Mod>, d: int)
    requires ValidPool(p) && added <= p.anc.Keys && t in p.anc && t !in added
    requires Reduced(p, added, skip, m0, m1) && Bumped(p, t, Touched(p, t, skip), m1, m2)
    requires d in m2 && d in p.anc && d !in skip
    ensures ReducedBy(p, p.anc[d] * (added + {t}), d, m0, m2[d])
  {
    hide Dag; hide Cached; hide Sized; hide LowerBy; hide Less;
    AncestorsKnown(p, d);
    var gone := p.anc[d] * added;
    if t in p.anc[d] {
      assert p.anc[d] * (added + {t}) == gone + {t};
      assert d in Touched(p, t, skip);
      if d in m0 {
        LowerTwice(p, gone, {t}, m0[d], m1[d], m2[d]);
      } else if d in m1 {
        LowerLess(p, gone, {t}, d, m1[d], m2[d]);
      } else {
        assert gone + {t} == {t};
      }
    } else {
      assert p.anc[d] * (added + {t}) == gone;
      assert d !in Touched(p, t, skip);
    }
  }
}
