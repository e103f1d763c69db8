/** The memory pool as the block assembler sees it: a finite DAG of transactions
    with cached ancestor sets. */
module Mempool {
  import opened SetSum

  /** `anc` holds, for each transaction, all its in-pool ancestors. */
  datatype Pool = Pool(
    parents: map<int, set<int>>,
    anc: map<int, set<int>>,
    size: map<int, int>,
    weight: map<int, int>,
    sigops: map<int, int>,
    fee: map<int, int>,
    modFee: map<int, int>,
    countWithAncestors: map<int, int>,
    sizeWithAncestors: map<int, int>,
    sigopsWithAncestors: map<int, int>,
    feesWithAncestors: map<int, int>)

  const WITNESS_SCALE_FACTOR := 4

  ghost predicate Sized(p: Pool) {
    && p.size.Keys == p.weight.Keys == p.sigops.Keys == p.fee.Keys == p.modFee.Keys == p.anc.Keys == p.parents.Keys
    && (forall t :: t in p.size ==> 0 < p.size[t])
    && (forall t :: t in p.weight ==> 0 <= p.weight[t] <= WITNESS_SCALE_FACTOR * p.size[t])
    && (forall t :: t in p.sigops ==> 0 <= p.sigops[t])
  }

  /** The ancestor sets solve the closure equation of an acyclic parent relation. */
  ghost predicate Dag(parents: map<int, set<int>>, anc: map<int, set<int>>) {
    && anc.Keys == parents.Keys
    && (forall t :: t in anc ==> anc[t] <= anc.Keys && t !in anc[t])
    && (forall t :: t in parents ==> parents[t] <= anc.Keys)
    && (forall t, a :: t in anc ==> (a in anc[t] <==> IsAncestorVia(parents, anc, t, a)))
  }

  ghost predicate IsAncestorVia(parents: map<int, set<int>>, anc: map<int, set<int>>, t: int, a: int) {
    t in parents && exists p :: p in parents[t] && p in anc && (a == p || a in anc[p])
  }

  lemma {:induction false} AncestorsShrink(parents: map<int, set<int>>, anc: map<int, set<int>>, t: int, p: int)
    requires Dag(parents, anc) && t in anc && p in parents[t]
    ensures p in anc && p in anc[t] && anc[p] < anc[t]
  {
    assert IsAncestorVia(parents, anc, t, p);
    forall a | a in anc[p] ensures a in anc[t] {
      assert IsAncestorVia(parents, anc, t, a);
    }
    assert p !in anc[p];
  }

  /** Ancestors of ancestors are ancestors, and have strictly fewer ancestors. */
  lemma {:induction false} AncestorsTransitive(parents: map<int, set<int>>, anc: map<int, set<int>>, t: int, a: int)
    requires Dag(parents, anc) && t in anc && a in anc[t]
    ensures a in anc && anc[a] < anc[t]
    decreases |anc[t]|
  {
    assert IsAncestorVia(parents, anc, t, a);
    var p :| p in parents[t] && p in anc && (a == p || a in anc[p]);
    AncestorsShrink(parents, anc, t, p);
    if a != p {
      SmallerSet(anc[p], anc[t]);
      AncestorsTransitive(parents, anc, p, a);
    }
  }

  lemma SmallerSet(s: set<int>, t: set<int>)
    requires s < t
    ensures |s| < |t|
  {
    assert t == s + (t - s);
    assert t - s != {};
  }

  /** Total over a transaction and all its ancestors, as the pool caches it. */
  ghost function WithAncestors(anc: map<int, set<int>>, f: map<int, int>, t: int): int
    requires t in anc && t in f && anc[t] <= f.Keys
  {
    f[t] + Sum(f, anc[t])
  }

  /** The totals the pool caches are exact. */
  ghost predicate Cached(p: Pool)
    requires Sized(p) && Dag(p.parents, p.anc)
  {
    && p.countWithAncestors.Keys == p.sizeWithAncestors.Keys == p.anc.Keys
    && p.sigopsWithAncestors.Keys == p.feesWithAncestors.Keys == p.anc.Keys
    && (forall t :: t in p.anc ==> p.countWithAncestors[t] == |p.anc[t]| + 1)
    && (forall t :: t in p.anc ==> p.sizeWithAncestors[t] == WithAncestors(p.anc, p.size, t))
    && (forall t :: t in p.anc ==> p.sigopsWithAncestors[t] == WithAncestors(p.anc, p.sigops, t))
    && (forall t :: t in p.anc ==> p.feesWithAncestors[t] == WithAncestors(p.anc, p.modFee, t))
  }

  ghost predicate ValidPool(p: Pool) { Sized(p) && Dag(p.parents, p.anc) && Cached(p) }
}
