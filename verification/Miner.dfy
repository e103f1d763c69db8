/** `BlockAssembler`: greedy selection of transaction packages for a block. */
module Miner {
  import opened SetSum
  import opened Mempool
  import opened MinerProofs
  import opened MinerSelection

  const MAX_BLOCK_WEIGHT := 4000000

  // ----- sorting a package -----

  lemma {:induction false} FirstExists(p: Pool, s: set<int>)
    requires s <= p.countWithAncestors.Keys && s != {}
    ensures exists t :: t in s && IsFirst(p, s, t)
    decreases |s|
  {
    Inhabited(s);
    var y :| y in s;
    var rest := s - {y};
    assert forall x :: x in s ==> x == y || x in rest;
    if rest == {} {
      assert IsFirst(p, s, y);
    } else {
      FirstExists(p, rest);
      var t :| t in rest && IsFirst(p, rest, t);
      assert IsFirst(p, s, if Before(p, y, t) then y else t);
    }
  }

  predicate IsFirst(p: Pool, s: set<int>, t: int)
    requires s <= p.countWithAncestors.Keys && t in s
  {
    forall u :: u in s ==> Before(p, t, u)
  }

  method SortForBlock(p: Pool, package: set<int>) returns (s: seq<int>)
    requires package <= p.countWithAncestors.Keys
    ensures Sorted(p, package, s)
  {
    s := [];
    var rest := package;
    while rest != {}
      invariant rest <= package && Sorted(p, package - rest, s)
      invariant forall i, u :: 0 <= i < |s| && u in rest ==> Before(p, s[i], u)
      decreases |rest|
    {
      FirstExists(p, rest);
      var t :| t in rest && IsFirst(p, rest, t);
      SortedMore(p, package - rest, s, t);
      assert package - (rest - {t}) == package - rest + {t};
      s := s + [t];
      rest := rest - {t};
    }
    assert package - rest == package;
  }

  lemma SortedMore(p: Pool, done: set<int>, s: seq<int>, t: int)
    requires done <= p.countWithAncestors.Keys && t in p.countWithAncestors && t !in done && Sorted(p, done, s)
    requires forall i :: 0 <= i < |s| ==> Before(p, s[i], t)
    ensures Sorted(p, done + {t}, s + [t])
  {
    var q := s + [t];
    assert Elements(q) == Elements(s) + {t};
  }

  /** A package sorted by ancestor count can follow the block. */
  lemma AppendOrdered(p: Pool, block: seq<int>, package: set<int>, s: seq<int>)
    requires ValidPool(p) && Ordered(p.anc, block) && package <= p.anc.Keys && package !! Elements(block)
    requires Closed(p.anc, Elements(block) + package) && Sorted(p, package, s)
    ensures Ordered(p.anc, block + s) && Elements(block + s) == Elements(block) + package
  {
    hide Sized; hide Dag; hide Cached;
    var q := block + s;
    forall i, a | 0 <= i < |q| && a in p.anc[q[i]] ensures a in q[..i] {
      if i < |block| {
        assert a in block[..i];
        assert q[..i] == block[..i];
      } else {
        AncestorInFront(p, block, package, s, i - |block|, a);
        assert q[..i] == block + s[..i - |block|];
      }
    }
  }

  lemma FewerAncestors(p: Pool, t: int, a: int)
    requires ValidPool(p) && t in p.anc && a in p.anc[t]
    ensures a in p.anc && p.countWithAncestors[a] < p.countWithAncestors[t]
  {
    AncestorsTransitive(p.parents, p.anc, t, a);
    SmallerSet(p.anc[a], p.anc[t]);
  }

  lemma AncestorInFront(p: Pool, block: seq<int>, package: set<int>, s: seq<int>, i: nat, a: int)
    requires ValidPool(p) && package <= p.anc.Keys
    requires Closed(p.anc, Elements(block) + package) && Sorted(p, package, s)
    requires i < |s| && a in p.anc[s[i]]
    ensures a in block || a in s[..i]
  {
    hide Sized; hide Dag; hide WithAncestors;
    FewerAncestors(p, s[i], a);
    assert s[i] in Elements(block) + package;
    if a !in block {
      assert a in Elements(s);
      var j :| 0 <= j < |s| && s[j] == a;
      assert j < i;
    }
  }

  // ----- the assembler -----

  /** The package of `t` weighs at most four times the recorded size, and costs at most the recorded sigops. */
  lemma PackageFits(p: Pool, log: Log, block: seq<int>, t: int, m: Mod)
    requires Known(p, block) && t in p.anc && t !in Elements(block) && Stands(p, log, block, t, m)
    ensures Package(p.anc, Elements(block), t) <= p.anc.Keys
    ensures Sum(p.weight, Package(p.anc, Elements(block), t)) <= WITNESS_SCALE_FACTOR * m.size
    ensures Sum(p.sigops, Package(p.anc, Elements(block), t)) <= m.sigops
  {
    hide Stands; hide Dag; hide Elements; hide Sum; hide Cached;
    StandsBounds(p, log, block, t, m);
    AncestorsKnown(p, t);
    var inBlock := Elements(block);
    SumAdd(p.size, p.anc[t] - inBlock, t);
    SumAdd(p.sigops, p.anc[t] - inBlock, t);
    SumBound(p.weight, p.size, WITNESS_SCALE_FACTOR, Package(p.anc, inBlock, t));
  }

  /** Weight, sigop cost and fees are the sums over `s`. */
  ghost predicate Totals(p: Pool, s: set<int>, weight: int, sigops: int, fees: int)
    requires ValidPool(p) && s <= p.anc.Keys
  {
    weight == Sum(p.weight, s) && sigops == Sum(p.sigops, s) && fees == Sum(p.fee, s)
  }

  lemma TotalsMore(p: Pool, s: set<int>, weight: int, sigops: int, fees: int, t: int)
    requires ValidPool(p) && s <= p.anc.Keys && t in p.anc && t !in s && Totals(p, s, weight, sigops, fees)
    ensures Totals(p, s + {t}, weight + p.weight[t], sigops + p.sigops[t], fees + p.fee[t])
  {
    SumAdd(p.weight, s, t);
    SumAdd(p.sigops, s, t);
    SumAdd(p.fee, s, t);
  }

  lemma TotalsGrow(p: Pool, s: set<int>, more: set<int>, w: int, c: int, f: int, w': int, c': int, f': int)
    requires ValidPool(p) && s <= p.anc.Keys && more <= p.anc.Keys && s !! more
    requires Totals(p, s, w, c, f) && Totals(p, s + more, w', c', f')
    ensures w' == w + Sum(p.weight, more) && c' == c + Sum(p.sigops, more)
  {
    SumUnion(p.weight, s, more);
    SumUnion(p.sigops, s, more);
  }

  lemma ElementsEmpty()
    ensures Elements([]) == {}
  {
  }

  lemma ElementsAt(s: seq<int>, i: nat)
    requires i < |s|
    ensures s[i] in Elements(s)
  {
  }

  /** The pool in the order its index keeps it: every transaction once, none ranking after a later one. */
  ghost predicate Listing(p: Pool, rules: Rules, order: seq<int>) {
    && (forall t :: t in order <==> t in p.anc)
    && (forall i :: 0 <= i < |order| ==> CachedKeys(p, order[i]))
    && (forall i, j :: 0 <= i < j < |order| ==> order[i] != order[j])
    && (forall i, j :: 0 <= i < j < |order| ==>
          !rules.ranks(Candidate(order[j], CachedRecord(p, order[j])), Candidate(order[i], CachedRecord(p, order[i]))))
    && StrictWeak(rules.ranks)
  }

  /** No recorded entry ranks before this one. */
  predicate IsBest(rules: Rules, modified: map<int, Mod>, keys: set<int>, t: int)
    requires keys <= modified.Keys && t in keys
  {
    forall u :: u in keys ==> !rules.ranks(Candidate(u, modified[u]), Candidate(t, modified[t]))
  }

  lemma {:induction false} BestExists(rules: Rules, modified: map<int, Mod>, keys: set<int>)
    requires keys <= modified.Keys && keys != {} && StrictWeak(rules.ranks)
    ensures exists t :: t in keys && IsBest(rules, modified, keys, t)
    decreases |keys|
  {
    Inhabited(keys);
    var y :| y in keys;
    var rest := keys - {y};
    assert forall x :: x in keys ==> x == y || x in rest;
    if rest == {} {
      assert IsBest(rules, modified, keys, y);
    } else {
      BestExists(rules, modified, rest);
      var t :| t in rest && IsBest(rules, modified, rest, t);
      assert IsBest(rules, modified, keys,
                    if rules.ranks(Candidate(y, modified[y]), Candidate(t, modified[t])) then y else t);
    }
  }

  class BlockAssembler {
    const nBlockMaxWeight: int
    var vtx: seq<int>
    var inBlock: set<int>
    var nBlockWeight: int
    var nBlockSigOpsCost: int
    var nBlockTx: int
    var nFees: int

    constructor (maxWeight: int)
      ensures nBlockMaxWeight == if maxWeight < 4000 then 4000
        else if maxWeight < MAX_BLOCK_WEIGHT - 4000 then maxWeight else MAX_BLOCK_WEIGHT - 4000
      ensures vtx == [] && inBlock == {} && nBlockTx == 0 && nFees == 0
      ensures nBlockWeight == COINBASE_WEIGHT && nBlockSigOpsCost == COINBASE_SIGOPS
    {
      var capped := if maxWeight < MAX_BLOCK_WEIGHT - 4000 then maxWeight else MAX_BLOCK_WEIGHT - 4000;
      nBlockMaxWeight := if capped < 4000 then 4000 else capped;
      vtx, inBlock := [], {};
      nBlockWeight, nBlockSigOpsCost, nBlockTx, nFees := COINBASE_WEIGHT, COINBASE_SIGOPS, 0, 0;
    }

    /** The block is in a valid order and its counters are the exact sums. */
    ghost predicate Valid(p: Pool)
      reads this
    {
      Counted(p) && Ordered(p.anc, vtx) && inBlock == Elements(vtx) && nBlockTx == |vtx|
    }

    ghost predicate WithinLimits()
      reads this
    {
      nBlockWeight <= nBlockMaxWeight && nBlockSigOpsCost < MAX_BLOCK_SIGOPS_COST
    }

    /** The block is valid and within its limits, the modified table is right, and what is neither
        in the block nor still to be looked at was rejected. */
    ghost predicate Sound(p: Pool, rules: Rules, log: Log, modified: map<int, Mod>, failed: set<int>,
                          pending: seq<int>)
      reads this
    {
      && Valid(p) && WithinLimits() && rules.maxWeight == nBlockMaxWeight && Dated(log, |vtx|)
      && Tracks(p, log, vtx, modified, failed) && Accounted(p, log, vtx, modified, failed, pending)
    }

    method TestPackage(packageSize: int, packageSigOpsCost: int) returns (fits: bool)
      ensures fits <==> !Unfit(nBlockWeight, nBlockSigOpsCost, nBlockMaxWeight, packageSize, packageSigOpsCost)
    {
      if nBlockWeight + WITNESS_SCALE_FACTOR * packageSize >= nBlockMaxWeight { return false; }
      if nBlockSigOpsCost + packageSigOpsCost >= MAX_BLOCK_SIGOPS_COST { return false; }
      return true;
    }

    method AddToBlock(p: Pool, t: int)
      requires ValidPool(p) && t in p.anc
      modifies this
      ensures vtx == old(vtx) + [t] && inBlock == old(inBlock) + {t}
      ensures nBlockWeight == old(nBlockWeight) + p.weight[t]
      ensures nBlockSigOpsCost == old(nBlockSigOpsCost) + p.sigops[t]
      ensures nBlockTx == old(nBlockTx) + 1 && nFees == old(nFees) + p.fee[t]
    {
      vtx := vtx + [t];
      nBlockWeight := nBlockWeight + p.weight[t];
      nBlockTx := nBlockTx + 1;
      nBlockSigOpsCost := nBlockSigOpsCost + p.sigops[t];
      nFees := nFees + p.fee[t];
      inBlock := inBlock + {t};
    }

    /** The counters are the sums over the block. */
    ghost predicate Counted(p: Pool)
      reads this
    {
      && ValidPool(p) && inBlock <= p.anc.Keys
      && Totals(p, inBlock, nBlockWeight - COINBASE_WEIGHT, nBlockSigOpsCost - COINBASE_SIGOPS, nFees)
    }

    /** Adds the sorted package to the block and erases it from the modified table. */
    method AddSorted(p: Pool, sorted: seq<int>, modified: map<int, Mod>) returns (rest: map<int, Mod>)
      requires Counted(p) && Elements(sorted) <= p.anc.Keys && Elements(sorted) !! inBlock
      requires forall i, j :: 0 <= i < j < |sorted| ==> sorted[i] != sorted[j]
      modifies this
      ensures vtx == old(vtx) + sorted && inBlock == old(inBlock) + Elements(sorted)
      ensures nBlockTx == old(nBlockTx) + |sorted| && Counted(p)
      ensures rest == modified - Elements(sorted)
    {
      hide ValidPool; hide Totals; hide Elements;
      rest := modified;
      var i := 0;
      ghost var done: set<int> := {};
      assert sorted[..0] == [];
      ElementsEmpty();
      while i < |sorted|
        invariant 0 <= i <= |sorted| && done == Elements(sorted[..i]) && done <= Elements(sorted)
        invariant vtx == old(vtx) + sorted[..i] && inBlock == old(inBlock) + done
        invariant nBlockTx == old(nBlockTx) + i && Counted(p)
        invariant rest == modified - done
      {
        var t := sorted[i];
        ElementsStep(sorted, i);
        ElementsAt(sorted, i);
        assert t in p.anc && t !in inBlock;
        TotalsMore(p, inBlock, nBlockWeight - COINBASE_WEIGHT, nBlockSigOpsCost - COINBASE_SIGOPS, nFees, t);
        AddToBlock(p, t);
        rest := rest - {t};
        i := i + 1;
        done := done + {t};
      }
      assert sorted[..i] == sorted;
    }

    /** Adds the package of `t` in a valid order and updates the modified table for its descendants. */
    method AddPackage(p: Pool, ghost rules: Rules, ghost log: Log, t: int, package: set<int>, modified: map<int, Mod>,
                      ghost failed: set<int>, ghost pending: seq<int>)
      returns (after: map<int, Mod>, updated: nat, ghost sorted: seq<int>)
      requires Sound(p, rules, log, modified, failed, pending)
      requires t in p.anc && t !in inBlock && package == Package(p.anc, inBlock, t) && package <= p.anc.Keys
      requires nBlockWeight + Sum(p.weight, package) <= nBlockMaxWeight
      requires nBlockSigOpsCost + Sum(p.sigops, package) < MAX_BLOCK_SIGOPS_COST
      modifies this
      ensures Sound(p, rules, log, after, failed, pending) && inBlock == old(inBlock) + package
      ensures vtx == old(vtx) + sorted && package <= p.countWithAncestors.Keys && Sorted(p, package, sorted)
    {
      hide Accounted; hide Tracks; hide ValidPool; hide Ordered; hide Sorted; hide Closed; hide Package; hide Elements;
      hide Reduced; hide Totals;
      PoolKeys(p);
      ghost var block := vtx;
      OrderedClosed(p.anc, vtx);
      PackageCloses(p, inBlock, t);
      var entries := SortForBlock(p, package);
      sorted := entries;
      SortedElements(p, package, sorted);
      AppendOrdered(p, vtx, package, sorted);
      var rest := AddSorted(p, entries, modified);
      TotalsGrow(p, Elements(block), package, old(nBlockWeight) - COINBASE_WEIGHT,
                 old(nBlockSigOpsCost) - COINBASE_SIGOPS, old(nFees), nBlockWeight - COINBASE_WEIGHT,
                 nBlockSigOpsCost - COINBASE_SIGOPS, nFees);
      after, updated := UpdatePackagesForAdded(p, package, rest);
      TracksAfterAdd(p, log, block, sorted, failed, pending, modified, rest, after);
      AccountedAfterAdd(p, log, block, sorted, failed, pending, modified, rest, after);
    }

    /** Whether all transactions of the package may be in the block now. */
    method TestPackageTransactions(package: set<int>, isFinal: int -> bool) returns (ok: bool)
      ensures ok <==> AllFinal(isFinal, package)
    {
      var todo := package;
      while todo != {}
        invariant todo <= package && forall t :: t in package && t !in todo ==> isFinal(t)
        decreases |todo|
      {
        Inhabited(todo);
        var t :| t in todo;
        if !isFinal(t) { return false; }
        todo := todo - {t};
      }
      return true;
    }

    /** Which entry to evaluate next: the best modified one or the next of the pool's order. */
    method Choose(p: Pool, rules: Rules, ghost log: Log, order: seq<int>, mi: nat, modified: map<int, Mod>,
                  ghost failed: set<int>)
      returns (c: Candidate, usingModified: bool)
      requires mi <= |order| && (mi < |order| || modified != map[]) && Listing(p, rules, order)
      requires Sound(p, rules, log, modified, failed, order[mi..])
      requires mi < |order| ==> order[mi] !in modified && order[mi] !in inBlock && order[mi] !in failed
      ensures if usingModified then c.id in modified else mi < |order| && c.id == order[mi]
      ensures Known(p, vtx) && Best(p, rules, log, vtx, modified, failed, order[mi..], c)
    {
      hide ValidPool; hide Accounted; hide Ordered; hide Totals; hide Recorded; hide Stands; hide Elements;
      hide Rejected;
      usingModified := mi == |order|;
      c := Candidate(0, Mod(0, 0, 0));
      if mi < |order| {
        assert order[mi] in order;
        c := Candidate(order[mi], CachedRecord(p, order[mi]));
        CachedStands(p, log, vtx, order[mi]);
        OpenListed(p, log, vtx, modified, failed, order, mi);
      }
      if modified != map[] {
        assert modified.Keys != {};
        BestExists(rules, modified, modified.Keys);
        var best :| best in modified.Keys && IsBest(rules, modified, modified.Keys, best);
        var b := Candidate(best, modified[best]);
        OpenRecorded(p, log, vtx, best, modified[best]);
        if usingModified || rules.ranks(b, c) {
          c, usingModified := b, true;
        }
      }
    }

    /** Tests the chosen package and adds it to the block, or gives up on it. */
    method Evaluate(p: Pool, rules: Rules, ghost log: Log, c: Candidate, usingModified: bool, modified: map<int, Mod>,
                    failed: set<int>, ghost pending: seq<int>, ghost pending': seq<int>)
      returns (after: map<int, Mod>, failed': set<int>, fits: bool, added: bool, updated: nat, ghost deed: Deed)
      requires Sound(p, rules, log, modified, failed, pending)
      requires Next(p, rules, log, vtx, c) && !rules.feeTooLow(c.record) && Patient(p, rules, log, vtx)
      requires (forall x :: x in pending ==> x == c.id || x in pending') && (forall x :: x in pending' ==> x in pending)
      requires if usingModified then c.id in modified else c.id !in modified && c.id !in pending'
      modifies this
      ensures deed.c == c && (added <==> deed.Take?)
      ensures Rightly(p, rules, log, old(vtx), deed)
      ensures fits <==> !Misfit(p, rules, old(vtx), c.record)
      ensures added ==> c.id in inBlock && old(inBlock) <= inBlock && fits
      ensures added ==> vtx == old(vtx) + deed.added && deed.added != []
      ensures added ==> Sound(p, rules, log, after, failed', pending')
      ensures !added ==> vtx == old(vtx) && inBlock == old(inBlock)
      ensures !added ==> Sound(p, rules, log + [Refusal(c, |vtx|)], after, failed', pending')
      ensures !added ==> after == modified - {c.id} && failed' == (if usingModified then failed + {c.id} else failed)
      ensures !added ==> nBlockWeight == old(nBlockWeight)
    {
      hide ValidPool; hide Ordered; hide Tracks; hide Stands; hide Elements; hide Package; hide Accounted;
      hide Rejected; hide AllFinal; hide NoneHigher; hide Patient; hide Dated; hide Sorted;
      after, failed', added, updated, deed := modified, failed, false, 0, Refuse(c);
      fits := TestPackage(c.record.size, c.record.sigops);
      assert fits <==> !Misfit(p, rules, vtx, c.record);
      var package := OnlyUnconfirmed(p.anc[c.id]) + {c.id};
      PackageIs(p, inBlock, c.id);
      var final := TestPackageTransactions(package, rules.isFinal);
      if fits && final {
        PackageFits(p, log, vtx, c.id, c.record);
        ghost var sorted;
        after, updated, sorted := AddPackage(p, rules, log, c.id, package, modified, failed, pending);
        deed := Take(c, sorted);
        SortedSome(p, package, sorted, c.id);
        AccountedDrop(p, log, vtx, after, failed, pending, pending', c.id);
        added := true;
      } else {
        if usingModified {
          after, failed' := modified - {c.id}, failed + {c.id};
        }
        assert after == modified - {c.id};
        AccountedAfterFailure(p, log, vtx, modified, failed, pending, after, failed', pending', c);
        TracksAfterFailure(p, log, vtx, modified, failed, after, failed', c);
        DatedMore(log, |vtx|, c);
      }
    }

    /**
     * `addPackageTxs`. It ends for every pool, and whatever the ranking, fee and finality rules, the block stays
     * ordered, closed and within its limits. What it does is one after the other the right thing about the next
     * candidate, and it stops for one of three reasons.
     */
    method AddPackageTxs(p: Pool, rules: Rules, order: seq<int>)
      returns (packagesSelected: nat, descendantsUpdated: nat, ghost deeds: seq<Deed>, ghost stop: Stop)
      requires Valid(p) && WithinLimits() && rules.maxWeight == nBlockMaxWeight && Listing(p, rules, order)
      modifies this
      ensures Valid(p) && WithinLimits() && old(inBlock) <= inBlock
      ensures AllRightly(p, rules, old(vtx), deeds) && vtx == BlockAfter(old(vtx), deeds)
      ensures packagesSelected == Taken(deeds)
      ensures Known(p, vtx) && Stopped(p, rules, LogAfter(old(vtx), deeds), vtx, stop)
    {
      hide AllRightly; hide Stopped;
      var modified, _ := UpdatePackagesForAdded(p, inBlock, map[]);
      StartsSound(p, rules, modified, order);
      packagesSelected, descendantsUpdated, deeds, stop := SelectPackages(p, rules, order, modified);
    }

    /** Chooses the next package and evaluates it; `cutOff` if its fee is too low. */
    method Consider(p: Pool, rules: Rules, ghost log: Log, order: seq<int>, mi: nat, modified: map<int, Mod>,
                    failed: set<int>)
      returns (c: Candidate, mi': nat, after: map<int, Mod>, failed': set<int>,
               cutOff: bool, fits: bool, added: bool, updated: nat, ghost deed: Deed)
      requires mi <= |order| && (mi < |order| || modified != map[]) && Listing(p, rules, order)
      requires Sound(p, rules, log, modified, failed, order[mi..]) && Patient(p, rules, log, vtx)
      requires mi < |order| ==> order[mi] !in modified && order[mi] !in inBlock && order[mi] !in failed
      modifies this
      ensures Valid(p) && WithinLimits() && old(inBlock) <= inBlock && mi <= mi' <= |order|
      ensures cutOff ==> vtx == old(vtx) && inBlock == old(inBlock) && Stopped(p, rules, log, vtx, FeeTooLow(c))
      ensures !cutOff ==> deed.c == c && (added <==> deed.Take?) && Rightly(p, rules, log, old(vtx), deed)
      ensures !cutOff ==> (fits <==> !Misfit(p, rules, old(vtx), c.record)) && (added ==> fits)
      ensures !cutOff && added ==> Sound(p, rules, log, after, failed', order[mi'..])
      ensures !cutOff && added ==> c.id in p.anc && c.id in inBlock && c.id !in old(inBlock)
      ensures !cutOff && added ==> vtx == old(vtx) + deed.added && deed.added != []
      ensures !cutOff && !added ==> Sound(p, rules, log + [Refusal(c, |vtx|)], after, failed', order[mi'..])
      ensures !cutOff && !added ==> vtx == old(vtx) && inBlock == old(inBlock) && nBlockWeight == old(nBlockWeight)
      ensures !cutOff && !added ==> Left(order, mi', after) < Left(order, mi, modified)
    {
      hide Tracks; hide Accounted; hide Ordered; hide Totals; hide ValidPool; hide Elements; hide Stands;
      hide Size; hide Listing; hide NoneHigher; hide Sorted; hide Package; hide TurnedAway; hide Rejected; hide Patient;
      hide Dated; hide Rightly; hide Misfit;
      mi', after, failed', fits, added, updated := mi, modified, failed, false, false, 0;
      var usingModified;
      c, usingModified := Choose(p, rules, log, order, mi, modified, failed);
      if !usingModified { mi' := mi + 1; }
      BestIsHighest(p, rules, log, vtx, modified, failed, order[mi..], c);
      deed := Refuse(c);
      cutOff := rules.feeTooLow(c.record);
      if !cutOff {
        NextPending(order, order[mi..], mi', c.id, usingModified);
        LaterPending(order, mi, mi');
        if !usingModified { Passed(p, rules, order, mi); }
        after, failed', fits, added, updated, deed :=
          Evaluate(p, rules, log, c, usingModified, modified, failed, order[mi..], order[mi'..]);
        if usingModified { Smaller(modified, c.id); } else { assert modified - {c.id} == modified; }
      }
    }

    /** The selection loop. */
    method SelectPackages(p: Pool, rules: Rules, order: seq<int>, initial: map<int, Mod>)
      returns (packagesSelected: nat, descendantsUpdated: nat, ghost deeds: seq<Deed>, ghost stop: Stop)
      requires Sound(p, rules, [], initial, {}, order[0..]) && Listing(p, rules, order)
      modifies this
      ensures Valid(p) && WithinLimits() && old(inBlock) <= inBlock
      ensures AllRightly(p, rules, old(vtx), deeds) && vtx == BlockAfter(old(vtx), deeds)
      ensures packagesSelected == Taken(deeds)
      ensures Known(p, vtx) && Stopped(p, rules, LogAfter(old(vtx), deeds), vtx, stop)
    {
      hide AllRightly; hide Rightly; hide Tracks; hide Accounted; hide Ordered; hide Totals; hide ValidPool;
      hide Elements; hide Stopped; hide Outside; hide Left; hide Listing; hide Size; hide Misfit; hide Dated;
      var modified: map<int, Mod>, failedTx: set<int> := initial, {};
      packagesSelected, descendantsUpdated, deeds := 0, 0, [];
      ghost var log: Log := [];
      NoDeeds(p, rules, vtx);
      var mi := 0;
      var consecutiveFailed := 0;
      while mi < |order| || modified != map[]
        invariant mi <= |order| && old(inBlock) <= inBlock
        invariant AllRightly(p, rules, old(vtx), deeds) && vtx == BlockAfter(old(vtx), deeds)
        invariant log == LogAfter(old(vtx), deeds) && packagesSelected == Taken(deeds)
        invariant Sound(p, rules, log, modified, failedTx, order[mi..])
        invariant consecutiveFailed == Misses(p, rules, log, vtx) && Patient(p, rules, log, vtx)
        decreases Outside(p, inBlock), Left(order, mi, modified)
      {
        if mi < |order| && (order[mi] in modified || order[mi] in inBlock || order[mi] in failedTx) {
          LeftLess(order, mi, modified);
          SkipSound(p, rules, log, modified, failedTx, order, mi);
          mi := mi + 1;
          continue;
        }
        ghost var block, was := vtx, inBlock;
        var c, cutOff, fits, added, n;
        ghost var deed;
        c, mi, modified, failedTx, cutOff, fits, added, n, deed :=
          Consider(p, rules, log, order, mi, modified, failedTx);
        if cutOff {
          stop := FeeTooLow(c);
          return;
        }
        DeedMore(p, rules, old(vtx), deeds, deed);
        deeds := deeds + [deed];
        if added {
          Shrinks(p, was, inBlock, c.id);
          GrownForgets(p, rules, log, block, vtx);
          consecutiveFailed := 0;
          packagesSelected := packagesSelected + 1;
          descendantsUpdated := descendantsUpdated + n;
        } else {
          MissesMore(p, rules, log, vtx, c);
          log := log + [Refusal(c, |vtx|)];
          if !fits {
            consecutiveFailed := consecutiveFailed + 1;
            if consecutiveFailed > MAX_CONSECUTIVE_FAILURES && nBlockWeight > nBlockMaxWeight - 4000 {
              stop := NearlyFull;
              WeightIs(p);
              StopsNearlyFull(p, rules, log, vtx);
              return;
            }
          }
          WeightIs(p);
        }
      }
      stop := Exhausted;
      assert order[mi..] == [];
      StopsExhausted(p, rules, log, vtx, failedTx);
    }

    lemma WeightIs(p: Pool)
      requires Valid(p)
      ensures Known(p, vtx) && nBlockWeight == COINBASE_WEIGHT + Sum(p.weight, Elements(vtx))
    {
      hide ValidPool; hide Ordered; hide Elements;
    }

    lemma StartsSound(p: Pool, rules: Rules, modified: map<int, Mod>, order: seq<int>)
      requires Valid(p) && WithinLimits() && rules.maxWeight == nBlockMaxWeight && Listing(p, rules, order)
      requires Reduced(p, inBlock, inBlock, map[], modified)
      ensures Sound(p, rules, [], modified, {}, order[0..])
    {
      hide Totals; hide ValidPool; hide Reduced; hide Accounted; hide Tracks; hide Rejected;
      OrderedClosed(p.anc, vtx);
      assert [] + vtx == vtx && order[0..] == order;
      ElementsEmpty();
      assert Elements([] + vtx) == Elements([]) + Elements(vtx);
      NothingYet(p, order);
      var none: map<int, Mod> := map[];
      assert none == none - Elements(vtx);
      TracksAfterAdd(p, [], [], vtx, {}, order, none, none, modified);
      AccountedAfterAdd(p, [], [], vtx, {}, order, none, none, modified);
    }

    lemma SkipSound(p: Pool, rules: Rules, log: Log, modified: map<int, Mod>, failed: set<int>, order: seq<int>,
                    mi: nat)
      requires mi < |order| && Sound(p, rules, log, modified, failed, order[mi..])
      requires order[mi] in modified || order[mi] in inBlock || order[mi] in failed
      ensures Sound(p, rules, log, modified, failed, order[mi + 1..])
    {
      hide ValidPool; hide Accounted; hide Tracks;
      LaterPending(order, mi, mi + 1);
      AccountedDrop(p, log, vtx, modified, failed, order[mi..], order[mi + 1..], order[mi]);
    }

    function OnlyUnconfirmed(testSet: set<int>): set<int>
      reads this
    {
      set a | a in testSet && a !in inBlock
    }
  }

  /** Nothing has been done yet. */
  lemma NoDeeds(p: Pool, rules: Rules, block: seq<int>)
    ensures AllRightly(p, rules, block, []) && BlockAfter(block, []) == block && LogAfter(block, []) == []
    ensures Known(p, block) ==> Misses(p, rules, [], block) == 0 && Patient(p, rules, [], block)
  {
  }

  lemma StopsNearlyFull(p: Pool, rules: Rules, log: Log, block: seq<int>)
    requires Known(p, block) && !Patient(p, rules, log, block)
    ensures Stopped(p, rules, log, block, NearlyFull)
  {
  }

  lemma DatedMore(log: Log, n: nat, c: Candidate)
    requires Dated(log, n)
    ensures Dated(log + [Refusal(c, n)], n)
  {
  }

  /** A block that has grown has not yet turned anybody away. */
  lemma GrownForgets(p: Pool, rules: Rules, log: Log, block: seq<int>, grown: seq<int>)
    requires Dated(log, |block|) && |block| < |grown| && Known(p, grown)
    ensures Dated(log, |grown|) && Misses(p, rules, log, grown) == 0 && Patient(p, rules, log, grown)
  {
    NoMisses(p, rules, log, grown);
  }

  lemma SortedSome(p: Pool, package: set<int>, s: seq<int>, t: int)
    requires package <= p.countWithAncestors.Keys && Sorted(p, package, s) && t in package
    ensures s != []
  {
    assert t in Elements(s);
  }

  /** A recorded entry has an ancestor that joined since it was refused. */
  lemma OpenRecorded(p: Pool, log: Log, block: seq<int>, t: int, m: Mod)
    requires Known(p, block) && t in p.anc && Recorded(p, log, block, t, m)
    ensures Stands(p, log, block, t, m) && !Rejected(p, log, block, t)
  {
    hide ValidPool; hide Stands; hide Fresh; hide InLog;
  }

  /** A listed entry that has not failed was never refused. */
  lemma OpenListed(p: Pool, log: Log, block: seq<int>, modified: map<int, Mod>, failed: set<int>, order: seq<int>,
                   mi: nat)
    requires Known(p, block) && mi < |order| && Accounted(p, log, block, modified, failed, order[mi..])
    requires order[mi] in p.anc && order[mi] !in failed
    ensures !Rejected(p, log, block, order[mi])
  {
    hide ValidPool; hide Elements; hide Fresh;
    assert order[mi..][0] == order[mi];
  }

  /** An empty block and table. */
  lemma NothingYet(p: Pool, order: seq<int>)
    requires ValidPool(p) && forall t :: t in p.anc ==> t in order
    ensures Known(p, []) && Tracks(p, [], [], map[], {}) && Accounted(p, [], [], map[], {}, order)
    ensures Closed(p.anc, Elements([]))
  {
    hide ValidPool; hide Rejected; hide Recorded;
  }

  lemma LaterPending(order: seq<int>, from: nat, mi: nat)
    requires from <= mi <= |order|
    ensures forall x :: x in order[mi..] ==> x in order[from..]
  {
    assert order[mi..] == order[from..][mi - from..];
  }

  lemma Passed(p: Pool, rules: Rules, order: seq<int>, mi: nat)
    requires Listing(p, rules, order) && mi < |order|
    ensures order[mi] !in order[mi + 1..] && order[mi] in order[mi..] && order[mi] in p.anc
  {
    assert order[mi] in order;
    assert order[mi..][0] == order[mi];
  }

  lemma PackageIs(p: Pool, inBlock: set<int>, t: int)
    requires t in p.anc
    ensures (set a | a in p.anc[t] && a !in inBlock) + {t} == Package(p.anc, inBlock, t)
  {
  }

  lemma Smaller(m: map<int, Mod>, t: int)
    requires t in m
    ensures Size(m - {t}) < Size(m)
  {
    assert (m - {t}).Keys == m.Keys - {t};
  }

  lemma NextPending(order: seq<int>, pending: seq<int>, mi: nat, t: int, usingModified: bool)
    requires mi <= |order|
    requires if usingModified then pending == order[mi..]
      else mi > 0 && t == order[mi - 1] && pending == order[mi - 1..]
    ensures forall x :: x in pending ==> x == t || x in order[mi..]
  {
    if !usingModified { assert pending == [t] + order[mi..]; }
  }

  /** How many entries are left to look at. */
  ghost function Left(order: seq<int>, mi: nat, modified: map<int, Mod>): nat
    requires mi <= |order|
  {
    |order| - mi + Size(modified)
  }

  ghost function Size(m: map<int, Mod>): nat { |m| }

  /** How many transactions are outside the block. */
  ghost function Outside(p: Pool, inBlock: set<int>): nat { |p.anc.Keys - inBlock| }

  lemma LeftLess(order: seq<int>, mi: nat, modified: map<int, Mod>)
    requires mi < |order|
    ensures Left(order, mi + 1, modified) < Left(order, mi, modified)
  {
  }

  lemma Shrinks(p: Pool, was: set<int>, now: set<int>, t: int)
    requires was <= now && t in p.anc && t in now && t !in was
    ensures Outside(p, now) < Outside(p, was)
  {
    var all := p.anc.Keys;
    assert t in all - was && t !in all - now;
    assert all - now <= all - was - {t};
    SmallerSet(all - now, all - was);
  }

  lemma PoolKeys(p: Pool)
    requires ValidPool(p)
    ensures p.countWithAncestors.Keys == p.size.Keys == p.sizeWithAncestors.Keys == p.sigopsWithAncestors.Keys
      == p.feesWithAncestors.Keys == p.anc.Keys
    ensures p.weight.Keys == p.sigops.Keys == p.anc.Keys
    ensures forall t :: t in p.anc ==> p.anc[t] <= p.anc.Keys
  {
  }

  lemma SortedElements(p: Pool, package: set<int>, s: seq<int>)
    requires package <= p.countWithAncestors.Keys && Sorted(p, package, s)
    ensures Elements(s) == package && forall i, j :: 0 <= i < j < |s| ==> s[i] != s[j]
  {
  }

  lemma ElementsStep(s: seq<int>, i: nat)
    requires i < |s| && forall i, j :: 0 <= i < j < |s| ==> s[i] != s[j]
    ensures s[..i + 1] == s[..i] + [s[i]] && Elements(s[..i + 1]) == Elements(s[..i]) + {s[i]} &&
      s[i] !in Elements(s[..i])
  {
    assert forall x :: x in s[..i + 1] <==> x in s[..i] || x == s[i];
  }

  /** `UpdatePackagesForAdded`: reduces the totals of the descendants of everything just added. */
  method UpdatePackagesForAdded(p: Pool, added: set<int>, modified: map<int, Mod>)
    returns (after: map<int, Mod>, updated: nat)
    requires ValidPool(p) && added <= p.anc.Keys
    ensures Reduced(p, added, added, modified, after)
  {
    hide Reduced; hide Bumped; hide ValidPool;
    after, updated := modified, 0;
    var todo := added;
    ReducedStart(p, added, modified);
    assert added - todo == {};
    while todo != {}
      invariant todo <= added && Reduced(p, added - todo, added, modified, after)
      decreases |todo|
    {
      Inhabited(todo);
      var t :| t in todo;
      var before := after;
      var n;
      after, n := ReduceDescendants(p, t, added, before);
      ReducedMore(p, added - todo, added, t, modified, before, after);
      assert added - todo + {t} == added - (todo - {t});
      todo := todo - {t};
      updated := updated + n;
    }
    assert added - todo == added;
  }

  /** The inner loop: all descendants of `t`, those being added skipped. */
  method ReduceDescendants(p: Pool, t: int, added: set<int>, modified: map<int, Mod>)
    returns (after: map<int, Mod>, updated: nat)
    requires ValidPool(p) && t in p.anc && t in added
    ensures Touched(p, t, added) <= p.anc.Keys && Bumped(p, t, Touched(p, t, added), modified, after)
  {
    hide Bumped; hide ValidPool; hide Lowered;
    after, updated := modified, 0;
    var descendants := set d | d in p.anc && (d == t || t in p.anc[d]);
    var todo := descendants;
    BumpedStart(p, t, modified);
    ghost var done: set<int> := {};
    while todo != {}
      invariant todo <= descendants && done <= p.anc.Keys
      invariant forall d :: d in done <==> d in descendants && d !in todo && d !in added
      invariant Bumped(p, t, done, modified, after)
      decreases |todo|
    {
      Inhabited(todo);
      var d :| d in todo;
      todo := todo - {d};
      if d !in added {
        updated := updated + 1;
        BumpedMore(p, t, done, modified, after, d);
        after := after[d := Lowered(p, t, after, d)];
        done := done + {d};
      }
    }
    assert forall d :: d in done <==> d in Touched(p, t, added);
    assert done == Touched(p, t, added);
  }
}
