/** Why a transaction is chosen or left out: the record it stands with, and when it was refused. */
module MinerSelection {
  import opened SetSum
  import opened Mempool
  import opened MinerProofs

  const MAX_BLOCK_SIGOPS_COST := 80000

  /** What is reserved for the coinbase. */
  const COINBASE_WEIGHT := 4000
  const COINBASE_SIGOPS := 400

  /** A transaction with the totals it is judged by. */
  datatype Candidate = Candidate(id: int, record: Mod)

  /** The node's settings: the weight limit, the ranking by fee rate, the least fee and finality. */
  datatype Rules = Rules(
    maxWeight: int,
    ranks: (Candidate, Candidate) -> bool,
    feeTooLow: Mod -> bool,
    isFinal: int -> bool)

  /** The ranking is one that containers can be ordered by. */
  ghost predicate StrictWeak(ranks: (Candidate, Candidate) -> bool) {
    && (forall a, b :: ranks(a, b) ==> !ranks(b, a))
    && (forall a, b, c :: !ranks(a, b) && !ranks(b, c) ==> !ranks(a, c))
  }

  /** A package with these totals does not fit. */
  predicate Unfit(weight: int, sigops: int, maxWeight: int, packageSize: int, packageSigOps: int) {
    weight + WITNESS_SCALE_FACTOR * packageSize >= maxWeight || sigops + packageSigOps >= MAX_BLOCK_SIGOPS_COST
  }

  predicate AllFinal(isFinal: int -> bool, package: set<int>) { forall t :: t in package ==> isFinal(t) }

  // ----- refusals -----

  ghost predicate Known(p: Pool, block: seq<int>) { ValidPool(p) && Elements(block) <= p.anc.Keys }

  /** A candidate that was turned away when the block had `at` transactions. */
  datatype Refusal = Refusal(c: Candidate, at: nat)

  /** The refusals so far, in order. */
  type Log = seq<Refusal>

  ghost predicate Dated(log: Log, n: nat) { forall k :: 0 <= k < |log| ==> log[k].at <= n }

  ghost predicate InLog(log: Log, t: int) { exists k :: 0 <= k < |log| && log[k].c.id == t }

  /** How many transactions the block had when `t` was last refused; zero if it never was. */
  ghost function LastAt(log: Log, t: int): nat {
    if log == [] then 0
    else if log[|log| - 1].c.id == t then log[|log| - 1].at
    else LastAt(log[..|log| - 1], t)
  }

  lemma {:induction false} LastAtDated(log: Log, t: int, n: nat)
    requires Dated(log, n)
    ensures LastAt(log, t) <= n
  {
    if log != [] { LastAtDated(log[..|log| - 1], t, n); }
  }

  /** The ancestors of `t` that joined the block since it had `since` transactions. */
  ghost function Newer(p: Pool, block: seq<int>, t: int, since: nat): set<int>
    requires t in p.anc
  {
    if since <= |block| then p.anc[t] * Elements(block[since..]) else {}
  }

  /** The ancestors of `t` that joined the block since it was last refused, or at all. */
  ghost function Fresh(p: Pool, log: Log, block: seq<int>, t: int): set<int>
    requires t in p.anc
  {
    Newer(p, block, t, LastAt(log, t))
  }

  /** `t` was refused, and no ancestor of it has joined the block since. */
  ghost predicate Rejected(p: Pool, log: Log, block: seq<int>, t: int)
    requires t in p.anc
  {
    InLog(log, t) && Fresh(p, log, block, t) == {}
  }

  /** `m` is what `t` is judged by: the cached totals less those of the ancestors added since its last refusal. */
  ghost predicate Stands(p: Pool, log: Log, block: seq<int>, t: int, m: Mod)
    requires Known(p, block) && t in p.anc
  {
    NewerKnown(p, block, t, LastAt(log, t));
    Less(p, Fresh(p, log, block, t), t, m)
  }

  lemma NewerKnown(p: Pool, block: seq<int>, t: int, since: nat)
    requires Known(p, block) && t in p.anc
    ensures Newer(p, block, t, since) <= p.anc[t] * Elements(block)
    ensures Newer(p, block, t, since) <= p.anc.Keys
  {
    hide Dag; hide Cached;
    assert since <= |block| ==> forall x :: x in block[since..] ==> x in block;
  }

  lemma NewerMore(p: Pool, block: seq<int>, more: seq<int>, t: int, since: nat)
    requires t in p.anc && since <= |block|
    ensures Newer(p, block + more, t, since) == Newer(p, block, t, since) + p.anc[t] * Elements(more)
  {
    assert (block + more)[since..] == block[since..] + more;
    assert forall x :: x in block[since..] + more <==> x in block[since..] || x in more;
    assert forall x :: x in Newer(p, block + more, t, since) <==>
      x in Newer(p, block, t, since) + p.anc[t] * Elements(more);
  }

  /** What `t` stands with is never below the true totals of its package. */
  lemma StandsBounds(p: Pool, log: Log, block: seq<int>, t: int, m: Mod)
    requires Known(p, block) && t in p.anc && Stands(p, log, block, t, m)
    ensures p.anc[t] - Elements(block) <= p.anc.Keys
    ensures p.size[t] + Sum(p.size, p.anc[t] - Elements(block)) <= m.size <= p.sizeWithAncestors[t]
    ensures p.sigops[t] + Sum(p.sigops, p.anc[t] - Elements(block)) <= m.sigops <= p.sigopsWithAncestors[t]
  {
    hide Elements; hide Newer; hide Less; hide Sum; hide Dag;
    AncestorsKnown(p, t);
    NewerKnown(p, block, t, LastAt(log, t));
    RecordBounds(p, Fresh(p, log, block, t), Elements(block), t, m);
  }

  /** An entry without ancestors in the block stands with the pool's cached totals. */
  lemma CachedStands(p: Pool, log: Log, block: seq<int>, t: int)
    requires Known(p, block) && t in p.anc && p.anc[t] !! Elements(block)
    ensures CachedKeys(p, t) && Stands(p, log, block, t, CachedRecord(p, t))
  {
    hide Dag; hide Elements; hide WithAncestors; hide Less; hide Newer;
    NewerKnown(p, block, t, LastAt(log, t));
    assert p.anc[t] * Elements(block) == {};
    assert Fresh(p, log, block, t) == {};
    CachedIsLess(p, t);
  }

  predicate CachedKeys(p: Pool, t: int) {
    t in p.sizeWithAncestors && t in p.feesWithAncestors && t in p.sigopsWithAncestors
  }

  // ----- the modified table -----

  /** The totals recorded for `t`, with at least one ancestor taken off. */
  ghost predicate Recorded(p: Pool, log: Log, block: seq<int>, t: int, m: Mod)
    requires Known(p, block) && t in p.anc
  {
    Fresh(p, log, block, t) != {} && Stands(p, log, block, t, m)
  }

  /** Recorded entries are outside the block and rightly recorded; an unrecorded entry outside
      the block that has not failed has no ancestor in the block. */
  ghost predicate Tracks(p: Pool, log: Log, block: seq<int>, modified: map<int, Mod>, failed: set<int>)
    requires Known(p, block)
  {
    && (forall t :: t in modified ==> t in p.anc && t !in Elements(block) && Recorded(p, log, block, t, modified[t]))
    && (forall t :: t in p.anc && t !in Elements(block) && t !in modified && t !in failed ==>
      p.anc[t] !! Elements(block))
  }

  /** Every transaction that is neither in the block nor still to be looked at was rejected, and nothing that was
      refused is looked at again as it is. */
  ghost predicate Accounted(p: Pool, log: Log, block: seq<int>, modified: map<int, Mod>, failed: set<int>,
                            pending: seq<int>)
    requires Known(p, block)
  {
    && (forall t :: t in p.anc && t !in Elements(block) && t !in modified && (t !in pending || t in failed) ==>
          Rejected(p, log, block, t))
    && (forall k :: 0 <= k < |log| ==> log[k].c.id in failed || log[k].c.id !in pending)
  }

  // ----- adding a package -----

  lemma RecordedMore(p: Pool, log: Log, block: seq<int>, more: seq<int>, t: int, m: Mod, n: Mod)
    requires Known(p, block) && Known(p, block + more) && Elements(more) <= p.anc.Keys &&
      Elements(block) !! Elements(more) && Dated(log, |block|)
    requires t in p.anc && p.anc[t] * Elements(more) <= p.anc.Keys
    requires Recorded(p, log, block, t, m) && LowerBy(p, p.anc[t] * Elements(more), m, n)
    ensures Recorded(p, log, block + more, t, n)
  {
    hide ValidPool; hide Elements; hide LowerBy; hide Less; hide Newer; hide Dated; hide LastAt;
    var since := LastAt(log, t);
    LastAtDated(log, t, |block|);
    NewerKnown(p, block, t, since);
    NewerKnown(p, block + more, t, since);
    NewerMore(p, block, more, t, since);
    LowerLess(p, Newer(p, block, t, since), p.anc[t] * Elements(more), t, m, n);
  }

  /** An entry that is newly recorded, or recorded again after it was rejected. */
  lemma RecordedNew(p: Pool, log: Log, block: seq<int>, more: seq<int>, t: int, n: Mod)
    requires Known(p, block) && Known(p, block + more) && Dated(log, |block|)
    requires t in p.anc && p.anc[t] * Elements(more) <= p.anc.Keys && p.anc[t] * Elements(more) != {}
    requires p.anc[t] !! Elements(block) || Rejected(p, log, block, t)
    requires Less(p, p.anc[t] * Elements(more), t, n)
    ensures Recorded(p, log, block + more, t, n)
  {
    hide ValidPool; hide Elements; hide Less; hide Newer; hide Dated; hide LastAt; hide InLog;
    var since := LastAt(log, t);
    LastAtDated(log, t, |block|);
    NewerKnown(p, block, t, since);
    if p.anc[t] !! Elements(block) { assert p.anc[t] * Elements(block) == {}; }
    NewerMore(p, block, more, t, since);
    NewerKnown(p, block + more, t, since);
    assert Newer(p, block + more, t, since) == p.anc[t] * Elements(more);
  }

  lemma RejectedStill(p: Pool, log: Log, block: seq<int>, more: seq<int>, t: int)
    requires t in p.anc && p.anc[t] * Elements(more) == {} && Dated(log, |block|)
    requires Rejected(p, log, block, t)
    ensures Rejected(p, log, block + more, t)
  {
    hide Elements; hide Newer; hide Dated; hide LastAt; hide InLog;
    LastAtDated(log, t, |block|);
    NewerMore(p, block, more, t, LastAt(log, t));
  }

  /** A descendant of something being added cannot be in the block. */
  lemma DescendantOutside(p: Pool, inBlock: set<int>, added: set<int>, d: int)
    requires ValidPool(p) && Closed(p.anc, inBlock) && inBlock !! added && d in p.anc && p.anc[d] * added != {}
    ensures d !in inBlock
  {
    Inhabited(p.anc[d] * added);
    var a :| a in p.anc[d] * added;
  }

  /** Adding a package and reducing the totals of its descendants keeps the table right. */
  lemma TracksAfterAdd(p: Pool, log: Log, block: seq<int>, more: seq<int>, failed: set<int>, pending: seq<int>,
                       modified: map<int, Mod>, before: map<int, Mod>, after: map<int, Mod>)
    requires Known(p, block) && Known(p, block + more) && Elements(more) <= p.anc.Keys &&
      Elements(block) !! Elements(more) && Dated(log, |block|)
    requires Elements(block + more) == Elements(block) + Elements(more) && Closed(p.anc, Elements(block))
    requires Tracks(p, log, block, modified, failed) && Accounted(p, log, block, modified, failed, pending)
    requires before == modified - Elements(more)
    requires Reduced(p, Elements(more), Elements(more), before, after)
    ensures Tracks(p, log, block + more, after, failed)
  {
    hide ValidPool; hide Elements; hide ReducedBy; hide Recorded; hide Rejected; hide Closed; hide Accounted;
    hide Dated;
    forall d | d in after
      ensures d in p.anc && d !in Elements(block + more) && Recorded(p, log, block + more, d, after[d])
    {
      TracksRecorded(p, log, block, more, failed, pending, modified, before, after, d);
    }
    forall d | d in p.anc && d !in Elements(block + more) && d !in after && d !in failed
      ensures p.anc[d] !! Elements(block + more)
    {
      assert p.anc[d] * Elements(more) == {};
      assert p.anc[d] !! Elements(block);
      forall x | x in p.anc[d] ensures x !in Elements(block) + Elements(more) {
        assert x !in p.anc[d] * Elements(more);
      }
    }
  }

  lemma TracksRecorded(p: Pool, log: Log, block: seq<int>, more: seq<int>, failed: set<int>, pending: seq<int>,
                       modified: map<int, Mod>, before: map<int, Mod>, after: map<int, Mod>, d: int)
    requires Known(p, block) && Known(p, block + more) && Elements(more) <= p.anc.Keys &&
      Elements(block) !! Elements(more) && Dated(log, |block|)
    requires Elements(block + more) == Elements(block) + Elements(more) && Closed(p.anc, Elements(block))
    requires Tracks(p, log, block, modified, failed) && Accounted(p, log, block, modified, failed, pending)
    requires before == modified - Elements(more)
    requires Reduced(p, Elements(more), Elements(more), before, after) && d in after
    ensures d in p.anc && d !in Elements(block + more) && Recorded(p, log, block + more, d, after[d])
  {
    hide ValidPool; hide Elements; hide Recorded; hide Rejected; hide Closed; hide LowerBy; hide Less; hide Dated;
    var added := Elements(more);
    if d in before {
      assert d in modified && ReducedBy(p, p.anc[d] * added, d, before, after[d]);
      RecordedMore(p, log, block, more, d, modified[d], after[d]);
    } else {
      DescendantOutside(p, Elements(block), added, d);
      assert d !in modified;
      RecordedNew(p, log, block, more, d, after[d]);
    }
  }

  /** What was rejected stays rejected unless an ancestor joins the block, and then it is recorded again. */
  lemma AccountedAfterAdd(p: Pool, log: Log, block: seq<int>, more: seq<int>, failed: set<int>, pending: seq<int>,
                          modified: map<int, Mod>, before: map<int, Mod>, after: map<int, Mod>)
    requires Known(p, block) && Known(p, block + more) && Elements(more) <= p.anc.Keys && Dated(log, |block|)
    requires Elements(block + more) == Elements(block) + Elements(more)
    requires Accounted(p, log, block, modified, failed, pending)
    requires before == modified - Elements(more)
    requires Reduced(p, Elements(more), Elements(more), before, after)
    ensures Accounted(p, log, block + more, after, failed, pending)
  {
    hide ValidPool; hide Elements; hide ReducedBy; hide Rejected; hide Dated;
    forall t | t in p.anc && t !in Elements(block + more) && t !in after && (t !in pending || t in failed)
      ensures Rejected(p, log, block + more, t)
    {
      assert t !in modified && p.anc[t] * Elements(more) == {};
      RejectedStill(p, log, block, more, t);
    }
  }

  // ----- refusing a candidate -----

  /** Whether a package with these totals does not fit the block as it is. */
  ghost predicate Misfit(p: Pool, rules: Rules, block: seq<int>, m: Mod)
    requires Known(p, block)
  {
    Unfit(COINBASE_WEIGHT + Sum(p.weight, Elements(block)), COINBASE_SIGOPS + Sum(p.sigops, Elements(block)),
          rules.maxWeight, m.size, m.sigops)
  }

  /** Whether `t`, judged by `m`, is turned away from the block as it is. */
  ghost predicate TurnedAway(p: Pool, rules: Rules, block: seq<int>, t: int, m: Mod)
    requires Known(p, block) && t in p.anc
  {
    Misfit(p, rules, block, m) || !AllFinal(rules.isFinal, Package(p.anc, Elements(block), t))
  }

  lemma NothingNewer(p: Pool, block: seq<int>, t: int)
    requires t in p.anc
    ensures Newer(p, block, t, |block|) == {}
  {
    assert block[|block|..] == [];
    NoMembers(Newer(p, block, t, |block|));
  }

  /** A refusal rejects its own candidate and says nothing of the others. */
  lemma RefusedNow(p: Pool, log: Log, block: seq<int>, c: Candidate, t: int)
    requires t in p.anc
    ensures var log' := log + [Refusal(c, |block|)];
      if t == c.id then Rejected(p, log', block, t)
      else Fresh(p, log', block, t) == Fresh(p, log, block, t) && (InLog(log', t) <==> InLog(log, t))
  {
    hide Newer;
    var log' := log + [Refusal(c, |block|)];
    assert log'[..|log|] == log && log'[|log|].c == c;
    if t == c.id {
      NothingNewer(p, block, t);
    } else if InLog(log, t) {
      var k :| 0 <= k < |log| && log[k].c.id == t;
      assert log'[k].c.id == t;
    }
  }

  /** Giving up on a candidate: a modified entry is dropped and marked failed, a listed one is passed. */
  lemma AccountedAfterFailure(p: Pool, log: Log, block: seq<int>, modified: map<int, Mod>, failed: set<int>,
                              pending: seq<int>, modified': map<int, Mod>, failed': set<int>, pending': seq<int>,
                              c: Candidate)
    requires Known(p, block) && c.id in p.anc && Accounted(p, log, block, modified, failed, pending)
    requires modified' == modified - {c.id} && failed <= failed' <= failed + {c.id}
    requires c.id in failed' || c.id !in pending'
    requires (forall x :: x in pending ==> x == c.id || x in pending') && (forall x :: x in pending' ==> x in pending)
    ensures Accounted(p, log + [Refusal(c, |block|)], block, modified', failed', pending')
  {
    hide ValidPool; hide Rejected; hide Elements;
    var log' := log + [Refusal(c, |block|)];
    forall t | t in p.anc && t !in Elements(block) && t !in modified' && (t !in pending' || t in failed')
      ensures Rejected(p, log', block, t)
    {
      RejectedAlso(p, log, block, c, t);
    }
    forall k | 0 <= k < |log'| ensures log'[k].c.id in failed' || log'[k].c.id !in pending' {
      if k < |log| { assert log'[k] == log[k]; }
    }
  }

  lemma RejectedAlso(p: Pool, log: Log, block: seq<int>, c: Candidate, t: int)
    requires t in p.anc && (t == c.id || Rejected(p, log, block, t))
    ensures Rejected(p, log + [Refusal(c, |block|)], block, t)
  {
    hide InLog; hide Fresh;
    RefusedNow(p, log, block, c, t);
  }

  lemma RecordedAlso(p: Pool, log: Log, block: seq<int>, c: Candidate, t: int, m: Mod)
    requires Known(p, block) && t in p.anc && t != c.id && Recorded(p, log, block, t, m)
    ensures Recorded(p, log + [Refusal(c, |block|)], block, t, m)
  {
    hide Less; hide Newer; hide LastAt; hide ValidPool; hide Elements; hide InLog;
    RefusedNow(p, log, block, c, t);
  }

  /** Giving up on a candidate keeps the table right. */
  lemma TracksAfterFailure(p: Pool, log: Log, block: seq<int>, modified: map<int, Mod>, failed: set<int>,
                           modified': map<int, Mod>, failed': set<int>, c: Candidate)
    requires Known(p, block) && Tracks(p, log, block, modified, failed)
    requires modified' == modified - {c.id} && failed <= failed' && (c.id in modified ==> c.id in failed')
    ensures Tracks(p, log + [Refusal(c, |block|)], block, modified', failed')
  {
    hide ValidPool; hide Recorded; hide Elements;
    forall t | t in modified'
      ensures t in p.anc && t !in Elements(block)
      ensures Recorded(p, log + [Refusal(c, |block|)], block, t, modified'[t])
    {
      RecordedAlso(p, log, block, c, t, modified[t]);
    }
  }

  /** A pending entry that is in the block, recorded or failed need not be looked at again. */
  lemma AccountedDrop(p: Pool, log: Log, block: seq<int>, modified: map<int, Mod>, failed: set<int>,
                      pending: seq<int>, pending': seq<int>, t: int)
    requires Known(p, block) && (t in Elements(block) || t in modified || t in failed)
    requires Accounted(p, log, block, modified, failed, pending)
    requires (forall x :: x in pending ==> x == t || x in pending') && (forall x :: x in pending' ==> x in pending)
    ensures Accounted(p, log, block, modified, failed, pending')
  {
    hide ValidPool; hide Rejected; hide Elements;
  }

  // ----- the best candidate -----

  /** The candidate is still to be looked at, and no other one ranks before it. */
  ghost predicate Best(p: Pool, rules: Rules, log: Log, block: seq<int>, modified: map<int, Mod>, failed: set<int>,
                       pending: seq<int>, c: Candidate)
    requires Known(p, block)
  {
    && c.id in p.anc && c.id !in Elements(block) && Stands(p, log, block, c.id, c.record)
    && !Rejected(p, log, block, c.id)
    && (forall u :: u in modified ==> !rules.ranks(Candidate(u, modified[u]), c))
    && (forall u :: u in pending && u in p.anc && u !in modified && u !in failed && u !in Elements(block) ==>
          CachedKeys(p, u) && !rules.ranks(Candidate(u, CachedRecord(p, u)), c))
  }

  ghost predicate RanksNoHigher(p: Pool, rules: Rules, log: Log, block: seq<int>, t: int, c: Candidate)
    requires Known(p, block) && t in p.anc
  {
    exists m :: Stands(p, log, block, t, m) && !rules.ranks(Candidate(t, m), c)
  }

  /** Every other transaction outside the block was rejected or ranks no higher. */
  ghost predicate NoneHigher(p: Pool, rules: Rules, log: Log, block: seq<int>, c: Candidate)
    requires Known(p, block)
  {
    forall t :: t in p.anc && t !in Elements(block) ==>
      Rejected(p, log, block, t) || RanksNoHigher(p, rules, log, block, t, c)
  }

  lemma BestIsHighest(p: Pool, rules: Rules, log: Log, block: seq<int>, modified: map<int, Mod>, failed: set<int>,
                      pending: seq<int>, c: Candidate)
    requires Known(p, block) && Tracks(p, log, block, modified, failed)
    requires Accounted(p, log, block, modified, failed, pending)
    requires Best(p, rules, log, block, modified, failed, pending, c)
    ensures NoneHigher(p, rules, log, block, c)
  {
    hide ValidPool; hide Rejected; hide Elements; hide Stands;
    forall t | t in p.anc && t !in Elements(block)
      ensures Rejected(p, log, block, t) || RanksNoHigher(p, rules, log, block, t, c)
    {
      if t in modified {
        assert RanksNoHigher(p, rules, log, block, t, c);
      } else if t in pending && t !in failed {
        CachedStands(p, log, block, t);
        assert RanksNoHigher(p, rules, log, block, t, c);
      }
    }
  }

  // ----- giving up on a nearly full block -----

  const MAX_CONSECUTIVE_FAILURES := 1000

  /** How many candidates in a row did not fit the block as it is. */
  ghost function Misses(p: Pool, rules: Rules, log: Log, block: seq<int>): nat
    requires Known(p, block)
  {
    if log == [] then 0
    else
      var last := log[|log| - 1];
      Misses(p, rules, log[..|log| - 1], block) + if last.at == |block| && Misfit(p, rules, block, last.c.record) then 1
        else 0
  }

  /** The selection goes on: the block is not nearly full, or not too many candidates in a row did not fit. */
  ghost predicate Patient(p: Pool, rules: Rules, log: Log, block: seq<int>)
    requires Known(p, block)
  {
    || Misses(p, rules, log, block) <= MAX_CONSECUTIVE_FAILURES
    || COINBASE_WEIGHT + Sum(p.weight, Elements(block)) <= rules.maxWeight - 4000
  }

  /** A block that has just grown has turned nobody away. */
  lemma {:induction false} NoMisses(p: Pool, rules: Rules, log: Log, block: seq<int>)
    requires Known(p, block) && forall k :: 0 <= k < |log| ==> log[k].at < |block|
    ensures Misses(p, rules, log, block) == 0
  {
    hide ValidPool; hide Elements; hide Misfit;
    if log != [] { NoMisses(p, rules, log[..|log| - 1], block); }
  }

  lemma MissesMore(p: Pool, rules: Rules, log: Log, block: seq<int>, c: Candidate)
    requires Known(p, block)
    ensures Misses(p, rules, log + [Refusal(c, |block|)], block)
      == Misses(p, rules, log, block) + if Misfit(p, rules, block, c.record) then 1 else 0
  {
    hide ValidPool; hide Elements; hide Misfit;
    assert (log + [Refusal(c, |block|)])[..|log|] == log;
  }

  // ----- the whole selection -----

  /** `CompareTxIterByAncestorCount`, ties broken by id. */
  predicate Before(p: Pool, a: int, b: int)
    requires a in p.countWithAncestors && b in p.countWithAncestors
  {
    var m, n := p.countWithAncestors[a], p.countWithAncestors[b];
    if m != n then m < n else a <= b
  }

  ghost predicate Sorted(p: Pool, package: set<int>, s: seq<int>)
    requires package <= p.countWithAncestors.Keys
  {
    && Elements(s) == package
    && (forall i :: 0 <= i < |s| ==> s[i] in package)
    && (forall i, j :: 0 <= i < j < |s| ==> s[i] != s[j] && Before(p, s[i], s[j]))
  }

  /** What is done about one candidate after the other: it is refused, or its package is added in this order. */
  datatype Deed = Refuse(c: Candidate) | Take(c: Candidate, added: seq<int>)

  ghost function BlockAfter(first: seq<int>, deeds: seq<Deed>): seq<int> {
    if deeds == [] then first
    else
      var last := deeds[|deeds| - 1];
      BlockAfter(first, deeds[..|deeds| - 1]) + if last.Take? then last.added else []
  }

  ghost function LogAfter(first: seq<int>, deeds: seq<Deed>): Log {
    if deeds == [] then []
    else
      var last, before := deeds[|deeds| - 1], deeds[..|deeds| - 1];
      LogAfter(first, before) + if last.Refuse? then [Refusal(last.c, |BlockAfter(first, before)|)] else []
  }

  ghost function Taken(deeds: seq<Deed>): nat {
    if deeds == [] then 0 else Taken(deeds[..|deeds| - 1]) + if deeds[|deeds| - 1].Take? then 1 else 0
  }

  /** The candidate to look at next: open, ranked no lower than any other open one, and paying enough. */
  ghost predicate Next(p: Pool, rules: Rules, log: Log, block: seq<int>, c: Candidate)
    requires Known(p, block)
  {
    && c.id in p.anc && c.id !in Elements(block) && Stands(p, log, block, c.id, c.record)
    && !Rejected(p, log, block, c.id) && NoneHigher(p, rules, log, block, c)
  }

  /** The right thing is done: the next candidate is refused exactly when its package does not fit or is not final,
      and otherwise its package is added in order of ancestor counts. */
  ghost predicate Rightly(p: Pool, rules: Rules, log: Log, block: seq<int>, deed: Deed) {
    && Known(p, block) && Patient(p, rules, log, block) && Next(p, rules, log, block, deed.c)
    && !rules.feeTooLow(deed.c.record)
    && (deed.Refuse? <==> TurnedAway(p, rules, block, deed.c.id, deed.c.record))
    && (deed.Take? ==>
          && Package(p.anc, Elements(block), deed.c.id) <= p.countWithAncestors.Keys
          && Sorted(p, Package(p.anc, Elements(block), deed.c.id), deed.added))
  }

  ghost predicate AllRightly(p: Pool, rules: Rules, first: seq<int>, deeds: seq<Deed>) {
    forall k :: 0 <= k < |deeds| ==>
      Rightly(p, rules, LogAfter(first, deeds[..k]), BlockAfter(first, deeds[..k]), deeds[k])
  }

  lemma DeedMore(p: Pool, rules: Rules, first: seq<int>, deeds: seq<Deed>, deed: Deed)
    requires AllRightly(p, rules, first, deeds)
    requires Rightly(p, rules, LogAfter(first, deeds), BlockAfter(first, deeds), deed)
    ensures AllRightly(p, rules, first, deeds + [deed])
    ensures Taken(deeds + [deed]) == Taken(deeds) + if deed.Take? then 1 else 0
    ensures BlockAfter(first, deeds + [deed]) == BlockAfter(first, deeds) + if deed.Take? then deed.added else []
    ensures LogAfter(first, deeds + [deed])
      == LogAfter(first, deeds) + if deed.Refuse? then [Refusal(deed.c, |BlockAfter(first, deeds)|)] else []
  {
    hide Rightly;
    var all := deeds + [deed];
    assert all[..|deeds|] == deeds;
    forall k | 0 <= k < |all|
      ensures Rightly(p, rules, LogAfter(first, all[..k]), BlockAfter(first, all[..k]), all[k])
    {
      if k < |deeds| { assert all[..k] == deeds[..k] && all[k] == deeds[k]; }
    }
  }

  /** Why the selection ended: nothing left to look at, the best candidate pays too little, or the block is
      nearly full and many candidates in a row did not fit. */
  datatype Stop = Exhausted | FeeTooLow(candidate: Candidate) | NearlyFull

  /** Everything left out is accounted for. */
  ghost predicate Stopped(p: Pool, rules: Rules, log: Log, block: seq<int>, stop: Stop)
    requires Known(p, block)
  {
    match stop
    case Exhausted =>
      Patient(p, rules, log, block) && forall t :: t in p.anc && t !in Elements(block) ==> Rejected(p, log, block, t)
    case FeeTooLow(c) =>
      Patient(p, rules, log, block) && Next(p, rules, log, block, c) && rules.feeTooLow(c.record)
    case NearlyFull => !Patient(p, rules, log, block)
  }

  lemma StopsExhausted(p: Pool, rules: Rules, log: Log, block: seq<int>, failed: set<int>)
    requires Known(p, block) && Accounted(p, log, block, map[], failed, []) && Patient(p, rules, log, block)
    ensures Stopped(p, rules, log, block, Exhausted)
  {
    hide ValidPool; hide Rejected; hide Elements; hide Patient;
  }
}
