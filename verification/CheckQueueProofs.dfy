/** What every step of the check queue keeps. */
module CheckQueueProofs {
  import opened SetSum
  import opened CheckQueue

  ghost predicate Distinct(q: seq<nat>) {
    forall i, j :: 0 <= i < j < |q| ==> q[i] != q[j]
  }

  /** A thread's batch is nonempty, without repeats, and owned by that thread. */
  ghost predicate Holds(p: Phase, t: int, owner: seq<Owner>) {
    p.Running? ==>
      && 0 <= p.done <= |p.batch| && p.batch != [] && Distinct(p.batch)
      && forall k :: 0 <= k < |p.batch| ==> p.batch[k] < |owner| && owner[p.batch[k]] == Held(t)
  }

  /** Every check of the round is in exactly one place. */
  ghost predicate Located(i: nat, o: Owner, queue: seq<nat>, threads: Threads) {
    match o
    case Queued => i in queue
    case Held(t) => t in threads && threads[t].Running? && i in threads[t].batch
    case Completed => true
  }

  ghost predicate Placed(queue: seq<nat>, threads: Threads, owner: seq<Owner>) {
    && Distinct(queue)
    && (forall k :: 0 <= k < |queue| ==> queue[k] < |owner| && owner[queue[k]] == Queued)
    && (forall t :: t in threads ==> Holds(threads[t], t, owner))
    && (forall i :: 0 <= i < |owner| ==> Located(i, owner[i], queue, threads))
  }

  /** The counters are exact. */
  ghost predicate Counted(s: State) {
    && s.nTodo == |s.queue| + Total(s.threads, Busy)
    && s.nIdle == Total(s.threads, Idle)
    && s.nTotal == Total(s.threads, Inside)
  }

  /** A batch so far: evaluated once and good while `ok`, with evidence of a failure otherwise. */
  ghost predicate Faithful(p: Phase, allOk: bool, outcomes: seq<bool>, runs: seq<nat>)
    requires |runs| == |outcomes|
  {
    p.Running? ==>
      && (forall k :: 0 <= k < |p.batch| ==> p.batch[k] < |runs|)
      && (forall k :: 0 <= k < |p.batch| && p.done <= k ==> runs[p.batch[k]] == 0)
      && (p.ok ==> forall k :: 0 <= k < |p.batch| && k < p.done ==> runs[p.batch[k]] == 1 && outcomes[p.batch[k]])
      && (!p.ok && allOk ==> exists k :: 0 <= k < |p.batch| && k < p.done && !outcomes[p.batch[k]])
  }

  ghost predicate Truthful(threads: Threads, allOk: bool, outcomes: seq<bool>, owner: seq<Owner>, runs: seq<nat>) {
    && |owner| == |runs| == |outcomes|
    && (forall i :: 0 <= i < |runs| ==> runs[i] <= 1 && (owner[i] == Queued ==> runs[i] == 0))
    && (forall t :: t in threads ==> Faithful(threads[t], allOk, outcomes, runs))
    && (allOk ==> forall i :: 0 <= i < |owner| && owner[i] == Completed ==> runs[i] == 1 && outcomes[i])
    && (!allOk ==> exists i :: 0 <= i < |owner| && owner[i] == Completed && !outcomes[i])
  }

  /** The master is always there, and waits only while some worker still has a batch. */
  ghost predicate MasterSound(s: State) {
    && MASTER in s.threads
    && (s.threads[MASTER] == Waiting ==> s.queue == [] && s.nTodo > 0)
    && forall t :: t in s.threads && s.threads[t] == Outside ==> t == MASTER
  }

  /** What `Wait` promises about a round that is over. */
  ghost predicate Judged(r: Round) {
    && |r.runs| == |r.outcomes|
    && (r.verdict <==> forall i :: 0 <= i < |r.outcomes| ==> r.outcomes[i])
    && (forall i :: 0 <= i < |r.runs| ==> r.runs[i] <= 1)
    && (r.verdict ==> forall i :: 0 <= i < |r.runs| ==> r.runs[i] == 1)
  }

  ghost predicate Past(history: seq<Round>) {
    forall k :: 0 <= k < |history| ==> Judged(history[k])
  }

  ghost predicate Inv(s: State) {
    && Placed(s.queue, s.threads, s.owner)
    && Counted(s)
    && Truthful(s.threads, s.allOk, s.outcomes, s.owner, s.runs)
    && MasterSound(s)
    && Past(s.history)
  }

  // ----- steps that only move threads between phases without a batch

  /** Threads with a batch are the same in both, and none has appeared or gone otherwise. */
  ghost predicate SameBatches(a: Threads, b: Threads) {
    && (forall t :: t in a && a[t].Running? ==> t in b && b[t] == a[t])
    && (forall t :: t in b && b[t].Running? ==> t in a && a[t] == b[t])
  }

  lemma SameBatchesKeep(s: State, threads: Threads)
    requires SameBatches(s.threads, threads)
    requires Placed(s.queue, s.threads, s.owner) && Truthful(s.threads, s.allOk, s.outcomes, s.owner, s.runs)
    ensures Placed(s.queue, threads, s.owner) && Truthful(threads, s.allOk, s.outcomes, s.owner, s.runs)
  {
    forall i | 0 <= i < |s.owner| ensures Located(i, s.owner[i], s.queue, threads) {
      assert Located(i, s.owner[i], s.queue, s.threads);
    }
    forall t | t in threads ensures Holds(threads[t], t, s.owner) && Faithful(threads[t], s.allOk, s.outcomes, s.runs) {
      if threads[t].Running? {
        assert Holds(s.threads[t], t, s.owner) && Faithful(s.threads[t], s.allOk, s.outcomes, s.runs);
      }
    }
  }

  lemma TotalsSet(threads: Threads, t: int, p: Phase)
    requires t in threads
    ensures Total(threads[t := p], Busy) == Total(threads, Busy) - Busy(threads[t]) + Busy(p)
    ensures Total(threads[t := p], Idle) == Total(threads, Idle) - Idle(threads[t]) + Idle(p)
    ensures Total(threads[t := p], Inside) == Total(threads, Inside) - Inside(threads[t]) + Inside(p)
  {
    TotalSet(threads, t, p, Busy);
    TotalSet(threads, t, p, Idle);
    TotalSet(threads, t, p, Inside);
  }

  /** The counters are never negative. */
  lemma CountersNonnegative(s: State)
    requires Counted(s)
    ensures 0 <= s.nIdle && 0 <= s.nTotal && |s.queue| <= s.nTodo
  {
    TotalAtLeast(s.threads, {}, Busy);
    TotalAtLeast(s.threads, {}, Idle);
    TotalAtLeast(s.threads, {}, Inside);
  }

  lemma SpawnKeeps(s: State, t: int)
    requires Inv(s) && t !in s.threads
    ensures Inv(s.(threads := s.threads[t := Start]))
  {
    hide Placed; hide Truthful; hide Total; hide Past;
    SameBatchesKeep(s, s.threads[t := Start]);
    TotalNew(s.threads, t, Start, Busy);
    TotalNew(s.threads, t, Start, Idle);
    TotalNew(s.threads, t, Start, Inside);
  }

  lemma BeginKeeps(s: State)
    requires Inv(s) && s.threads[MASTER] == Outside
    ensures Inv(s.(threads := s.threads[MASTER := Start]))
  {
    hide Placed; hide Truthful; hide Total; hide Past;
    SameBatchesKeep(s, s.threads[MASTER := Start]);
    TotalsSet(s.threads, MASTER, Start);
  }

  lemma SpuriousKeeps(s: State, t: int)
    requires Inv(s) && t in s.threads && s.threads[t] == Waiting
    ensures Inv(s.(threads := s.threads[t := Woken]))
  {
    hide Placed; hide Truthful; hide Total; hide Past;
    SameBatchesKeep(s, s.threads[t := Woken]);
    TotalsSet(s.threads, t, Woken);
  }

  lemma FirstKeeps(s: State, t: int)
    requires Inv(s) && t in s.threads && s.threads[t] == Start
    ensures Inv(First(s, t))
  {
    hide Placed; hide Truthful; hide Total; hide Past;
    SameBatchesKeep(s, s.threads[t := Locked]);
    TotalsSet(s.threads, t, Locked);
  }

  lemma ReacquireKeeps(s: State, t: int)
    requires Inv(s) && t in s.threads && s.threads[t] == Woken
    ensures Inv(Reacquire(s, t))
  {
    hide Placed; hide Truthful; hide Total; hide Past;
    SameBatchesKeep(s, s.threads[t := Locked]);
    TotalsSet(s.threads, t, Locked);
  }

  // ----- the loop head

  lemma BlockKeeps(s: State, t: int)
    requires Inv(s) && t in s.threads && s.threads[t] == Locked && s.queue == [] && !(t == MASTER && s.nTodo == 0)
    ensures Inv(Block(s, t))
  {
    hide Placed; hide Truthful; hide Total; hide Past;
    SameBatchesKeep(s, s.threads[t := Waiting]);
    TotalsSet(s.threads, t, Waiting);
    CountersNonnegative(s);
  }

  lemma PoppedLength(queue: seq<nat>, n: nat)
    requires n <= |queue|
    ensures |Popped(queue, n)| == n
  {
  }

  lemma PoppedSplits(queue: seq<nat>, n: nat, i: nat)
    requires n <= |queue|
    ensures i in queue <==> i in queue[..|queue| - n] || i in Popped(queue, n)
  {
    var rest, batch := queue[..|queue| - n], Popped(queue, n);
    if i in queue {
      var k :| 0 <= k < |queue| && queue[k] == i;
      if k < |rest| { assert rest[k] == i; } else { assert batch[|queue| - 1 - k] == i; }
    }
    if i in batch {
      var k :| 0 <= k < |batch| && batch[k] == i;
      assert queue[|queue| - 1 - k] == i;
    }
  }

  lemma TakePlaces(queue: seq<nat>, threads: Threads, owner: seq<Owner>, t: int, n: nat, ok: bool)
    requires Placed(queue, threads, owner) && t in threads && threads[t] == Locked && 1 <= n <= |queue|
    ensures Placed(queue[..|queue| - n], threads[t := Running(Popped(queue, n), 0, ok)],
      Marked(owner, Popped(queue, n), Held(t)))
  {
    var rest, batch := queue[..|queue| - n], Popped(queue, n);
    var after, marked := threads[t := Running(batch, 0, ok)], Marked(owner, batch, Held(t));
    assert forall k :: 0 <= k < |rest| ==> rest[k] !in batch;
    forall u | u in after ensures Holds(after[u], u, marked) {
      if u != t {
        assert Holds(threads[u], u, owner);
        if threads[u].Running? {
          forall k | 0 <= k < |threads[u].batch| ensures marked[threads[u].batch[k]] == Held(u) {
            assert threads[u].batch[k] !in queue;
            PoppedSplits(queue, n, threads[u].batch[k]);
          }
        }
      }
    }
    forall i | 0 <= i < |marked| ensures Located(i, marked[i], rest, after) {
      assert Located(i, owner[i], queue, threads);
      PoppedSplits(queue, n, i);
    }
  }

  lemma TakeTells(s: State, t: int, n: nat)
    requires Placed(s.queue, s.threads, s.owner) && Truthful(s.threads, s.allOk, s.outcomes, s.owner, s.runs)
    requires t in s.threads && 1 <= n <= |s.queue|
    ensures Truthful(s.threads[t := Running(Popped(s.queue, n), 0, s.allOk)], s.allOk, s.outcomes,
                     Marked(s.owner, Popped(s.queue, n), Held(t)), s.runs)
  {
    var batch := Popped(s.queue, n);
    forall k | 0 <= k < n ensures batch[k] < |s.owner| && s.owner[batch[k]] == Queued {
      assert batch[k] == s.queue[|s.queue| - 1 - k];
    }
    assert Faithful(Running(batch, 0, s.allOk), s.allOk, s.outcomes, s.runs);
    if !s.allOk {
      var i :| 0 <= i < |s.owner| && s.owner[i] == Completed && !s.outcomes[i];
      assert Marked(s.owner, batch, Held(t))[i] == Completed;
    }
  }

  lemma TakeKeeps(s: State, t: int)
    requires Inv(s) && t in s.threads && s.threads[t] == Locked && s.queue != [] && s.nTotal + s.nIdle >= 0
    ensures Inv(Take(s, t))
  {
    hide Placed; hide Truthful; hide Total; hide Past; hide Popped; hide Marked; hide BatchSize;
    var n := BatchSize(s);
    assert |Popped(s.queue, n)| == n by { PoppedLength(s.queue, n); }
    TakePlaces(s.queue, s.threads, s.owner, t, n, s.allOk);
    TakeTells(s, t, n);
    TotalsSet(s.threads, t, Running(Popped(s.queue, n), 0, s.allOk));
  }

  /** With nothing left to do no thread holds a batch. */
  lemma NobodyRuns(s: State, t: int)
    requires Counted(s) && s.nTodo == 0 && t in s.threads
    ensures s.threads[t].Running? ==> s.threads[t].batch == []
  {
    TotalAtLeast(s.threads, {t}, Busy);
    SumRemove(Weights(s.threads, Busy), {t}, t);
    assert {t} - {t} == {};
  }

  /** With nothing queued and nothing to do, every check is completed and no thread holds any. */
  lemma AllCompleted(s: State)
    requires Placed(s.queue, s.threads, s.owner) && Counted(s) && s.queue == [] && s.nTodo == 0
    ensures forall t :: t in s.threads ==> !s.threads[t].Running?
    ensures forall i :: 0 <= i < |s.owner| ==> s.owner[i] == Completed
  {
    hide Counted;
    forall t | t in s.threads
      ensures !s.threads[t].Running? { NobodyRuns(s, t); assert Holds(s.threads[t], t, s.owner); }
    forall i | 0 <= i < |s.owner| ensures s.owner[i] == Completed { assert Located(i, s.owner[i], s.queue, s.threads); }
  }

  lemma ReturnKeeps(s: State)
    requires Inv(s) && s.threads[MASTER] == Locked && s.queue == [] && s.nTodo == 0
    ensures Inv(Return(s)) && Judged(Round(s.outcomes, s.runs, s.allOk))
  {
    hide Total; hide Located;
    AllCompleted(s);
    TotalsSet(s.threads, MASTER, Outside);
    assert Judged(Round(s.outcomes, s.runs, s.allOk));
  }

  /** Whatever a thread finds at the loop head, the invariant is kept. */
  lemma TakeOrWaitKeeps(s: State, t: int)
    requires Inv(s) && t in s.threads && s.threads[t] == Locked
    ensures s.nTotal + s.nIdle >= 0 && Inv(TakeOrWait(s, t))
  {
    CountersNonnegative(s);
    hide Inv;
    if s.queue != [] {
      TakeKeeps(s, t);
    } else if t == MASTER && s.nTodo == 0 {
      ReturnKeeps(s);
    } else {
      BlockKeeps(s, t);
    }
  }

  // ----- the end of a batch

  lemma SettlePlaces(s: State, t: int)
    requires Placed(s.queue, s.threads, s.owner) && t in s.threads && s.threads[t].Running?
    ensures Placed(s.queue, s.threads[t := Locked], Marked(s.owner, s.threads[t].batch, Completed))
  {
    var batch := s.threads[t].batch;
    var after, marked := s.threads[t := Locked], Marked(s.owner, batch, Completed);
    assert Holds(s.threads[t], t, s.owner);
    forall k | 0 <= k < |s.queue| ensures marked[s.queue[k]] == Queued {
      assert s.queue[k] !in batch;
    }
    forall u | u in after ensures Holds(after[u], u, marked) {
      if u != t && s.threads[u].Running? {
        assert Holds(s.threads[u], u, s.owner);
        assert forall k :: 0 <= k < |s.threads[u].batch| ==> s.threads[u].batch[k] !in batch;
      }
    }
    forall i | 0 <= i < |marked| ensures Located(i, marked[i], s.queue, after) {
      assert Located(i, s.owner[i], s.queue, s.threads);
    }
  }

  lemma SettleTells(s: State, t: int)
    requires Placed(s.queue, s.threads, s.owner) && Truthful(s.threads, s.allOk, s.outcomes, s.owner, s.runs)
    requires t in s.threads && s.threads[t].Running? && s.threads[t].done >= |s.threads[t].batch|
    ensures Truthful(s.threads[t := Locked], s.allOk && s.threads[t].ok, s.outcomes,
                     Marked(s.owner, s.threads[t].batch, Completed), s.runs)
  {
    var b := s.threads[t];
    var allOk, marked := s.allOk && b.ok, Marked(s.owner, b.batch, Completed);
    assert Faithful(b, s.allOk, s.outcomes, s.runs) && Holds(b, t, s.owner);
    if !s.allOk {
      var i :| 0 <= i < |s.owner| && s.owner[i] == Completed && !s.outcomes[i];
      assert marked[i] == Completed;
    } else if !b.ok {
      var k :| 0 <= k < |b.batch| && k < b.done && !s.outcomes[b.batch[k]];
      assert marked[b.batch[k]] == Completed;
    }
    var after := s.threads[t := Locked];
    forall u | u in after ensures Faithful(after[u], allOk, s.outcomes, s.runs) {
      if u != t { assert Faithful(s.threads[u], s.allOk, s.outcomes, s.runs); }
    }
  }

  /** Settled without the notification. */
  ghost function Unnotified(s: State, t: int): State
    requires t in s.threads && s.threads[t].Running?
  {
    var b := s.threads[t];
    s.(allOk := s.allOk && b.ok, nTodo := s.nTodo - |b.batch|, owner := Marked(s.owner, b.batch, Completed),
       threads := s.threads[t := Locked])
  }

  /** Waking the master, in a state that need not be sound for a waiting one. */
  lemma NotifyKeeps(u: State)
    requires Placed(u.queue, u.threads, u.owner) && Counted(u) &&
      Truthful(u.threads, u.allOk, u.outcomes, u.owner, u.runs)
    requires MASTER in u.threads && u.threads[MASTER] == Waiting
    ensures Placed(u.queue, u.threads[MASTER := Woken], u.owner) && Counted(u.(threads := u.threads[MASTER := Woken]))
    ensures Truthful(u.threads[MASTER := Woken], u.allOk, u.outcomes, u.owner, u.runs)
  {
    hide Placed; hide Truthful; hide Total;
    SameBatchesKeep(u, u.threads[MASTER := Woken]);
    TotalsSet(u.threads, MASTER, Woken);
  }

  lemma SettleCounts(s: State, t: int)
    requires Counted(s) && t in s.threads && s.threads[t].Running?
    ensures Counted(Unnotified(s, t)) && Unnotified(s, t).nTodo >= 0
  {
    hide Total; hide Marked;
    TotalsSet(s.threads, t, Locked);
    CountersNonnegative(Unnotified(s, t));
  }

  lemma SettleKeeps(s: State, t: int)
    requires Inv(s) && t in s.threads && s.threads[t].Running? && s.threads[t].done >= |s.threads[t].batch|
    ensures Inv(Settle(s, t)) && t in Settle(s, t).threads && Settle(s, t).threads[t] == Locked
  {
    hide Placed; hide Truthful; hide Counted; hide Past; hide Marked;
    var u := Unnotified(s, t);
    SettlePlaces(s, t);
    SettleTells(s, t);
    SettleCounts(s, t);
    if u.nTodo == 0 && t != MASTER && u.threads[MASTER] == Waiting {
      NotifyKeeps(u);
      assert Settle(s, t) == u.(threads := u.threads[MASTER := Woken]);
    } else {
      assert Settle(s, t) == u;
    }
  }

  // ----- evaluation and submission

  lemma EvaluatePlaces(queue: seq<nat>, threads: Threads, owner: seq<Owner>, t: int, ok: bool)
    requires Placed(queue, threads, owner) && t in threads && threads[t].Running? &&
      threads[t].done < |threads[t].batch|
    ensures Placed(queue, threads[t := Running(threads[t].batch, threads[t].done + 1, ok)], owner)
  {
    var after := threads[t := Running(threads[t].batch, threads[t].done + 1, ok)];
    assert Holds(threads[t], t, owner);
    forall i | 0 <= i < |owner| ensures Located(i, owner[i], queue, after) {
      assert Located(i, owner[i], queue, threads);
    }
  }

  /** One more evaluation of a batch. */
  lemma EvaluateBatch(b: Phase, allOk: bool, outcomes: seq<bool>, runs: seq<nat>)
    requires |runs| == |outcomes| && b.Running? && b.done < |b.batch| && Distinct(b.batch) &&
      Faithful(b, allOk, outcomes, runs)
    ensures var i := b.batch[b.done];
      if b.ok then Faithful(Running(b.batch, b.done + 1, outcomes[i]), allOk, outcomes, runs[i := runs[i] + 1])
      else Faithful(Running(b.batch, b.done + 1, false), allOk, outcomes, runs)
  {
    if !b.ok && allOk {
      var k :| 0 <= k < |b.batch| && k < b.done && !outcomes[b.batch[k]];
      assert k < b.done + 1;
    }
  }

  /** An evaluation elsewhere. */
  lemma EvaluateOther(p: Phase, allOk: bool, outcomes: seq<bool>, runs: seq<nat>, i: nat)
    requires |runs| == |outcomes| && i < |runs| && Faithful(p, allOk, outcomes, runs) && (p.Running? ==> i !in p.batch)
    ensures Faithful(p, allOk, outcomes, runs[i := runs[i] + 1])
  {
  }

  lemma EvaluateFaithful(s: State, t: int, u: int)
    requires Placed(s.queue, s.threads, s.owner) && Truthful(s.threads, s.allOk, s.outcomes, s.owner, s.runs)
    requires t in s.threads && s.threads[t].Running? && s.threads[t].done < |s.threads[t].batch| && u in s.threads
    requires s.threads[t].batch[s.threads[t].done] < |s.runs|
    ensures Faithful(EvaluateOne(s, t).threads[u], s.allOk, s.outcomes, EvaluateOne(s, t).runs)
  {
    hide Faithful; hide Located;
    var b := s.threads[t];
    assert Holds(b, t, s.owner) && Holds(s.threads[u], u, s.owner);
    assert Faithful(s.threads[u], s.allOk, s.outcomes, s.runs);
    if u == t {
      EvaluateBatch(b, s.allOk, s.outcomes, s.runs);
    } else if b.ok {
      EvaluateOther(s.threads[u], s.allOk, s.outcomes, s.runs, b.batch[b.done]);
    }
  }

  lemma EvaluateTells(s: State, t: int)
    requires Placed(s.queue, s.threads, s.owner) && Truthful(s.threads, s.allOk, s.outcomes, s.owner, s.runs)
    requires t in s.threads && s.threads[t].Running? && s.threads[t].done < |s.threads[t].batch|
    ensures s.threads[t].batch[s.threads[t].done] < |s.runs| == |s.outcomes|
    ensures Truthful(EvaluateOne(s, t).threads, s.allOk, s.outcomes, s.owner, EvaluateOne(s, t).runs)
  {
    var b := s.threads[t];
    assert Holds(b, t, s.owner) && Faithful(b, s.allOk, s.outcomes, s.runs);
    var after := EvaluateOne(s, t);
    var i := b.batch[b.done];
    assert s.owner[i] == Held(t) && s.runs[i] == 0;
    hide Placed; hide Faithful;
    forall u | u in after.threads ensures Faithful(after.threads[u], s.allOk, s.outcomes, after.runs) {
      EvaluateFaithful(s, t, u);
    }
  }

  lemma EvaluateKeeps(s: State, t: int)
    requires Inv(s) && t in s.threads && s.threads[t].Running? && s.threads[t].done < |s.threads[t].batch|
    ensures s.threads[t].batch[s.threads[t].done] < |s.runs| == |s.outcomes| && Inv(EvaluateOne(s, t))
  {
    hide Placed; hide Truthful; hide Total; hide Past;
    EvaluateTells(s, t);
    var after := EvaluateOne(s, t);
    EvaluatePlaces(s.queue, s.threads, s.owner, t, after.threads[t].ok);
    TotalsSet(s.threads, t, after.threads[t]);
  }

  /** The new checks without the notification. */
  ghost function Pushed(s: State, checks: seq<bool>): State {
    Added(s, checks, MASTER).(threads := s.threads)
  }

  lemma PushedPlaces(s: State, checks: seq<bool>)
    requires Placed(s.queue, s.threads, s.owner)
    ensures Placed(Pushed(s, checks).queue, s.threads, Pushed(s, checks).owner)
  {
    var n, after := |s.owner|, Pushed(s, checks);
    forall t | t in s.threads ensures Holds(s.threads[t], t, after.owner) { assert Holds(s.threads[t], t, s.owner); }
    forall i | 0 <= i < |after.owner| ensures Located(i, after.owner[i], after.queue, s.threads) {
      if i < n {
        assert Located(i, s.owner[i], s.queue, s.threads);
      } else {
        assert after.queue[|s.queue| + i - n] == i;
      }
    }
  }

  lemma PushedTells(s: State, checks: seq<bool>)
    requires Truthful(s.threads, s.allOk, s.outcomes, s.owner, s.runs)
    ensures Truthful(s.threads, s.allOk, Pushed(s, checks).outcomes, Pushed(s, checks).owner, Pushed(s, checks).runs)
  {
    var after := Pushed(s, checks);
    forall t | t in s.threads ensures Faithful(s.threads[t], s.allOk, after.outcomes, after.runs) {
      assert Faithful(s.threads[t], s.allOk, s.outcomes, s.runs);
    }
    if !s.allOk {
      var i :| 0 <= i < |s.owner| && s.owner[i] == Completed && !s.outcomes[i];
      assert after.owner[i] == Completed && !after.outcomes[i];
    }
  }

  lemma PushedKeeps(s: State, checks: seq<bool>)
    requires Inv(s) && s.threads[MASTER] == Outside
    ensures Inv(Pushed(s, checks))
  {
    hide Placed; hide Truthful; hide Total; hide Past;
    PushedPlaces(s, checks);
    PushedTells(s, checks);
  }

  /** Waking threads that wait changes no count and no batch. */
  lemma WakingKeeps(s: State, threads: Threads)
    requires Inv(s) && threads.Keys == s.threads.Keys && s.threads[MASTER] == threads[MASTER]
    requires forall t :: t in threads ==> threads[t] == s.threads[t] || (s.threads[t] == Waiting && threads[t] == Woken)
    ensures Inv(s.(threads := threads))
  {
    hide Placed; hide Truthful; hide Total; hide Past;
    SameBatchesKeep(s, threads);
    TotalSame(s.threads, threads, Busy);
    TotalSame(s.threads, threads, Idle);
    TotalSame(s.threads, threads, Inside);
  }

  lemma AddedKeeps(s: State, checks: seq<bool>, woken: int)
    requires Inv(s) && s.threads[MASTER] == Outside
    ensures Inv(Added(s, checks, woken))
  {
    hide Placed; hide Truthful; hide Counted; hide Past;
    PushedKeeps(s, checks);
    var u, after := Pushed(s, checks), Added(s, checks, woken);
    assert after == u.(threads := after.threads);
    assert after.threads.Keys == s.threads.Keys;
    WakingKeeps(u, after.threads);
  }
}
