/** What the notifications of the check queue are for: queued checks are worked on without the master's help. */
module CheckQueueWorkers {
  import opened CheckQueue
  import opened CheckQueueProofs
  import opened CheckQueueRuns

  /** A worker that has been notified or has a batch. */
  predicate Active(threads: Threads, t: int) {
    t in threads && t != MASTER && (threads[t].Woken? || threads[t].Running?)
  }

  /** While checks are queued the workers do not all sleep: if one waits, another has been woken or has a batch. */
  ghost predicate Alert(s: State) {
    s.queue != [] && (exists t :: WaitingWorker(s.threads, t)) ==> exists u :: Active(s.threads, u)
  }

  ghost function Sleepers(threads: Threads): set<int> { set t | t in threads && WaitingWorker(threads, t) }

  /** Adding several checks wakes all workers that wait; adding one wakes exactly one of them, if there is any. */
  lemma AddWakes(s: State, checks: seq<bool>, woken: int)
    requires Inv(s) && MASTER in s.threads && Enabled(s, Add(checks, woken))
    ensures var before, after := Sleepers(s.threads), Sleepers(After(s, Add(checks, woken)).threads);
      && (|checks| == 0 ==> after == before)
      && (|checks| == 1 ==> after <= before && |after| == if before == {} then 0 else |before| - 1)
      && (|checks| >= 2 ==> after == {})
    ensures forall t :: t in Sleepers(s.threads) && t !in Sleepers(After(s, Add(checks, woken)).threads) ==>
      Active(After(s, Add(checks, woken)).threads, t)
  {
    hide Inv;
    var before, after := Sleepers(s.threads), Sleepers(After(s, Add(checks, woken)).threads);
    if |checks| == 1 {
      assert after == before - {woken};
      if before != {} {
        var t :| t in before;
        assert WaitingWorker(s.threads, t);
        assert woken in before;
      }
    }
  }

  /** Other threads than the one that steps, and the queue, in a step to the loop head. */
  lemma HeadStep(s: State, e: Event, u: int)
    requires Inv(s) && ToHead(e) && Enabled(s, e)
    ensures var a := After(s, e);
      && e.t in a.threads
      && (u != e.t && u != MASTER && u in s.threads ==> u in a.threads && a.threads[u] == s.threads[u])
      && (u != e.t && u != MASTER && u in a.threads ==> u in s.threads)
      && |a.queue| <= |s.queue|
      && (s.queue != [] ==> a.threads[e.t].Running? && |a.queue| < |s.queue|)
  {
    hide Inv; hide After; hide Popped; hide Marked; hide BatchSize;
    AfterHead(s, e);
    HeadOthers(s, e, u);
  }

  lemma AddKeepsAlert(s: State, checks: seq<bool>, woken: int)
    requires Inv(s) && MASTER in s.threads && Enabled(s, Add(checks, woken)) && Alert(s)
    ensures Alert(After(s, Add(checks, woken)))
  {
    hide Inv; hide After;
    AddWakes(s, checks, woken);
    var a := After(s, Add(checks, woken));
    AddedThreads(s, checks, woken);
    if a.queue != [] && exists t :: WaitingWorker(a.threads, t) {
      var t :| WaitingWorker(a.threads, t);
      assert t in Sleepers(a.threads);
      if |checks| == 0 {
        assert WaitingWorker(s.threads, t);
      } else {
        assert t in Sleepers(s.threads);
        assert woken in Sleepers(s.threads) && woken !in Sleepers(a.threads);
      }
    }
  }

  lemma AddedThreads(s: State, checks: seq<bool>, woken: int)
    requires Inv(s) && MASTER in s.threads && Enabled(s, Add(checks, woken))
    ensures var a := After(s, Add(checks, woken));
      && (|checks| == 0 ==> a.threads == s.threads && a.queue == s.queue)
      && (|checks| == 1 ==> !WaitingWorker(a.threads, woken))
      && (|checks| == 1 ==> WaitingWorker(s.threads, woken) || forall u :: !WaitingWorker(s.threads, u))
      && (forall t :: WaitingWorker(a.threads, t) ==> WaitingWorker(s.threads, t))
  {
    hide Inv;
  }

  lemma StepKeepsAlert(s: State, e: Event)
    requires Boundary(s) && Enabled(s, e) && Alert(s)
    ensures Alert(After(s, e))
  {
    hide Inv; hide After;
    MasterThere(s);
    var a := After(s, e);
    if e.Add? {
      AddKeepsAlert(s, e.checks, e.notified);
    } else if ToHead(e) {
      if s.queue == [] {
        HeadStep(s, e, e.t);
      } else if a.queue != [] && exists t :: WaitingWorker(a.threads, t) {
        var t :| WaitingWorker(a.threads, t);
        HeadStep(s, e, t);
        if e.t != MASTER {
          assert Active(a.threads, e.t);
        } else {
          assert WaitingWorker(s.threads, t);
          var u :| Active(s.threads, u);
          HeadStep(s, e, u);
          assert Active(a.threads, u);
        }
      }
    } else {
      LightStep(s, e);
    }
  }

  /** The remaining steps put nobody to sleep and stop nobody. */
  lemma LightStep(s: State, e: Event)
    requires Inv(s) && MASTER in s.threads && Enabled(s, e) && !e.Add? && !ToHead(e)
    ensures var a := After(s, e);
      && a.queue == s.queue && (forall t :: WaitingWorker(a.threads, t) ==> WaitingWorker(s.threads, t))
      && forall t :: Active(s.threads, t) ==> Active(a.threads, t)
  {
    hide Inv;
    if e.Evaluate? { AfterEvaluate(s, e.t); }
  }

  /** At every boundary of every run: while checks are queued, the workers do not all sleep. */
  lemma {:induction false} RunAlert(limit: nat, states: seq<State>, events: seq<Event>, k: nat)
    requires IsRun(limit, states, events) && k < |states|
    ensures Alert(states[k])
  {
    hide Inv; hide After; hide Alert;
    if k == 0 {
      InitialAlert(limit);
    } else {
      RunAlert(limit, states, events, k - 1);
      RunKeepsInv(limit, states, events, k - 1);
      assert Follows(states[k - 1], events[k - 1], states[k]);
      StepKeepsAlert(states[k - 1], events[k - 1]);
    }
  }

  lemma InitialAlert(limit: nat)
    ensures Alert(Initial(limit))
  {
  }

  // ----- the workers finish by themselves

  /** An endless run; nothing is said of what the master does in it. */
  ghost predicate Endless(limit: nat, states: nat -> State, events: nat -> Event) {
    states(0) == Initial(limit) && forall n: nat :: Follows(states(n), events(n), states(n + 1))
  }

  /** A worker with something to do is not passed over for ever; of the master nothing is asked. */
  ghost predicate FairToWorkers(states: nat -> State, events: nat -> Event) {
    forall n: nat, t :: t != MASTER && Ready(states(n), t) ==> ItsTurn(events, n, t)
  }

  ghost predicate ItsTurn(events: nat -> Event, n: nat, t: int) {
    exists k: nat :: k >= n && StepOf(events(k), t)
  }

  ghost predicate HasWorker(s: State) { exists t :: t in s.threads && t != MASTER }

  /** From some point on there is a worker, nothing is added, and the master is not inside `Wait`. */
  ghost predicate LeftAlone(states: nat -> State, events: nat -> Event, from: nat) {
    forall n: nat :: n >= from ==> HasWorker(states(n)) && !InWait(states(n)) && !events(n).Add?
  }

  lemma {:induction false} EndlessSound(limit: nat, states: nat -> State, events: nat -> Event, n: nat)
    requires Endless(limit, states, events)
    ensures Boundary(states(n)) && Alert(states(n))
  {
    hide Inv; hide After; hide Alert;
    if n == 0 {
      InitialInv(limit);
      InitialAlert(limit);
    } else {
      EndlessSound(limit, states, events, n - 1);
      assert Follows(states(n - 1), events(n - 1), states(n - 1 + 1));
      StepKeepsBoundary(states(n - 1), events(n - 1));
      StepKeepsAlert(states(n - 1), events(n - 1));
    }
  }

  /** A worker whose next step makes progress. */
  ghost predicate Useful(s: State, t: int) {
    && t in s.threads && t != MASTER
    && (s.threads[t].Running? || (s.queue != [] && (s.threads[t].Start? || s.threads[t].Woken?)))
  }

  /** While something is left to do and the master is outside, some worker is useful. */
  lemma SomeoneUseful(s: State) returns (t: int)
    requires Boundary(s) && Alert(s) && HasWorker(s) && !InWait(s) && s.nTodo != 0
    ensures t != MASTER && Useful(s, t) && Ready(s, t)
  {
    hide Placed; hide Truthful; hide Past; hide Total; hide Busy;
    CountersNonnegative(s);
    if s.queue == [] {
      t := BusyThread(s);
    } else {
      t :| t in s.threads && t != MASTER;
      if s.threads[t] == Waiting {
        assert WaitingWorker(s.threads, t);
        var u :| Active(s.threads, u);
        t := u;
      }
    }
  }

  lemma BusyThread(s: State) returns (t: int)
    requires Counted(s) && s.queue == [] && s.nTodo > 0 && MASTER in s.threads && s.threads[MASTER] == Outside
    ensures t in s.threads && t != MASTER && s.threads[t].Running?
  {
    t := TotalPositive(s.threads, Busy);
  }

  /** A step outside of Wait lowers the work, or leaves it and the useful worker as they are. */
  lemma QuietStep(s: State, e: Event, t: int)
    requires Boundary(s) && Enabled(s, e) && !InWait(s) && !e.Add? && Useful(s, t)
    ensures
      || Less(Work(After(s, e)), Work(s))
      || (Work(After(s, e)) == Work(s) && Useful(After(s, e), t) && !StepOf(e, t))
  {
    hide Inv; hide Total; hide After; hide Work;
    MasterThere(s);
    if e.Spawn? || e.Spurious? {
      IdleStep(s, e);
      QuietQueue(s, e);
    } else if e.Begin? {
      BeginStep(s);
    } else if e.Evaluate? || e.Finish? || s.queue != [] {
      BusyStep(s, e);
    } else {
      BlockStep(s, e);
    }
  }

  lemma QuietQueue(s: State, e: Event)
    requires Inv(s) && Enabled(s, e) && (e.Spawn? || e.Spurious?)
    ensures After(s, e).queue == s.queue
  {
    hide Inv;
  }

  lemma BeginStep(s: State)
    requires Inv(s) && MASTER in s.threads && Enabled(s, Begin)
    ensures Work(After(s, Begin)) == Work(s) && After(s, Begin).queue == s.queue
    ensures After(s, Begin).threads == s.threads[MASTER := Start]
  {
    hide Inv; hide Total;
    TotalSet(s.threads, MASTER, Start, Left);
  }

  lemma {:induction false} DrainsFrom(limit: nat, states: nat -> State, events: nat -> Event, from: nat, t: int, k: nat)
    returns (n: nat)
    requires Endless(limit, states, events) && FairToWorkers(states, events) && LeftAlone(states, events, from)
    requires Useful(states(from), t) && k >= from && StepOf(events(k), t)
    ensures n >= from && states(n).nTodo == 0
    decreases Work(states(from)).0, Work(states(from)).1, Work(states(from)).2, k - from
  {
    hide Inv; hide Total; hide After; hide Work; hide Useful; hide Ready; hide InWait; hide Alert;
    EndlessSound(limit, states, events, from);
    EndlessSound(limit, states, events, from + 1);
    var s, e := states(from), events(from);
    assert Follows(s, e, states(from + 1));
    MeasureNonnegative(s);
    MeasureNonnegative(states(from + 1));
    QuietStep(s, e, t);
    if states(from + 1).nTodo == 0 {
      n := from + 1;
    } else if Less(Work(After(s, e)), Work(s)) {
      var u := SomeoneUseful(states(from + 1));
      assert ItsTurn(events, from + 1, u);
      var j: nat :| j >= from + 1 && StepOf(events(j), u);
      n := DrainsFrom(limit, states, events, from + 1, u, j);
    } else {
      n := DrainsFrom(limit, states, events, from + 1, t, k);
    }
  }

  /** Without the master, in every run that is fair to them, the workers finish all that was added. */
  lemma WorkersFinish(limit: nat, states: nat -> State, events: nat -> Event, from: nat) returns (n: nat)
    requires Endless(limit, states, events) && FairToWorkers(states, events) && LeftAlone(states, events, from)
    ensures n >= from && states(n).nTodo == 0
  {
    hide Inv; hide Useful; hide Ready; hide InWait; hide Alert; hide Endless;
    EndlessSound(limit, states, events, from);
    if states(from).nTodo == 0 {
      n := from;
    } else {
      var t := SomeoneUseful(states(from));
      assert ItsTurn(events, from, t);
      var k: nat :| k >= from && StepOf(events(k), t);
      n := DrainsFrom(limit, states, events, from, t, k);
    }
  }

  // ----- single steps

  /** A check is evaluated only while no failure is known, and its outcome is what the batch then knows. */
  lemma EvaluateDoes(s: State, t: int)
    requires Inv(s) && MASTER in s.threads && Enabled(s, Evaluate(t))
    ensures var a, b := After(s, Evaluate(t)), s.threads[t];
      var i := b.batch[b.done];
      && i < |s.runs| == |s.outcomes| && a == s.(runs := a.runs, threads := a.threads)
      && a.threads == s.threads[t := Running(b.batch, b.done + 1, b.ok && s.outcomes[i])]
      && a.runs == if b.ok then s.runs[i := s.runs[i] + 1] else s.runs
  {
    hide Inv;
    AfterEvaluate(s, t);
  }

  /** A thread that finds checks queued takes its share from the back, last one first, and starts out with what is
      known of the round. */
  lemma HeadTakes(s: State, e: Event)
    requires Inv(s) && ToHead(e) && Enabled(s, e) && s.queue != []
    ensures var a := After(s, e);
      && e.t in a.threads && a.threads[e.t].Running?
      && var b := a.threads[e.t];
         && b.done == 0 && b.ok == a.allOk
         && 1 <= |b.batch| <= |s.queue| && a.queue == s.queue[..|s.queue| - |b.batch|]
         && forall k :: 0 <= k < |b.batch| ==> b.batch[k] == s.queue[|s.queue| - 1 - k]
  {
    hide Inv; hide After; hide Marked;
    AfterHead(s, e);
    HeadOthers(s, e, e.t);
  }
}
