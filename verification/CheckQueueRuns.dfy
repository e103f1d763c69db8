/** Every interleaving of the check queue: the verdict of `Wait`, and that it is always reached. */
module CheckQueueRuns {
  import opened SetSum
  import opened CheckQueue
  import opened CheckQueueProofs

  datatype Event =
    | Spawn(t: int)                             // a worker thread is created
    | Add(checks: seq<bool>, notified: int)     // the master adds checks; a single notification picks `notified`
    | Begin                                     // the master calls Wait
    | Enter(t: int)                             // first critical section of the loop
    | Resume(t: int)                            // a woken thread gets the mutex back
    | Evaluate(t: int)                          // one check of a batch
    | Finish(t: int)                            // critical section after a batch
    | Spurious(t: int)                          // a wakeup nobody asked for

  /** At a critical-section boundary nobody holds the mutex. */
  ghost predicate Boundary(s: State) {
    Inv(s) && forall t :: t in s.threads ==> s.threads[t] != Locked
  }

  function Initial(limit: nat): State {
    State(limit, [], 0, 0, 0, true, map[MASTER := Outside], [], [], [], [])
  }

  ghost predicate Enabled(s: State, e: Event)
    requires MASTER in s.threads
  {
    match e
    case Spawn(t) => t !in s.threads
    case Add(checks, t) => s.threads[MASTER] == Outside
      && (|checks| == 1 ==> WaitingWorker(s.threads, t) || forall u :: !WaitingWorker(s.threads, u))
    case Begin => s.threads[MASTER] == Outside
    case Enter(t) => t in s.threads && s.threads[t] == Start
    case Resume(t) => t in s.threads && s.threads[t] == Woken
    case Evaluate(t) => t in s.threads && s.threads[t].Running? && s.threads[t].done < |s.threads[t].batch|
    case Finish(t) => t in s.threads && s.threads[t].Running? && s.threads[t].done >= |s.threads[t].batch|
    case Spurious(t) => t in s.threads && s.threads[t] == Waiting
  }

  /** Events that bring a thread to the loop head under the mutex. */
  ghost predicate ToHead(e: Event) {
    e.Enter? || e.Resume? || e.Finish?
  }

  /** The state at the loop head, with the mutex held. */
  ghost function Head(s: State, e: Event): State
    requires ToHead(e) && MASTER in s.threads && Enabled(s, e)
  {
    match e
    case Enter(t) => First(s, t)
    case Resume(t) => Reacquire(s, t)
    case Finish(t) => Settle(s, t)
  }

  lemma HeadInv(s: State, e: Event)
    requires Inv(s) && ToHead(e) && Enabled(s, e)
    ensures Inv(Head(s, e)) && e.t in Head(s, e).threads && Head(s, e).threads[e.t] == Locked
  {
    hide Inv;
    match e
    case Enter(t) => FirstKeeps(s, t);
    case Resume(t) => ReacquireKeeps(s, t);
    case Finish(t) => SettleKeeps(s, t);
  }

  /** The other threads are as before, except that the master may have been notified. */
  lemma HeadOthers(s: State, e: Event, u: int)
    requires Inv(s) && ToHead(e) && Enabled(s, e)
    ensures var h := Head(s, e);
      h.queue == s.queue && h.outcomes == s.outcomes && h.runs == s.runs && h.history == s.history
    ensures u in Head(s, e).threads <==> u in s.threads
    ensures u in s.threads && u != e.t ==>
      Head(s, e).threads[u] == s.threads[u] ||
        (u == MASTER && s.threads[u] == Waiting && Head(s, e).threads[u] == Woken)
  {
    hide Placed; hide Truthful; hide Counted; hide Past;
  }

  /** The state after an event. */
  ghost function After(s: State, e: Event): State
    requires Inv(s) && Enabled(s, e)
  {
    hide Inv;
    match e
    case Spawn(t) => s.(threads := s.threads[t := Start])
    case Add(checks, t) => Added(s, checks, t)
    case Begin => s.(threads := s.threads[MASTER := Start])
    case Evaluate(t) => EvaluateKeeps(s, t); EvaluateOne(s, t)
    case Spurious(t) => s.(threads := s.threads[t := Woken])
    case _ => HeadInv(s, e); TakeOrWaitKeeps(Head(s, e), e.t); TakeOrWait(Head(s, e), e.t)
  }

  lemma MasterThere(s: State)
    requires Inv(s)
    ensures MASTER in s.threads
  {
    hide Placed; hide Counted; hide Truthful; hide Past;
  }

  /** What a step to the loop head does. */
  lemma AfterHead(s: State, e: Event)
    requires Inv(s) && ToHead(e) && Enabled(s, e)
    ensures Head(s, e).nTotal + Head(s, e).nIdle >= 0 && After(s, e) == TakeOrWait(Head(s, e), e.t)
    ensures Inv(Head(s, e)) && e.t in Head(s, e).threads && Head(s, e).threads[e.t] == Locked
  {
    hide Inv; hide Head; hide TakeOrWait;
    MasterThere(s);
    HeadInv(s, e);
    TakeOrWaitKeeps(Head(s, e), e.t);
  }

  lemma AfterEvaluate(s: State, t: int)
    requires Inv(s) && MASTER in s.threads && Enabled(s, Evaluate(t))
    ensures s.threads[t].batch[s.threads[t].done] < |s.runs| == |s.outcomes|
    ensures After(s, Evaluate(t)) == EvaluateOne(s, t)
  {
    hide Inv; hide EvaluateOne;
    EvaluateKeeps(s, t);
  }

  lemma StepKeepsInv(s: State, e: Event)
    requires Inv(s) && Enabled(s, e)
    ensures Inv(After(s, e))
  {
    hide Inv; hide Head; hide TakeOrWait; hide EvaluateOne; hide Added;
    MasterThere(s);
    match e
    case Spawn(t) => SpawnKeeps(s, t);
    case Add(checks, t) => AddedKeeps(s, checks, t);
    case Begin => BeginKeeps(s);
    case Evaluate(t) => EvaluateKeeps(s, t);
    case Spurious(t) => SpuriousKeeps(s, t);
    case _ => HeadInv(s, e); TakeOrWaitKeeps(Head(s, e), e.t);
  }

  lemma StepKeepsBoundary(s: State, e: Event)
    requires Boundary(s) && Enabled(s, e)
    ensures Boundary(After(s, e))
  {
    hide Inv; hide After;
    StepKeepsInv(s, e);
    forall u | u in After(s, e).threads ensures After(s, e).threads[u] != Locked { StepUnlocks(s, e, u); }
  }

  lemma StepUnlocks(s: State, e: Event, u: int)
    requires Inv(s) && Enabled(s, e) && (u in s.threads ==> s.threads[u] != Locked) && u in After(s, e).threads
    ensures After(s, e).threads[u] != Locked
  {
    hide Inv;
    if ToHead(e) { HeadOthers(s, e, u); }
  }

  /** The states a run goes through. */
  ghost predicate IsRun(limit: nat, states: seq<State>, events: seq<Event>) {
    && |states| == |events| + 1 && states[0] == Initial(limit)
    && forall k :: 0 <= k < |events| ==> Follows(states[k], events[k], states[k + 1])
  }

  ghost predicate Follows(s: State, e: Event, after: State) {
    Inv(s) ==> Enabled(s, e) && after == After(s, e)
  }

  /** In every interleaving of one master and any number of workers the invariant holds at every boundary. */
  lemma {:induction false} RunKeepsInv(limit: nat, states: seq<State>, events: seq<Event>, k: nat)
    requires IsRun(limit, states, events) && k < |states|
    ensures Boundary(states[k])
  {
    if k == 0 {
      InitialInv(limit);
    } else {
      RunKeepsInv(limit, states, events, k - 1);
      assert Follows(states[k - 1], events[k - 1], states[k]);
      StepKeepsBoundary(states[k - 1], events[k - 1]);
    }
  }

  lemma InitialInv(limit: nat)
    ensures Boundary(Initial(limit))
  {
    var s := Initial(limit);
    SumRemove(Weights(s.threads, Busy), {MASTER}, MASTER);
    SumRemove(Weights(s.threads, Idle), {MASTER}, MASTER);
    SumRemove(Weights(s.threads, Inside), {MASTER}, MASTER);
    assert {MASTER} - {MASTER} == {} && s.threads.Keys == {MASTER};
  }

  /** Every Wait of every run judged its round rightly: true exactly when all checks were, each evaluated at most, and
      then exactly, once. */
  lemma EveryRoundJudged(limit: nat, states: seq<State>, events: seq<Event>, k: nat, r: nat)
    requires IsRun(limit, states, events) && k < |states| && r < |states[k].history|
    ensures Judged(states[k].history[r])
  {
    hide Judged;
    RunKeepsInv(limit, states, events, k);
  }

  /** `nTodo` is exactly what is queued plus what the threads hold, at every boundary of every run. */
  lemma TodoExact(limit: nat, states: seq<State>, events: seq<Event>, k: nat)
    requires IsRun(limit, states, events) && k < |states|
    ensures states[k].nTodo == |states[k].queue| + Total(states[k].threads, Busy)
  {
    RunKeepsInv(limit, states, events, k);
  }

  /** Whether an event ends the master's Wait. */
  ghost predicate Returns(s: State, e: Event)
    requires Inv(s) && Enabled(s, e)
  {
    InWait(s) && !InWait(After(s, e))
  }

  ghost predicate InWait(s: State) { MASTER in s.threads && s.threads[MASTER] != Outside }

  ghost predicate AllTrue(outcomes: seq<bool>) {
    forall i :: 0 <= i < |outcomes| ==> outcomes[i]
  }

  /**
   * The result of Wait: true exactly when every check added in the round is true, each then evaluated exactly once;
   * and the next round starts from a clean queue.
   */
  lemma WaitVerdict(s: State, e: Event)
    requires Boundary(s) && Enabled(s, e) && Returns(s, e)
    ensures |After(s, e).history| == |s.history| + 1
    ensures var r := After(s, e).history[|s.history|];
      && r.outcomes == s.outcomes && r.runs == s.runs
      && (r.verdict <==> AllTrue(s.outcomes))
      && (r.verdict ==> forall i :: 0 <= i < |s.runs| ==> s.runs[i] == 1)
    ensures var a := After(s, e); a.allOk && a.nTodo == 0 && a.queue == [] && a.outcomes == []
    ensures forall t :: t in After(s, e).threads ==> !After(s, e).threads[t].Running?
  {
    hide Inv; hide After;
    ReturnsAtHead(s, e);
    var h := Head(s, e);
    HeadInv(s, e);
    HeadOthers(s, e, MASTER);
    ReturnClean(h);
  }

  /** Only the master's own loop head ends its Wait, and only with nothing left to do. */
  lemma ReturnsAtHead(s: State, e: Event)
    requires Inv(s) && Enabled(s, e) && Returns(s, e)
    ensures ToHead(e) && e.t == MASTER && Head(s, e).queue == [] && Head(s, e).nTodo == 0
    ensures After(s, e) == Return(Head(s, e))
  {
    hide Inv;
    MasterThere(s);
    if ToHead(e) {
      AfterHead(s, e);
      HeadOthers(s, e, MASTER);
    }
  }

  lemma ReturnClean(h: State)
    requires Inv(h) && MASTER in h.threads && h.threads[MASTER] == Locked && h.queue == [] && h.nTodo == 0
    ensures Judged(Round(h.outcomes, h.runs, h.allOk))
    ensures forall t :: t in h.threads ==> !h.threads[t].Running?
  {
    ReturnKeeps(h);
    var r := Return(h);
    assert r.history[|h.history|] == Round(h.outcomes, h.runs, h.allOk);
    forall t | t in h.threads
      ensures !h.threads[t].Running? { NobodyRuns(h, t); assert Holds(h.threads[t], t, h.owner); }
  }

  // ----- no lost wakeup, no deadlock

  /** Steps of threads that have work to do or something to notice; neither a new thread nor an unasked wakeup. */
  ghost predicate Working(e: Event) {
    ToHead(e) || e.Evaluate?
  }

  /**
   * While the master is in Wait it can step itself, or it waits and some worker has a batch and can step.
   * (When that was the last batch the worker's Finish wakes the master: after it the master no longer waits.)
   */
  lemma NoDeadlock(s: State) returns (e: Event)
    requires Boundary(s) && InWait(s)
    ensures Working(e) && Enabled(s, e)
    ensures e.t == MASTER || (s.threads[MASTER] == Waiting && s.threads[e.t].Running?)
  {
    var t := MASTER;
    if s.threads[MASTER] == Waiting {
      t := TotalPositive(s.threads, Busy);
    }
    match s.threads[t]
    case Start => e := Enter(t);
    case Woken => e := Resume(t);
    case Running(batch, done, _) => e := if done < |batch| then Evaluate(t) else Finish(t);
  }

  /** No lost wakeup: the step after which nothing is left to do leaves the master able to step. */
  lemma LastFinishWakes(s: State, e: Event)
    requires Boundary(s) && Enabled(s, e) && After(s, e).nTodo == 0
    ensures MASTER in After(s, e).threads && After(s, e).threads[MASTER] != Waiting
  {
    hide Placed; hide Truthful; hide Counted; hide Past; hide After;
    StepKeepsInv(s, e);
  }

  // ----- Wait returns

  function Left(p: Phase): int { if p.Running? && p.done <= |p.batch| then |p.batch| - p.done else 0 }
  function Pending(p: Phase): int { if p.Start? || p.Woken? then 1 else 0 }

  /** Checks not settled, checks queued, evaluations left in batches: no step makes this larger. */
  ghost function Work(s: State): (int, int, int) { (s.nTodo, |s.queue|, Total(s.threads, Left)) }

  ghost predicate Less(a: (int, int, int), b: (int, int, int)) {
    a.0 < b.0 || (a.0 == b.0 && a.1 < b.1) || (a.0 == b.0 && a.1 == b.1 && a.2 < b.2)
  }

  /** The work, and how many threads are about to look at the queue. */
  ghost function Measure(s: State): ((int, int, int), int) { (Work(s), Total(s.threads, Pending)) }

  ghost predicate Smaller(a: ((int, int, int), int), b: ((int, int, int), int)) {
    Less(a.0, b.0) || (a.0 == b.0 && a.1 < b.1)
  }

  lemma EvaluateShrinks(s: State, t: int)
    requires Inv(s) && MASTER in s.threads && Enabled(s, Evaluate(t))
    ensures Less(Work(After(s, Evaluate(t))), Work(s))
  {
    hide Inv; hide Total; hide After;
    AfterEvaluate(s, t);
    TotalSet(s.threads, t, EvaluateOne(s, t).threads[t], Left);
  }

  lemma FinishSettles(s: State, t: int)
    requires Inv(s) && MASTER in s.threads && Enabled(s, Finish(t))
    ensures Settle(s, t).nTodo < s.nTodo
  {
    hide Counted; hide Truthful; hide Past; hide Marked; hide Located; hide NotifyMaster;
    assert Holds(s.threads[t], t, s.owner);
  }

  /** Steps of threads with a batch, and steps that take one, make the work less. */
  lemma BusyStep(s: State, e: Event)
    requires Inv(s) && Enabled(s, e) && (e.Evaluate? || e.Finish? || ((e.Enter? || e.Resume?) && s.queue != []))
    ensures Returns(s, e) || Less(Work(After(s, e)), Work(s))
  {
    hide Inv; hide Total; hide After; hide Popped; hide Marked; hide BatchSize;
    MasterThere(s);
    if e.Evaluate? {
      EvaluateShrinks(s, e.t);
    } else {
      AfterHead(s, e);
      if e.Finish? { FinishSettles(s, e.t); }
    }
  }

  /** A thread without a batch that finds the queue empty. */
  lemma BlockStep(s: State, e: Event)
    requires Inv(s) && Enabled(s, e) && (e.Enter? || e.Resume?) && s.queue == [] && !(e.t == MASTER && s.nTodo == 0)
    ensures Work(After(s, e)) == Work(s) && Total(After(s, e).threads, Busy) == Total(s.threads, Busy)
    ensures Total(After(s, e).threads, Pending) == Total(s.threads, Pending) - 1
    ensures After(s, e).threads == s.threads[e.t := Waiting]
  {
    hide Inv; hide Total; hide After;
    AfterHead(s, e);
    assert After(s, e).threads == s.threads[e.t := Waiting];
    TotalSet(s.threads, e.t, Waiting, Left);
    TotalSet(s.threads, e.t, Waiting, Busy);
    TotalSet(s.threads, e.t, Waiting, Pending);
  }

  /** The master ends its Wait when it finds nothing queued and nothing to do. */
  lemma ReturnStep(s: State, e: Event)
    requires Inv(s) && Enabled(s, e) && (e.Enter? || e.Resume?) && e.t == MASTER && s.queue == [] && s.nTodo == 0
    ensures Returns(s, e)
  {
    hide Inv; hide After;
    AfterHead(s, e);
  }

  /** Every working step makes progress, unless it is the one with which Wait returns. */
  lemma StepShrinks(s: State, e: Event)
    requires Boundary(s) && InWait(s) && Enabled(s, e) && Working(e)
    ensures Returns(s, e) || Smaller(Measure(After(s, e)), Measure(s))
  {
    hide Inv; hide Total; hide After; hide Work; hide Returns;
    if e.Evaluate? || e.Finish? || s.queue != [] {
      BusyStep(s, e);
    } else if e.t == MASTER && s.nTodo == 0 {
      ReturnStep(s, e);
    } else {
      BlockStep(s, e);
    }
  }

  lemma MeasureNonnegative(s: State)
    requires Inv(s)
    ensures Work(s).0 >= 0 && Work(s).1 >= 0 && Work(s).2 >= 0 && Measure(s).1 >= 0
  {
    hide Placed; hide Truthful; hide Past; hide Total;
    CountersNonnegative(s);
    TotalAtLeast(s.threads, {}, Left);
    TotalAtLeast(s.threads, {}, Pending);
  }

  /** A schedule of working steps for as long as the master is in Wait. */
  ghost predicate Schedule(states: nat -> State, events: nat -> Event) {
    forall n: nat :: InWait(states(n)) ==> Working(events(n)) && Follows(states(n), events(n), states(n + 1))
  }

  /** Wait returns: whatever the interleaving, working steps cannot go on for ever without the master's return. */
  lemma {:induction false} WaitReturns(states: nat -> State, events: nat -> Event, from: nat) returns (n: nat)
    requires Schedule(states, events) && Boundary(states(from)) && InWait(states(from))
    ensures n >= from && Boundary(states(n)) && Enabled(states(n), events(n)) && Returns(states(n), events(n))
    decreases Work(states(from)).0, Work(states(from)).1, Work(states(from)).2, Measure(states(from)).1
  {
    hide Inv; hide Total; hide After; hide Work; hide InWait;
    var s, e := states(from), events(from);
    assert Working(e) && Follows(s, e, states(from + 1));
    StepKeepsBoundary(s, e);
    StepShrinks(s, e);
    MeasureNonnegative(s);
    MeasureNonnegative(After(s, e));
    if Returns(s, e) {
      n := from;
    } else {
      n := WaitReturns(states, events, from + 1);
    }
  }

  // ----- with unasked wakeups and new threads

  /** A thread with something to do. */
  predicate Ready(s: State, t: int) {
    t in s.threads && (s.threads[t].Start? || s.threads[t].Woken? || s.threads[t].Running?)
  }

  ghost predicate StepOf(e: Event, t: int) { Working(e) && e.t == t }

  /** Steps of any kind, unasked wakeups and new threads among them, for as long as the master is in Wait. */
  ghost predicate AnySteps(states: nat -> State, events: nat -> Event) {
    forall n: nat :: InWait(states(n)) ==> Follows(states(n), events(n), states(n + 1))
  }

  /** A thread with something to do is not passed over for ever. */
  ghost predicate Fair(states: nat -> State, events: nat -> Event) {
    forall n: nat, t :: Ready(states(n), t) ==> Turn(states, events, n, t)
  }

  ghost predicate Turn(states: nat -> State, events: nat -> Event, n: nat, t: int) {
    exists k: nat :: k >= n && (StepOf(events(k), t) || !InWait(states(k)))
  }

  /** A thread whose next step makes progress: one with a batch, or the master when nobody has one. */
  ghost predicate Helps(s: State, t: int) {
    && t in s.threads
    && (s.threads[t].Running? ||
        (t == MASTER && (s.threads[t].Start? || s.threads[t].Woken?) && Total(s.threads, Busy) == 0))
  }

  lemma SomeoneHelps(s: State) returns (t: int)
    requires Boundary(s) && InWait(s)
    ensures Helps(s, t) && Ready(s, t)
  {
    CountersNonnegative(s);
    if Total(s.threads, Busy) > 0 {
      t := TotalPositive(s.threads, Busy);
    } else {
      t := MASTER;
      TotalAtLeast(s.threads, {}, Busy);
    }
  }

  /** A step that changes no batch, the queue or the counts leaves the work as it is. */
  lemma IdleStep(s: State, e: Event)
    requires Inv(s) && Enabled(s, e) && (e.Spawn? || e.Spurious?)
    ensures Work(After(s, e)) == Work(s) && Total(After(s, e).threads, Busy) == Total(s.threads, Busy)
    ensures After(s, e).threads == s.threads[e.t := if e.Spawn? then Start else Woken]
  {
    hide Inv; hide Total;
    if e.Spawn? {
      TotalNew(s.threads, e.t, Start, Left);
      TotalNew(s.threads, e.t, Start, Busy);
    } else {
      TotalSet(s.threads, e.t, Woken, Left);
      TotalSet(s.threads, e.t, Woken, Busy);
    }
  }

  /** A step that neither ends the Wait nor makes progress is not one of the helping thread, which goes on helping. */
  lemma Quiet(s: State, e: Event, t: int)
    requires Boundary(s) && InWait(s) && Enabled(s, e) && Helps(s, t) && !Returns(s, e)
    requires !Less(Work(After(s, e)), Work(s))
    ensures Work(After(s, e)) == Work(s) && Helps(After(s, e), t) && !StepOf(e, t)
  {
    hide Inv; hide Total; hide After; hide Returns; hide Work;
    TodoCounts(s);
    if e.Spawn? || e.Spurious? {
      IdleStep(s, e);
    } else if e.Evaluate? || e.Finish? || s.queue != [] {
      BusyStep(s, e);
    } else if e.t == MASTER && s.nTodo == 0 {
      ReturnStep(s, e);
    } else {
      BlockStep(s, e);
    }
  }

  lemma TodoCounts(s: State)
    requires Inv(s)
    ensures s.nTodo == |s.queue| + Total(s.threads, Busy)
  {
    hide Placed; hide Truthful; hide Past; hide Total;
  }

  lemma {:induction false} FairFrom(states: nat -> State, events: nat -> Event, from: nat, t: int, k: nat)
    returns (n: nat)
    requires AnySteps(states, events) && Fair(states, events)
    requires Boundary(states(from)) && InWait(states(from)) && Helps(states(from), t)
    requires k >= from && (StepOf(events(k), t) || !InWait(states(k)))
    ensures n >= from && Boundary(states(n)) && Enabled(states(n), events(n)) && Returns(states(n), events(n))
    decreases Work(states(from)).0, Work(states(from)).1, Work(states(from)).2, k - from
  {
    hide Inv; hide Total; hide After; hide Work; hide Helps; hide Ready; hide InWait;
    var s, e := states(from), events(from);
    assert Follows(s, e, states(from + 1));
    StepKeepsBoundary(s, e);
    MeasureNonnegative(s);
    MeasureNonnegative(After(s, e));
    if Returns(s, e) {
      n := from;
    } else if Less(Work(After(s, e)), Work(s)) {
      var u := SomeoneHelps(states(from + 1));
      assert Turn(states, events, from + 1, u);
      var j: nat :| j >= from + 1 && (StepOf(events(j), u) || !InWait(states(j)));
      n := FairFrom(states, events, from + 1, u, j);
    } else {
      Quiet(s, e, t);
      n := FairFrom(states, events, from + 1, t, k);
    }
  }

  /** Wait returns in every fair run, however many unasked wakeups and new threads there are. */
  lemma FairWaitReturns(states: nat -> State, events: nat -> Event, from: nat) returns (n: nat)
    requires AnySteps(states, events) && Fair(states, events) && Boundary(states(from)) && InWait(states(from))
    ensures n >= from && Boundary(states(n)) && Enabled(states(n), events(n)) && Returns(states(n), events(n))
  {
    hide Inv; hide Helps; hide Ready; hide AnySteps; hide After; hide Returns;
    var t := SomeoneHelps(states(from));
    assert Turn(states, events, from, t);
    var k: nat :| k >= from && (StepOf(events(k), t) || !InWait(states(k)));
    n := FairFrom(states, events, from, t, k);
  }
}
