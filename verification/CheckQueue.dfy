/** The script check queue (`CCheckQueue`) as a state machine whose steps are its critical sections and single
    evaluations. */
module CheckQueue {
  import opened SetSum

  /** The thread that calls `Add` and `Wait`; all other threads run `Thread`. */
  const MASTER := 0

  datatype Phase =
    | Outside                                         // the master, between calls of Wait
    | Start                                           // about to enter the loop for the first time
    | Locked                                          // at the loop head, holding the mutex
    | Waiting                                         // blocked on its condition variable
    | Woken                                           // notified, has not got the mutex back yet
    | Running(batch: seq<nat>, done: nat, ok: bool)   // evaluating its own batch without the mutex

  type Threads = map<int, Phase>

  /** Where a check of the current round is. */
  datatype Owner = Queued | Held(t: int) | Completed

  /** A finished round: the outcomes of its checks, how often each was evaluated, and what `Wait` returned. */
  datatype Round = Round(outcomes: seq<bool>, runs: seq<nat>, verdict: bool)

  /** A check is named by its position in the round; `outcomes`, `owner`, `runs` and `history` only record. */
  datatype State = State(
    limit: nat, queue: seq<nat>, nTodo: int, nIdle: int, nTotal: int, allOk: bool, threads: Threads,
    outcomes: seq<bool>, owner: seq<Owner>, runs: seq<nat>, history: seq<Round>)

  // ----- the parts of a step

  lemma ShareExact(n: nat, parts: nat)
    requires parts > 0
    ensures n / parts * parts <= n < (n / parts + 1) * parts
  {
  }

  /** How many checks a thread takes at once: the fair share of the threads there are and may come, within the limit,
      and at least one. */
  function BatchSize(s: State): (n: nat)
    requires s.nTotal + s.nIdle >= 0
    ensures n >= 1 && (s.queue != [] ==> n <= |s.queue|)
    ensures n > 1 ==> n <= s.limit && n * (s.nTotal + s.nIdle + 1) <= |s.queue|
    ensures n < s.limit ==> (n + 1) * (s.nTotal + s.nIdle + 1) > |s.queue|
  {
    var share := |s.queue| / (s.nTotal + s.nIdle + 1);
    ShareExact(|s.queue|, s.nTotal + s.nIdle + 1);
    var capped := if s.limit < share then s.limit else share;
    if capped < 1 then 1 else capped
  }

  /** The last n queued checks, as they are popped from the back. */
  function Popped(queue: seq<nat>, n: nat): seq<nat>
    requires n <= |queue|
  {
    seq(n, i requires 0 <= i < n => queue[|queue| - 1 - i])
  }

  function Marked(owner: seq<Owner>, which: seq<nat>, o: Owner): seq<Owner> {
    seq(|owner|, i requires 0 <= i < |owner| => if i in which then o else owner[i])
  }

  function Take(s: State, t: int): State
    requires s.nTotal + s.nIdle >= 0 && s.queue != []
  {
    var n := BatchSize(s);
    var batch := Popped(s.queue, n);
    s.(queue := s.queue[..|s.queue| - n], threads := s.threads[t := Running(batch, 0, s.allOk)],
       owner := Marked(s.owner, batch, Held(t)))
  }

  function Return(s: State): State {
    s.(nTotal := s.nTotal - 1, allOk := true, threads := s.threads[MASTER := Outside],
       history := s.history + [Round(s.outcomes, s.runs, s.allOk)], outcomes := [], owner := [], runs := [])
  }

  function Block(s: State, t: int): State {
    s.(nIdle := s.nIdle + 1, threads := s.threads[t := Waiting])
  }

  /** The loop head, under the mutex: take a batch, return (master only, all done), or wait. */
  function TakeOrWait(s: State, t: int): State
    requires s.nTotal + s.nIdle >= 0
  {
    if s.queue != [] then Take(s, t)
    else if t == MASTER && s.nTodo == 0 then Return(s)
    else Block(s, t)
  }

  /** notify_one on the master's condition variable. */
  function NotifyMaster(threads: Threads): Threads {
    if MASTER in threads && threads[MASTER] == Waiting then threads[MASTER := Woken] else threads
  }

  /** notify_all on the workers' condition variable. */
  function NotifyWorkers(threads: Threads): Threads {
    map t | t in threads :: if t != MASTER && threads[t] == Waiting then Woken else threads[t]
  }

  /** The end of a batch, under the mutex: its result counts, and the last one informs the master. */
  function Settle(s: State, t: int): State
    requires t in s.threads && s.threads[t].Running?
  {
    var b := s.threads[t];
    var todo := s.nTodo - |b.batch|;
    var others := s.threads[t := Locked];
    s.(allOk := s.allOk && b.ok, nTodo := todo, owner := Marked(s.owner, b.batch, Completed),
       threads := if todo == 0 && t != MASTER then NotifyMaster(others) else others)
  }

  function First(s: State, t: int): State {
    s.(nTotal := s.nTotal + 1, threads := s.threads[t := Locked])
  }

  function Reacquire(s: State, t: int): State {
    s.(nIdle := s.nIdle - 1, threads := s.threads[t := Locked])
  }

  /** One check of a batch: evaluated only while no failure is known. */
  function EvaluateOne(s: State, t: int): State
    requires t in s.threads && s.threads[t].Running? && s.threads[t].done < |s.threads[t].batch|
    requires s.threads[t].batch[s.threads[t].done] < |s.runs| == |s.outcomes|
  {
    var b := s.threads[t];
    var i := b.batch[b.done];
    if b.ok then
      s.(runs := s.runs[i := s.runs[i] + 1], threads := s.threads[t := Running(b.batch, b.done + 1, s.outcomes[i])])
    else
      s.(threads := s.threads[t := Running(b.batch, b.done + 1, false)])
  }

  /** `Add`: new checks go to the back; one waiting worker is woken for one check, all of them for more. */
  function Added(s: State, checks: seq<bool>, woken: int): State {
    var n := |s.owner|;
    s.(queue := s.queue + seq(|checks|, i => n + i), nTodo := s.nTodo + |checks|,
       outcomes := s.outcomes + checks, owner := s.owner + seq(|checks|, i => Queued),
         runs := s.runs + seq(|checks|, i => 0),
       threads := if |checks| > 1 then NotifyWorkers(s.threads)
                  else if |checks| == 1 && WaitingWorker(s.threads, woken) then s.threads[woken := Woken]
                  else s.threads)
  }

  predicate WaitingWorker(threads: Threads, t: int) {
    t in threads && t != MASTER && threads[t] == Waiting
  }

  // ----- counting threads

  function Busy(p: Phase): int { if p.Running? then |p.batch| else 0 }
  function Idle(p: Phase): int { if p.Waiting? || p.Woken? then 1 else 0 }
  function Inside(p: Phase): int { if p.Outside? || p.Start? then 0 else 1 }

  ghost function Weights(threads: Threads, w: Phase -> int): map<int, int> {
    map t | t in threads :: w(threads[t])
  }

  ghost function Total(threads: Threads, w: Phase -> int): int {
    Sum(Weights(threads, w), threads.Keys)
  }

  lemma TotalSet(threads: Threads, t: int, p: Phase, w: Phase -> int)
    requires t in threads
    ensures Total(threads[t := p], w) == Total(threads, w) - w(threads[t]) + w(p)
  {
    var after := threads[t := p];
    assert after.Keys == threads.Keys;
    SumRemove(Weights(threads, w), threads.Keys, t);
    SumRemove(Weights(after, w), threads.Keys, t);
    SumAgrees(Weights(threads, w), Weights(after, w), threads.Keys - {t});
  }

  lemma TotalNew(threads: Threads, t: int, p: Phase, w: Phase -> int)
    requires t !in threads
    ensures Total(threads[t := p], w) == Total(threads, w) + w(p)
  {
    var after := threads[t := p];
    SumRemove(Weights(after, w), after.Keys, t);
    assert after.Keys - {t} == threads.Keys;
    SumAgrees(Weights(threads, w), Weights(after, w), threads.Keys);
  }

  lemma TotalSame(a: Threads, b: Threads, w: Phase -> int)
    requires a.Keys == b.Keys && forall t :: t in a ==> w(a[t]) == w(b[t])
    ensures Total(a, w) == Total(b, w)
  {
    SumAgrees(Weights(a, w), Weights(b, w), a.Keys);
  }

  lemma TotalAtLeast(threads: Threads, s: set<int>, w: Phase -> int)
    requires s <= threads.Keys && forall p :: w(p) >= 0
    ensures 0 <= Sum(Weights(threads, w), s) <= Total(threads, w)
  {
    SumMonotone(Weights(threads, w), s, threads.Keys);
  }

  lemma TotalPositive(threads: Threads, w: Phase -> int) returns (t: int)
    requires Total(threads, w) > 0
    ensures t in threads && w(threads[t]) > 0
  {
    SumPositive(Weights(threads, w), threads.Keys);
    t :| t in threads.Keys && Weights(threads, w)[t] > 0;
  }
}
