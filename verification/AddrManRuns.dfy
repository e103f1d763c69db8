/** Collision handling, and the theorems about every run of the address manager. */
module AddrManRuns {
  import opened AddrManState
  import opened AddrManOps

  // ----- GetAddr -----

  /** What a shuffle of distinct ids returns. */
  lemma ShuffleReturns(random: seq<int>, good: set<int>, limit: nat, rnd: nat -> nat)
    requires Distinct(random)
    ensures var (r, k) := Shuffle(random, good, 0, limit, rnd);
      && k <= |r| && Distinct(r) && (forall x :: x in r <==> x in random)
      && Distinct(Keep(r[..k], good))
      && |Keep(r[..k], good)| <= limit
      && (forall x :: x in Keep(r[..k], good) ==> x in random && x in good)
      && (|Keep(r[..k], good)| < limit ==> forall x :: x in random && x in good ==> x in Keep(r[..k], good))
  {
    ShuffleFacts(random, good, 0, limit, rnd);
    ShuffleStops(random, good, 0, limit, rnd);
    var (r, k) := Shuffle(random, good, 0, limit, rnd);
    PermutedDistinct(random, r);
    KeepMembers(r[..k], good);
    if k == |r| { assert r[..k] == r; }
  }

  /** The returned ids are distinct known good entries, at most 23 per cent of the known ones and 2500, and all
      of the good ones if that limit was not reached; only the random order changes. */
  lemma GetAddrCorrect(e: Env, s: State, rnd: nat -> nat, terrible: Stats -> bool)
    requires Inv(e, s)
    ensures var (t, ids) := GetAddr(s, rnd, terrible);
      && Inv(e, t) && t == s.(random := t.random, pos := t.pos)
      && Distinct(ids)
      && (forall id :: id in ids ==> id in s.svcs && !terrible(s.stats[id]))
      && 100 * |ids| <= 23 * |s.svcs| && |ids| <= 2500
      && (100 * (|ids| + 1) <= 23 * |s.svcs| && |ids| < 2500 ==>
            forall id :: id in s.svcs && !terrible(s.stats[id]) ==> id in ids)
  {
    hide Placed; hide AddrIndex; hide RandomIndex; hide Keep; hide Shuffle; hide PositionsOf; hide IdsBelow;
    IndexDistinct(s);
    ShuffleReturns(s.random, GoodIds(s, terrible), Limit(|s.random|), rnd);
    var (r, k) := Shuffle(s.random, GoodIds(s, terrible), 0, Limit(|s.random|), rnd);
    ReorderKeepsMid(e, s, r);
  }

  lemma IndexDistinct(s: State)
    requires Formed(s) && RandomIndex(s.pos, s.random)
    ensures Distinct(s.random) && |s.random| == |s.svcs|
    ensures forall x :: x in s.svcs <==> x in s.random
  {
    assert |s.pos.Keys| == |s.svcs.Keys|;
    forall x | x in s.svcs ensures x in s.random { assert s.random[s.pos[x]] == x; }
  }

  lemma ReorderKeepsMid(e: Env, s: State, r: seq<int>)
    requires Mid(e, s, {}, 0) && Distinct(r)
    requires forall x :: x in s.random <==> x in r
    ensures Mid(e, s.(random := r, pos := PositionsOf(r)), {}, 0)
  {
    hide AddrIndex; hide RandomIndex; hide NewPlaced; hide TriedPlaced; hide Counted; hide RefsBounded; hide IdsBelow;
    hide PositionsOf;
    IndexDistinct(s);
    PositionsOfIndex(r);
    forall x ensures x in PositionsOf(r).Keys <==> x in s.svcs.Keys {
      assert x in s.svcs <==> x in s.random;
      assert x in PositionsOf(r) <==> x in r;
    }
    assert PositionsOf(r).Keys == s.svcs.Keys;
  }

  // ----- collisions -----

  /** The clock: what it says when it is read for the k-th purpose while an entry is looked at. */
  type Clock = (int, nat) -> int

  /** Good_ at a given time, and no longer pending. */
  function Replace(e: Env, s: State, id: int, time: int): State
    requires Mid(e, s, {}, 0) && id in s.svcs
  {
    var good := Good(e, s, s.svcs[id], false, time);
    good.(collisions := good.collisions - {id})
  }

  /** One pending collision of `ResolveCollisions_`. */
  function ResolveOne(e: Env, s: State, id: int, clock: Clock): State
    requires Mid(e, s, {}, 0)
  {
    hide Mid; hide Replace; hide Shaped; hide TriedSlot;
    if id !in s.svcs || !e.valid(s.svcs[id].net) then s.(collisions := s.collisions - {id})
    else
      TriedOccupant(e, s, s.svcs[id]);
      var slot := TriedSlot(e, s, s.svcs[id]);
      if slot == -1 then Replace(e, s, id, clock(id, 6))
      else
        if clock(id, 0) - s.stats[slot].lastSuccess < REPLACEMENT_SECONDS then s.(collisions := s.collisions - {id})
        else if clock(id, 1) - s.stats[slot].lastTry < REPLACEMENT_SECONDS then
          if clock(id, 2) - s.stats[slot].lastTry > 60 then Replace(e, s, id, clock(id, 3)) else s
        else if clock(id, 4) - s.stats[id].lastSuccess > TEST_WINDOW then Replace(e, s, id, clock(id, 5))
        else s
  }

  lemma ReplaceKeepsInv(e: Env, s: State, id: int, time: int)
    requires Inv(e, s) && id in s.svcs
    ensures Inv(e, Replace(e, s, id, time)) && Onward(s, Replace(e, s, id, time))
    ensures Replace(e, s, id, time).collisions == s.collisions - {id}
  {
    hide Indexed; hide Placed; hide Good;
    var good := Good(e, s, s.svcs[id], false, time);
    GoodKeepsInv(e, s, s.svcs[id], false, time);
    GoodKeepsMid(e, s, s.svcs[id], false, time);
    StatsKeepMid(e, good, good.(collisions := good.collisions - {id}));
  }

  /** What becomes of one pending collision: it stays, is dropped, or is replaced at some reading of the clock. */
  lemma ResolveOneCases(e: Env, s: State, id: int, clock: Clock) returns (k: nat)
    requires Inv(e, s)
    ensures var t := ResolveOne(e, s, id, clock);
      t == s || t == s.(collisions := s.collisions - {id}) || (id in s.svcs && t == Replace(e, s, id, clock(id, k)))
  {
    hide Mid; hide Replace; hide CollisionsHeld; hide Shaped; hide TriedSlot;
    k := 6;
    if id in s.svcs {
      TriedOccupant(e, s, s.svcs[id]);
      var slot := TriedSlot(e, s, s.svcs[id]);
      if slot != -1 { k := if clock(id, 1) - s.stats[slot].lastTry < REPLACEMENT_SECONDS then 3 else 5; }
    }
  }

  lemma ResolveOneKeepsInv(e: Env, s: State, id: int, clock: Clock)
    requires Inv(e, s)
    ensures var t := ResolveOne(e, s, id, clock);
      Inv(e, t) && Onward(s, t) && (t.collisions == s.collisions || t.collisions == s.collisions - {id})
  {
    hide Indexed; hide Placed; hide Replace; hide ResolveOne;
    var k := ResolveOneCases(e, s, id, clock);
    StatsKeepMid(e, s, s.(collisions := s.collisions - {id}));
    if id in s.svcs { ReplaceKeepsInv(e, s, id, clock(id, k)); }
  }

  /** Inside the invariant a pending collision that still exists is still a collision. */
  lemma CollisionStillThere(e: Env, s: State, id: int)
    requires Inv(e, s) && id in s.collisions && id in s.svcs
    ensures Formed(s) && TriedSlot(e, s, s.svcs[id]) != -1 && TriedSlot(e, s, s.svcs[id]) in s.tried
  {
    hide Mid;
    TriedOccupant(e, s, s.svcs[id]);
  }

  /** `ResolveCollisions_` from id k on: the set of pending ids is visited in increasing order. */
  function ResolveFrom(e: Env, s: State, k: nat, clock: Clock): State
    requires Inv(e, s)
    decreases s.idCount - k
  {
    if k >= s.idCount then s
    else if k in s.collisions then
      ResolveOneKeepsInv(e, s, k, clock);
      ResolveFrom(e, ResolveOne(e, s, k, clock), k + 1, clock)
    else ResolveFrom(e, s, k + 1, clock)
  }

  lemma {:induction false} ResolveKeepsInv(e: Env, s: State, k: nat, clock: Clock)
    requires Inv(e, s)
    ensures Inv(e, ResolveFrom(e, s, k, clock))
    ensures Onward(s, ResolveFrom(e, s, k, clock))
    decreases s.idCount - k
  {
    hide Indexed; hide Placed; hide ResolveOne; hide CollisionsHeld;
    if k >= s.idCount {
    } else if k in s.collisions {
      ResolveOneKeepsInv(e, s, k, clock);
      ResolveKeepsInv(e, ResolveOne(e, s, k, clock), k + 1, clock);
    } else {
      ResolveKeepsInv(e, s, k + 1, clock);
    }
  }

  /** `SelectTriedCollision_` on the pending id drawn: the tried entry it wants to evict. */
  function SelectCollision(e: Env, s: State, pick: int): (State, Option<int>)
    requires Formed(s)
  {
    if s.collisions == {} then (s, None)
    else if pick !in s.svcs then (s.(collisions := s.collisions - {pick}), None)
    else (s, Some(TriedSlot(e, s, s.svcs[pick])))
  }

  /** The entry offered for a test is always a tried entry, never the empty-slot marker. */
  lemma SelectCollisionCorrect(e: Env, s: State, pick: int)
    requires Inv(e, s) && (s.collisions != {} ==> pick in s.collisions)
    ensures var (t, r) := SelectCollision(e, s, pick);
      && Inv(e, t) && t == s.(collisions := if pick in s.svcs then s.collisions else s.collisions - {pick})
      && (r.Some? <==> s.collisions != {} && pick in s.svcs)
      && (r.Some? ==>
            && r.value in s.tried && r.value != -1
            && s.triedTab[e.TriedBucket(s.svcs[pick])][e.TriedPos(s.svcs[pick])] == r.value)
  {
    hide Indexed; hide Placed;
    StatsKeepMid(e, s, s.(collisions := s.collisions - {pick}));
    if s.collisions == {} { assert s.collisions - {pick} == s.collisions; }
    if s.collisions != {} && pick in s.svcs { CollisionStillThere(e, s, pick); }
  }

  // ----- times -----

  lemma GoodKeepsTimed(e: Env, s: State, svc: Service, testBeforeEvict: bool, time: int)
    requires Inv(e, s) && Timed(s.stats, s.tried) && 0 < time
    ensures var t := Good(e, s, svc, testBeforeEvict, time); Timed(t.stats, t.tried)
  {
    hide Mid; hide MakeTried; hide Shaped; hide TriedSlot;
    MidForms(e, s, {}, 0);
    match Find(s, svc.net)
    case None =>
    case Some(id) =>
      var s1 := Worked(s, id, time);
      assert Timed(s1.stats, s1.tried + {id});
      if s.svcs[id] == svc && id !in s.tried && !(testBeforeEvict && TriedSlot(e, s, svc) != -1) {
        WorkedKeepsMid(e, s, id, time);
        MakeTriedKeepsTimed(e, s1, id);
      }
  }

  lemma MakeTriedKeepsTimed(e: Env, s: State, id: int)
    requires Mid(e, s, {}, 0) && id in s.svcs && id !in s.tried && Timed(s.stats, s.tried + {id})
    ensures Timed(MakeTried(e, s, id).stats, MakeTried(e, s, id).tried)
  {
    hide Mid; hide MakeTried;
    MidForms(e, s, {}, 0);
    MakeTriedEffect(e, s, id);
  }

  lemma AddKeepsTimed(e: Env, s: State, a: Address, source: NetAddr, penalty: int, now: int, coin: nat,
                      terrible: Stats -> bool)
    requires Inv(e, s) && Timed(s.stats, s.tried)
    ensures var t := Add(e, s, a, source, penalty, now, coin, terrible).0; Timed(t.stats, t.tried)
  {
    hide Add; hide Mid;
    AddEffect(e, s, a, source, penalty, now, coin, terrible);
    FreshUntried(e, s);
  }

  lemma FreshUntried(e: Env, s: State)
    requires Mid(e, s, {}, 0)
    ensures s.idCount !in s.tried
  {
    hide Placed; hide RandomIndex;
  }

  lemma ResolveOneKeepsTimed(e: Env, s: State, id: int, clock: Clock)
    requires Inv(e, s) && Timed(s.stats, s.tried) && forall k :: 0 < clock(id, k)
    ensures var t := ResolveOne(e, s, id, clock); Timed(t.stats, t.tried)
  {
    hide Mid; hide CollisionsHeld; hide Good; hide Timed; hide ResolveOne;
    var k := ResolveOneCases(e, s, id, clock);
    if id in s.svcs { GoodKeepsTimed(e, s, s.svcs[id], false, clock(id, k)); }
  }

  lemma {:induction false} ResolveKeepsTimed(e: Env, s: State, k: nat, clock: Clock)
    requires Inv(e, s) && Timed(s.stats, s.tried) && forall id, k :: 0 < clock(id, k)
    ensures var t := ResolveFrom(e, s, k, clock); Timed(t.stats, t.tried)
    decreases s.idCount - k
  {
    hide Mid; hide CollisionsHeld; hide Timed; hide ResolveOne;
    if k >= s.idCount {
    } else if k in s.collisions {
      ResolveOneKeepsInv(e, s, k, clock);
      ResolveOneKeepsTimed(e, s, k, clock);
      ResolveKeepsTimed(e, ResolveOne(e, s, k, clock), k + 1, clock);
    } else {
      ResolveKeepsTimed(e, s, k + 1, clock);
    }
  }

  // ----- runs -----

  datatype Op =
    | OpAdd(a: Address, source: NetAddr, penalty: int, now: int, coin: nat, terrible: Stats -> bool)
    | OpGood(svc: Service, testBeforeEvict: bool, time: int)
    | OpAttempt(svc: Service, countFailure: bool, time: int)
    | OpConnected(svc: Service, time: int)
    | OpSetServices(svc: Service, services: set<nat>)
    | OpGetAddr(rnd: nat -> nat, terrible: Stats -> bool)
    | OpResolve(clock: Clock)
    | OpSelect(pick: int)

  function Step(e: Env, s: State, op: Op): State
    requires Inv(e, s)
  {
    match op
    case OpAdd(a, source, penalty, now, coin, terrible) => Add(e, s, a, source, penalty, now, coin, terrible).0
    case OpGood(svc, test, time) => Good(e, s, svc, test, time)
    case OpAttempt(svc, count, time) => Attempt(s, svc, count, time)
    case OpConnected(svc, time) => Connected(s, svc, time)
    case OpSetServices(svc, services) => SetServices(s, svc, services)
    case OpGetAddr(rnd, terrible) => GetAddr(s, rnd, terrible).0
    case OpResolve(clock) => ResolveFrom(e, s, 0, clock)
    case OpSelect(pick) => SelectCollision(e, s, pick).0
  }

  /** The times an operation records are positive (or, for an attempt, not negative). */
  ghost predicate Positive(op: Op) {
    match op
    case OpGood(_, _, time) => 0 < time
    case OpAttempt(_, _, time) => 0 <= time
    case OpResolve(clock) => forall id, k :: 0 < clock(id, k)
    case _ => true
  }

  /** Tried slots once filled are filled. */
  ghost predicate StaysFilled(s: State, t: State)
    requires Formed(s) && Formed(t)
  {
    forall b, p :: 0 <= b < TRIED_BUCKET_COUNT && 0 <= p < BUCKET_SIZE && s.triedTab[b][p] != -1 ==>
      t.triedTab[b][p] != -1
  }

  lemma StepKeepsInv(e: Env, s: State, op: Op)
    requires Inv(e, s)
    ensures Inv(e, Step(e, s, op)) && StaysFilled(s, Step(e, s, op))
  {
    hide Indexed; hide Placed; hide CollisionsHeld; hide Good; hide Add; hide Touch; hide GetAddr; hide ResolveFrom;
    hide SelectCollision;
    match op
    case OpAdd(a, source, penalty, now, coin, terrible) => AddKeepsInv(e, s, a, source, penalty, now, coin, terrible);
    case OpGood(svc, test, time) => GoodKeepsInv(e, s, svc, test, time); GoodKeepsMid(e, s, svc, test, time);
    case OpAttempt(svc, count, time) =>
      TouchKeepsInv(e, s, svc, (st: Stats) =>
        if count && st.lastCountAttempt < s.lastGood
        then st.(lastTry := time, lastCountAttempt := time, attempts := st.attempts + 1)
        else st.(lastTry := time));
    case OpConnected(svc, time) =>
      TouchKeepsInv(e, s, svc, (st: Stats) => if time - st.time > 20 * 60 then st.(time := U32(time)) else st);
    case OpSetServices(svc, services) => TouchKeepsInv(e, s, svc, (st: Stats) => st.(services := services));
    case OpGetAddr(rnd, terrible) => GetAddrCorrect(e, s, rnd, terrible);
    case OpResolve(clock) => ResolveKeepsInv(e, s, 0, clock);
    case OpSelect(pick) => SelectKeepsInv(e, s, pick);
  }

  lemma SelectKeepsInv(e: Env, s: State, pick: int)
    requires Inv(e, s)
    ensures Inv(e, SelectCollision(e, s, pick).0) && SelectCollision(e, s, pick).0.triedTab == s.triedTab
  {
    hide Indexed; hide Placed;
    StatsKeepMid(e, s, s.(collisions := s.collisions - {pick}));
  }

  lemma StepKeepsTimed(e: Env, s: State, op: Op)
    requires Inv(e, s) && Timed(s.stats, s.tried) && Positive(op)
    ensures Timed(Step(e, s, op).stats, Step(e, s, op).tried)
  {
    hide Indexed; hide Placed; hide CollisionsHeld; hide Good; hide Add; hide ResolveFrom;
    match op
    case OpAdd(a, source, penalty, now, coin, terrible) => AddKeepsTimed(e, s, a, source, penalty, now, coin, terrible);
    case OpGood(svc, test, time) => GoodKeepsTimed(e, s, svc, test, time);
    case OpResolve(clock) => ResolveKeepsTimed(e, s, 0, clock);
    case _ =>
  }

  /** The state after a run of operations. */
  function Run(e: Env, s: State, ops: seq<Op>): State
    requires Inv(e, s)
    decreases |ops|
  {
    if ops == [] then s
    else
      StepKeepsInv(e, s, ops[0]);
      Run(e, Step(e, s, ops[0]), ops[1..])
  }

  /** Every run keeps the invariant and every filled tried slot; with positive times it keeps the time clauses too. */
  lemma {:induction false} RunKeepsInv(e: Env, s: State, ops: seq<Op>)
    requires Inv(e, s)
    ensures Inv(e, Run(e, s, ops))
    ensures StaysFilled(s, Run(e, s, ops))
    ensures Timed(s.stats, s.tried) && (forall i :: 0 <= i < |ops| ==> Positive(ops[i])) ==>
            Timed(Run(e, s, ops).stats, Run(e, s, ops).tried)
    decreases |ops|
  {
    hide Indexed; hide Placed; hide CollisionsHeld; hide Step; hide Timed; hide Positive;
    if ops != [] {
      StepKeepsInv(e, s, ops[0]);
      if Timed(s.stats, s.tried) && Positive(ops[0]) { StepKeepsTimed(e, s, ops[0]); }
      RunKeepsInv(e, Step(e, s, ops[0]), ops[1..]);
    }
  }

  lemma ClearedInv(e: Env)
    ensures Inv(e, Cleared()) && Timed(Cleared().stats, Cleared().tried)
  {
  }

  /** The address manager's own consistency check, clause by clause. */
  ghost predicate Checked(e: Env, s: State)
    requires Formed(s)
  {
    && |s.random| == s.nTried + s.nNew && -1 !in s.svcs && e.key != 0
    && Timed(s.stats, s.tried)
    && RefsBounded(s.refs, s.tried, {})
    && (forall id :: id in s.svcs ==> (if s.svcs[id].net in s.addr then s.addr[s.svcs[id].net] else 0) == id)
    && (forall id :: id in s.pos ==> 0 <= s.pos[id] < |s.random| && s.random[s.pos[id]] == id)
    && |s.tried| == s.nTried
    && |s.svcs.Keys - s.tried| == s.nNew
    && TriedPlaced(e, s.triedTab, s.svcs, s.tried)
    && NewPlaced(e, s.newTab, s.svcs, s.tried)
    && Counted(e, s.newTab, s.svcs, s.refs)
  }

  /** Every run from construction, with a key and positive times, passes the consistency check. */
  lemma EveryRunChecks(e: Env, ops: seq<Op>)
    requires e.key != 0 && forall i :: 0 <= i < |ops| ==> Positive(ops[i])
    ensures Inv(e, Cleared())
    ensures Inv(e, Run(e, Cleared(), ops)) && Checked(e, Run(e, Cleared(), ops))
  {
    hide NewPlaced; hide TriedPlaced; hide Counted; hide Timed; hide RefsBounded; hide Positive; hide Run; hide Cleared;
    ClearedInv(e);
    RunKeepsInv(e, Cleared(), ops);
    InvChecks(e, Run(e, Cleared(), ops));
  }

  lemma InvChecks(e: Env, s: State)
    requires Inv(e, s) && Timed(s.stats, s.tried) && e.key != 0
    ensures Checked(e, s)
  {
    hide NewPlaced; hide TriedPlaced; hide Counted; hide Timed; hide RefsBounded;
    assert |s.svcs.Keys - s.tried| == |s.svcs.Keys| - |s.tried|;
    assert |s.pos.Keys| == |s.svcs.Keys|;
  }
}
