/** The address manager's operations as functions of its state. */
module AddrManOps {
  import opened AddrManState
  import opened AddrManProofs
  import opened Powers
  import opened Basics

  /** Conversion to the 32-bit unsigned time of a `CAddress`. */
  function U32(x: int): int { x % 0x1_0000_0000 }

  // ----- Good -----

  function HomeBucket(e: Env, s: State, id: int): nat
    requires id in s.svcs && id in s.stats
  {
    e.NewBucket(s.svcs[id], s.stats[id].source)
  }

  function HomePos(e: Env, s: State, id: int): nat
    requires id in s.svcs && id in s.stats
  {
    e.NewPos(s.svcs[id], HomeBucket(e, s, id))
  }

  /** What is in the new slot where an entry belongs. */
  function HomeSlot(e: Env, s: State, id: int): int
    requires Formed(s) && id in s.svcs
  {
    s.newTab[HomeBucket(e, s, id)][HomePos(e, s, id)]
  }

  /** The slot (b, p) can be cleared. */
  ghost predicate Clearable(s: State, b: nat, p: nat) {
    && Formed(s) && RandomIndex(s.pos, s.random) && b < NEW_BUCKET_COUNT && p < BUCKET_SIZE
    && (s.newTab[b][p] != -1 ==> s.newTab[b][p] in s.svcs)
    && Formed(ClearNew(s, b, p))
  }

  /** Puts an entry that has just left the tried table into its new bucket, clearing the slot first. */
  function Readmit(e: Env, s: State, id: int): State
    requires id in s.svcs && id in s.stats && Clearable(s, HomeBucket(e, s, id), HomePos(e, s, id))
  {
    var b, p := HomeBucket(e, s, id), HomePos(e, s, id);
    var t := EnterNew(ClearNew(s, b, p), id, b, p, 1);
    t.(nNew := t.nNew + 1)
  }

  /** Clearing a slot in mid-operation, and what it leaves. */
  lemma ClearNewInMid(e: Env, s: State, b: nat, p: nat, limbo: set<int>, uncounted: nat)
    requires Mid(e, s, limbo, uncounted) && b < NEW_BUCKET_COUNT && p < BUCKET_SIZE
    requires forall x :: x in limbo && x in s.svcs ==> s.refs[x] == 0
    ensures Formed(s) && Clearable(s, b, p) && Mid(e, ClearNew(s, b, p), limbo, uncounted)
    ensures ClearedOnly(s, ClearNew(s, b, p), b, p)
    ensures s.newTab[b][p] != -1 ==> s.newTab[b][p] in s.svcs && s.newTab[b][p] !in limbo && s.newTab[b][p] !in s.tried
    ensures -1 !in s.svcs
  {
    hide AddrIndex; hide RandomIndex; hide NewPlaced; hide TriedPlaced; hide Counted; hide RefsBounded; hide ClearNew;
    hide ClearedOnly; hide Shaped;
    ClearNewKeepsMid(e, s, b, p, limbo, uncounted);
    DropNotTried(e, s, b, p);
    ClearNewEffect(s, b, p);
  }

  /** An entry that is not the occupant keeps its place and count when a slot is cleared. */
  lemma ClearedKeeps(s: State, t: State, b: nat, p: nat, id: int)
    requires Formed(s) && Formed(t) && b < NEW_BUCKET_COUNT && p < BUCKET_SIZE && ClearedOnly(s, t, b, p)
    requires id in s.svcs && s.newTab[b][p] != id
    ensures id in t.svcs && t.svcs[id] == s.svcs[id] && t.refs[id] == s.refs[id] && t.stats[id] == s.stats[id]
    ensures t.tried == s.tried && t.newTab[b][p] == -1
  {
  }

  /** Taking a cleared slot. */
  lemma EnterCleared(e: Env, s: State, id: int, b: nat, limbo: set<int>, uncounted: nat)
    requires Mid(e, s, limbo, uncounted) && id in s.svcs && id !in s.tried && b < NEW_BUCKET_COUNT
    requires forall x :: x in limbo && x in s.svcs ==> s.refs[x] == 0
    requires s.refs[id] < NEW_BUCKETS_PER_ADDRESS && s.newTab[b][e.NewPos(s.svcs[id], b)] != id
    ensures var p := e.NewPos(s.svcs[id], b);
      Clearable(s, b, p) && Mid(e, EnterNew(ClearNew(s, b, p), id, b, p, s.refs[id] + 1), limbo - {id}, uncounted)
  {
    hide Mid; hide ClearNew; hide RandomIndex; hide ClearedOnly; hide EnterNew; hide Shaped;
    var p := e.NewPos(s.svcs[id], b);
    ClearNewInMid(e, s, b, p, limbo, uncounted);
    var t := ClearNew(s, b, p);
    MidForms(e, t, limbo, uncounted);
    ClearedKeeps(s, t, b, p, id);
    EnterNewKeepsMid(e, t, id, b, limbo, uncounted);
  }

  /** In mid-operation an entry without references can be readmitted. */
  lemma ReadmitKeepsMid(e: Env, s: State, id: int, limbo: set<int>, uncounted: nat)
    requires Mid(e, s, limbo, uncounted + 1)
    requires forall x :: x in limbo && x in s.svcs ==> s.refs[x] == 0
    requires id in s.svcs && id !in s.tried && id in limbo
    ensures Clearable(s, HomeBucket(e, s, id), HomePos(e, s, id))
    ensures Mid(e, Readmit(e, s, id), limbo - {id}, uncounted) && Formed(Readmit(e, s, id))
  {
    hide Mid; hide ClearNew; hide RandomIndex; hide ClearedOnly; hide EnterNew; hide Shaped;
    MidForms(e, s, limbo, uncounted + 1);
    var b, p := HomeBucket(e, s, id), HomePos(e, s, id);
    ClearNewInMid(e, s, b, p, limbo, uncounted + 1);
    EnterCleared(e, s, id, b, limbo, uncounted + 1);
    var t := EnterNew(ClearNew(s, b, p), id, b, p, 1);
    CountOne(e, t, limbo - {id}, uncounted);
    MidForms(e, t.(nNew := t.nNew + 1), limbo - {id}, uncounted);
  }

  lemma CountOne(e: Env, s: State, limbo: set<int>, uncounted: nat)
    requires Mid(e, s, limbo, uncounted + 1)
    ensures Mid(e, s.(nNew := s.nNew + 1), limbo, uncounted)
  {
    hide AddrIndex; hide RandomIndex; hide NewPlaced; hide TriedPlaced; hide Counted; hide RefsBounded; hide Shaped;
  }

  /** An occupied new slot holds a referenced, non-tried entry that is not in limbo. */
  lemma OccupantFacts(e: Env, s: State, b: nat, p: nat, limbo: set<int>, uncounted: nat)
    requires Mid(e, s, limbo, uncounted) && b < NEW_BUCKET_COUNT && p < BUCKET_SIZE
    requires forall x :: x in limbo && x in s.svcs ==> s.refs[x] == 0
    ensures Formed(s) && RandomIndex(s.pos, s.random) && -1 !in s.svcs
    ensures var x := s.newTab[b][p]; x != -1 ==> x in s.svcs && x !in s.tried && 0 < s.refs[x] && x !in limbo
  {
    if s.newTab[b][p] != -1 { DropKeepsMid(e, s, b, p, limbo, uncounted); }
  }

  lemma DropNotTried(e: Env, s: State, b: nat, p: nat)
    requires Formed(s) && NewPlaced(e, s.newTab, s.svcs, s.tried) && b < NEW_BUCKET_COUNT && p < BUCKET_SIZE
    ensures s.newTab[b][p] != -1 ==> s.newTab[b][p] in s.svcs && s.newTab[b][p] !in s.tried
  {
  }

  /** No entry is new and no tried slot loses its occupant. */
  ghost predicate Onward(s: State, t: State)
    requires Formed(s) && Formed(t)
  {
    && t.idCount == s.idCount
    && (forall x :: x in t.svcs ==> x in s.svcs && t.svcs[x] == s.svcs[x])
    && (forall b, p :: 0 <= b < TRIED_BUCKET_COUNT && 0 <= p < BUCKET_SIZE && s.triedTab[b][p] != -1 ==>
      t.triedTab[b][p] != -1)
  }

  /** What is in the tried slot where a service belongs. */
  function TriedSlot(e: Env, s: State, svc: Service): int
    requires Formed(s)
  {
    s.triedTab[e.TriedBucket(svc)][e.TriedPos(svc)]
  }

  /** The state after `id` has left the new table and its tried slot has been vacated. */
  function Vacated(e: Env, s: State, id: int): State
    requires Formed(s) && id in s.svcs
  {
    var t := LeaveNew(e, s, id);
    var b, p := e.TriedBucket(s.svcs[id]), e.TriedPos(s.svcs[id]);
    if t.triedTab[b][p] != -1 then LeaveTried(t, b, p) else t
  }

  /** What vacating leaves alone, and the slot it empties. */
  ghost predicate VacatedOnly(e: Env, s: State, t: State, id: int)
    requires Formed(s) && id in s.svcs
  {
    && t.svcs == s.svcs && t.stats == s.stats && t.idCount == s.idCount && t.collisions == s.collisions
    && t.triedTab == Put(s.triedTab, e.TriedBucket(s.svcs[id]), e.TriedPos(s.svcs[id]), -1)
    && id in t.refs && t.refs[id] == 0
  }

  lemma LeaveTriedOnly(e: Env, s: State, id: int)
    requires Formed(s) && id in s.svcs && |Buckets(e, s.newTab, s.svcs[id], id)| == s.refs[id]
    ensures VacatedOnly(e, s, Vacated(e, s, id), id)
    ensures var evicted := TriedSlot(e, s, s.svcs[id]);
      Vacated(e, s, id).tried == s.tried - if evicted == -1 then {} else {evicted}
    ensures forall x :: x in s.refs && x != id ==> x in Vacated(e, s, id).refs && Vacated(e, s, id).refs[x] == s.refs[x]
  {
    hide Buckets; hide Emptied;
    var b, p := e.TriedBucket(s.svcs[id]), e.TriedPos(s.svcs[id]);
    if s.triedTab[b][p] == -1 {
      assert s.triedTab[b][p := -1] == s.triedTab[b];
      assert Put(s.triedTab, b, p, -1) == s.triedTab;
      assert s.tried - {} == s.tried;
    }
  }

  lemma RefsAreBuckets(e: Env, s: State, id: int)
    requires Mid(e, s, {}, 0) && id in s.svcs
    ensures Formed(s) && s.refs[id] == |Buckets(e, s.newTab, s.svcs[id], id)|
  {
    hide Indexed; hide NewPlaced; hide TriedPlaced; hide RefsBounded; hide Buckets;
  }

  /** A tried slot's occupant is a tried entry without references. */
  lemma TriedOccupant(e: Env, s: State, svc: Service)
    requires Mid(e, s, {}, 0)
    ensures Formed(s) && -1 !in s.svcs
    ensures var x := TriedSlot(e, s, svc); x != -1 ==> x in s.tried && x in s.svcs && x in s.refs && s.refs[x] == 0
  {
    hide AddrIndex; hide RandomIndex; hide NewPlaced; hide Counted;
  }

  lemma VacateKeepsMid(e: Env, s: State, id: int)
    requires Mid(e, s, {}, 0) && id in s.svcs && id !in s.tried
    ensures Formed(s) && VacatedOnly(e, s, Vacated(e, s, id), id)
    ensures var evicted, t := TriedSlot(e, s, s.svcs[id]), Vacated(e, s, id);
      if evicted == -1 then t.tried == s.tried && Mid(e, t, {id}, 1)
      else
        && evicted in s.tried && t.tried == s.tried - {evicted} && evicted in t.refs && t.refs[evicted] == 0
        && Mid(e, t, {id, evicted}, 2)
  {
    hide Mid; hide VacatedOnly; hide Buckets; hide Emptied; hide Shaped;
    TriedOccupant(e, s, s.svcs[id]);
    RefsAreBuckets(e, s, id);
    LeaveTriedOnly(e, s, id);
    LeaveNewKeepsMid(e, s, id);
    var b, p := e.TriedBucket(s.svcs[id]), e.TriedPos(s.svcs[id]);
    var t := LeaveNew(e, s, id);
    var evicted := TriedSlot(e, s, s.svcs[id]);
    MidForms(e, t, {id}, 1);
    if evicted != -1 {
      LeaveTriedKeepsMid(e, t, b, p, {id}, 1);
      assert {id} + {evicted} == {id, evicted};
    } else {
      assert s.tried - {} == s.tried;
    }
  }

  /** Everything a move to the tried table needs. */
  lemma MakeTriedReady(e: Env, s: State, id: int)
    requires Mid(e, s, {}, 0) && id in s.svcs && id !in s.tried
    ensures Formed(s) && Formed(Vacated(e, s, id))
    ensures var evicted, t := TriedSlot(e, s, s.svcs[id]), Vacated(e, s, id);
      evicted != -1 ==>
        && evicted in t.svcs && evicted in t.stats && Clearable(t, HomeBucket(e, t, evicted), HomePos(e, t, evicted))
        && Formed(Readmit(e, t, evicted))
  {
    hide Placed; hide Indexed; hide Vacated; hide Readmit; hide Clearable; hide HomeBucket; hide HomePos; hide Shaped;
    VacateKeepsMid(e, s, id);
    var evicted := TriedSlot(e, s, s.svcs[id]);
    if evicted != -1 { ReadmitKeepsMid(e, Vacated(e, s, id), evicted, {id, evicted}, 1); }
  }

  function MakeTried(e: Env, s: State, id: int): State
    requires Mid(e, s, {}, 0) && id in s.svcs && id !in s.tried
  {
    hide Mid; hide Formed; hide Vacated; hide Readmit; hide Clearable; hide HomeBucket; hide HomePos; hide TriedSlot;
    MakeTriedReady(e, s, id);
    var t := Vacated(e, s, id);
    var b, p := e.TriedBucket(s.svcs[id]), e.TriedPos(s.svcs[id]);
    var evicted := TriedSlot(e, s, s.svcs[id]);
    EnterTried(if evicted == -1 then t else Readmit(e, t, evicted), id, b, p)
  }

  /** Readmission costs at most one entry: a one-reference entry in the home slot. */
  ghost predicate ReadmittedOnly(e: Env, s: State, t: State, id: int, limbo: set<int>)
    requires Formed(s) && id in s.svcs
  {
    && t.tried == s.tried && t.triedTab == s.triedTab && t.idCount == s.idCount && t.collisions == s.collisions
    && (forall x :: x in t.svcs ==> x in s.svcs && t.svcs[x] == s.svcs[x])
    && (forall x :: x in s.svcs && x != HomeSlot(e, s, id) ==> x in t.svcs)
    && (forall x :: x in limbo && x in s.svcs ==> x in t.svcs && x in t.refs && t.refs[x] == if x == id then 1 else 0)
    && (forall x :: x in t.stats ==> x in s.stats && t.stats[x] == s.stats[x])
  }

  lemma ReadmitEffect(e: Env, s: State, id: int, limbo: set<int>, uncounted: nat)
    requires Mid(e, s, limbo, uncounted + 1)
    requires forall x :: x in limbo && x in s.svcs ==> s.refs[x] == 0
    requires id in s.svcs && id !in s.tried && id in limbo
    requires Clearable(s, HomeBucket(e, s, id), HomePos(e, s, id))
    ensures ReadmittedOnly(e, s, Readmit(e, s, id), id, limbo)
  {
    hide Mid; hide ClearNew; hide RandomIndex; hide Shaped;
    var b, p := HomeBucket(e, s, id), HomePos(e, s, id);
    ClearNewInMid(e, s, b, p, limbo, uncounted + 1);
    var t := ClearNew(s, b, p);
    forall x | x in limbo && x in s.svcs ensures x in t.svcs && x in t.refs && t.refs[x] == 0 {
      ClearedKeeps(s, t, b, p, x);
    }
  }

  /** MakeTried keeps the invariant and leaves the entry in its tried slot. */
  lemma MakeTriedKeepsMid(e: Env, s: State, id: int)
    requires Mid(e, s, {}, 0) && id in s.svcs && id !in s.tried
    ensures var t := MakeTried(e, s, id); Mid(e, t, {}, 0)
  {
    hide Mid; hide ClearNew; hide Vacated; hide Readmit; hide EnterTried; hide Clearable; hide HomeBucket; hide HomePos;
    hide Shaped; hide HomeSlot;
    VacateKeepsMid(e, s, id);
    MakeTriedReady(e, s, id);
    var t := Vacated(e, s, id);
    var evicted := TriedSlot(e, s, s.svcs[id]);
    VacatedSlot(e, s, t, id);
    if evicted == -1 {
      EnterTriedKeepsMid(e, t, id, {id}, 0);
      assert {id} - {id} == {};
    } else {
      ReadmitKeepsMid(e, t, evicted, {id, evicted}, 1);
      ReadmitEffect(e, t, evicted, {id, evicted}, 1);
      assert {id, evicted} - {evicted} == {id};
      SameTriedSlot(e, t, Readmit(e, t, evicted), s.svcs[id]);
      EnterTriedKeepsMid(e, Readmit(e, t, evicted), id, {id}, 0);
      assert {id} - {id} == {};
    }
  }

  lemma VacatedSlot(e: Env, s: State, t: State, id: int)
    requires Formed(s) && Formed(t) && id in s.svcs && VacatedOnly(e, s, t, id)
    ensures TriedSlot(e, t, s.svcs[id]) == -1
  {
  }

  lemma SameTriedSlot(e: Env, s: State, t: State, svc: Service)
    requires Formed(s) && Formed(t) && t.triedTab == s.triedTab
    ensures TriedSlot(e, t, svc) == TriedSlot(e, s, svc)
  {
  }

  /** What MakeTried does to the tried table, and to which entries. */
  ghost predicate MovedToTried(e: Env, s: State, t: State, id: int)
    requires Formed(s) && id in s.svcs
  {
    var evicted := TriedSlot(e, s, s.svcs[id]);
    && t.triedTab == Put(s.triedTab, e.TriedBucket(s.svcs[id]), e.TriedPos(s.svcs[id]), id)
    && t.tried == s.tried - {evicted} + {id}
    && t.idCount == s.idCount && t.collisions == s.collisions
    && (forall x :: x in t.svcs ==> x in s.svcs && t.svcs[x] == s.svcs[x])
    && (forall x :: x in t.stats ==> x in s.stats && t.stats[x] == s.stats[x])
    && id in t.svcs
    && (evicted != -1 ==> evicted in t.svcs && evicted in t.refs && t.refs[evicted] == 1)
  }

  lemma MakeTriedEffect(e: Env, s: State, id: int)
    requires Mid(e, s, {}, 0) && id in s.svcs && id !in s.tried
    ensures Formed(s) && MovedToTried(e, s, MakeTried(e, s, id), id)
  {
    hide Mid; hide ClearNew; hide Vacated; hide Readmit; hide Clearable; hide HomeBucket; hide HomePos; hide HomeSlot;
    VacateKeepsMid(e, s, id);
    MakeTriedReady(e, s, id);
    TriedOccupant(e, s, s.svcs[id]);
    var t := Vacated(e, s, id);
    var b, p := e.TriedBucket(s.svcs[id]), e.TriedPos(s.svcs[id]);
    var evicted := TriedSlot(e, s, s.svcs[id]);
    assert Put(Put(s.triedTab, b, p, -1), b, p, id) == Put(s.triedTab, b, p, id) by {
      assert s.triedTab[b][p := -1][p := id] == s.triedTab[b][p := id];
    }
    if evicted != -1 {
      ReadmitKeepsMid(e, t, evicted, {id, evicted}, 1);
      ReadmitEffect(e, t, evicted, {id, evicted}, 1);
    }
  }

  /** The entry worked at this time. */
  function Worked(s: State, id: int, time: int): State
    requires id in s.stats
  {
    s.(lastGood := time, stats := s.stats[id := s.stats[id].(lastSuccess := time, lastTry := time, attempts := 0)])
  }

  /** `Good_`: the entry worked; it moves to the tried table unless that needs a test of the occupant first. */
  function Good(e: Env, s: State, svc: Service, testBeforeEvict: bool, time: int): State
    requires Mid(e, s, {}, 0)
  {
    hide Mid; hide MakeTried; hide Shaped; hide TriedSlot; hide Worked;
    MidForms(e, s, {}, 0);
    match Find(s, svc.net)
    case None => s.(lastGood := time)
    case Some(id) =>
      if s.svcs[id] != svc then s.(lastGood := time) else
      var s1 := Worked(s, id, time);
      if id in s.tried then s1 else
      if testBeforeEvict && TriedSlot(e, s, svc) != -1 then
        if |s.collisions| < SET_TRIED_COLLISION_SIZE then s1.(collisions := s.collisions + {id}) else s1
      else
        WorkedKeepsMid(e, s, id, time);
        MakeTried(e, s1, id)
  }

  lemma WorkedKeepsMid(e: Env, s: State, id: int, time: int)
    requires Mid(e, s, {}, 0) && id in s.svcs && id in s.stats
    ensures Mid(e, Worked(s, id, time), {}, 0)
    ensures var t := Worked(s, id, time); t.svcs == s.svcs && t.tried == s.tried && t.triedTab == s.triedTab
  {
    hide Mid;
    assert Worked(s, id, time).stats.Keys == s.stats.Keys;
    StatsKeepMid(e, s, Worked(s, id, time));
  }

  /** The states agree on everything the placement invariant speaks of. */
  ghost predicate SamePlacement(s: State, t: State) {
    t == s.(stats := t.stats, lastGood := t.lastGood, collisions := t.collisions) && t.stats.Keys == s.stats.Keys
  }

  lemma StatsKeepMid(e: Env, s: State, t: State)
    requires Mid(e, s, {}, 0) && SamePlacement(s, t)
    ensures Mid(e, t, {}, 0)
  {
    hide AddrIndex; hide RandomIndex; hide NewPlaced; hide TriedPlaced; hide Counted; hide RefsBounded;
  }

  lemma OnwardKeepsCollisions(e: Env, s: State, t: State)
    requires Formed(s) && Formed(t) && Onward(s, t) && t.collisions <= s.collisions
    requires CollisionsHeld(e, s.triedTab, s.svcs, s.idCount, s.collisions)
    ensures CollisionsHeld(e, t.triedTab, t.svcs, t.idCount, t.collisions)
  {
  }

  lemma MakeTriedOnward(e: Env, s: State, id: int)
    requires Mid(e, s, {}, 0) && id in s.svcs && id !in s.tried
    ensures Formed(MakeTried(e, s, id)) && Onward(s, MakeTried(e, s, id))
  {
    hide Mid; hide MakeTried;
    TriedOccupant(e, s, s.svcs[id]);
    MakeTriedEffect(e, s, id);
    MakeTriedKeepsMid(e, s, id);
    MidForms(e, MakeTried(e, s, id), {}, 0);
  }

  /** The entry joins the pending collisions because its tried slot is taken. */
  ghost predicate Collided(e: Env, s: State, t: State, id: int)
    requires Formed(s) && id in s.svcs
  {
    && t.collisions == s.collisions + {id}
    && s.triedTab[e.TriedBucket(s.svcs[id])][e.TriedPos(s.svcs[id])] != -1
    && t.triedTab == s.triedTab && t.svcs == s.svcs && t.idCount == s.idCount
  }

  lemma GoodKeepsMid(e: Env, s: State, svc: Service, testBeforeEvict: bool, time: int)
    requires Mid(e, s, {}, 0)
    ensures Formed(s) && Mid(e, Good(e, s, svc, testBeforeEvict, time), {}, 0)
    ensures Formed(Good(e, s, svc, testBeforeEvict, time)) && Onward(s, Good(e, s, svc, testBeforeEvict, time))
    ensures testBeforeEvict || Good(e, s, svc, testBeforeEvict, time).collisions == s.collisions
    ensures var t := Good(e, s, svc, testBeforeEvict, time);
      t.collisions == s.collisions || exists id :: id in s.svcs && s.svcs[id] == svc && Collided(e, s, t, id)
  {
    hide Mid; hide MakeTried; hide Shaped;
    MidForms(e, s, {}, 0);
    var t := Good(e, s, svc, testBeforeEvict, time);
    match Find(s, svc.net)
    case None => StatsKeepMid(e, s, t);
    case Some(id) =>
      if s.svcs[id] != svc || id in s.tried || (testBeforeEvict && TriedSlot(e, s, svc) != -1) {
        assert t.stats.Keys == s.stats.Keys;
        StatsKeepMid(e, s, t);
        assert t.collisions == s.collisions || Collided(e, s, t, id);
      } else {
        var s1 := Worked(s, id, time);
        WorkedKeepsMid(e, s, id, time);
        MakeTriedKeepsMid(e, s1, id);
        MakeTriedOnward(e, s1, id);
        assert t.collisions == s.collisions by { MakeTriedEffect(e, s1, id); }
      }
  }

  lemma GoodKeepsInv(e: Env, s: State, svc: Service, testBeforeEvict: bool, time: int)
    requires Inv(e, s)
    ensures Inv(e, Good(e, s, svc, testBeforeEvict, time))
  {
    hide Placed; hide AddrIndex; hide RandomIndex; hide Good;
    GoodKeepsMid(e, s, svc, testBeforeEvict, time);
    var t := Good(e, s, svc, testBeforeEvict, time);
    if t.collisions == s.collisions {
      OnwardKeepsCollisions(e, s, t);
    } else {
      var id :| id in s.svcs && s.svcs[id] == svc && Collided(e, s, t, id);
    }
  }

  // ----- placing an entry in the new table -----

  /** Whether the entry `id` may take the new slot (b, p) from its occupant. */
  predicate MayTake(s: State, id: int, b: nat, p: nat, terrible: Stats -> bool)
    requires Formed(s) && id in s.svcs && b < NEW_BUCKET_COUNT && p < BUCKET_SIZE
  {
    var cur := s.newTab[b][p];
    cur == -1 || (cur in s.svcs && (terrible(s.stats[cur]) || (s.refs[cur] > 1 && s.refs[id] == 0)))
  }

  /** Everything placing an entry needs. */
  lemma PlaceReady(e: Env, s: State, id: int, b: nat, p: nat, limbo: set<int>)
    requires Mid(e, s, limbo, 0) && limbo <= {id} && id in s.svcs && b < NEW_BUCKET_COUNT && p < BUCKET_SIZE
    requires id in limbo ==> s.refs[id] == 0
    ensures Formed(s) && Clearable(s, b, p) && id in s.pos && 0 <= s.pos[id] < |s.random|
  {
    hide Clearable; hide Placed; hide AddrIndex; hide Shaped;
    ClearNewInMid(e, s, b, p, limbo, 0);
  }

  /** Gives `id` a reference in the new bucket chosen by `source`, or drops an entry that gets none. */
  function Place(e: Env, s: State, id: int, source: NetAddr, terrible: Stats -> bool, ghost limbo: set<int>): State
    requires Mid(e, s, limbo, 0) && limbo <= {id} && id in s.svcs && id !in s.tried
    requires id in limbo ==> s.refs[id] == 0
  {
    hide Mid; hide RandomIndex; hide ClearNew; hide Shaped; hide Delete; hide MayTake;
    var b := e.NewBucket(s.svcs[id], source);
    var p := e.NewPos(s.svcs[id], b);
    PlaceReady(e, s, id, b, p, limbo);
    if NewSlot(s, b, p) == id then s
    else if MayTake(s, id, b, p, terrible) then EnterNew(ClearNew(s, b, p), id, b, p, s.refs[id] + 1)
    else if s.refs[id] == 0 then Delete(s, id)
    else s
  }

  function NewSlot(s: State, b: nat, p: nat): int
    requires Formed(s) && b < NEW_BUCKET_COUNT && p < BUCKET_SIZE
  {
    s.newTab[b][p]
  }

  lemma MidForms(e: Env, s: State, limbo: set<int>, uncounted: nat)
    requires Mid(e, s, limbo, uncounted)
    ensures Formed(s)
  {
  }

  lemma PlaceKeepsMid(e: Env, s: State, id: int, source: NetAddr, terrible: Stats -> bool, limbo: set<int>)
    requires Mid(e, s, limbo, 0) && limbo <= {id} && id in s.svcs && id !in s.tried
    requires id in limbo ==> s.refs[id] == 0
    requires s.refs[id] < NEW_BUCKETS_PER_ADDRESS
    ensures Mid(e, Place(e, s, id, source, terrible, limbo), {}, 0)
  {
    hide Mid; hide Delete; hide ClearNew; hide RandomIndex; hide MayTake; hide Shaped;
    MidForms(e, s, limbo, 0);
    var b := e.NewBucket(s.svcs[id], source);
    var p := e.NewPos(s.svcs[id], b);
    PlaceReady(e, s, id, b, p, limbo);
    if NewSlot(s, b, p) == id {
      SlotMeansReferenced(e, s, id, b, p, limbo);
      assert limbo == {};
    } else if MayTake(s, id, b, p, terrible) {
      EnterCleared(e, s, id, b, limbo, 0);
      assert limbo - {id} == {};
    } else if s.refs[id] == 0 {
      DeleteKeepsMid(e, s, id, limbo, 0);
      assert limbo - {id} == {};
    } else {
      assert limbo == {};
    }
  }

  lemma SlotMeansReferenced(e: Env, s: State, id: int, b: nat, p: nat, limbo: set<int>)
    requires Mid(e, s, limbo, 0) && id in s.svcs
    requires b < NEW_BUCKET_COUNT && p == e.NewPos(s.svcs[id], b) && s.newTab[b][p] == id
    ensures 0 < s.refs[id]
  {
    hide Indexed; hide NewPlaced; hide TriedPlaced; hide RefsBounded;
    assert b in Buckets(e, s.newTab, s.svcs[id], id);
  }

  // ----- Add -----

  /** How a repeated announcement changes what is recorded of a known entry. */
  function Refreshed(st: Stats, a: Address, penalty: int, now: int): Stats {
    var interval := if now - a.time < 24 * 60 * 60 then 60 * 60 else 24 * 60 * 60;
    var time := if a.time != 0 && (st.time == 0 || st.time < a.time - interval - penalty)
                then U32(Max(0, a.time - penalty)) else st.time;
    st.(time := time, services := st.services + a.services)
  }

  /** The entry with other statistics. */
  function WithStats(s: State, id: int, st: Stats): State { s.(stats := s.stats[id := st]) }

  lemma WithStatsKeepsMid(e: Env, s: State, id: int, st: Stats)
    requires Mid(e, s, {}, 0) && id in s.svcs
    ensures var t := WithStats(s, id, st);
      Mid(e, t, {}, 0) && t.svcs == s.svcs && t.tried == s.tried && t.refs == s.refs
  {
    hide Mid;
    MidForms(e, s, {}, 0);
    assert WithStats(s, id, st).stats.Keys == s.stats.Keys;
    StatsKeepMid(e, s, WithStats(s, id, st));
  }

  /** Whether a repeated announcement may earn a known entry another reference. */
  predicate EarnsSlot(s: State, id: int, a: Address, st: Stats, coin: nat)
    requires id in s.refs
  {
    && !(a.time == 0 || (st.time != 0 && a.time <= st.time))
    && !(id in s.tried || s.refs[id] == NEW_BUCKETS_PER_ADDRESS)
    && !(s.refs[id] > 0 && coin % Pow2(s.refs[id]) != 0)
  }

  /** `Add_` of a known address. */
  function AddKnown(e: Env, s: State, id: int, a: Address, source: NetAddr, penalty: int, now: int, coin: nat,
                    terrible: Stats -> bool): State
    requires Mid(e, s, {}, 0) && id in s.svcs
  {
    hide Mid; hide Place; hide Shaped; hide Refreshed; hide EarnsSlot; hide WithStats;
    MidForms(e, s, {}, 0);
    var st := Refreshed(s.stats[id], a, penalty, now);
    WithStatsKeepsMid(e, s, id, st);
    var t := WithStats(s, id, st);
    if EarnsSlot(s, id, a, st, coin) then EarnsUntried(s, id, a, st, coin); Place(e, t, id, source, terrible, {}) else t
  }

  lemma EarnsUntried(s: State, id: int, a: Address, st: Stats, coin: nat)
    requires id in s.refs && EarnsSlot(s, id, a, st, coin)
    ensures id !in s.tried && s.refs[id] != NEW_BUCKETS_PER_ADDRESS
  {
  }

  /** A new entry, in neither table yet. */
  function Joined(s: State, a: Address, source: NetAddr, penalty: int): State {
    var t := Create(s, a.service, Stats(a.services, U32(Max(0, a.time - penalty)), source, 0, 0, 0, 0));
    t.(nNew := t.nNew + 1)
  }

  lemma JoinedKeepsMid(e: Env, s: State, a: Address, source: NetAddr, penalty: int)
    requires Mid(e, s, {}, 0) && Find(s, a.service.net).None?
    ensures var t := Joined(s, a, source, penalty);
      && Mid(e, t, {s.idCount}, 0)
      && s.idCount in t.svcs && s.idCount in t.refs && t.refs[s.idCount] == 0 && s.idCount !in t.tried
  {
    hide Mid;
    FindNone(e, s, a.service.net);
    CreateKeepsMid(e, s, a.service, Stats(a.services, U32(Max(0, a.time - penalty)), source, 0, 0, 0, 0));
  }

  /** `Add_` of an unknown address. */
  function AddUnknown(e: Env, s: State, a: Address, source: NetAddr, penalty: int, terrible: Stats -> bool): State
    requires Mid(e, s, {}, 0) && Find(s, a.service.net).None?
  {
    hide Mid; hide Place; hide Joined; hide Find;
    JoinedKeepsMid(e, s, a, source, penalty);
    Place(e, Joined(s, a, source, penalty), s.idCount, source, terrible, {s.idCount})
  }

  /** `Add_`. `coin` is the draw of the stochastic test, taken modulo its range. */
  function Add(e: Env, s: State, a: Address, source: NetAddr, penalty: int, now: int, coin: nat,
               terrible: Stats -> bool): (State, bool)
    requires Mid(e, s, {}, 0)
  {
    if !e.routable(a.service.net) then (s, false) else
    var pen := if a.service.net == source then 0 else penalty;
    match Find(s, a.service.net)
    case Some(id) => (AddKnown(e, s, id, a, source, pen, now, coin, terrible), false)
    case None => (AddUnknown(e, s, a, source, pen, terrible), true)
  }

  lemma FindNone(e: Env, s: State, a: NetAddr)
    requires Mid(e, s, {}, 0) && Find(s, a).None?
    ensures a !in s.addr && s.idCount !in s.tried
  {
    hide Placed; hide RandomIndex;
  }

  /** Placing touches the tried side not at all and creates no entry. */
  lemma PlaceEffect(e: Env, s: State, id: int, source: NetAddr, terrible: Stats -> bool, limbo: set<int>)
    requires Mid(e, s, limbo, 0) && limbo <= {id} && id in s.svcs && id !in s.tried
    requires id in limbo ==> s.refs[id] == 0
    ensures var t := Place(e, s, id, source, terrible, limbo);
      && t.tried == s.tried && t.triedTab == s.triedTab && t.idCount == s.idCount
      && t.collisions == s.collisions && t.lastGood == s.lastGood
      && (forall x :: x in t.svcs ==> x in s.svcs && t.svcs[x] == s.svcs[x])
      && (forall x :: x in t.stats ==> x in s.stats && t.stats[x] == s.stats[x])
  {
    hide Mid; hide ClearNew; hide Delete; hide RandomIndex; hide MayTake; hide Shaped;
    var b := e.NewBucket(s.svcs[id], source);
    var p := e.NewPos(s.svcs[id], b);
    PlaceReady(e, s, id, b, p, limbo);
    ClearNewInMid(e, s, b, p, limbo, 0);
    DeleteEffect(s, id);
  }

  lemma AddKeepsMid(e: Env, s: State, a: Address, source: NetAddr, penalty: int, now: int, coin: nat,
                    terrible: Stats -> bool)
    requires Mid(e, s, {}, 0)
    ensures Mid(e, Add(e, s, a, source, penalty, now, coin, terrible).0, {}, 0)
  {
    hide Mid; hide Place; hide Joined; hide EarnsSlot; hide WithStats; hide Refreshed;
    var pen := if a.service.net == source then 0 else penalty;
    match Find(s, a.service.net)
    case Some(id) =>
      MidForms(e, s, {}, 0);
      var st := Refreshed(s.stats[id], a, pen, now);
      WithStatsKeepsMid(e, s, id, st);
      RefsAtMostEight(e, s, id);
      if EarnsSlot(s, id, a, st, coin) {
        EarnsUntried(s, id, a, st, coin);
        PlaceKeepsMid(e, WithStats(s, id, st), id, source, terrible, {});
      }
    case None =>
      JoinedKeepsMid(e, s, a, source, pen);
      PlaceKeepsMid(e, Joined(s, a, source, pen), s.idCount, source, terrible, {s.idCount});
  }

  lemma RefsAtMostEight(e: Env, s: State, id: int)
    requires Mid(e, s, {}, 0) && id in s.svcs
    ensures s.refs[id] <= NEW_BUCKETS_PER_ADDRESS
  {
    hide Indexed; hide NewPlaced; hide TriedPlaced; hide Counted;
  }

  /** What `Add_` leaves alone: the tried side, pending collisions, and of older entries the endpoint and the
      times of the last attempt and success. */
  ghost predicate NewSideOnly(s: State, t: State) {
    && t.tried == s.tried && t.triedTab == s.triedTab && t.collisions == s.collisions && s.idCount <= t.idCount
    && (forall x :: x in t.svcs ==> x == s.idCount || (x in s.svcs && t.svcs[x] == s.svcs[x]))
    && (forall x :: x in t.stats ==>
          || (x == s.idCount && t.stats[x].lastTry == 0 && t.stats[x].lastSuccess == 0)
          || (x in s.stats && t.stats[x].lastTry == s.stats[x].lastTry &&
            t.stats[x].lastSuccess == s.stats[x].lastSuccess))
  }

  lemma AddKnownEffect(e: Env, s: State, id: int, a: Address, source: NetAddr, penalty: int, now: int, coin: nat,
                       terrible: Stats -> bool)
    requires Mid(e, s, {}, 0) && id in s.svcs
    ensures NewSideOnly(s, AddKnown(e, s, id, a, source, penalty, now, coin, terrible))
  {
    hide Mid; hide Place; hide EarnsSlot; hide Shaped;
    MidForms(e, s, {}, 0);
    var st := Refreshed(s.stats[id], a, penalty, now);
    WithStatsKeepsMid(e, s, id, st);
    if EarnsSlot(s, id, a, st, coin) {
      EarnsUntried(s, id, a, st, coin);
      PlaceEffect(e, WithStats(s, id, st), id, source, terrible, {});
    }
  }

  lemma AddUnknownEffect(e: Env, s: State, a: Address, source: NetAddr, penalty: int, terrible: Stats -> bool)
    requires Mid(e, s, {}, 0) && Find(s, a.service.net).None?
    ensures NewSideOnly(s, AddUnknown(e, s, a, source, penalty, terrible))
  {
    hide Mid; hide Place; hide Find;
    FindNone(e, s, a.service.net);
    JoinedKeepsMid(e, s, a, source, penalty);
    PlaceEffect(e, Joined(s, a, source, penalty), s.idCount, source, terrible, {s.idCount});
    assert s.tried - {s.idCount} == s.tried;
  }

  lemma AddEffect(e: Env, s: State, a: Address, source: NetAddr, penalty: int, now: int, coin: nat,
                  terrible: Stats -> bool)
    requires Mid(e, s, {}, 0)
    ensures NewSideOnly(s, Add(e, s, a, source, penalty, now, coin, terrible).0)
  {
    hide Indexed; hide Placed; hide AddKnown; hide AddUnknown;
    var pen := if a.service.net == source then 0 else penalty;
    match Find(s, a.service.net)
    case Some(id) => AddKnownEffect(e, s, id, a, source, pen, now, coin, terrible);
    case None => AddUnknownEffect(e, s, a, source, pen, terrible);
  }

  lemma AddKeepsInv(e: Env, s: State, a: Address, source: NetAddr, penalty: int, now: int, coin: nat,
                    terrible: Stats -> bool)
    requires Inv(e, s)
    ensures Inv(e, Add(e, s, a, source, penalty, now, coin, terrible).0)
    ensures Add(e, s, a, source, penalty, now, coin, terrible).0.triedTab == s.triedTab
  {
    hide Mid; hide Add;
    AddKeepsMid(e, s, a, source, penalty, now, coin, terrible);
    AddEffect(e, s, a, source, penalty, now, coin, terrible);
  }

  // ----- the small updates -----

  /** Applies a change of statistics to the entry of exactly this service, if there is one. */
  function Touch(s: State, svc: Service, f: Stats -> Stats): State
    requires Formed(s)
  {
    match Find(s, svc.net)
    case None => s
    case Some(id) => if s.svcs[id] != svc then s else s.(stats := s.stats[id := f(s.stats[id])])
  }

  function Attempt(s: State, svc: Service, countFailure: bool, time: int): State
    requires Formed(s)
  {
    Touch(s, svc, (st: Stats) =>
      if countFailure && st.lastCountAttempt < s.lastGood
      then st.(lastTry := time, lastCountAttempt := time, attempts := st.attempts + 1)
      else st.(lastTry := time))
  }

  function Connected(s: State, svc: Service, time: int): State
    requires Formed(s)
  {
    Touch(s, svc, (st: Stats) => if time - st.time > 20 * 60 then st.(time := U32(time)) else st)
  }

  function SetServices(s: State, svc: Service, services: set<nat>): State
    requires Formed(s)
  {
    Touch(s, svc, (st: Stats) => st.(services := services))
  }

  lemma TouchKeepsInv(e: Env, s: State, svc: Service, f: Stats -> Stats)
    requires Inv(e, s)
    ensures Inv(e, Touch(s, svc, f)) && Touch(s, svc, f).triedTab == s.triedTab
  {
    hide Placed; hide Indexed;
    StatsKeepMid(e, s, Touch(s, svc, f));
  }

  // ----- GetAddr -----

  /** The ids that are good, in order. */
  function Keep(ids: seq<int>, good: set<int>): seq<int> {
    if ids == [] then []
    else
      var last := ids[|ids| - 1];
      Keep(ids[..|ids| - 1], good) + if last in good then [last] else []
  }

  function Limit(n: nat): nat {
    var nodes := GETADDR_MAX_PCT * n / 100;
    if nodes > GETADDR_MAX then GETADDR_MAX else nodes
  }

  function SwapAt(r: seq<int>, i: nat, j: nat): seq<int>
    requires i < |r| && j < |r|
  {
    r[i := r[j]][j := r[i]]
  }

  /** Shuffles from position n on until enough good ids stand in front; the draws are `rnd`. */
  function Shuffle(r: seq<int>, good: set<int>, n: nat, limit: nat, rnd: nat -> nat): (seq<int>, nat)
    requires n <= |r|
    decreases |r| - n
  {
    if n == |r| || |Keep(r[..n], good)| >= limit then (r, n)
    else Shuffle(SwapAt(r, n, n + rnd(n) % (|r| - n)), good, n + 1, limit, rnd)
  }

  /** Where each id stands. */
  function PositionsOf(r: seq<int>): map<int, int> {
    if r == [] then map[] else PositionsOf(r[..|r| - 1])[r[|r| - 1] := |r| - 1]
  }

  function GoodIds(s: State, terrible: Stats -> bool): set<int> {
    set id | id in s.stats && !terrible(s.stats[id])
  }

  /** `GetAddr_`: the new random order and the ids returned. */
  function GetAddr(s: State, rnd: nat -> nat, terrible: Stats -> bool): (State, seq<int>) {
    var good := GoodIds(s, terrible);
    ShuffleFacts(s.random, good, 0, Limit(|s.random|), rnd);
    var (r, k) := Shuffle(s.random, good, 0, Limit(|s.random|), rnd);
    (s.(random := r, pos := PositionsOf(r)), Keep(r[..k], good))
  }

  /** A reordering that leaves the first n in place. */
  ghost predicate Permuted(r: seq<int>, q: seq<int>, n: nat) {
    && |q| == |r| && multiset(q) == multiset(r)
    && (forall i :: 0 <= i < n && i < |r| ==> q[i] == r[i])
  }

  lemma {:induction false} ShuffleFacts(r: seq<int>, good: set<int>, n: nat, limit: nat, rnd: nat -> nat)
    requires n <= |r|
    ensures var (q, k) := Shuffle(r, good, n, limit, rnd); n <= k <= |q| && Permuted(r, q, n)
    decreases |r| - n
  {
    if n == |r| || |Keep(r[..n], good)| >= limit {
    } else {
      ShuffleFacts(SwapAt(r, n, n + rnd(n) % (|r| - n)), good, n + 1, limit, rnd);
    }
  }

  lemma {:induction false} ShuffleStops(r: seq<int>, good: set<int>, n: nat, limit: nat, rnd: nat -> nat)
    requires n <= |r| && |Keep(r[..n], good)| <= limit
    ensures var (q, k) := Shuffle(r, good, n, limit, rnd);
      && k <= |q| && |Keep(q[..k], good)| <= limit && (k == |q| || |Keep(q[..k], good)| == limit)
    decreases |r| - n
  {
    if n == |r| || |Keep(r[..n], good)| >= limit {
    } else {
      var q := SwapAt(r, n, n + rnd(n) % (|r| - n));
      assert q[..n + 1][..n] == r[..n];
      ShuffleStops(q, good, n + 1, limit, rnd);
    }
  }

  ghost predicate Distinct(r: seq<int>) { forall i, j :: 0 <= i < j < |r| ==> r[i] != r[j] }

  lemma {:induction false} PositionsOfIndex(r: seq<int>)
    requires Distinct(r)
    ensures RandomIndex(PositionsOf(r), r)
    ensures forall x :: x in PositionsOf(r) <==> x in r
  {
    if r != [] {
      var n := |r| - 1;
      PositionsOfIndex(r[..n]);
      assert r == r[..n] + [r[n]];
      AppendKeepsRandomIndex(PositionsOf(r[..n]), r[..n], r[n]);
    }
  }

  lemma {:induction false} KeepMembers(ids: seq<int>, good: set<int>)
    ensures forall x :: x in Keep(ids, good) <==> x in ids && x in good
    ensures Distinct(ids) ==> Distinct(Keep(ids, good))
  {
    if ids != [] {
      var n := |ids| - 1;
      KeepMembers(ids[..n], good);
      assert ids == ids[..n] + [ids[n]];
    }
  }

  lemma PermutedDistinct(r: seq<int>, q: seq<int>)
    requires Distinct(r) && multiset(r) == multiset(q)
    ensures Distinct(q) && (forall x :: x in r <==> x in q)
  {
    forall i, j | 0 <= i < j < |q| ensures q[i] != q[j] {
      if q[i] == q[j] { MultiplicityTwo(q, i, j); MultiplicityOne(r, q[i]); }
    }
    forall x ensures x in r <==> x in q { assert x in r <==> x in multiset(r); assert x in q <==> x in multiset(q); }
  }

  lemma MultiplicityTwo(q: seq<int>, i: nat, j: nat)
    requires i < j < |q| && q[i] == q[j]
    ensures multiset(q)[q[i]] >= 2
  {
    assert q == q[..j] + [q[j]] + q[j + 1..];
    assert q[..j] == q[..i] + [q[i]] + q[..j][i + 1..];
  }

  lemma {:induction false} MultiplicityOne(r: seq<int>, x: int)
    requires Distinct(r)
    ensures multiset(r)[x] <= 1
  {
    if r != [] {
      var n := |r| - 1;
      assert r == r[..n] + [r[n]];
      MultiplicityOne(r[..n], x);
      assert x == r[n] ==> x !in r[..n];
    }
  }
}
