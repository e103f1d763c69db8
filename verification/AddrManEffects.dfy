/** What the address manager's operations do, said of the state before and the state after alone.

    The entries with their statistics, the two tables and the tried set are given exactly. Reference counts,
    tallies and the address index follow from these by the invariant. */
module AddrManEffects {
  import opened AddrManState
  import opened AddrManProofs
  import opened AddrManOps
  import opened AddrManRuns
  import opened Powers
  import opened Basics

  // ----- taking a new slot -----

  /** The entry that has its only reference in new slot (b, p), if there is one. */
  ghost function LastHeld(s: State, b: nat, p: nat): set<int>
    requires Formed(s) && b < NEW_BUCKET_COUNT && p < BUCKET_SIZE
  {
    var cur := NewSlot(s, b, p);
    if cur in s.refs && s.refs[cur] == 1 then {cur} else {}
  }

  /** Everything outside the new table is as before. */
  ghost predicate OtherwiseSame(s: State, t: State) {
    && t.tried == s.tried && t.triedTab == s.triedTab && t.nTried == s.nTried
    && t.idCount == s.idCount && t.lastGood == s.lastGood && t.collisions == s.collisions
  }

  /** New slot (b, p) has been given to `id`, which now has `r` references. Whoever held it has one less, and is gone
      if that was the last; the end of the random order then fills the gap. */
  ghost predicate SlotTaken(s: State, t: State, id: int, b: nat, p: nat, r: int)
    requires Formed(s) && b < NEW_BUCKET_COUNT && p < BUCKET_SIZE
  {
    var cur, gone := NewSlot(s, b, p), LastHeld(s, b, p);
    && OtherwiseSame(s, t) && t.newTab == Put(s.newTab, b, p, id) && t.svcs == s.svcs - gone
    && t.stats == s.stats - gone && t.nNew == s.nNew - |gone|
    && id in t.refs && t.refs[id] == r
    && (forall x :: x in t.refs && x != id ==> x in s.refs && t.refs[x] == s.refs[x] - if x == cur then 1 else 0)
    && (gone == {} ==> t.random == s.random)
    && (gone != {} ==> Closed(s.pos, s.random, t.random, cur))
  }

  /** The entry has left the random order, whose last element now stands in its place. */
  ghost predicate Closed(pos: map<int, int>, before: seq<int>, after: seq<int>, id: int) {
    && id in pos && 0 <= pos[id] < |before| == |after| + 1
    && forall i :: 0 <= i < |after| ==> after[i] == before[if i == pos[id] then |after| else i]
  }

  lemma DeleteCloses(s: State, id: int)
    requires id in s.svcs && id in s.pos && 0 <= s.pos[id] < |s.random| && s.random[s.pos[id]] == id
    ensures Closed(s.pos, s.random, Delete(s, id).random, id)
  {
  }

  /** New slot (b, p) has been emptied; its holder has one reference less, and is gone if that was the last. */
  ghost predicate SlotLeft(s: State, t: State, b: nat, p: nat)
    requires Formed(s) && b < NEW_BUCKET_COUNT && p < BUCKET_SIZE
  {
    var cur, gone := NewSlot(s, b, p), LastHeld(s, b, p);
    && OtherwiseSame(s, t) && t.newTab == Put(s.newTab, b, p, -1) && t.svcs == s.svcs - gone
    && t.stats == s.stats - gone && t.nNew == s.nNew - |gone| && t.refs.Keys == s.refs.Keys - gone
    && (forall x :: x in t.refs ==> x in s.refs && t.refs[x] == s.refs[x] - if x == cur then 1 else 0)
    && (gone == {} ==> t.random == s.random)
    && (gone != {} ==> Closed(s.pos, s.random, t.random, cur))
  }

  lemma DeleteLeaves(s: State, b: nat, p: nat)
    requires Formed(s) && RandomIndex(s.pos, s.random) && b < NEW_BUCKET_COUNT && p < BUCKET_SIZE
    requires var cur := NewSlot(s, b, p); cur in s.svcs && cur !in s.tried && s.refs[cur] == 1
    ensures NewSlot(s, b, p) in s.pos && 0 <= s.pos[NewSlot(s, b, p)] < |s.random|
    ensures SlotLeft(s, Delete(Dropped(s, b, p), NewSlot(s, b, p)), b, p)
  {
    hide Delete; hide Shaped;
    var t, cur := Dropped(s, b, p), NewSlot(s, b, p);
    assert s.random[s.pos[cur]] == cur;
    DeleteEffect(t, cur);
    DeleteCloses(t, cur);
  }

  lemma ClearNewDoes(s: State, b: nat, p: nat)
    requires Formed(s) && RandomIndex(s.pos, s.random) && b < NEW_BUCKET_COUNT && p < BUCKET_SIZE && -1 !in s.svcs
    requires var cur := NewSlot(s, b, p); cur != -1 ==> cur in s.svcs && cur !in s.tried
    ensures SlotLeft(s, ClearNew(s, b, p), b, p)
  {
    hide Delete; hide RandomIndex; hide Closed;
    var cur := NewSlot(s, b, p);
    if cur == -1 {
      PutSame(s.newTab, b, p);
    } else if s.refs[cur] == 1 {
      DeleteLeaves(s, b, p);
    }
  }

  lemma PutSame(t: Table, b: nat, p: nat)
    requires b < |t| && p < |t[b]|
    ensures Put(t, b, p, t[b][p]) == t
  {
    assert t[b][p := t[b][p]] == t[b];
  }

  lemma PutTwice(t: Table, b: nat, p: nat, x: int, y: int)
    requires b < |t| && p < |t[b]|
    ensures Put(Put(t, b, p, x), b, p, y) == Put(t, b, p, y)
  {
    assert t[b][p := x][p := y] == t[b][p := y];
  }

  lemma EnterDoes(s: State, id: int, b: nat, p: nat, r: int)
    requires Formed(s) && RandomIndex(s.pos, s.random) && b < NEW_BUCKET_COUNT && p < BUCKET_SIZE && -1 !in s.svcs
    requires var cur := NewSlot(s, b, p); cur != id && (cur != -1 ==> cur in s.svcs && cur !in s.tried)
    requires id in s.svcs && Formed(ClearNew(s, b, p))
    ensures SlotTaken(s, EnterNew(ClearNew(s, b, p), id, b, p, r), id, b, p, r)
  {
    hide ClearNew; hide RandomIndex; hide Closed;
    ClearNewDoes(s, b, p);
    PutTwice(s.newTab, b, p, -1, id);
  }

  // ----- Good -----

  /** What is recorded of an entry that has just worked. */
  ghost predicate WorkedAt(before: Stats, after: Stats, time: int) {
    && after.lastSuccess == time && after.lastTry == time && after.attempts == 0
    && after.services == before.services && after.time == before.time && after.source == before.source
    && after.lastCountAttempt == before.lastCountAttempt
  }

  /** Only what is recorded of `id` has changed, as it does for an entry that worked. */
  ghost predicate StatsWorked(s: State, t: State, id: int, time: int) {
    && id in t.stats && id in s.stats && WorkedAt(s.stats[id], t.stats[id], time)
    && forall x :: x in t.stats && x != id ==> x in s.stats && t.stats[x] == s.stats[x]
  }

  /** An address that is not known with this port. */
  ghost predicate Unknown(s: State, svc: Service) { forall x :: x in s.svcs ==> s.svcs[x] != svc }

  lemma FindFinds(e: Env, s: State, svc: Service)
    requires Mid(e, s, {}, 0)
    ensures Unknown(s, svc) <==> Find(s, svc.net).None? || s.svcs[Find(s, svc.net).value] != svc
    ensures forall id :: id in s.svcs && s.svcs[id].net == svc.net ==> Find(s, svc.net) == Some(id)
  {
    hide Placed; hide RandomIndex;
    forall id | id in s.svcs && s.svcs[id].net == svc.net ensures Find(s, svc.net) == Some(id) {
      assert s.addr[s.svcs[id].net] == id;
    }
    if !Unknown(s, svc) {
      var x :| x in s.svcs && s.svcs[x] == svc;
      assert s.addr[s.svcs[x].net] == x;
    } else if Find(s, svc.net).Some? {
      var v := Find(s, svc.net).value;
      assert v in s.svcs;
      assert s.svcs[v] != svc;
    }
  }

  /** Nothing but the time is noted when the address is unknown or has another port. */
  lemma GoodOfUnknown(e: Env, s: State, svc: Service, testBeforeEvict: bool, time: int)
    requires Mid(e, s, {}, 0) && Unknown(s, svc)
    ensures Good(e, s, svc, testBeforeEvict, time) == s.(lastGood := time)
  {
    hide Mid; hide Find; hide Unknown;
    FindFinds(e, s, svc);
  }

  /** An entry that is tried already changes in what is recorded of it, and so does one that has to wait for a test
      of the entry in its way; that one is pending if there was room. */
  lemma GoodStays(e: Env, s: State, id: int, testBeforeEvict: bool, time: int)
    requires Mid(e, s, {}, 0) && id in s.svcs
    requires id in s.tried || (testBeforeEvict && TriedSlot(e, s, s.svcs[id]) != -1)
    ensures var t := Good(e, s, s.svcs[id], testBeforeEvict, time);
      && t == s.(lastGood := time, stats := t.stats, collisions := t.collisions) && t.stats.Keys == s.stats.Keys
      && StatsWorked(s, t, id, time)
      && t.collisions == if id !in s.tried && |s.collisions| < 10 then s.collisions + {id} else s.collisions
  {
    hide Mid; hide Find; hide TriedSlot; hide Shaped; hide MakeTried;
    MidForms(e, s, {}, 0);
    FindFinds(e, s, s.svcs[id]);
  }

  /** The new slot where the entry goes that stands in the way of `id` in the tried table. */
  ghost function RefugeBucket(e: Env, s: State, id: int): nat
    requires Formed(s) && id in s.svcs && TriedSlot(e, s, s.svcs[id]) in s.svcs
  {
    var evicted := TriedSlot(e, s, s.svcs[id]);
    e.NewBucket(s.svcs[evicted], s.stats[evicted].source)
  }

  ghost function RefugePos(e: Env, s: State, id: int): nat
    requires Formed(s) && id in s.svcs && TriedSlot(e, s, s.svcs[id]) in s.svcs
  {
    e.NewPos(s.svcs[TriedSlot(e, s, s.svcs[id])], RefugeBucket(e, s, id))
  }

  /** The new table without `id`. */
  ghost predicate NoLongerNew(before: Table, after: Table, id: int)
    requires Shaped(before, NEW_BUCKET_COUNT) && Shaped(after, NEW_BUCKET_COUNT)
  {
    forall b, p :: 0 <= b < NEW_BUCKET_COUNT && 0 <= p < BUCKET_SIZE ==>
      after[b][p] == if before[b][p] == id then -1 else before[b][p]
  }

  /** `id` has moved from the new table to its tried slot, which was empty. */
  ghost predicate MovedIn(s: State, t: State, id: int)
    requires Formed(s) && Formed(t)
  {
    && t.svcs == s.svcs && NoLongerNew(s.newTab, t.newTab, id) && t.random == s.random
    && t.nTried == s.nTried + 1 && t.nNew == s.nNew - 1
    && id in t.refs && t.refs[id] == 0 && forall x :: x in t.refs && x != id ==> x in s.refs && t.refs[x] == s.refs[x]
  }

  /** `id` has changed places with the occupant `evicted` of its tried slot, which went to new slot (b, p). */
  ghost predicate MovedFor(s: State, t: State, id: int, evicted: int, b: nat, p: nat)
    requires Formed(s) && Formed(t) && b < NEW_BUCKET_COUNT && p < BUCKET_SIZE
  {
    var cur := NewSlot(s, b, p);
    var gone := if cur == id then {} else LastHeld(s, b, p);
    && (forall c, q :: 0 <= c < NEW_BUCKET_COUNT && 0 <= q < BUCKET_SIZE ==>
          t.newTab[c][q] == if c == b && q == p then evicted else if s.newTab[c][q] == id then -1 else s.newTab[c][q])
    && t.svcs == s.svcs - gone && t.nTried == s.nTried && t.nNew == s.nNew - |gone|
    && id in t.refs && t.refs[id] == 0 && evicted in t.refs && t.refs[evicted] == 1 && evicted !in t.tried
    && (forall x :: x in t.refs && x != id && x != evicted ==>
          x in s.refs && t.refs[x] == s.refs[x] - if x == cur then 1 else 0)
    && (gone == {} ==> t.random == s.random)
    && (gone != {} ==> Closed(s.pos, s.random, t.random, cur))
  }

  /** The entry is in its tried slot, and whatever was there is in a new slot again. */
  ghost predicate Moved(e: Env, s: State, t: State, id: int)
    requires Formed(s) && Formed(t) && id in s.svcs
  {
    var evicted := TriedSlot(e, s, s.svcs[id]);
    && t.triedTab == Put(s.triedTab, e.TriedBucket(s.svcs[id]), e.TriedPos(s.svcs[id]), id)
    && t.tried == s.tried - {evicted} + {id} && t.idCount == s.idCount && t.collisions == s.collisions
    && if evicted == -1 then MovedIn(s, t, id)
       else evicted in s.svcs && MovedFor(s, t, id, evicted, RefugeBucket(e, s, id), RefugePos(e, s, id))
  }

  lemma VacatedNewTab(e: Env, s: State, id: int)
    requires Formed(s) && NewPlaced(e, s.newTab, s.svcs, s.tried) && id in s.svcs && id != -1
    ensures NoLongerNew(s.newTab, Emptied(e, s.newTab, s.svcs[id], id), id)
  {
  }

  /** What vacating does, beyond what it leaves alone. */
  lemma VacatedDoes(e: Env, s: State, id: int)
    requires Mid(e, s, {}, 0) && id in s.svcs && id !in s.tried
    ensures Formed(s) && Formed(Vacated(e, s, id))
    ensures var t := Vacated(e, s, id);
      && NoLongerNew(s.newTab, t.newTab, id) && t.random == s.random && t.pos == s.pos && t.nNew == s.nNew - 1
      && t.nTried == s.nTried - (if TriedSlot(e, s, s.svcs[id]) == -1 then 0 else 1)
      && t.lastGood == s.lastGood
      && t.refs == s.refs[id := 0]
  {
    hide AddrIndex; hide RandomIndex; hide NewPlaced; hide TriedPlaced; hide Counted; hide RefsBounded; hide Buckets;
    hide Emptied; hide NoLongerNew;
    RefsAreBuckets(e, s, id);
    VacatedNewTab(e, s, id);
  }

  lemma MovesIn(e: Env, s: State, id: int)
    requires Mid(e, s, {}, 0) && id in s.svcs && id !in s.tried && Formed(s) && TriedSlot(e, s, s.svcs[id]) == -1
    ensures var t := MakeTried(e, s, id); Formed(t) && MovedIn(s, t, id)
  {
    hide Mid; hide Vacated; hide NoLongerNew; hide Shaped; hide TriedSlot;
    MakeTriedReady(e, s, id);
    MakeTriedKeepsMid(e, s, id);
    MidForms(e, MakeTried(e, s, id), {}, 0);
    VacatedDoes(e, s, id);
    VacateKeepsMid(e, s, id);
  }

  /** What the readmitted entry finds in its slot once `id` has left the new table. */
  lemma LastHeldVacated(e: Env, s: State, v: State, id: int, b: nat, p: nat)
    requires Formed(s) && Formed(v) && b < NEW_BUCKET_COUNT && p < BUCKET_SIZE && id in s.svcs && -1 !in s.svcs
    requires NoLongerNew(s.newTab, v.newTab, id) && v.refs == s.refs[id := 0]
    ensures LastHeld(v, b, p) == if NewSlot(s, b, p) == id then {} else LastHeld(s, b, p)
    ensures NewSlot(v, b, p) == if NewSlot(s, b, p) == id then -1 else NewSlot(s, b, p)
  {
  }

  lemma ReadmitDoes(e: Env, s: State, id: int, limbo: set<int>, uncounted: nat)
    requires Mid(e, s, limbo, uncounted + 1)
    requires forall x :: x in limbo && x in s.svcs ==> s.refs[x] == 0
    requires id in s.svcs && id !in s.tried && id in limbo
    requires Clearable(s, HomeBucket(e, s, id), HomePos(e, s, id))
    ensures var t := Readmit(e, s, id);
      SlotTaken(s, t.(nNew := t.nNew - 1), id, HomeBucket(e, s, id), HomePos(e, s, id), 1)
  {
    hide Mid; hide ClearNew; hide RandomIndex; hide Shaped; hide SlotTaken; hide EnterNew;
    var b, p := HomeBucket(e, s, id), HomePos(e, s, id);
    OccupantFacts(e, s, b, p, limbo, uncounted + 1);
    EnterDoes(s, id, b, p, 1);
    var t := EnterNew(ClearNew(s, b, p), id, b, p, 1);
    assert t.(nNew := t.nNew + 1).(nNew := t.nNew) == t;
  }

  /** The new table after the slot of the evicted entry has been taken. */
  lemma NewTabAfter(before: Table, freed: Table, id: int, b: nat, p: nat, evicted: int)
    requires Shaped(before, NEW_BUCKET_COUNT) && Shaped(freed, NEW_BUCKET_COUNT) && NoLongerNew(before, freed, id)
    requires b < NEW_BUCKET_COUNT && p < BUCKET_SIZE
    ensures forall c, q :: 0 <= c < NEW_BUCKET_COUNT && 0 <= q < BUCKET_SIZE ==>
      Put(freed, b, p, evicted)[c][q] ==
        if c == b && q == p then evicted else if before[c][q] == id then -1 else before[c][q]
  {
  }

  lemma MovesFor(e: Env, s: State, id: int)
    requires Mid(e, s, {}, 0) && id in s.svcs && id !in s.tried && Formed(s) && TriedSlot(e, s, s.svcs[id]) != -1
    ensures var t := MakeTried(e, s, id);
      && Formed(t) && TriedSlot(e, s, s.svcs[id]) in s.svcs
      && MovedFor(s, t, id, TriedSlot(e, s, s.svcs[id]), RefugeBucket(e, s, id), RefugePos(e, s, id))
  {
    hide Mid; hide Vacated; hide NoLongerNew; hide TriedSlot; hide Readmit; hide Clearable; hide Closed; hide LastHeld;
    MakeTriedReady(e, s, id);
    MakeTriedKeepsMid(e, s, id);
    MidForms(e, MakeTried(e, s, id), {}, 0);
    VacatedDoes(e, s, id);
    VacateKeepsMid(e, s, id);
    TriedOccupant(e, s, s.svcs[id]);
    var v, evicted := Vacated(e, s, id), TriedSlot(e, s, s.svcs[id]);
    var b, p := RefugeBucket(e, s, id), RefugePos(e, s, id);
    ReadmitDoes(e, v, evicted, {id, evicted}, 1);
    LastHeldVacated(e, s, v, id, b, p);
    NewTabAfter(s.newTab, v.newTab, id, b, p, evicted);
  }

  lemma Moves(e: Env, s: State, id: int)
    requires Mid(e, s, {}, 0) && id in s.svcs && id !in s.tried
    ensures var t := MakeTried(e, s, id);
      && Formed(s) && Formed(t) && Moved(e, s, t, id) && t.lastGood == s.lastGood
      && forall x :: x in t.stats ==> x in s.stats && t.stats[x] == s.stats[x]
  {
    hide Mid; hide MakeTried; hide MovedIn; hide MovedFor; hide Shaped;
    MidForms(e, s, {}, 0);
    MakeTriedKeepsMid(e, s, id);
    MidForms(e, MakeTried(e, s, id), {}, 0);
    MakeTriedEffect(e, s, id);
    MakeTriedLastGood(e, s, id);
    if TriedSlot(e, s, s.svcs[id]) == -1 { MovesIn(e, s, id); } else { MovesFor(e, s, id); }
  }

  lemma MakeTriedLastGood(e: Env, s: State, id: int)
    requires Mid(e, s, {}, 0) && id in s.svcs && id !in s.tried
    ensures MakeTried(e, s, id).lastGood == s.lastGood
  {
    hide Mid; hide Vacated; hide Readmit; hide Clearable; hide TriedSlot; hide SlotTaken;
    MakeTriedReady(e, s, id);
    VacatedDoes(e, s, id);
    VacateKeepsMid(e, s, id);
    var v, evicted := Vacated(e, s, id), TriedSlot(e, s, s.svcs[id]);
    if evicted != -1 {
      ReadmitDoes(e, v, evicted, {id, evicted}, 1);
      TakenKeepsLastGood(v, Readmit(e, v, evicted).(nNew := Readmit(e, v, evicted).nNew - 1), evicted,
                         HomeBucket(e, v, evicted), HomePos(e, v, evicted));
    }
  }

  lemma TakenKeepsLastGood(s: State, t: State, id: int, b: nat, p: nat)
    requires Formed(s) && b < NEW_BUCKET_COUNT && p < BUCKET_SIZE && SlotTaken(s, t, id, b, p, 1)
    ensures t.lastGood == s.lastGood
  {
  }

  /** A known entry that is not tried moves to its tried slot, unless the occupant is to be tested first. */
  lemma GoodMoves(e: Env, s: State, id: int, testBeforeEvict: bool, time: int)
    requires Mid(e, s, {}, 0) && id in s.svcs && id !in s.tried
    requires testBeforeEvict ==> TriedSlot(e, s, s.svcs[id]) == -1
    ensures var t := Good(e, s, s.svcs[id], testBeforeEvict, time);
      Formed(s) && Formed(t) && Moved(e, s, t, id) && StatsWorked(s, t, id, time) && t.lastGood == time
  {
    hide Mid; hide Find; hide TriedSlot; hide MakeTried; hide Shaped; hide Moved;
    MidForms(e, s, {}, 0);
    FindFinds(e, s, s.svcs[id]);
    var s1 := Worked(s, id, time);
    WorkedKeepsMid(e, s, id, time);
    Moves(e, s1, id);
    var t := Good(e, s, s.svcs[id], testBeforeEvict, time);
    TriedOccupant(e, s, s.svcs[id]);
    MovedFromWorked(e, s, s1, t, id);
  }

  /** The statistics of `id` play no part in where it moves. */
  lemma MovedFromWorked(e: Env, s: State, s1: State, t: State, id: int)
    requires Formed(s) && Formed(s1) && Formed(t) && id in s.svcs && id !in s.tried
    requires SamePlacement(s, s1) && s1.collisions == s.collisions && Moved(e, s1, t, id)
    requires forall x :: x in s.stats && x != id ==> x in s1.stats && s1.stats[x] == s.stats[x]
    requires TriedSlot(e, s, s.svcs[id]) != -1 ==> TriedSlot(e, s, s.svcs[id]) in s.tried
    ensures Moved(e, s, t, id) && id in t.svcs
  {
    hide Shaped; hide Closed; hide NoLongerNew;
  }

  // ----- Add -----

  /** Nothing happens to an address that cannot be routed. */
  lemma AddRefuses(e: Env, s: State, a: Address, source: NetAddr, penalty: int, now: int, coin: nat,
                   terrible: Stats -> bool)
    requires Mid(e, s, {}, 0) && !e.routable(a.service.net)
    ensures Add(e, s, a, source, penalty, now, coin, terrible) == (s, false)
  {
  }

  /** The time an announced address is recorded with; a source that announces itself has no penalty. */
  ghost function TimeGiven(a: Address, source: NetAddr, penalty: int): int {
    var less := a.time - if a.service.net == source then 0 else penalty;
    (if less < 0 then 0 else less) % 0x1_0000_0000
  }

  /** An entry has newly been stored in new slot (b, p). Whoever held it has one reference less, and is gone if that was
      the last; the new entry then takes its place in the random order, and otherwise the last one. */
  ghost predicate Stored(s: State, t: State, id: int, b: nat, p: nat)
    requires Formed(s) && b < NEW_BUCKET_COUNT && p < BUCKET_SIZE
  {
    && t.tried == s.tried && t.triedTab == s.triedTab && t.nTried == s.nTried
    && t.lastGood == s.lastGood && t.collisions == s.collisions
    && t.idCount == s.idCount + 1 && t.newTab == Put(s.newTab, b, p, id)
    && StoredEntries(s, t, id, LastHeld(s, b, p)) && StoredRefs(s, t, id, NewSlot(s, b, p))
    && StoredRandom(s, t, id, NewSlot(s, b, p), LastHeld(s, b, p))
  }

  ghost predicate StoredEntries(s: State, t: State, id: int, gone: set<int>) {
    && t.nNew == s.nNew + 1 - |gone| && t.svcs.Keys == s.svcs.Keys - gone + {id} && t.stats.Keys == t.svcs.Keys
    && (forall x :: x in t.svcs && x != id ==> x in s.svcs && t.svcs[x] == s.svcs[x])
    && (forall x :: x in t.stats && x != id ==> x in s.stats && t.stats[x] == s.stats[x])
  }

  ghost predicate StoredRefs(s: State, t: State, id: int, cur: int) {
    && id in t.refs && t.refs[id] == 1
    && (forall x :: x in t.refs && x != id ==> x in s.refs && t.refs[x] == s.refs[x] - if x == cur then 1 else 0)
  }

  ghost predicate StoredRandom(s: State, t: State, id: int, cur: int, gone: set<int>) {
    && (gone == {} ==> t.random == s.random + [id])
    && (gone != {} ==> cur in s.pos && 0 <= s.pos[cur] < |s.random| && t.random == s.random[s.pos[cur] := id])
  }

  /** The new slot (b, p) is empty, or may be taken from its holder by `id`. */
  ghost predicate Frees(s: State, id: int, b: nat, p: nat, terrible: Stats -> bool)
    requires Formed(s) && id in s.svcs && b < NEW_BUCKET_COUNT && p < BUCKET_SIZE
  {
    var cur := NewSlot(s, b, p);
    cur == -1 || (cur in s.svcs && (terrible(s.stats[cur]) || (s.refs[cur] > 1 && s.refs[id] == 0)))
  }

  lemma PlaceDoes(e: Env, s: State, id: int, source: NetAddr, terrible: Stats -> bool, limbo: set<int>)
    requires Mid(e, s, limbo, 0) && limbo <= {id} && id in s.svcs && id !in s.tried
    requires (id in limbo ==> s.refs[id] == 0) && s.refs[id] < NEW_BUCKETS_PER_ADDRESS
    ensures Formed(s) && id in s.pos && 0 <= s.pos[id] < |s.random|
    ensures var b := e.NewBucket(s.svcs[id], source);
      var p := e.NewPos(s.svcs[id], b);
      var t := Place(e, s, id, source, terrible, limbo);
      if NewSlot(s, b, p) == id then t == s
      else if Frees(s, id, b, p, terrible) then SlotTaken(s, t, id, b, p, s.refs[id] + 1)
      else t == if s.refs[id] == 0 then Delete(s, id) else s
  {
    hide Mid; hide RandomIndex; hide ClearNew; hide Shaped; hide Delete; hide SlotTaken; hide EnterNew;
    MidForms(e, s, limbo, 0);
    var b := e.NewBucket(s.svcs[id], source);
    var p := e.NewPos(s.svcs[id], b);
    PlaceReady(e, s, id, b, p, limbo);
    OccupantFacts(e, s, b, p, limbo, 0);
    if NewSlot(s, b, p) != id { EnterDoes(s, id, b, p, s.refs[id] + 1); }
  }

  lemma AddrKnown(e: Env, s: State, a: NetAddr) returns (x: int)
    requires Mid(e, s, {}, 0)
    ensures a in s.addr ==> x in s.svcs && s.svcs[x].net == a
  {
    hide Placed; hide RandomIndex;
    x := if a in s.addr then s.addr[a] else 0;
  }

  lemma FindNoneIs(e: Env, s: State, a: NetAddr)
    requires Mid(e, s, {}, 0) && forall x :: x in s.svcs ==> s.svcs[x].net != a
    ensures Find(s, a).None? && a !in s.addr
  {
    hide Mid;
    var _ := AddrKnown(e, s, a);
  }

  lemma StoredFromJoined(s: State, svc: Service, st: Stats, j: State, t: State, id: int, b: nat, p: nat)
    requires Formed(s) && Formed(j) && Formed(t) && id == s.idCount && id !in s.svcs && id !in s.tried
    requires b < NEW_BUCKET_COUNT && p < BUCKET_SIZE && NewSlot(s, b, p) != id
    requires j == Create(s, svc, st).(nNew := s.nNew + 1)
    requires NewSlot(s, b, p) in s.refs ==> NewSlot(s, b, p) in s.pos && 0 <= s.pos[NewSlot(s, b, p)] < |s.random|
    requires SlotTaken(j, t, id, b, p, 1)
    ensures Stored(s, t, id, b, p) && t.svcs[id] == svc && t.stats[id] == st
  {
    hide Shaped; hide Put; hide Closed; hide StoredEntries; hide StoredRandom; hide StoredRefs;
    assert s.tried - {id} == s.tried;
    var cur, gone := NewSlot(s, b, p), LastHeld(s, b, p);
    assert LastHeld(j, b, p) == gone && id !in gone;
    EntriesFromJoined(s, svc, st, j, t, id, gone);
    assert StoredRefs(s, t, id, cur) by { RefsFromJoined(s, svc, st, j, t, id, cur); }
    assert StoredRandom(s, t, id, cur, gone) by {
      if gone == {} { RandomAppended(s, t, id, cur); } else {
        ClosedByLast(s.pos, s.random, t.random, cur, id);
        RandomReplaced(s, t, id, cur, gone);
      }
    }
  }

  lemma EntriesFromJoined(s: State, svc: Service, st: Stats, j: State, t: State, id: int, gone: set<int>)
    requires s.stats.Keys == s.svcs.Keys && id == s.idCount && id !in gone
    requires j == Create(s, svc, st).(nNew := s.nNew + 1)
    requires t.svcs == j.svcs - gone && t.stats == j.stats - gone && t.nNew == j.nNew - |gone|
    ensures StoredEntries(s, t, id, gone) && t.svcs[id] == svc && t.stats[id] == st
  {
  }

  lemma RefsFromJoined(s: State, svc: Service, st: Stats, j: State, t: State, id: int, cur: int)
    requires id == s.idCount && id in t.refs && t.refs[id] == 1 && j == Create(s, svc, st).(nNew := s.nNew + 1)
    requires forall x :: x in t.refs && x != id ==> x in j.refs && t.refs[x] == j.refs[x] - if x == cur then 1 else 0
    ensures StoredRefs(s, t, id, cur)
  {
  }

  lemma RandomAppended(s: State, t: State, id: int, cur: int)
    requires t.random == s.random + [id]
    ensures StoredRandom(s, t, id, cur, {})
  {
  }

  lemma RandomReplaced(s: State, t: State, id: int, cur: int, gone: set<int>)
    requires gone != {} && cur in s.pos && 0 <= s.pos[cur] < |s.random| && t.random == s.random[s.pos[cur] := id]
    ensures StoredRandom(s, t, id, cur, gone)
  {
  }

  /** When the gap is closed by an element just appended, that element takes its place. */
  lemma ClosedByLast(pos: map<int, int>, random: seq<int>, after: seq<int>, cur: int, id: int)
    requires cur in pos && 0 <= pos[cur] < |random| && cur != id
    requires Closed(pos[id := |random|], random + [id], after, cur)
    ensures after == random[pos[cur] := id]
  {
  }

  lemma DeleteJoined(s: State, svc: Service, st: Stats)
    requires Formed(s) && s.idCount !in s.svcs && s.idCount !in s.tried && svc.net !in s.addr
    ensures var j := Create(s, svc, st).(nNew := s.nNew + 1);
      && s.idCount in j.svcs && s.idCount in j.pos && 0 <= j.pos[s.idCount] < |j.random|
      && Delete(j, s.idCount) == s.(idCount := s.idCount + 1)
  {
    hide Shaped;
    var id := s.idCount;
    assert s.svcs[id := svc] - {id} == s.svcs;
    assert s.stats[id := st] - {id} == s.stats;
    assert s.refs[id := 0] - {id} == s.refs;
    assert s.pos[id := |s.random|] - {id} == s.pos;
    assert s.addr[svc.net := id] - {svc.net} == s.addr;
    assert (s.random + [id])[..|s.random|] == s.random;
  }

  lemma JoinedIs(e: Env, s: State, a: Address, source: NetAddr, penalty: int)
    requires Mid(e, s, {}, 0) && Find(s, a.service.net).None?
    ensures Formed(s) && s.idCount !in s.svcs && s.idCount !in s.tried && 0 <= s.idCount
    ensures var st := Stats(a.services, U32(Max(0, a.time - penalty)), source, 0, 0, 0, 0);
      var j, id := Joined(s, a, source, penalty), s.idCount;
      && Formed(j) && j == Create(s, a.service, st).(nNew := s.nNew + 1)
      && j.svcs == s.svcs[id := a.service] && j.stats == s.stats[id := st] && j.refs == s.refs[id := 0]
      && j.newTab == s.newTab && j.tried == s.tried
  {
    hide Mid; hide Shaped;
    MidForms(e, s, {}, 0);
    NextId(e, s);
    JoinedKeepsMid(e, s, a, source, penalty);
    MidForms(e, Joined(s, a, source, penalty), {s.idCount}, 0);
    assert s.tried - {s.idCount} == s.tried;
  }

  lemma NextId(e: Env, s: State)
    requires Mid(e, s, {}, 0)
    ensures s.idCount !in s.svcs && s.idCount !in s.tried && 0 <= s.idCount
  {
    hide Placed; hide RandomIndex; hide AddrIndex; hide Shaped;
  }

  lemma PositionOf(e: Env, s: State)
    requires Mid(e, s, {}, 0)
    ensures forall x :: x in s.refs ==> x in s.pos && 0 <= s.pos[x] < |s.random|
  {
    hide Placed; hide AddrIndex;
  }

  /** What becomes of an address that is new: it is stored under the next id exactly when its slot is free, or held by
      a terrible entry or one with other references; otherwise only the id is used up. */
  ghost predicate Offered(e: Env, s: State, t: State, a: Address, source: NetAddr, time: int, terrible: Stats -> bool)
    requires Formed(s)
  {
    var b := e.NewBucket(a.service, source);
    var p := e.NewPos(a.service, b);
    var id, cur := s.idCount, NewSlot(s, b, p);
    && (cur != -1 ==> cur in s.svcs)
    && if cur == -1 || terrible(s.stats[cur]) || s.refs[cur] > 1 then
         && Stored(s, t, id, b, p) && t.svcs[id] == a.service
         && t.stats[id] == Stats(a.services, time, source, 0, 0, 0, 0)
       else t == s.(idCount := id + 1)
  }

  lemma JoinedOccupant(e: Env, s: State, j: State, id: int, b: nat, p: nat, terrible: Stats -> bool)
    requires Formed(s) && Formed(j) && b < NEW_BUCKET_COUNT && p < BUCKET_SIZE && id == s.idCount && id !in s.svcs
    requires 0 <= id && j.newTab == s.newTab && j.refs == s.refs[id := 0] && id in j.svcs
    requires (forall x :: x in s.svcs ==> x in j.svcs && j.stats[x] == s.stats[x])
    requires NewSlot(s, b, p) != -1 ==> NewSlot(s, b, p) in s.svcs
    ensures var cur := NewSlot(s, b, p);
      && NewSlot(j, b, p) == cur != id
      && (Frees(j, id, b, p, terrible) <==> cur == -1 || terrible(s.stats[cur]) || s.refs[cur] > 1)
  {
    hide Shaped;
  }

  lemma PlaceJoined(e: Env, j: State, id: int, source: NetAddr, b: nat, p: nat, terrible: Stats -> bool)
    requires Formed(j) && id in j.svcs && id !in j.tried && j.refs[id] == 0
    requires b == e.NewBucket(j.svcs[id], source) && p == e.NewPos(j.svcs[id], b) && NewSlot(j, b, p) != id
    requires Mid(e, j, {id}, 0)
    ensures id in j.pos && 0 <= j.pos[id] < |j.random|
    ensures var t := Place(e, j, id, source, terrible, {id});
      Formed(t) && if Frees(j, id, b, p, terrible) then SlotTaken(j, t, id, b, p, 1) else t == Delete(j, id)
  {
    hide Mid; hide Place; hide Delete; hide Shaped; hide SlotTaken; hide Frees;
    PlaceDoes(e, j, id, source, terrible, {id});
    PlaceKeepsMid(e, j, id, source, terrible, {id});
    MidForms(e, Place(e, j, id, source, terrible, {id}), {}, 0);
  }

  lemma AddUnknownDoes(e: Env, s: State, a: Address, source: NetAddr, penalty: int, terrible: Stats -> bool)
    requires Formed(s) && Find(s, a.service.net).None? && a.service.net !in s.addr && Mid(e, s, {}, 0)
    ensures Offered(e, s, AddUnknown(e, s, a, source, penalty, terrible), a, source, U32(Max(0, a.time - penalty)),
                    terrible)
  {
    hide Mid; hide Find; hide Place; hide Delete; hide Shaped; hide Stored; hide SlotTaken; hide Joined; hide Create;
    hide Frees; hide NewSlot;
    var st := Stats(a.services, U32(Max(0, a.time - penalty)), source, 0, 0, 0, 0);
    var b := e.NewBucket(a.service, source);
    var p := e.NewPos(a.service, b);
    var j, id := Joined(s, a, source, penalty), s.idCount;
    JoinedKeepsMid(e, s, a, source, penalty);
    JoinedIs(e, s, a, source, penalty);
    SlotOccupant(e, s, b, p);
    JoinedOccupant(e, s, j, id, b, p, terrible);
    PlaceJoined(e, j, id, source, b, p, terrible);
    if Frees(j, id, b, p, terrible) {
      PositionOf(e, s);
      StoredFromJoined(s, a.service, st, j, Place(e, j, id, source, terrible, {id}), id, b, p);
    } else {
      DeleteJoined(s, a.service, st);
    }
  }

  lemma SlotOccupant(e: Env, s: State, b: nat, p: nat)
    requires Formed(s) && b < NEW_BUCKET_COUNT && p < BUCKET_SIZE && Mid(e, s, {}, 0)
    ensures NewSlot(s, b, p) != -1 ==> NewSlot(s, b, p) in s.svcs
  {
    hide Mid; hide Shaped;
    OccupantFacts(e, s, b, p, {}, 0);
  }

  /** An unknown address is stored if there is room for it, and always reported as new. */
  lemma AddStores(e: Env, s: State, a: Address, source: NetAddr, penalty: int, now: int, coin: nat,
                  terrible: Stats -> bool)
    requires e.routable(a.service.net) && (forall x :: x in s.svcs ==> s.svcs[x].net != a.service.net)
    requires Mid(e, s, {}, 0)
    ensures Formed(s) && Add(e, s, a, source, penalty, now, coin, terrible).1
    ensures Offered(e, s, Add(e, s, a, source, penalty, now, coin, terrible).0, a, source,
                    TimeGiven(a, source, penalty), terrible)
  {
    hide Mid; hide Find; hide AddUnknown; hide Offered;
    MidForms(e, s, {}, 0);
    FindNoneIs(e, s, a.service.net);
    AddUnknownDoes(e, s, a, source, if a.service.net == source then 0 else penalty, terrible);
  }

  /** How a repeated announcement changes what is recorded of an entry: a day-old one counts if it is a day newer,
      a recent one if it is an hour newer. */
  ghost predicate Announced(before: Stats, after: Stats, a: Address, source: NetAddr, penalty: int, now: int) {
    var pen := if a.service.net == source then 0 else penalty;
    var interval := if now - a.time < 86400 then 3600 else 86400;
    && after.time == (if a.time != 0 && (before.time == 0 || before.time < a.time - interval - pen)
                      then TimeGiven(a, source, penalty) else before.time)
    && after.services == before.services + a.services && after.source == before.source
    && after.lastTry == before.lastTry && after.lastCountAttempt == before.lastCountAttempt
    && after.lastSuccess == before.lastSuccess && after.attempts == before.attempts
  }

  lemma UntriedReferenced(e: Env, s: State, id: int)
    requires Mid(e, s, {}, 0) && id in s.svcs && id !in s.tried
    ensures 0 < s.refs[id] <= NEW_BUCKETS_PER_ADDRESS
  {
    hide Indexed; hide NewPlaced; hide TriedPlaced; hide Counted;
  }

  /** The entry with other statistics is in the same places. */
  lemma WithStatsIs(e: Env, s: State, id: int, st: Stats)
    requires id in s.svcs && Mid(e, s, {}, 0)
    ensures Formed(s) && Mid(e, WithStats(s, id, st), {}, 0) && Formed(WithStats(s, id, st))
  {
    hide Mid;
    WithStatsKeepsMid(e, s, id, st);
    MidForms(e, s, {}, 0);
    MidForms(e, WithStats(s, id, st), {}, 0);
  }

  lemma AddKnownDoes(e: Env, s: State, id: int, a: Address, source: NetAddr, penalty: int, now: int, coin: nat,
                     terrible: Stats -> bool)
    requires Formed(s) && id in s.svcs && Mid(e, s, {}, 0)
    ensures var b := e.NewBucket(s.svcs[id], source);
      var p := e.NewPos(s.svcs[id], b);
      var t, st := AddKnown(e, s, id, a, source, penalty, now, coin, terrible), Refreshed(s.stats[id], a, penalty, now);
      var u, cur := WithStats(s, id, st), NewSlot(s, b, p);
      && (cur != -1 ==> cur in s.svcs) && Formed(u)
      && if EarnsSlot(s, id, a, st, coin) && cur != id && (cur == -1 || terrible(s.stats[cur]))
         then SlotTaken(u, t, id, b, p, s.refs[id] + 1)
         else t == u
  {
    hide Mid; hide Place; hide Shaped; hide SlotTaken; hide Refreshed; hide EarnsSlot; hide Delete;
    var b := e.NewBucket(s.svcs[id], source);
    var p := e.NewPos(s.svcs[id], b);
    var st := Refreshed(s.stats[id], a, penalty, now);
    WithStatsIs(e, s, id, st);
    OccupantFacts(e, s, b, p, {}, 0);
    if EarnsSlot(s, id, a, st, coin) {
      EarnsUntried(s, id, a, st, coin);
      UntriedReferenced(e, s, id);
      PlaceDoes(e, WithStats(s, id, st), id, source, terrible, {});
    }
  }

  /** What becomes of an entry whose address, whatever its port, is announced again. It gains a reference exactly when
      the announcement is news, it is not tried, has fewer than eight references, the draw allows it, and the slot for
      this source is free or held by another, terrible entry. */
  ghost predicate Repeated(e: Env, s: State, t: State, id: int, a: Address, source: NetAddr, penalty: int, now: int,
                           coin: nat, terrible: Stats -> bool)
    requires Formed(s) && id in s.svcs && (id !in s.tried ==> 0 <= s.refs[id])
  {
    var b := e.NewBucket(s.svcs[id], source);
    var p := e.NewPos(s.svcs[id], b);
    var cur := NewSlot(s, b, p);
    && id in t.stats && Announced(s.stats[id], t.stats[id], a, source, penalty, now)
    && (cur != -1 ==> cur in s.svcs)
    && var u := s.(stats := s.stats[id := t.stats[id]]);
       && Formed(u)
       && if && a.time != 0 && (t.stats[id].time == 0 || t.stats[id].time < a.time)
             && id !in s.tried && s.refs[id] < 8 && coin % Pow2(s.refs[id]) == 0
             && cur != id && (cur == -1 || terrible(s.stats[cur]))
          then SlotTaken(u, t, id, b, p, s.refs[id] + 1)
          else t == u
  }

  /** A known address is refreshed, and never reported as new. */
  lemma AddAnnounces(e: Env, s: State, id: int, a: Address, source: NetAddr, penalty: int, now: int, coin: nat,
                     terrible: Stats -> bool)
    requires e.routable(a.service.net) && id in s.svcs && s.svcs[id].net == a.service.net && Mid(e, s, {}, 0)
    ensures !Add(e, s, a, source, penalty, now, coin, terrible).1
    ensures Formed(s) && (id !in s.tried ==> 0 <= s.refs[id])
    ensures Repeated(e, s, Add(e, s, a, source, penalty, now, coin, terrible).0, id, a, source, penalty, now, coin,
                     terrible)
  {
    hide Mid; hide Find; hide AddKnown; hide SlotTaken; hide Shaped;
    MidForms(e, s, {}, 0);
    FindFinds(e, s, s.svcs[id]);
    if id !in s.tried { UntriedReferenced(e, s, id); }
    AddKnownDoes(e, s, id, a, source, if a.service.net == source then 0 else penalty, now, coin, terrible);
    TakenStats(e, s, id, a, source, penalty, now, coin, terrible);
  }

  /** An entry that takes a slot keeps its statistics. */
  lemma TakenStats(e: Env, s: State, id: int, a: Address, source: NetAddr, penalty: int, now: int, coin: nat,
                   terrible: Stats -> bool)
    requires e.routable(a.service.net) && id in s.svcs && s.svcs[id].net == a.service.net && Mid(e, s, {}, 0)
    ensures var t := Add(e, s, a, source, penalty, now, coin, terrible).0;
      var pen := if a.service.net == source then 0 else penalty;
      Formed(s) && id in t.stats && t.stats[id] == Refreshed(s.stats[id], a, pen, now)
  {
    hide Mid; hide Find; hide AddKnown; hide Shaped; hide Refreshed; hide EarnsSlot;
    MidForms(e, s, {}, 0);
    FindFinds(e, s, s.svcs[id]);
    AddKnownDoes(e, s, id, a, source, if a.service.net == source then 0 else penalty, now, coin, terrible);
  }

  // ----- the small updates -----

  /** Nothing is recorded of an address that is unknown or has another port. */
  lemma TouchOfUnknown(e: Env, s: State, svc: Service, f: Stats -> Stats)
    requires Mid(e, s, {}, 0) && Unknown(s, svc)
    ensures Formed(s) && Touch(s, svc, f) == s
  {
    hide Mid; hide Find; hide Unknown;
    MidForms(e, s, {}, 0);
    FindFinds(e, s, svc);
  }

  lemma TouchDoes(e: Env, s: State, id: int, f: Stats -> Stats)
    requires Mid(e, s, {}, 0) && id in s.svcs
    ensures Formed(s) && Touch(s, s.svcs[id], f) == s.(stats := s.stats[id := f(s.stats[id])])
  {
    hide Mid; hide Find;
    MidForms(e, s, {}, 0);
    FindFinds(e, s, s.svcs[id]);
  }

  /** An attempt is noted; it counts once for each time some address worked. */
  lemma AttemptDoes(e: Env, s: State, id: int, countFailure: bool, time: int)
    requires Mid(e, s, {}, 0) && id in s.svcs
    ensures Formed(s)
    ensures var t := Attempt(s, s.svcs[id], countFailure, time);
      && id in t.stats && t == s.(stats := s.stats[id := t.stats[id]])
      && var before, after := s.stats[id], t.stats[id];
         && after.lastTry == time && after.lastSuccess == before.lastSuccess && after.source == before.source
         && after.time == before.time && after.services == before.services
         && if countFailure && before.lastCountAttempt < s.lastGood
            then after.lastCountAttempt == time && after.attempts == before.attempts + 1
            else after.lastCountAttempt == before.lastCountAttempt && after.attempts == before.attempts
  {
    hide Mid;
    TouchDoes(e, s, id, (st: Stats) =>
      if countFailure && st.lastCountAttempt < s.lastGood
      then st.(lastTry := time, lastCountAttempt := time, attempts := st.attempts + 1)
      else st.(lastTry := time));
  }

  /** The recorded time moves when it is more than twenty minutes old; nothing else is touched. */
  lemma ConnectedDoes(e: Env, s: State, id: int, time: int)
    requires Mid(e, s, {}, 0) && id in s.svcs
    ensures Formed(s)
    ensures var t := Connected(s, s.svcs[id], time);
      && id in t.stats && t == s.(stats := s.stats[id := t.stats[id]])
      && t.stats[id] == s.stats[id].(time := t.stats[id].time)
      && t.stats[id].time == if time - s.stats[id].time > 1200 then time % 0x1_0000_0000 else s.stats[id].time
  {
    hide Mid;
    TouchDoes(e, s, id, (st: Stats) => if time - st.time > 20 * 60 then st.(time := U32(time)) else st);
  }

  /** The recorded services become those given; nothing else is touched. */
  lemma SetServicesDoes(e: Env, s: State, id: int, services: set<nat>)
    requires Mid(e, s, {}, 0) && id in s.svcs
    ensures Formed(s)
    ensures var t := SetServices(s, s.svcs[id], services);
      && id in t.stats && t == s.(stats := s.stats[id := t.stats[id]])
      && t.stats[id] == s.stats[id].(services := services)
  {
    hide Mid;
    TouchDoes(e, s, id, (st: Stats) => st.(services := services));
  }

  // ----- GetAddr -----

  lemma {:induction false} ShuffleAgrees(r: seq<int>, good: set<int>, n: nat, limit: nat, f: nat -> nat, g: nat -> nat)
    requires n <= |r| && forall i: nat :: i >= n ==> f(i) == g(i)
    ensures Shuffle(r, good, n, limit, f) == Shuffle(r, good, n, limit, g)
    decreases |r| - n
  {
    if n < |r| { ShuffleAgrees(SwapAt(r, n, n + f(n) % (|r| - n)), good, n + 1, limit, f, g); }
  }

  /** An element of one arrangement stands somewhere in the other, past the part on which they agree. */
  lemma FindsIt(r: seq<int>, q: seq<int>, n: nat) returns (j: nat)
    requires Permuted(r, q, n) && n < |r|
    ensures n <= j < |r| && r[j] == q[n]
  {
    assert r == r[..n] + r[n..] && q == q[..n] + q[n..] && r[..n] == q[..n];
    assert multiset(r) == multiset(r[..n]) + multiset(r[n..]);
    assert multiset(q) == multiset(q[..n]) + multiset(q[n..]);
    var x := q[n];
    assert multiset(r)[x] == multiset(r[..n])[x] + multiset(r[n..])[x];
    assert multiset(q)[x] == multiset(q[..n])[x] + multiset(q[n..])[x];
    assert q[n..][0] == x && x in multiset(q[n..]);
    assert x in multiset(r[n..]);
    var k :| 0 <= k < |r[n..]| && r[n..][k] == q[n];
    j := n + k;
  }

  lemma Agreement(r: seq<int>, q: seq<int>, n: nat)
    requires Permuted(r, q, n) && n <= |r|
    ensures |q| == |r| && r[..n] == q[..n]
  {
  }

  lemma SwapTowards(r: seq<int>, q: seq<int>, n: nat, j: nat)
    requires Permuted(r, q, n) && n <= j < |r| && r[j] == q[n]
    ensures Permuted(SwapAt(r, n, j), q, n + 1)
  {
    assert multiset(SwapAt(r, n, j)) == multiset(r);
  }

  lemma ShuffleOnce(r: seq<int>, good: set<int>, n: nat, limit: nat, rnd: nat -> nat, j: nat)
    requires n <= j < |r| && |Keep(r[..n], good)| < limit && rnd(n) == j - n
    ensures Shuffle(r, good, n, limit, rnd) == Shuffle(SwapAt(r, n, j), good, n + 1, limit, rnd)
  {
    hide Keep; hide SwapAt;
    SmallModulo(j - n, |r| - n);
  }

  lemma SmallModulo(x: nat, d: nat)
    requires x < d
    ensures x % d == x
  {
  }

  lemma ShuffleDone(r: seq<int>, good: set<int>, n: nat, limit: nat, rnd: nat -> nat)
    requires n <= |r| && (n == |r| || |Keep(r[..n], good)| >= limit)
    ensures Shuffle(r, good, n, limit, rnd) == (r, n)
  {
    hide Keep; hide SwapAt;
  }

  /** Every order of the ids can be drawn. */
  lemma {:induction false} ShuffleReaches(r: seq<int>, q: seq<int>, good: set<int>, n: nat, limit: nat)
    returns (rnd: nat -> nat)
    requires n <= |r| && Permuted(r, q, n)
    ensures var (x, k) := Shuffle(r, good, n, limit, rnd); k <= |x| == |q| && x[..k] == q[..k]
    decreases |r| - n
  {
    hide Keep; hide Permuted; hide SwapAt; hide Shuffle;
    Agreement(r, q, n);
    if n == |r| || |Keep(r[..n], good)| >= limit {
      rnd := i => 0;
      ShuffleDone(r, good, n, limit, rnd);
    } else {
      var j := FindsIt(r, q, n);
      var next := SwapAt(r, n, j);
      SwapTowards(r, q, n, j);
      Agreement(next, q, n + 1);
      var rest := ShuffleReaches(next, q, good, n + 1, limit);
      rnd := i => if i == n then j - n else rest(i);
      ShuffleAgrees(next, good, n + 1, limit, rnd, rest);
      ShuffleOnce(r, good, n, limit, rnd, j);
    }
  }

  /** Whatever order of the known addresses one has in mind, some draws return the good ones in that order. */
  lemma GetAddrReaches(s: State, q: seq<int>, terrible: Stats -> bool) returns (rnd: nat -> nat, k: nat)
    requires |q| == |s.random| && multiset(q) == multiset(s.random)
    ensures var (t, ids) := GetAddr(s, rnd, terrible);
      k <= |q| == |t.random| && t.random[..k] == q[..k] && ids == Keep(q[..k], GoodIds(s, terrible))
  {
    hide Keep; hide Shuffle; hide PositionsOf;
    rnd := ShuffleReaches(s.random, q, GoodIds(s, terrible), 0, Limit(|s.random|));
    k := Shuffle(s.random, GoodIds(s, terrible), 0, Limit(|s.random|), rnd).1;
  }

  // ----- pending collisions -----

  /** The pending entry is given up: it is gone or no longer valid, or the tried entry in its way worked lately. */
  ghost predicate GivesUp(e: Env, s: State, id: int, clock: Clock)
    requires Formed(s)
  {
    || id !in s.svcs || !e.valid(s.svcs[id].net)
    || var other := TriedSlot(e, s, s.svcs[id]);
       other in s.stats && clock(id, 0) - s.stats[other].lastSuccess < 4 * 3600
  }

  /** The pending entry gets the slot: the entry in its way has been tried within four hours, but not in the last
      minute, or has not been tried though the pending one worked more than forty minutes ago. */
  ghost predicate GetsSlot(e: Env, s: State, id: int, clock: Clock)
    requires Formed(s) && id in s.svcs
  {
    var other := TriedSlot(e, s, s.svcs[id]);
    other in s.stats ==>
      if clock(id, 1) - s.stats[other].lastTry < 4 * 3600 then clock(id, 2) - s.stats[other].lastTry > 60
      else clock(id, 4) - s.stats[id].lastSuccess > 40 * 60
  }

  /** The reading of the clock at which the pending entry is taken to have worked. */
  ghost function MoveTime(e: Env, s: State, id: int, clock: Clock): int
    requires Formed(s) && id in s.svcs
  {
    var other := TriedSlot(e, s, s.svcs[id]);
    clock(id, if other !in s.stats then 6 else if clock(id, 1) - s.stats[other].lastTry < 4 * 3600 then 3 else 5)
  }

  /** `id` worked at this time: it is now in its tried slot. */
  ghost predicate NowTried(e: Env, s: State, t: State, id: int, time: int)
    requires Formed(s) && Formed(t) && id in s.svcs
  {
    && StatsWorked(s, t, id, time) && t.lastGood == time
    && if id in s.tried then t == s.(lastGood := time, stats := t.stats) && t.stats.Keys == s.stats.Keys
       else Moved(e, s, t, id)
  }

  /** What becomes of one pending collision. */
  ghost predicate Resolved(e: Env, s: State, t: State, id: int, clock: Clock)
    requires Formed(s) && Formed(t)
  {
    if GivesUp(e, s, id, clock) then t == s.(collisions := s.collisions - {id})
    else if GetsSlot(e, s, id, clock) then
      && t.collisions == s.collisions - {id}
      && NowTried(e, s, t.(collisions := s.collisions), id, MoveTime(e, s, id, clock))
    else t == s
  }

  lemma ResolveOneDoes(e: Env, s: State, id: int, clock: Clock)
    requires Inv(e, s)
    ensures var t := ResolveOne(e, s, id, clock);
      Formed(s) && Formed(t) && Resolved(e, s, t, id, clock)
  {
    hide Mid; hide Shaped; hide Moved; hide StatsWorked; hide Good; hide CollisionsHeld; hide TriedSlot;
    MidForms(e, s, {}, 0);
    ResolveOneKeepsInv(e, s, id, clock);
    MidForms(e, ResolveOne(e, s, id, clock), {}, 0);
    if id in s.svcs {
      TriedOccupant(e, s, s.svcs[id]);
      var time := MoveTime(e, s, id, clock);
      GoodMovesEither(e, s, id, time);
      var good := Good(e, s, s.svcs[id], false, time);
      assert good.(collisions := good.collisions - {id}).(collisions := s.collisions) == good;
    }
  }

  lemma GoodMovesEither(e: Env, s: State, id: int, time: int)
    requires Inv(e, s) && id in s.svcs
    ensures var t := Good(e, s, s.svcs[id], false, time);
      Formed(s) && Formed(t) && NowTried(e, s, t, id, time) && t.collisions == s.collisions
  {
    hide Mid; hide Shaped; hide Good; hide MovedIn; hide MovedFor; hide CollisionsHeld; hide TriedSlot;
    MidForms(e, s, {}, 0);
    GoodKeepsMid(e, s, s.svcs[id], false, time);
    if id in s.tried { GoodStays(e, s, id, false, time); } else { GoodMoves(e, s, id, false, time); }
  }

  /** Resolving goes through the pending ids in increasing order and decides each on the state it finds. */
  lemma {:induction false} ResolveDoes(e: Env, s: State, k: nat, clock: Clock) returns (states: seq<State>)
    requires Inv(e, s) && k <= s.idCount
    ensures |states| == s.idCount - k + 1 && states[0] == s && states[|states| - 1] == ResolveFrom(e, s, k, clock)
    ensures forall i :: 0 <= i < |states| ==> Formed(states[i])
    ensures forall i :: 0 <= i < s.idCount - k ==>
      if k + i in s.collisions then Resolved(e, states[i], states[i + 1], k + i, clock) else states[i + 1] == states[i]
    decreases s.idCount - k
  {
    hide Mid; hide Resolved; hide ResolveOne; hide CollisionsHeld; hide Shaped;
    MidForms(e, s, {}, 0);
    if k == s.idCount {
      states := [s];
    } else {
      var t := if k in s.collisions then ResolveOne(e, s, k, clock) else s;
      ResolveOneKeepsInv(e, s, k, clock);
      ResolveOneDoes(e, s, k, clock);
      var rest := ResolveDoes(e, t, k + 1, clock);
      states := [s] + rest;
    }
  }
}
