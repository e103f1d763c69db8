/** `CAddrMan` with its fields updated in place, refining `AddrManOps`. */
module AddrMan {
  import opened AddrManState
  import opened AddrManProofs
  import opened AddrManOps
  import opened Powers
  import opened Basics
  import opened AddrManRuns
  import opened AddrManEntries

  /** The first k buckets cleared of `id`. */
  ghost function EmptiedTo(e: Env, t: Table, svc: Service, id: int, k: nat): (r: Table)
    requires Shaped(t, NEW_BUCKET_COUNT) && k <= NEW_BUCKET_COUNT
    ensures Shaped(r, NEW_BUCKET_COUNT)
  {
    Emptied(e, t, svc, id)[..k] + t[k..]
  }

  ghost function BucketsTo(e: Env, t: Table, svc: Service, id: int, k: nat): set<int>
    requires Shaped(t, NEW_BUCKET_COUNT)
  {
    set b | b in Buckets(e, t, svc, id) && b < k
  }

  lemma EmptyOneMore(e: Env, t: Table, svc: Service, id: int, k: nat)
    requires Shaped(t, NEW_BUCKET_COUNT) && k < NEW_BUCKET_COUNT
    ensures EmptiedTo(e, t, svc, id, k)[k] == t[k]
    ensures var p := e.NewPos(svc, k);
      if t[k][p] == id then
        && EmptiedTo(e, t, svc, id, k + 1) == Put(EmptiedTo(e, t, svc, id, k), k, p, -1)
        && |BucketsTo(e, t, svc, id, k + 1)| == |BucketsTo(e, t, svc, id, k)| + 1
      else
        && EmptiedTo(e, t, svc, id, k + 1) == EmptiedTo(e, t, svc, id, k)
        && BucketsTo(e, t, svc, id, k + 1) == BucketsTo(e, t, svc, id, k)
  {
    var p := e.NewPos(svc, k);
    if t[k][p] == id { assert BucketsTo(e, t, svc, id, k + 1) == BucketsTo(e, t, svc, id, k) + {k}; }
  }

  lemma EmptyEnds(e: Env, t: Table, svc: Service, id: int)
    requires Shaped(t, NEW_BUCKET_COUNT)
    ensures EmptiedTo(e, t, svc, id, 0) == t && |BucketsTo(e, t, svc, id, 0)| == 0
    ensures EmptiedTo(e, t, svc, id, NEW_BUCKET_COUNT) == Emptied(e, t, svc, id)
    ensures BucketsTo(e, t, svc, id, NEW_BUCKET_COUNT) == Buckets(e, t, svc, id)
  {
    assert BucketsTo(e, t, svc, id, 0) == {};
  }

  /** The k-th new bucket probed from a random start. */
  function Probe(k: int, rnd: nat): int { (k + rnd) % NEW_BUCKET_COUNT }

  class CAddrMan {
    const env: Env
    var nIdCount: int
    var mapInfo: map<int, Entry>
    var mapAddr: map<NetAddr, int>
    var vRandom: seq<int>
    var nTried: int
    var vvTried: Table
    var nNew: int
    var vvNew: Table
    var nLastGood: int
    var triedCollisions: set<int>

    ghost function View(): State
      reads this
    {
      State(nIdCount, Services(mapInfo), Positions(mapInfo), RefCounts(mapInfo), TriedIds(mapInfo), StatsOf(mapInfo),
            mapAddr, vRandom, nTried, vvTried, nNew, vvNew, nLastGood, triedCollisions)
    }

    ghost predicate Valid()
      reads this
    {
      Inv(env, View())
    }

    constructor (e: Env)
      ensures env == e && View() == Cleared() && Valid()
    {
      env := e;
      vRandom := [];
      vvNew := EmptyTable(NEW_BUCKET_COUNT);
      vvTried := EmptyTable(TRIED_BUCKET_COUNT);
      nIdCount, nTried, nNew, nLastGood := 0, 0, 0, 1;
      mapInfo, mapAddr := map[], map[];
      triedCollisions := {};
      new;
      ClearedInv(e);
    }

    method SwapRandom(i: nat, j: nat)
      requires i < |vRandom| && j < |vRandom| && vRandom[i] in mapInfo && vRandom[j] in mapInfo
      requires i != j ==> vRandom[i] != vRandom[j]
      modifies this`mapInfo, this`vRandom
      ensures View() == AddrManState.SwapRandom(old(View()), i, j)
      ensures Reordered(old(mapInfo), mapInfo)
    {
      hide Services; hide Positions; hide RefCounts; hide TriedIds; hide StatsOf;
      if i == j { return; }
      var id1, id2 := vRandom[i], vRandom[j];
      SetPosition(mapInfo, id1, j);
      mapInfo := mapInfo[id1 := mapInfo[id1].(randomPos := j)];
      SetPosition(mapInfo, id2, i);
      mapInfo := mapInfo[id2 := mapInfo[id2].(randomPos := i)];
      vRandom := vRandom[i := id2][j := id1];
    }

    method Find(addr: NetAddr) returns (found: bool, id: int)
      ensures AddrManState.Find(View(), addr) == if found then Some(id) else None
      ensures found ==> id in mapInfo
    {
      found := addr in mapAddr && mapAddr[addr] in mapInfo;
      id := if found then mapAddr[addr] else 0;
    }

    method Create(addr: Address, source: NetAddr) returns (id: int)
      modifies this
      ensures id == old(nIdCount) && id in mapInfo
      ensures View() == AddrManState.Create(old(View()), addr.service,
        Stats(addr.services, addr.time, source, 0, 0, 0, 0))
    {
      id := nIdCount;
      nIdCount := nIdCount + 1;
      var entry := Entry(addr.service, Stats(addr.services, addr.time, source, 0, 0, 0, 0), 0, false, |vRandom|);
      NewEntry(mapInfo, id, entry);
      mapInfo := mapInfo[id := entry];
      mapAddr := mapAddr[addr.service.net := id];
      vRandom := vRandom + [id];
    }

    method Delete(id: int)
      requires Formed(View()) && RandomIndex(View().pos, vRandom)
      requires id in mapInfo && !mapInfo[id].inTried && mapInfo[id].refCount == 0
      modifies this
      ensures id in old(View()).svcs && View() == AddrManState.Delete(old(View()), id)
    {
      hide RandomIndex; hide Formed; hide Services; hide Positions; hide RefCounts; hide TriedIds; hide StatsOf;
      LastPosition(mapInfo, vRandom, id);
      Known(mapInfo, id);
      var net := mapInfo[id].service.net;
      SwapRandom(mapInfo[id].randomPos, |vRandom| - 1);
      vRandom := vRandom[..|vRandom| - 1];
      mapAddr := mapAddr - {net};
      DropEntry(mapInfo, id);
      mapInfo := mapInfo - {id};
      nNew := nNew - 1;
    }

    method ClearNew(b: nat, p: nat)
      requires Formed(View()) && RandomIndex(View().pos, vRandom) && b < NEW_BUCKET_COUNT && p < BUCKET_SIZE
      requires Occupied(mapInfo, vvNew, b, p)
      modifies this
      ensures View() == AddrManState.ClearNew(old(View()), b, p)
    {
      hide RandomIndex; hide AddrManState.Delete; hide Positions; hide StatsOf; hide TriedIds; hide RefCounts;
      if vvNew[b][p] != -1 {
        var id := vvNew[b][p];
        Known(mapInfo, id);
        SetRefCount(mapInfo, id, mapInfo[id].refCount - 1);
        mapInfo := mapInfo[id := mapInfo[id].(refCount := mapInfo[id].refCount - 1)];
        vvNew := Put(vvNew, b, p, -1);
        Known(mapInfo, id);
        if mapInfo[id].refCount == 0 {
          Delete(id);
        }
      }
    }

    /** Removes the entry from all new buckets. */
    method EraseFromNew(id: int)
      requires Shaped(vvNew, NEW_BUCKET_COUNT) && id in mapInfo
      modifies this`vvNew, this`mapInfo
      ensures vvNew == Emptied(env, old(vvNew), old(mapInfo)[id].service, id)
      ensures var x := old(mapInfo)[id];
        mapInfo == old(mapInfo)[id := x.(refCount := x.refCount - |Buckets(env, old(vvNew), x.service, id)|)]
    {
      hide EmptiedTo; hide BucketsTo; hide Emptied; hide Buckets;
      ghost var t, m, x := vvNew, mapInfo, mapInfo[id];
      var bucket := 0;
      EmptyEnds(env, t, x.service, id);
      while bucket < NEW_BUCKET_COUNT
        invariant 0 <= bucket <= NEW_BUCKET_COUNT
        invariant vvNew == EmptiedTo(env, t, x.service, id, bucket)
        invariant mapInfo == m[id := x.(refCount := x.refCount - |BucketsTo(env, t, x.service, id, bucket)|)]
      {
        EmptyOneMore(env, t, x.service, id, bucket);
        var pos := env.NewPos(mapInfo[id].service, bucket);
        if vvNew[bucket][pos] == id {
          vvNew := Put(vvNew, bucket, pos, -1);
          mapInfo := mapInfo[id := mapInfo[id].(refCount := mapInfo[id].refCount - 1)];
        }
        bucket := bucket + 1;
      }
    }

    method LeaveNew(id: int)
      requires Formed(View()) && id in mapInfo
      modifies this
      ensures id in old(View()).svcs && id in mapInfo && mapInfo[id].service == old(mapInfo)[id].service
      ensures View() == AddrManState.LeaveNew(env, old(View()), id)
    {
      hide Emptied; hide Buckets; hide Services; hide Positions; hide TriedIds; hide StatsOf; hide RefCounts;
      hide Shaped;
      TablesShaped(View());
      Known(mapInfo, id);
      EraseFromNew(id);
      SetRefCount(old(mapInfo), id, mapInfo[id].refCount);
      nNew := nNew - 1;
    }

    /** Takes the occupant of tried slot (b, p) out of the tried table. */
    method LeaveTried(b: nat, p: nat) returns (id: int)
      requires Formed(View()) && b < TRIED_BUCKET_COUNT && p < BUCKET_SIZE && vvTried[b][p] in mapInfo
      modifies this
      ensures id == old(vvTried[b][p]) && id in mapInfo
      ensures View() == AddrManState.LeaveTried(old(View()), b, p)
    {
      id := vvTried[b][p];
      SetTried(mapInfo, id, false);
      mapInfo := mapInfo[id := mapInfo[id].(inTried := false)];
      vvTried := Put(vvTried, b, p, -1);
      nTried := nTried - 1;
    }

    method EnterTried(id: int, b: nat, p: nat)
      requires Formed(View()) && b < TRIED_BUCKET_COUNT && p < BUCKET_SIZE && id in mapInfo
      modifies this
      ensures View() == AddrManState.EnterTried(old(View()), id, b, p)
    {
      vvTried := Put(vvTried, b, p, id);
      nTried := nTried + 1;
      SetTried(mapInfo, id, true);
      mapInfo := mapInfo[id := mapInfo[id].(inTried := true)];
    }

    method EnterNew(id: int, b: nat, p: nat, refs: int)
      requires Formed(View()) && b < NEW_BUCKET_COUNT && p < BUCKET_SIZE && id in mapInfo
      modifies this
      ensures View() == AddrManState.EnterNew(old(View()), id, b, p, refs)
    {
      SetRefCount(mapInfo, id, refs);
      mapInfo := mapInfo[id := mapInfo[id].(refCount := refs)];
      vvNew := Put(vvNew, b, p, id);
    }

    /** Puts an entry that just left the tried table into its new bucket. */
    method Readmit(id: int, nb: nat, np: nat)
      requires id in mapInfo && id in View().svcs && id in View().stats
      requires nb == HomeBucket(env, View(), id) && np == HomePos(env, View(), id) && Clearable(View(), nb, np)
      requires Occupied(mapInfo, vvNew, nb, np) && vvNew[nb][np] != id
      modifies this
      ensures View() == AddrManOps.Readmit(env, old(View()), id)
    {
      hide RandomIndex; hide AddrManState.ClearNew; hide ClearedOnly; hide Services; hide Positions; hide RefCounts;
      hide TriedIds; hide StatsOf; hide AddrManState.EnterNew;
      ghost var v := View();
      OccupantNew(mapInfo, v, nb, np);
      ClearNewEffect(v, nb, np);
      ClearedKeeps(v, AddrManState.ClearNew(v, nb, np), nb, np, id);
      ClearNew(nb, np);
      Known(mapInfo, id);
      EnterNew(id, nb, np, 1);
      nNew := nNew + 1;
    }

    /** Moves the entry from the new table to the tried table; a tried entry in its way goes back to new. */
    method MakeTried(id: int)
      requires Mid(env, View(), {}, 0) && id in mapInfo && !mapInfo[id].inTried
      modifies this
      ensures id in old(View()).svcs && View() == AddrManOps.MakeTried(env, old(View()), id)
    {
      hide Mid; hide AddrManOps.Readmit; hide AddrManState.ClearNew; hide HomeBucket; hide HomePos; hide Vacated;
      hide Clearable; hide AddrManState.EnterTried; hide Positions; hide RefCounts; hide StatsOf; hide Shaped;
      ghost var v := View();
      VacateKeepsMid(env, v, id);
      MakeTriedReady(env, v, id);
      RefsAreBuckets(env, v, id);
      TriedOccupant(env, v, mapInfo[id].service);
      var tb, tp := env.TriedBucket(mapInfo[id].service), env.TriedPos(mapInfo[id].service);
      var evicted := Vacate(id, tb, tp);
      if evicted != -1 {
        ReadmitEffect(env, View(), evicted, {id, evicted}, 1);
        ReadmitFromTried(id, evicted);
      }
      Known(mapInfo, id);
      EnterTried(id, tb, tp);
    }

    /** Takes the entry out of the new table and the occupant of its tried slot out of the tried table. */
    method Vacate(id: int, tb: nat, tp: nat) returns (evicted: int)
      requires Formed(View()) && id in mapInfo
      requires tb == env.TriedBucket(mapInfo[id].service) && tp == env.TriedPos(mapInfo[id].service)
      requires TriedSlot(env, View(), mapInfo[id].service) != -1 ==>
        TriedSlot(env, View(), mapInfo[id].service) in mapInfo
      requires View().refs[id] == |Buckets(env, vvNew, mapInfo[id].service, id)|
      modifies this
      ensures id in old(View()).svcs && evicted == TriedSlot(env, old(View()), old(mapInfo)[id].service)
      ensures View() == Vacated(env, old(View()), id)
    {
      hide Emptied; hide Buckets; hide Positions; hide StatsOf;
      LeaveNew(id);
      assert View().refs[id] == 0;
      evicted := vvTried[tb][tp];
      if evicted != -1 {
        assert evicted in View().svcs;
        evicted := LeaveTried(tb, tp);
      }
    }

    method ReadmitFromTried(ghost id: int, evicted: int)
      requires evicted in mapInfo && evicted in View().svcs && evicted in View().stats
      requires Clearable(View(), HomeBucket(env, View(), evicted), HomePos(env, View(), evicted))
      requires Mid(env, View(), {id, evicted}, 2)
      requires forall x :: x in {id, evicted} && x in View().svcs ==> View().refs[x] == 0
      modifies this
      ensures View() == AddrManOps.Readmit(env, old(View()), evicted)
    {
      hide Mid; hide AddrManOps.Readmit; hide AddrManState.ClearNew; hide RandomIndex; hide Shaped;
      var nb := env.NewBucket(mapInfo[evicted].service, mapInfo[evicted].st.source);
      var np := env.NewPos(mapInfo[evicted].service, nb);
      OccupantFacts(env, View(), nb, np, {id, evicted}, 2);
      OccupiedBy(mapInfo, View(), nb, np);
      Readmit(evicted, nb, np);
    }

    /** Searches the new buckets, from a random one on, for one that holds `id`. */
    method FindNewBucket(id: int, rnd: nat) returns (bucket: int)
      requires Shaped(vvNew, NEW_BUCKET_COUNT) && id in mapInfo
      ensures bucket == -1 <==> Buckets(env, vvNew, mapInfo[id].service, id) == {}
      ensures bucket != -1 ==> bucket in Buckets(env, vvNew, mapInfo[id].service, id)
    {
      var svc := mapInfo[id].service;
      bucket := -1;
      var n := 0;
      while n < NEW_BUCKET_COUNT
        invariant 0 <= n <= NEW_BUCKET_COUNT
        invariant forall k :: 0 <= k < n ==> Probe(k, rnd) !in Buckets(env, vvNew, svc, id)
      {
        var b := Probe(n, rnd);
        if vvNew[b][env.NewPos(svc, b)] == id {
          assert b in Buckets(env, vvNew, svc, id);
          return b;
        }
        n := n + 1;
      }
      forall b | 0 <= b < NEW_BUCKET_COUNT ensures b !in Buckets(env, vvNew, svc, id) {
        var k := (b - rnd) % NEW_BUCKET_COUNT;
        assert Probe(k, rnd) == b;
      }
    }

    method SetStats(id: int, st: Stats)
      requires id in mapInfo
      modifies this`mapInfo
      ensures mapInfo == old(mapInfo)[id := old(mapInfo)[id].(st := st)]
      ensures View() == old(View()).(stats := old(View()).stats[id := st])
    {
      SetStat(mapInfo, id, st);
      mapInfo := mapInfo[id := mapInfo[id].(st := st)];
    }

    /** `Good_`. `rnd` is the random bucket the search starts from; the search always succeeds. */
    method Good(addr: Service, testBeforeEvict: bool, time: int, rnd: nat)
      requires Mid(env, View(), {}, 0)
      modifies this
      ensures View() == AddrManOps.Good(env, old(View()), addr, testBeforeEvict, time)
    {
      hide Mid; hide AddrManOps.MakeTried; hide Shaped; hide Services; hide Positions; hide RefCounts; hide StatsOf;
      hide TriedIds; hide Buckets;
      ghost var v := View();
      MidForms(env, v, {}, 0);
      TablesShaped(v);
      nLastGood := time;
      var found, id := Find(addr.net);
      Known(mapInfo, id);
      if !found || mapInfo[id].service != addr { return; }
      SetStats(id, mapInfo[id].st.(lastSuccess := time, lastTry := time, attempts := 0));
      assert View() == Worked(v, id, time);
      if mapInfo[id].inTried { return; }
      NewEntryHasBucket(env, v, id);
      var bucket := FindNewBucket(id, rnd);
      assert bucket != -1;
      var occupant := TriedOccupantOf(addr);
      if testBeforeEvict && occupant != -1 {
        if |triedCollisions| < SET_TRIED_COLLISION_SIZE {
          triedCollisions := triedCollisions + {id};
        }
      } else {
        WorkedKeepsMid(env, v, id, time);
        MakeTried(id);
      }
    }

    method TriedOccupantOf(addr: Service) returns (occupant: int)
      requires Formed(View())
      ensures occupant == TriedSlot(env, View(), addr)
    {
      occupant := vvTried[env.TriedBucket(addr)][env.TriedPos(addr)];
    }

    /** The last part of `Add_`: gives the entry a slot in the new bucket chosen by `source`, or drops it. */
    method Place(id: int, source: NetAddr, terrible: Stats -> bool, ghost limbo: set<int>)
      requires Mid(env, View(), limbo, 0) && limbo <= {id} && id in mapInfo && !mapInfo[id].inTried
      requires id in limbo ==> mapInfo[id].refCount == 0
      modifies this
      ensures id in old(View()).svcs && View() == AddrManOps.Place(env, old(View()), id, source, terrible, limbo)
    {
      hide Mid; hide AddrManState.ClearNew; hide AddrManState.Delete; hide RandomIndex; hide Clearable;
      hide AddrManState.EnterNew; hide Services; hide Positions; hide RefCounts; hide TriedIds; hide StatsOf;
      ghost var v := View();
      Known(mapInfo, id);
      var b := env.NewBucket(mapInfo[id].service, source);
      var p := env.NewPos(mapInfo[id].service, b);
      PlaceReady(env, v, id, b, p, limbo);
      OccupantFacts(env, v, b, p, limbo, 0);
      OccupiedBy(mapInfo, v, b, p);
      if vvNew[b][p] != id {
        var insert := vvNew[b][p] == -1;
        if !insert {
          Known(mapInfo, vvNew[b][p]);
          var existing := mapInfo[vvNew[b][p]];
          insert := terrible(existing.st) || (existing.refCount > 1 && mapInfo[id].refCount == 0);
        }
        assert insert == MayTake(v, id, b, p, terrible);
        if insert {
          TakeSlot(id, b, p);
        } else if mapInfo[id].refCount == 0 {
          Delete(id);
        }
      }
    }

    method TakeSlot(id: int, b: nat, p: nat)
      requires Clearable(View(), b, p) && id in mapInfo && Occupied(mapInfo, vvNew, b, p) && vvNew[b][p] != id
      modifies this
      ensures Formed(AddrManState.ClearNew(old(View()), b, p)) && id in old(View()).refs
      ensures View() ==
        AddrManState.EnterNew(AddrManState.ClearNew(old(View()), b, p), id, b, p, old(View()).refs[id] + 1)
    {
      hide RandomIndex; hide AddrManState.ClearNew; hide ClearedOnly; hide AddrManState.EnterNew; hide Positions;
      hide StatsOf; hide TriedIds;
      ghost var v := View();
      OccupantNew(mapInfo, v, b, p);
      ClearNewEffect(v, b, p);
      ClearedKeeps(v, AddrManState.ClearNew(v, b, p), b, p, id);
      ClearNew(b, p);
      Known(mapInfo, id);
      assert mapInfo[id].refCount == View().refs[id];
      EnterNew(id, b, p, mapInfo[id].refCount + 1);
    }

    /** `Add_`. */
    method Add(addr: Address, source: NetAddr, penalty: int, now: int, coin: nat, terrible: Stats -> bool)
      returns (added: bool)
      requires Mid(env, View(), {}, 0)
      modifies this
      ensures (View(), added) == AddrManOps.Add(env, old(View()), addr, source, penalty, now, coin, terrible)
    {
      hide Mid; hide AddrManOps.Place; hide AddKnown; hide Services; hide Positions; hide StatsOf; hide RefCounts;
      hide TriedIds; hide AddrManState.Create;
      ghost var v := View();
      if !env.routable(addr.service.net) { return false; }
      var found, id := Find(addr.service.net);
      var pen := if addr.service.net == source then 0 else penalty;
      if found {
        AddToKnown(id, addr, source, pen, now, coin, terrible);
        return false;
      }
      JoinedKeepsMid(env, v, addr, source, pen);
      var id' := Create(addr.(time := U32(Max(0, addr.time - pen))), source);
      nNew := nNew + 1;
      assert View() == Joined(v, addr, source, pen);
      Known(mapInfo, id');
      Place(id', source, terrible, {id'});
      return true;
    }

    method AddToKnown(id: int, addr: Address, source: NetAddr, pen: int, now: int, coin: nat, terrible: Stats -> bool)
      requires Mid(env, View(), {}, 0) && id in mapInfo
      modifies this
      ensures id in old(View()).svcs
      ensures View() == AddKnown(env, old(View()), id, addr, source, pen, now, coin, terrible)
    {
      hide Mid; hide AddrManOps.Place; hide Shaped; hide Refreshed; hide EarnsSlot; hide Services; hide Positions;
      hide StatsOf; hide RefCounts; hide TriedIds;
      ghost var v := View();
      MidForms(env, v, {}, 0);
      Known(mapInfo, id);
      var st := Refresh(mapInfo[id].st, addr, pen, now);
      WithStatsKeepsMid(env, v, id, st);
      SetStats(id, st);
      var earns := Earns(id, addr, st, coin, v);
      if earns {
        EarnsUntried(v, id, addr, st, coin);
        Place(id, source, terrible, {});
      }
    }

    /** What a repeated announcement makes of the statistics. */
    method Refresh(known: Stats, addr: Address, pen: int, now: int) returns (st: Stats)
      ensures st == Refreshed(known, addr, pen, now)
    {
      st := known;
      var online := now - addr.time < 24 * 60 * 60;
      var interval := if online then 60 * 60 else 24 * 60 * 60;
      if addr.time != 0 && (st.time == 0 || st.time < addr.time - interval - pen) {
        st := st.(time := U32(Max(0, addr.time - pen)));
      }
      st := st.(services := st.services + addr.services);
    }

    /** Whether a known entry may get another reference: news, not tried, not in all its buckets, and lucky. */
    method Earns(id: int, addr: Address, st: Stats, coin: nat, ghost v: State) returns (ok: bool)
      requires id in mapInfo && id in v.refs && v.refs[id] == mapInfo[id].refCount &&
        (id in v.tried <==> mapInfo[id].inTried)
      ensures ok <==> EarnsSlot(v, id, addr, st, coin)
    {
      if addr.time == 0 || (st.time != 0 && addr.time <= st.time) { return false; }
      if mapInfo[id].inTried { return false; }
      if mapInfo[id].refCount == NEW_BUCKETS_PER_ADDRESS { return false; }
      var factor := Doubled(mapInfo[id].refCount);
      if factor > 1 && coin % factor != 0 { return false; }
      return true;
    }

    /** The stochastic test's factor: doubled once for each reference. */
    method Doubled(refs: int) returns (factor: nat)
      ensures factor == if refs > 0 then Pow2(refs) else 1
      ensures factor > 1 <==> refs > 0
    {
      factor := 1;
      var n := 0;
      while n < refs
        invariant 0 <= n && (n <= refs || n == 0) && factor == Pow2(n) && (n > 0 ==> factor > 1)
      {
        factor := factor * 2;
        n := n + 1;
      }
    }

    method Attempt(addr: Service, countFailure: bool, time: int)
      requires Formed(View())
      modifies this
      ensures View() == AddrManOps.Attempt(old(View()), addr, countFailure, time)
    {
      var found, id := Find(addr.net);
      if !found || mapInfo[id].service != addr { return; }
      var st := mapInfo[id].st.(lastTry := time);
      if countFailure && st.lastCountAttempt < nLastGood {
        st := st.(lastCountAttempt := time, attempts := st.attempts + 1);
      }
      SetStats(id, st);
    }

    method Connected(addr: Service, time: int)
      requires Formed(View())
      modifies this
      ensures View() == AddrManOps.Connected(old(View()), addr, time)
    {
      var found, id := Find(addr.net);
      if !found || mapInfo[id].service != addr { return; }
      if time - mapInfo[id].st.time > 20 * 60 {
        SetStats(id, mapInfo[id].st.(time := U32(time)));
      } else {
        assert StatsOf(mapInfo)[id := mapInfo[id].st] == StatsOf(mapInfo);
      }
    }

    method SetServices(addr: Service, services: set<nat>)
      requires Formed(View())
      modifies this
      ensures View() == AddrManOps.SetServices(old(View()), addr, services)
    {
      var found, id := Find(addr.net);
      if !found || mapInfo[id].service != addr { return; }
      SetStats(id, mapInfo[id].st.(services := services));
    }

    /** `GetAddr_`: the addresses of the ids returned. */
    method GetAddr(rnd: nat -> nat, terrible: Stats -> bool) returns (vAddr: seq<Address>, ghost ids: seq<int>)
      requires RandomIndex(Positions(mapInfo), vRandom)
      modifies this`mapInfo, this`vRandom
      ensures (View(), ids) == AddrManOps.GetAddr(old(View()), rnd, terrible)
      ensures Listed(vAddr, ids, old(mapInfo))
    {
      var nodes := GETADDR_MAX_PCT * |vRandom| / 100;
      if nodes > GETADDR_MAX { nodes := GETADDR_MAX; }
      vAddr, ids := Gather(nodes, rnd, terrible, mapInfo, GoodIds(View(), terrible));
      IndexUnique(Positions(mapInfo), vRandom);
      ReorderedAspects(old(mapInfo), mapInfo);
    }

    /** Shuffles the random order from the front, collecting the good entries. */
    method Gather(nodes: nat, rnd: nat -> nat, terrible: Stats -> bool, ghost m: map<int, Entry>, ghost good: set<int>)
      returns (vAddr: seq<Address>, ghost ids: seq<int>)
      requires RandomIndex(Positions(mapInfo), vRandom)
      requires m == mapInfo && AreGood(m, good, terrible)
      modifies this`mapInfo, this`vRandom
      ensures RandomIndex(Positions(mapInfo), vRandom) && Reordered(old(mapInfo), mapInfo)
      ensures var (r, k) := Shuffle(old(vRandom), good, 0, nodes, rnd);
        r == vRandom && k <= |r| && ids == Keep(r[..k], good)
      ensures Listed(vAddr, ids, old(mapInfo))
    {
      hide RandomIndex; hide Shuffle; hide Keep; hide Reordered; hide AreGood; hide Listed; hide AddressOf; hide Bad;
      ghost var r := vRandom;
      var n := 0;
      vAddr, ids := [], [];
      NothingListed(m, vRandom, good);
      while n < |vRandom|
        invariant 0 <= n <= |vRandom|
        invariant RandomIndex(Positions(mapInfo), vRandom) && Reordered(m, mapInfo)
        invariant Shuffle(vRandom, good, n, nodes, rnd) == Shuffle(r, good, 0, nodes, rnd)
        invariant ids == Keep(vRandom[..n], good) && Listed(vAddr, ids, m)
      {
        assert |vAddr| == |ids| by { ListLength(vAddr, ids, m); }
        if |vAddr| >= nodes { break; }
        var pos := rnd(n) % (|vRandom| - n) + n;
        ShuffleOnce(vRandom, good, n, pos, nodes, rnd);
        ghost var q := SwapAt(vRandom, n, pos);
        var entry := Draw(n, pos, m);
        assert q == vRandom;
        GoodHas(m, good, terrible, q[n]);
        ListMore(vAddr, ids, m, q[n]);
        if !Bad(terrible, entry.st) {
          vAddr, ids := vAddr + [AddressOf(entry)], ids + [vRandom[n]];
        }
        n := n + 1;
      }
      ShuffleDone(vRandom, good, n, nodes, rnd);
    }

    /** Swaps a drawn entry to position n and reads it. */
    method Draw(n: nat, pos: nat, ghost m: map<int, Entry>) returns (entry: Entry)
      requires RandomIndex(Positions(mapInfo), vRandom) && n < |vRandom| && pos < |vRandom| && Reordered(m, mapInfo)
      modifies this`mapInfo, this`vRandom
      ensures RandomIndex(Positions(mapInfo), vRandom) && vRandom == SwapAt(old(vRandom), n, pos) &&
        Reordered(m, mapInfo)
      ensures vRandom[n] in m && entry.st == m[vRandom[n]].st && AddressOf(entry) == AddressOf(m[vRandom[n]])
    {
      hide RandomIndex; hide Reordered;
      SwapStep(n, pos);
      ReorderedTransitive(m, old(mapInfo), mapInfo);
      RandomKnown(mapInfo, vRandom, n);
      assert vRandom[n] in mapInfo;
      entry := mapInfo[vRandom[n]];
      ReorderedAt(m, mapInfo, vRandom[n]);
    }

    /** One swap of `GetAddr_`, which keeps the random index. */
    method SwapStep(i: nat, j: nat)
      requires RandomIndex(Positions(mapInfo), vRandom) && i < |vRandom| && j < |vRandom|
      modifies this`mapInfo, this`vRandom
      ensures RandomIndex(Positions(mapInfo), vRandom) && vRandom == SwapAt(old(vRandom), i, j)
      ensures Reordered(old(mapInfo), mapInfo)
    {
      hide RandomIndex;
      RandomKnown(mapInfo, vRandom, i);
      RandomKnown(mapInfo, vRandom, j);
      if i != j { SwapKeepsRandomIndex(Positions(mapInfo), vRandom, i, j); }
      SwapRandom(i, j);
    }

    /** One pending collision. Its tried slot is occupied, so the source's branch for an empty slot is dead. */
    method ResolveOne(id: int, clock: Clock, rnd: nat)
      requires Inv(env, View()) && id in triedCollisions
      modifies this
      ensures View() == AddrManRuns.ResolveOne(env, old(View()), id, clock)
    {
      hide Mid; hide CollisionsHeld; hide AddrManOps.Good; hide Positions; hide RefCounts;
      ghost var v := View();
      var erase := false;
      if id !in mapInfo {
        erase := true;
      } else {
        var entry := mapInfo[id];
        CollisionStillThere(env, v, id);
        var slot := TriedOccupantOf(entry.service);
        assert slot != -1;
        if !env.valid(entry.service.net) {
          erase := true;
        } else {
          var occupant := mapInfo[slot];
          if clock(id, 0) - occupant.st.lastSuccess < REPLACEMENT_SECONDS {
            erase := true;
          } else if clock(id, 1) - occupant.st.lastTry < REPLACEMENT_SECONDS {
            if clock(id, 2) - occupant.st.lastTry > 60 {
              Good(entry.service, false, clock(id, 3), rnd);
              erase := true;
            }
          } else if clock(id, 4) - entry.st.lastSuccess > TEST_WINDOW {
            Good(entry.service, false, clock(id, 5), rnd);
            erase := true;
          }
        }
      }
      if erase {
        triedCollisions := triedCollisions - {id};
      }
    }

    /** `ResolveCollisions_`: the set is visited in increasing order of id. */
    method ResolveCollisions(clock: Clock, rnd: nat)
      requires Valid()
      modifies this
      ensures Valid() && View() == ResolveFrom(env, old(View()), 0, clock)
    {
      hide Mid; hide CollisionsHeld; hide AddrManRuns.ResolveOne;
      ghost var v := View();
      var id := 0;
      while id < nIdCount
        invariant 0 <= id && Inv(env, View()) && nIdCount == v.idCount
        invariant ResolveFrom(env, View(), id, clock) == ResolveFrom(env, v, 0, clock)
      {
        if id in triedCollisions {
          ResolveOneKeepsInv(env, View(), id, clock);
          ResolveOne(id, clock, rnd);
        }
        id := id + 1;
      }
    }

    /** `SelectTriedCollision_`: the tried entry that the pending id drawn wants to evict. */
    method SelectTriedCollision(pick: int) returns (r: Option<Entry>)
      requires Valid() && (triedCollisions != {} ==> pick in triedCollisions)
      modifies this
      ensures Valid() && View() == SelectCollision(env, old(View()), pick).0
      ensures r.Some? <==> SelectCollision(env, old(View()), pick).1.Some?
      ensures r.Some? ==> r.value.inTried && SelectCollision(env, old(View()), pick).1.value in mapInfo
                          && r.value == mapInfo[SelectCollision(env, old(View()), pick).1.value]
    {
      hide Mid; hide CollisionsHeld;
      ghost var v := View();
      SelectCollisionCorrect(env, v, pick);
      MidForms(env, v, {}, 0);
      if triedCollisions == {} { return None; }
      if pick !in mapInfo {
        triedCollisions := triedCollisions - {pick};
        return None;
      }
      var occupant := TriedOccupantOf(mapInfo[pick].service);
      assert occupant in v.tried;
      r := Some(mapInfo[occupant]);
    }
  }

  /** `good` are the entries that are not terrible. */
  ghost predicate AreGood(m: map<int, Entry>, good: set<int>, terrible: Stats -> bool) {
    forall id :: id in m ==> (id in good <==> !Bad(terrible, m[id].st))
  }

  lemma GoodHas(m: map<int, Entry>, good: set<int>, terrible: Stats -> bool, id: int)
    requires AreGood(m, good, terrible) && id in m
    ensures id in good <==> !Bad(terrible, m[id].st)
  {
  }

  predicate Bad(terrible: Stats -> bool, st: Stats) { terrible(st) }

  ghost predicate Listed(vAddr: seq<Address>, ids: seq<int>, m: map<int, Entry>) {
    |vAddr| == |ids| && forall i :: 0 <= i < |ids| ==> ids[i] in m && vAddr[i] == AddressOf(m[ids[i]])
  }

  lemma NothingListed(m: map<int, Entry>, random: seq<int>, good: set<int>)
    ensures Reordered(m, m) && Listed([], [], m) && Keep(random[..0], good) == []
  {
  }

  lemma ListLength(vAddr: seq<Address>, ids: seq<int>, m: map<int, Entry>)
    requires Listed(vAddr, ids, m)
    ensures |vAddr| == |ids|
  {
  }

  lemma ListMore(vAddr: seq<Address>, ids: seq<int>, m: map<int, Entry>, id: int)
    requires Listed(vAddr, ids, m) && id in m
    ensures Listed(vAddr + [AddressOf(m[id])], ids + [id], m)
  {
  }

  lemma ShuffleOnce(r: seq<int>, good: set<int>, n: nat, pos: nat, limit: nat, rnd: nat -> nat)
    requires n < |r| && pos == rnd(n) % (|r| - n) + n && |Keep(r[..n], good)| < limit
    ensures var q := SwapAt(r, n, pos);
      && Keep(q[..n + 1], good) == Keep(r[..n], good) + (if q[n] in good then [q[n]] else [])
      && Shuffle(q, good, n + 1, limit, rnd) == Shuffle(r, good, n, limit, rnd)
  {
    var q := SwapAt(r, n, pos);
    assert q[..n + 1][..n] == r[..n];
  }

  lemma ShuffleDone(r: seq<int>, good: set<int>, n: nat, limit: nat, rnd: nat -> nat)
    requires n <= |r| && (n == |r| || |Keep(r[..n], good)| >= limit)
    ensures Shuffle(r, good, n, limit, rnd) == (r, n)
  {
  }

  lemma IndexUnique(pos: map<int, int>, random: seq<int>)
    requires RandomIndex(pos, random)
    ensures pos == PositionsOf(random)
  {
    assert Distinct(random);
    PositionsOfIndex(random);
    forall x | x in pos ensures x in PositionsOf(random) && PositionsOf(random)[x] == pos[x] {
      assert random[pos[x]] == x;
    }
    forall x | x in PositionsOf(random) ensures x in pos {
      assert x in random;
    }
  }

  /** A slot that is not empty holds a referenced new entry. */
  predicate Occupied(m: map<int, Entry>, t: Table, b: nat, p: nat)
    requires Shaped(t, NEW_BUCKET_COUNT) && b < NEW_BUCKET_COUNT && p < BUCKET_SIZE
  {
    t[b][p] != -1 ==> t[b][p] in m && !m[t[b][p]].inTried && m[t[b][p]].refCount > 0
  }

  /** The state's aspects of an entry are its fields. */
  ghost predicate Shows(m: map<int, Entry>, s: State) {
    s.svcs == Services(m) && s.refs == RefCounts(m) && s.tried == TriedIds(m)
  }

  lemma OccupiedBy(m: map<int, Entry>, s: State, b: nat, p: nat)
    requires Formed(s) && Shows(m, s) && b < NEW_BUCKET_COUNT && p < BUCKET_SIZE
    requires s.newTab[b][p] != -1 ==>
      s.newTab[b][p] in s.svcs && s.newTab[b][p] !in s.tried && 0 < s.refs[s.newTab[b][p]]
    ensures Occupied(m, s.newTab, b, p)
  {
  }

  lemma OccupantNew(m: map<int, Entry>, s: State, b: nat, p: nat)
    requires Formed(s) && Shows(m, s) && b < NEW_BUCKET_COUNT && p < BUCKET_SIZE && Occupied(m, s.newTab, b, p)
    ensures s.newTab[b][p] != -1 ==> s.newTab[b][p] in s.svcs && s.newTab[b][p] !in s.tried
  {
  }

  lemma Known(m: map<int, Entry>, id: int)
    ensures id in Services(m) <==> id in m
    ensures id in m ==> Services(m)[id] == m[id].service && (id in TriedIds(m) <==> m[id].inTried)
    ensures id in m ==> id in RefCounts(m) && RefCounts(m)[id] == m[id].refCount
    ensures id in m ==> id in StatsOf(m) && StatsOf(m)[id] == m[id].st
    ensures id in m ==> id in Positions(m) && Positions(m)[id] == m[id].randomPos
  {
  }

  lemma TablesShaped(s: State)
    requires Formed(s)
    ensures Shaped(s.newTab, NEW_BUCKET_COUNT) && Shaped(s.triedTab, TRIED_BUCKET_COUNT)
  {
  }

  /** A new entry between operations is in some bucket. */
  lemma NewEntryHasBucket(e: Env, s: State, id: int)
    requires Mid(e, s, {}, 0) && id in s.svcs && id !in s.tried
    ensures Buckets(e, s.newTab, s.svcs[id], id) != {}
  {
    hide Indexed; hide NewPlaced; hide TriedPlaced;
  }
}
