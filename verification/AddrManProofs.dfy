/** Each step of an address-manager operation keeps the invariant. */
module AddrManProofs {
  import opened AddrManState

  // ----- reference sets under a table update -----

  lemma BucketsAfterPut(e: Env, t: Table, b: nat, p: nat, v: int, svc: Service, id: int)
    requires Shaped(t, NEW_BUCKET_COUNT) && b < NEW_BUCKET_COUNT && p < BUCKET_SIZE
    ensures Shaped(Put(t, b, p, v), NEW_BUCKET_COUNT)
    ensures Buckets(e, Put(t, b, p, v), svc, id) ==
            if e.NewPos(svc, b) != p then Buckets(e, t, svc, id)
            else if v == id then Buckets(e, t, svc, id) + {b}
            else Buckets(e, t, svc, id) - {b}
  {
  }

  lemma BucketsAfterEmptied(e: Env, t: Table, svc: Service, id: int, svc': Service, id': int)
    requires Shaped(t, NEW_BUCKET_COUNT) && id != -1 && id' != -1
    ensures id' != id ==> Buckets(e, Emptied(e, t, svc, id), svc', id') == Buckets(e, t, svc', id')
    ensures Buckets(e, Emptied(e, t, svc, id), svc, id) == {}
  {
  }

  // ----- the indexes -----

  lemma InsertCardinality<V>(m: map<int, V>, id: int, v: V)
    requires id !in m
    ensures |m[id := v]| == |m| + 1
  {
    assert m[id := v].Keys == m.Keys + {id};
  }

  lemma RemoveCardinality<V>(m: map<int, V>, id: int)
    requires id in m
    ensures |m - {id}| == |m| - 1
  {
    assert (m - {id}).Keys == m.Keys - {id};
  }

  lemma SwapKeepsRandomIndex(pos: map<int, int>, random: seq<int>, i: nat, j: nat)
    requires RandomIndex(pos, random) && i < |random| && j < |random| && i != j
    ensures RandomIndex(pos[random[i] := j][random[j] := i], random[i := random[j]][j := random[i]])
  {
    assert pos[random[i] := j][random[j] := i].Keys == pos.Keys;
  }

  lemma AppendKeepsRandomIndex(pos: map<int, int>, random: seq<int>, id: int)
    requires RandomIndex(pos, random) && id !in pos
    ensures RandomIndex(pos[id := |random|], random + [id])
  {
    assert pos[id := |random|].Keys == pos.Keys + {id};
  }

  lemma PopKeepsRandomIndex(pos: map<int, int>, random: seq<int>)
    requires RandomIndex(pos, random) && random != []
    ensures RandomIndex(pos - {random[|random| - 1]}, random[..|random| - 1])
  {
    var id := random[|random| - 1];
    assert (pos - {id}).Keys == pos.Keys - {id};
  }

  lemma InsertKeepsAddrIndex(svcs: map<int, Service>, addr: map<NetAddr, int>, id: int, svc: Service)
    requires AddrIndex(svcs, addr) && id !in svcs && svc.net !in addr
    ensures AddrIndex(svcs[id := svc], addr[svc.net := id])
  {
  }

  lemma RemoveKeepsAddrIndex(svcs: map<int, Service>, addr: map<NetAddr, int>, id: int)
    requires AddrIndex(svcs, addr) && id in svcs
    ensures AddrIndex(svcs - {id}, addr - {svcs[id].net})
  {
  }

  lemma SwapKeepsMid(e: Env, s: State, i: nat, j: nat)
    requires Mid(e, s, {}, 0) && i < |s.random| && j < |s.random|
    ensures Mid(e, SwapRandom(s, i, j), {}, 0)
  {
    hide AddrIndex; hide NewPlaced; hide TriedPlaced; hide Counted; hide RefsBounded; hide IdsBelow;
    if i != j { SwapKeepsRandomIndex(s.pos, s.random, i, j); }
  }

  // ----- Create -----

  /** A new id, in no slot yet, joins the entries. */
  lemma InsertKeepsTables(e: Env, nt: Table, tt: Table, svcs: map<int, Service>, refs: map<int, int>,
                          tried: set<int>, id: int, svc: Service)
    requires Shaped(nt, NEW_BUCKET_COUNT) && Shaped(tt, TRIED_BUCKET_COUNT)
    requires tried <= svcs.Keys && refs.Keys == svcs.Keys && id !in svcs && id != -1
    requires NewPlaced(e, nt, svcs, tried) && TriedPlaced(e, tt, svcs, tried) && Counted(e, nt, svcs, refs)
    ensures NewPlaced(e, nt, svcs[id := svc], tried)
    ensures TriedPlaced(e, tt, svcs[id := svc], tried)
    ensures Counted(e, nt, svcs[id := svc], refs[id := 0])
  {
    assert Buckets(e, nt, svc, id) == {};
  }

  lemma CreateKeepsIndexed(s: State, svc: Service, st: Stats)
    requires Formed(s) && Indexed(s) && svc.net !in s.addr
    ensures Indexed(Create(s, svc, st))
  {
    hide RandomIndex; hide AddrIndex;
    AppendKeepsRandomIndex(s.pos, s.random, s.idCount);
    InsertKeepsAddrIndex(s.svcs, s.addr, s.idCount, svc);
  }

  lemma CreateKeepsFormed(s: State, svc: Service, st: Stats)
    requires Formed(s) && s.idCount !in s.svcs
    ensures Formed(Create(s, svc, st)) && Create(s, svc, st).tried == s.tried
  {
  }

  lemma InsertKeepsRefsBounded(refs: map<int, int>, tried: set<int>, id: int)
    requires RefsBounded(refs, tried, {}) && id !in tried
    ensures RefsBounded(refs[id := 0], tried, {id})
  {
  }

  lemma CreateKeepsPlaced(e: Env, s: State, svc: Service, st: Stats)
    requires Formed(s) && Placed(e, s, {}, 0) && s.idCount !in s.svcs && s.idCount != -1
    requires Formed(Create(s, svc, st))
    ensures var t := Create(s, svc, st); Placed(e, t.(nNew := t.nNew + 1), {s.idCount}, 0)
  {
    hide NewPlaced; hide TriedPlaced; hide Counted; hide Shaped; hide RefsBounded;
    assert s.tried - {s.idCount} == s.tried;
    assert |s.svcs[s.idCount := svc]| == |s.svcs| + 1 by { InsertCardinality(s.svcs, s.idCount, svc); }
    InsertKeepsRefsBounded(s.refs, s.tried, s.idCount);
    InsertKeepsTables(e, s.newTab, s.triedTab, s.svcs, s.refs, s.tried, s.idCount, svc);
  }

  lemma CreateKeepsMid(e: Env, s: State, svc: Service, st: Stats)
    requires Mid(e, s, {}, 0) && svc.net !in s.addr
    ensures var t := Create(s, svc, st); Mid(e, t.(nNew := t.nNew + 1), {s.idCount}, 0)
  {
    hide Placed; hide RandomIndex; hide AddrIndex;
    CreateKeepsFormed(s, svc, st);
    CreateKeepsIndexed(s, svc, st);
    CreateKeepsPlaced(e, s, svc, st);
  }

  // ----- Delete -----

  lemma SwapPopKeepsRandomIndex(s: State, id: int)
    requires RandomIndex(s.pos, s.random) && id in s.pos && id in s.svcs
    requires 0 <= s.pos[id] < |s.random| && s.random[s.pos[id]] == id
    ensures RandomIndex(Delete(s, id).pos, Delete(s, id).random)
  {
    hide RandomIndex;
    var i, j := s.pos[id], |s.random| - 1;
    var t := SwapRandom(s, i, j);
    if i != j { SwapKeepsRandomIndex(s.pos, s.random, i, j); }
    PopKeepsRandomIndex(t.pos, t.random);
  }

  lemma DeleteKeepsFormed(s: State, id: int)
    requires Formed(s) && id in s.svcs && 0 <= s.pos[id] < |s.random|
    requires s.random[s.pos[id]] == id && s.random[|s.random| - 1] in s.pos
    ensures Formed(Delete(s, id))
  {
  }

  lemma DeleteKeepsIndexed(s: State, id: int)
    requires Formed(s) && Indexed(s) && id in s.svcs
    ensures 0 <= s.pos[id] < |s.random| && s.random[s.pos[id]] == id && s.random[|s.random| - 1] in s.pos
    ensures Indexed(Delete(s, id))
  {
    hide AddrIndex;
    SwapPopKeepsRandomIndex(s, id);
    RemoveKeepsAddrIndex(s.svcs, s.addr, id);
  }

  /** An entry in no slot leaves the entries. */
  lemma RemoveKeepsTables(e: Env, nt: Table, tt: Table, svcs: map<int, Service>, refs: map<int, int>,
                          tried: set<int>, id: int)
    requires Shaped(nt, NEW_BUCKET_COUNT) && Shaped(tt, TRIED_BUCKET_COUNT)
    requires tried <= svcs.Keys && refs.Keys == svcs.Keys && id in svcs && id !in tried && refs[id] == 0
    requires NewPlaced(e, nt, svcs, tried) && TriedPlaced(e, tt, svcs, tried) && Counted(e, nt, svcs, refs)
    ensures NewPlaced(e, nt, svcs - {id}, tried)
    ensures TriedPlaced(e, tt, svcs - {id}, tried)
    ensures Counted(e, nt, svcs - {id}, refs - {id})
  {
    assert Buckets(e, nt, svcs[id], id) == {};
    forall b | 0 <= b < NEW_BUCKET_COUNT ensures nt[b][e.NewPos(svcs[id], b)] != id {
      assert b !in Buckets(e, nt, svcs[id], id);
    }
  }

  lemma RemoveKeepsRefsBounded(refs: map<int, int>, tried: set<int>, limbo: set<int>, id: int)
    requires RefsBounded(refs, tried, limbo)
    ensures RefsBounded(refs - {id}, tried, limbo - {id})
  {
  }

  /** What Delete leaves of everything but the indexes. */
  lemma DeleteEffect(s: State, id: int)
    requires id in s.svcs && id in s.pos && id !in s.tried && 0 <= s.pos[id] < |s.random|
    ensures var t := Delete(s, id);
      && t.tried == s.tried && t.svcs == s.svcs - {id} && t.refs == s.refs - {id} && t.stats == s.stats - {id}
      && t.newTab == s.newTab && t.triedTab == s.triedTab && t.nTried == s.nTried && t.nNew == s.nNew - 1
      && t.idCount == s.idCount && t.lastGood == s.lastGood && t.collisions == s.collisions
  {
  }

  lemma DeleteKeepsPlaced(e: Env, s: State, id: int, limbo: set<int>, uncounted: nat)
    requires Formed(s) && Placed(e, s, limbo, uncounted)
    requires id in s.svcs && id !in s.tried && s.refs[id] == 0
    requires 0 <= s.pos[id] < |s.random| && Formed(Delete(s, id))
    ensures Placed(e, Delete(s, id), limbo - {id}, uncounted)
  {
    hide NewPlaced; hide TriedPlaced; hide Counted; hide Shaped; hide RefsBounded; hide Delete;
    DeleteEffect(s, id);
    assert |s.svcs - {id}| == |s.svcs| - 1 by { RemoveCardinality(s.svcs, id); }
    RemoveKeepsRefsBounded(s.refs, s.tried, limbo, id);
    RemoveKeepsTables(e, s.newTab, s.triedTab, s.svcs, s.refs, s.tried, id);
  }

  lemma DeleteKeepsMid(e: Env, s: State, id: int, limbo: set<int>, uncounted: nat)
    requires Mid(e, s, limbo, uncounted) && id in s.svcs && id !in s.tried && s.refs[id] == 0
    ensures 0 <= s.pos[id] < |s.random|
    ensures Mid(e, Delete(s, id), limbo - {id}, uncounted)
  {
    hide Placed; hide Indexed;
    DeleteKeepsIndexed(s, id);
    DeleteKeepsFormed(s, id);
    DeleteKeepsPlaced(e, s, id, limbo, uncounted);
  }

  // ----- ClearNew -----

  /** A new slot is emptied and its entry's count lowered. */
  lemma DropKeepsTables(e: Env, t: Table, svcs: map<int, Service>, refs: map<int, int>, tried: set<int>, b: nat, p: nat)
    requires Shaped(t, NEW_BUCKET_COUNT) && refs.Keys == svcs.Keys && b < NEW_BUCKET_COUNT && p < BUCKET_SIZE
    requires t[b][p] != -1 && NewPlaced(e, t, svcs, tried) && Counted(e, t, svcs, refs) && -1 !in svcs
    ensures Shaped(Put(t, b, p, -1), NEW_BUCKET_COUNT)
    ensures 0 < refs[t[b][p]]
    ensures NewPlaced(e, Put(t, b, p, -1), svcs, tried)
    ensures Counted(e, Put(t, b, p, -1), svcs, refs[t[b][p] := refs[t[b][p]] - 1])
  {
    var id := t[b][p];
    assert b in Buckets(e, t, svcs[id], id);
    forall x | x in svcs
      ensures |Buckets(e, Put(t, b, p, -1), svcs[x], x)| == if x == id then refs[x] - 1 else refs[x] {
      BucketsAfterPut(e, t, b, p, -1, svcs[x], x);
      assert x == id ==> b in Buckets(e, t, svcs[x], x);
      assert x != id && e.NewPos(svcs[x], b) == p ==> b !in Buckets(e, t, svcs[x], x);
      assert x != id ==> Buckets(e, t, svcs[x], x) - {b} == Buckets(e, t, svcs[x], x) || e.NewPos(svcs[x], b) != p;
    }
  }

  /** Emptying an occupied new slot, before the entry is deleted. */
  function Dropped(s: State, b: nat, p: nat): State
    requires Formed(s) && b < NEW_BUCKET_COUNT && p < BUCKET_SIZE && s.newTab[b][p] in s.svcs
  {
    var id := s.newTab[b][p];
    s.(refs := s.refs[id := s.refs[id] - 1], newTab := Put(s.newTab, b, p, -1))
  }

  lemma DropKeepsMid(e: Env, s: State, b: nat, p: nat, limbo: set<int>, uncounted: nat)
    requires Mid(e, s, limbo, uncounted) && b < NEW_BUCKET_COUNT && p < BUCKET_SIZE && s.newTab[b][p] != -1
    ensures s.newTab[b][p] in s.svcs && s.newTab[b][p] !in s.tried && 0 < s.refs[s.newTab[b][p]]
    ensures Mid(e, Dropped(s, b, p), limbo + if s.refs[s.newTab[b][p]] == 1 then {s.newTab[b][p]} else {}, uncounted)
  {
    hide Counted; hide TriedPlaced; hide AddrIndex; hide RandomIndex;
    DropKeepsTables(e, s.newTab, s.svcs, s.refs, s.tried, b, p);
  }

  lemma ClearNewKeepsMid(e: Env, s: State, b: nat, p: nat, limbo: set<int>, uncounted: nat)
    requires Mid(e, s, limbo, uncounted) && b < NEW_BUCKET_COUNT && p < BUCKET_SIZE
    requires forall id :: id in limbo && id in s.svcs ==> s.refs[id] == 0
    ensures s.newTab[b][p] != -1 ==> s.newTab[b][p] in s.svcs && s.newTab[b][p] !in limbo
    ensures Mid(e, ClearNew(s, b, p), limbo, uncounted)
  {
    hide NewPlaced; hide TriedPlaced; hide Counted; hide RefsBounded; hide Delete; hide AddrIndex; hide RandomIndex;
    var id := s.newTab[b][p];
    if id != -1 {
      DropKeepsMid(e, s, b, p, limbo, uncounted);
      var t := Dropped(s, b, p);
      if s.refs[id] == 1 {
        DeleteKeepsMid(e, t, id, limbo + {id}, uncounted);
        assert limbo + {id} - {id} == limbo;
      } else {
        assert limbo + {} == limbo;
      }
    }
  }

  /** ClearNew touches no entry but the one in the slot, and that one only in its count, position and existence. */
  ghost predicate ClearedOnly(s: State, t: State, b: nat, p: nat)
    requires b < |s.newTab| && p < |s.newTab[b]|
  {
    var gone := s.newTab[b][p];
    && t.newTab == Put(s.newTab, b, p, -1)
    && t.tried == s.tried && t.triedTab == s.triedTab && t.nTried == s.nTried
    && t.idCount == s.idCount && t.lastGood == s.lastGood && t.collisions == s.collisions
    && (forall x :: x in t.svcs ==> x in s.svcs && t.svcs[x] == s.svcs[x])
    && (forall x :: x in s.svcs && x != gone ==> x in t.svcs)
    && (forall x :: x in t.refs && x != gone ==> x in s.refs && t.refs[x] == s.refs[x])
    && (forall x :: x in t.stats ==> x in s.stats && t.stats[x] == s.stats[x])
  }

  lemma RandomAt(pos: map<int, int>, random: seq<int>, id: int)
    requires RandomIndex(pos, random) && id in pos
    ensures 0 <= pos[id] < |random|
  {
  }

  lemma ClearNewEffect(s: State, b: nat, p: nat)
    requires Formed(s) && RandomIndex(s.pos, s.random) && b < NEW_BUCKET_COUNT && p < BUCKET_SIZE
    requires s.newTab[b][p] != -1 ==> s.newTab[b][p] in s.svcs && s.newTab[b][p] !in s.tried
    ensures ClearedOnly(s, ClearNew(s, b, p), b, p)
  {
    hide RandomIndex; hide Delete;
    var id := s.newTab[b][p];
    if id != -1 {
      var t := Dropped(s, b, p);
      RandomAt(t.pos, t.random, id);
      if t.refs[id] == 0 { DeleteEffect(t, id); }
    } else {
      assert s.newTab[b][p := -1] == s.newTab[b];
      assert Put(s.newTab, b, p, -1) == s.newTab;
    }
  }

  // ----- into and out of the tables -----

  lemma EmptiedKeepsTables(e: Env, t: Table, svcs: map<int, Service>, refs: map<int, int>, tried: set<int>, id: int)
    requires Shaped(t, NEW_BUCKET_COUNT) && refs.Keys == svcs.Keys && id in svcs && id != -1
    requires NewPlaced(e, t, svcs, tried) && Counted(e, t, svcs, refs) && -1 !in svcs
    ensures NewPlaced(e, Emptied(e, t, svcs[id], id), svcs, tried)
    ensures Counted(e, Emptied(e, t, svcs[id], id), svcs, refs[id := 0])
    ensures refs[id] == |Buckets(e, t, svcs[id], id)|
  {
    forall x | x in svcs
      ensures |Buckets(e, Emptied(e, t, svcs[id], id), svcs[x], x)| == if x == id then 0 else refs[x] {
      BucketsAfterEmptied(e, t, svcs[id], id, svcs[x], x);
    }
  }

  lemma LeaveNewKeepsMid(e: Env, s: State, id: int)
    requires Mid(e, s, {}, 0) && id in s.svcs && id !in s.tried
    ensures Mid(e, LeaveNew(e, s, id), {id}, 1)
    ensures LeaveNew(e, s, id).refs[id] == 0
  {
    hide NewPlaced; hide Counted; hide TriedPlaced; hide AddrIndex; hide RandomIndex;
    EmptiedKeepsTables(e, s.newTab, s.svcs, s.refs, s.tried, id);
  }

  /** The entry in tried slot (b, p) leaves the tried table. */
  lemma VacateKeepsTables(e: Env, t: Table, svcs: map<int, Service>, tried: set<int>, b: nat, p: nat)
    requires Shaped(t, TRIED_BUCKET_COUNT) && tried <= svcs.Keys && b < TRIED_BUCKET_COUNT && p < BUCKET_SIZE
    requires TriedPlaced(e, t, svcs, tried) && t[b][p] != -1
    ensures t[b][p] in tried
    ensures Shaped(Put(t, b, p, -1), TRIED_BUCKET_COUNT)
    ensures TriedPlaced(e, Put(t, b, p, -1), svcs, tried - {t[b][p]})
  {
  }

  lemma LeaveTriedKeepsMid(e: Env, s: State, b: nat, p: nat, limbo: set<int>, uncounted: nat)
    requires Mid(e, s, limbo, uncounted) && b < TRIED_BUCKET_COUNT && p < BUCKET_SIZE && s.triedTab[b][p] != -1
    ensures s.triedTab[b][p] in s.tried
    ensures Mid(e, LeaveTried(s, b, p), limbo + {s.triedTab[b][p]}, uncounted + 1)
  {
    hide Counted; hide TriedPlaced; hide AddrIndex; hide RandomIndex; hide NewPlaced;
    VacateKeepsTables(e, s.triedTab, s.svcs, s.tried, b, p);
    NewPlacedFewerTried(e, s.newTab, s.svcs, s.tried, s.triedTab[b][p]);
  }

  lemma NewPlacedFewerTried(e: Env, t: Table, svcs: map<int, Service>, tried: set<int>, id: int)
    requires Shaped(t, NEW_BUCKET_COUNT) && NewPlaced(e, t, svcs, tried)
    ensures NewPlaced(e, t, svcs, tried - {id})
  {
  }

  /** An empty new slot at the entry's hashed position receives it. */
  lemma FillKeepsTables(e: Env, t: Table, svcs: map<int, Service>, refs: map<int, int>, tried: set<int>, b: nat,
                        id: int)
    requires Shaped(t, NEW_BUCKET_COUNT) && refs.Keys == svcs.Keys && b < NEW_BUCKET_COUNT
    requires id in svcs && id !in tried && t[b][e.NewPos(svcs[id], b)] == -1 && -1 !in svcs
    requires NewPlaced(e, t, svcs, tried) && Counted(e, t, svcs, refs)
    ensures Shaped(Put(t, b, e.NewPos(svcs[id], b), id), NEW_BUCKET_COUNT)
    ensures NewPlaced(e, Put(t, b, e.NewPos(svcs[id], b), id), svcs, tried)
    ensures Counted(e, Put(t, b, e.NewPos(svcs[id], b), id), svcs, refs[id := refs[id] + 1])
  {
    hide Buckets; hide Counted;
    FillKeepsCounts(e, t, svcs, refs, b, id);
  }

  lemma FillKeepsCounts(e: Env, t: Table, svcs: map<int, Service>, refs: map<int, int>, b: nat, id: int)
    requires Shaped(t, NEW_BUCKET_COUNT) && refs.Keys == svcs.Keys && b < NEW_BUCKET_COUNT
    requires id in svcs && t[b][e.NewPos(svcs[id], b)] == -1 && -1 !in svcs && Counted(e, t, svcs, refs)
    ensures Shaped(Put(t, b, e.NewPos(svcs[id], b), id), NEW_BUCKET_COUNT)
    ensures Counted(e, Put(t, b, e.NewPos(svcs[id], b), id), svcs, refs[id := refs[id] + 1])
  {
    var p := e.NewPos(svcs[id], b);
    forall x | x in svcs
      ensures |Buckets(e, Put(t, b, p, id), svcs[x], x)| == if x == id then refs[x] + 1 else refs[x] {
      BucketsAfterPut(e, t, b, p, id, svcs[x], x);
      assert e.NewPos(svcs[x], b) == p ==> b !in Buckets(e, t, svcs[x], x);
      assert e.NewPos(svcs[x], b) == p ==> Buckets(e, t, svcs[x], x) - {b} == Buckets(e, t, svcs[x], x);
    }
  }

  lemma EnterNewKeepsMid(e: Env, s: State, id: int, b: nat, limbo: set<int>, uncounted: nat)
    requires Mid(e, s, limbo, uncounted) && b < NEW_BUCKET_COUNT
    requires id in s.svcs && id !in s.tried && s.refs[id] < NEW_BUCKETS_PER_ADDRESS
    requires s.newTab[b][e.NewPos(s.svcs[id], b)] == -1
    ensures Mid(e, EnterNew(s, id, b, e.NewPos(s.svcs[id], b), s.refs[id] + 1), limbo - {id}, uncounted)
  {
    hide Counted; hide TriedPlaced; hide AddrIndex; hide RandomIndex; hide NewPlaced;
    FillKeepsTables(e, s.newTab, s.svcs, s.refs, s.tried, b, id);
    assert 0 <= s.refs[id] by { CountedNonnegative(e, s.newTab, s.svcs, s.refs, id); }
  }

  lemma CountedNonnegative(e: Env, t: Table, svcs: map<int, Service>, refs: map<int, int>, id: int)
    requires Shaped(t, NEW_BUCKET_COUNT) && refs.Keys == svcs.Keys && id in svcs && Counted(e, t, svcs, refs)
    ensures 0 <= refs[id]
  {
  }

  /** The entry's empty tried slot receives it. */
  lemma OccupyKeepsTables(e: Env, t: Table, svcs: map<int, Service>, tried: set<int>, id: int)
    requires Shaped(t, TRIED_BUCKET_COUNT) && tried <= svcs.Keys && id in svcs && id !in tried && id != -1
    requires TriedPlaced(e, t, svcs, tried) && t[e.TriedBucket(svcs[id])][e.TriedPos(svcs[id])] == -1
    ensures Shaped(Put(t, e.TriedBucket(svcs[id]), e.TriedPos(svcs[id]), id), TRIED_BUCKET_COUNT)
    ensures TriedPlaced(e, Put(t, e.TriedBucket(svcs[id]), e.TriedPos(svcs[id]), id), svcs, tried + {id})
  {
  }

  lemma NewPlacedMoreTried(e: Env, t: Table, svcs: map<int, Service>, refs: map<int, int>, tried: set<int>, id: int)
    requires Shaped(t, NEW_BUCKET_COUNT) && refs.Keys == svcs.Keys && id in svcs && refs[id] == 0
    requires NewPlaced(e, t, svcs, tried) && Counted(e, t, svcs, refs)
    ensures NewPlaced(e, t, svcs, tried + {id})
  {
    assert Buckets(e, t, svcs[id], id) == {};
    forall b | 0 <= b < NEW_BUCKET_COUNT ensures t[b][e.NewPos(svcs[id], b)] != id {
      assert b !in Buckets(e, t, svcs[id], id);
    }
  }

  lemma EnterTriedKeepsMid(e: Env, s: State, id: int, limbo: set<int>, uncounted: nat)
    requires Formed(s) && id in s.svcs && id !in s.tried && s.refs[id] == 0
    requires s.triedTab[e.TriedBucket(s.svcs[id])][e.TriedPos(s.svcs[id])] == -1
    requires Mid(e, s, limbo, uncounted + 1)
    ensures Mid(e, EnterTried(s, id, e.TriedBucket(s.svcs[id]), e.TriedPos(s.svcs[id])), limbo - {id}, uncounted)
  {
    hide Counted; hide TriedPlaced; hide AddrIndex; hide RandomIndex; hide NewPlaced;
    OccupyKeepsTables(e, s.triedTab, s.svcs, s.tried, id);
    NewPlacedMoreTried(e, s.newTab, s.svcs, s.refs, s.tried, id);
  }
}
