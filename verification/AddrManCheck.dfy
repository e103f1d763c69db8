/** `Check_`, the address manager's own consistency check, as the procedure it is; it accepts exactly the checked
    states. */
module AddrManCheck {
  import opened SetSum
  import opened AddrManState
  import opened AddrManEntries
  import opened AddrManRuns
  import opened AddrMan

  // ----- the entries

  /** Looking up a missing address yields zero. */
  function IdOf(addr: map<NetAddr, int>, a: NetAddr): int { if a in addr then addr[a] else 0 }

  predicate EntryOk(x: Entry, id: int, addr: map<NetAddr, int>, random: seq<int>) {
    && (if x.inTried then x.st.lastSuccess != 0 && x.refCount == 0 else 0 < x.refCount <= NEW_BUCKETS_PER_ADDRESS)
    && IdOf(addr, x.service.net) == id
    && 0 <= x.randomPos < |random| && random[x.randomPos] == id
    && 0 <= x.st.lastTry && 0 <= x.st.lastSuccess
  }

  /** `after` is `before` with zero entered for some addresses that had no id, as looking them up does. */
  ghost predicate LookedUp(before: map<NetAddr, int>, after: map<NetAddr, int>) {
    && (forall a :: a in before ==> a in after && after[a] == before[a])
    && (forall a :: a in after && a !in before ==> after[a] == 0)
  }

  /** Only addresses of entries were looked up. */
  ghost predicate OnlyEntries(m: map<int, Entry>, before: map<NetAddr, int>, after: map<NetAddr, int>) {
    forall a :: a in after && a !in before ==> exists id :: id in m && m[id].service.net == a
  }

  method CheckEntry(x: Entry, id: int, addr: map<NetAddr, int>, random: seq<int>)
    returns (err: int, addr': map<NetAddr, int>)
    ensures err == 0 <==> EntryOk(x, id, addr, random)
    ensures LookedUp(addr, addr') && forall a :: a in addr' ==> a in addr || a == x.service.net
  {
    addr' := addr;
    if x.inTried {
      if x.st.lastSuccess == 0 { return -1, addr'; }
      if x.refCount != 0 { return -2, addr'; }
    } else {
      if x.refCount < 0 || x.refCount > NEW_BUCKETS_PER_ADDRESS { return -3, addr'; }
      if x.refCount == 0 { return -4, addr'; }
    }
    if x.service.net !in addr' { addr' := addr'[x.service.net := 0]; }
    if addr'[x.service.net] != id { return -5, addr'; }
    if x.randomPos < 0 || x.randomPos >= |random| || random[x.randomPos] != id { return -14, addr'; }
    if x.st.lastTry < 0 { return -6, addr'; }
    if x.st.lastSuccess < 0 { return -8, addr'; }
    return 0, addr';
  }

  ghost predicate EntriesOk(m: map<int, Entry>, addr: map<NetAddr, int>, random: seq<int>) {
    forall id :: id in m ==> EntryOk(m[id], id, addr, random)
  }

  /** The new entries with their reference counts. */
  ghost function NewRefs(m: map<int, Entry>): map<int, int> { map id | id in m && !m[id].inTried :: m[id].refCount }

  /** The first loop: checks every entry and sorts them into tried and new. */
  method CheckEntries(m: map<int, Entry>, addr: map<NetAddr, int>, random: seq<int>)
    returns (err: int, addr': map<NetAddr, int>, setTried: set<int>, mapNew: map<int, int>)
    ensures err == 0 <==> EntriesOk(m, addr, random)
    ensures err == 0 ==> setTried == TriedIds(m) && mapNew == NewRefs(m)
    ensures LookedUp(addr, addr') && OnlyEntries(m, addr, addr')
  {
    hide EntryOk;
    err, addr', setTried, mapNew := 0, addr, {}, map[];
    var todo := m.Keys;
    while todo != {}
      invariant todo <= m.Keys && LookedUp(addr, addr') && OnlyEntries(m, addr, addr')
      invariant forall id :: id in m && id !in todo ==> EntryOk(m[id], id, addr, random)
      invariant forall id :: id in setTried <==> id in m && id !in todo && m[id].inTried
      invariant forall id :: id in mapNew <==> id in m && id !in todo && !m[id].inTried
      invariant forall id :: id in mapNew ==> mapNew[id] == m[id].refCount
      decreases |todo|
    {
      Inhabited(todo);
      var id :| id in todo;
      SameLookup(m[id], id, addr, addr', random);
      err, addr' := CheckEntry(m[id], id, addr', random);
      if err != 0 { return; }
      if m[id].inTried { setTried := setTried + {id}; } else { mapNew := mapNew[id := m[id].refCount]; }
      todo := todo - {id};
    }
    assert forall id :: id in setTried <==> id in TriedIds(m);
    assert forall id :: id in mapNew.Keys <==> id in NewRefs(m).Keys;
    assert mapNew.Keys == NewRefs(m).Keys;
  }

  /** What earlier lookups entered changes no answer. */
  lemma SameLookup(x: Entry, id: int, addr: map<NetAddr, int>, addr': map<NetAddr, int>, random: seq<int>)
    requires LookedUp(addr, addr')
    ensures EntryOk(x, id, addr', random) <==> EntryOk(x, id, addr, random)
  {
  }

  // ----- the tried table

  /** The scan has passed slot (b, p) when it is about to look at (n, i). */
  predicate Passed(n: nat, i: nat, b: nat, p: nat) { b < n || (b == n && p < i) }

  ghost predicate TriedSlotOk(e: Env, x: int, svcs: map<int, Service>, start: set<int>, b: nat, p: nat)
    requires start <= svcs.Keys
  {
    x != -1 ==> x in start && e.TriedBucket(svcs[x]) == b && e.TriedPos(svcs[x]) == p
  }

  ghost predicate TriedSlotsOk(e: Env, t: Table, svcs: map<int, Service>, start: set<int>, n: nat, i: nat)
    requires Shaped(t, TRIED_BUCKET_COUNT) && start <= svcs.Keys
  {
    forall b, p :: 0 <= b < TRIED_BUCKET_COUNT && 0 <= p < BUCKET_SIZE && Passed(n, i, b, p) ==>
      TriedSlotOk(e, t[b][p], svcs, start, b, p)
  }

  /** What is left in the working set: ids not yet met at their own slot. */
  ghost predicate TriedLeft(e: Env, t: Table, svcs: map<int, Service>, start: set<int>, left: set<int>, n: nat, i: nat)
    requires Shaped(t, TRIED_BUCKET_COUNT) && start <= svcs.Keys
  {
    forall id :: id in left <==>
      id in start && !(Passed(n, i, e.TriedBucket(svcs[id]), e.TriedPos(svcs[id])) && id != -1
                                                  && t[e.TriedBucket(svcs[id])][e.TriedPos(svcs[id])] == id)
  }

  /** One slot of the tried table. */
  method CheckTriedSlot(e: Env, x: int, m: map<int, Entry>, left: set<int>, n: nat, i: nat, ghost t: Table,
                        ghost start: set<int>)
    returns (err: int, left': set<int>)
    requires Shaped(t, TRIED_BUCKET_COUNT) && start <= m.Keys && n < TRIED_BUCKET_COUNT && i < BUCKET_SIZE &&
      x == t[n][i]
    requires TriedLeft(e, t, Services(m), start, left, n, i)
    ensures err == 0 <==> TriedSlotOk(e, x, Services(m), start, n, i)
    ensures err == 0 ==> TriedLeft(e, t, Services(m), start, left', n, i + 1)
  {
    left' := left;
    if x == -1 { return 0, left; }
    if x !in left { return -11, left; }
    if e.TriedBucket(m[x].service) != n { return -17, left; }
    if e.TriedPos(m[x].service) != i { return -18, left; }
    return 0, left - {x};
  }

  /** The loops over the tried table. */
  method CheckTried(e: Env, t: Table, m: map<int, Entry>, start: set<int>) returns (err: int, left: set<int>)
    requires Shaped(t, TRIED_BUCKET_COUNT) && start <= m.Keys
    ensures err == 0 <==> TriedSlotsOk(e, t, Services(m), start, TRIED_BUCKET_COUNT, 0)
    ensures err == 0 ==> TriedLeft(e, t, Services(m), start, left, TRIED_BUCKET_COUNT, 0)
  {
    hide TriedLeft; hide TriedSlotOk;
    left := start;
    TriedStarts(e, t, Services(m), start);
    for n := 0 to TRIED_BUCKET_COUNT
      invariant TriedSlotsOk(e, t, Services(m), start, n, 0) && TriedLeft(e, t, Services(m), start, left, n, 0)
    {
      for i := 0 to BUCKET_SIZE
        invariant TriedSlotsOk(e, t, Services(m), start, n, i) && TriedLeft(e, t, Services(m), start, left, n, i)
      {
        err, left := CheckTriedSlot(e, t[n][i], m, left, n, i, t, start);
        if err != 0 {
          assert Passed(TRIED_BUCKET_COUNT, 0, n, i);
          return;
        }
      }
      TriedRow(e, t, Services(m), start, left, n);
    }
    err := 0;
  }

  lemma TriedStarts(e: Env, t: Table, svcs: map<int, Service>, start: set<int>)
    requires Shaped(t, TRIED_BUCKET_COUNT) && start <= svcs.Keys
    ensures TriedLeft(e, t, svcs, start, start, 0, 0)
  {
  }

  lemma TriedRow(e: Env, t: Table, svcs: map<int, Service>, start: set<int>, left: set<int>, n: nat)
    requires Shaped(t, TRIED_BUCKET_COUNT) && start <= svcs.Keys && n < TRIED_BUCKET_COUNT
    requires TriedLeft(e, t, svcs, start, left, n, BUCKET_SIZE)
    ensures TriedLeft(e, t, svcs, start, left, n + 1, 0)
  {
  }

  /** Nothing left and no bad slot: exactly the placement of tried entries. */
  lemma TriedChecked(e: Env, t: Table, svcs: map<int, Service>, tried: set<int>, left: set<int>)
    requires Shaped(t, TRIED_BUCKET_COUNT) && tried <= svcs.Keys
    ensures TriedPlaced(e, t, svcs, tried) ==> TriedSlotsOk(e, t, svcs, tried, TRIED_BUCKET_COUNT, 0)
    ensures
      && TriedSlotsOk(e, t, svcs, tried, TRIED_BUCKET_COUNT, 0)
      && TriedLeft(e, t, svcs, tried, left, TRIED_BUCKET_COUNT, 0)
      ==> (left == {} <==> TriedPlaced(e, t, svcs, tried))
  {
    if TriedLeft(e, t, svcs, tried, left, TRIED_BUCKET_COUNT, 0) && left != {} {
      Inhabited(left);
    }
    if TriedSlotsOk(e, t, svcs, tried, TRIED_BUCKET_COUNT, 0) {
      forall b, p | 0 <= b < TRIED_BUCKET_COUNT && 0 <= p < BUCKET_SIZE && t[b][p] != -1
        ensures t[b][p] in tried && e.TriedBucket(svcs[t[b][p]]) == b && e.TriedPos(svcs[t[b][p]]) == p
      {
        assert Passed(TRIED_BUCKET_COUNT, 0, b, p);
        assert TriedSlotOk(e, t[b][p], svcs, tried, b, p);
      }
    }
  }

  // ----- the new table

  ghost predicate NewSlotOk(e: Env, x: int, svcs: map<int, Service>, start: map<int, int>, b: nat, p: nat)
    requires start.Keys <= svcs.Keys
  {
    x != -1 ==> x in start && e.NewPos(svcs[x], b) == p
  }

  ghost predicate NewSlotsOk(e: Env, t: Table, svcs: map<int, Service>, start: map<int, int>, n: nat, i: nat)
    requires Shaped(t, NEW_BUCKET_COUNT) && start.Keys <= svcs.Keys
  {
    forall b, p :: 0 <= b < NEW_BUCKET_COUNT && 0 <= p < BUCKET_SIZE && Passed(n, i, b, p) ==>
      NewSlotOk(e, t[b][p], svcs, start, b, p)
  }

  /** The buckets that hold an id; the mark of an empty slot is none. */
  ghost function Held(e: Env, t: Table, svc: Service, id: int): set<int>
    requires Shaped(t, NEW_BUCKET_COUNT)
  {
    if id == -1 then {} else Buckets(e, t, svc, id)
  }

  /** The buckets in which the scan has met an id at its own position. */
  ghost function Seen(e: Env, t: Table, svc: Service, id: int, n: nat, i: nat): set<int>
    requires Shaped(t, NEW_BUCKET_COUNT)
  {
    set b | b in Held(e, t, svc, id) && Passed(n, i, b, e.NewPos(svc, b))
  }

  ghost function SeenCount(e: Env, t: Table, svc: Service, id: int, n: nat, i: nat): nat
    requires Shaped(t, NEW_BUCKET_COUNT)
  {
    |Seen(e, t, svc, id, n, i)|
  }

  /** What is left in the working map: the references not yet met. */
  ghost predicate NewLeft(e: Env, t: Table, svcs: map<int, Service>, start: map<int, int>, left: map<int, int>, n: nat,
                          i: nat)
    requires Shaped(t, NEW_BUCKET_COUNT) && start.Keys <= svcs.Keys
  {
    && (forall id :: id in left ==>
      id in start && left[id] == start[id] - SeenCount(e, t, svcs[id], id, n, i) && left[id] > 0)
    && (forall id :: id in start && id !in left ==> SeenCount(e, t, svcs[id], id, n, i) == start[id])
  }

  ghost predicate Meets(e: Env, t: Table, svc: Service, id: int, n: nat, i: nat)
    requires Shaped(t, NEW_BUCKET_COUNT) && n < NEW_BUCKET_COUNT && i < BUCKET_SIZE
  {
    id != -1 && t[n][i] == id && e.NewPos(svc, n) == i
  }

  /** Meeting an id at its own position in bucket n counts once more; other ids are not affected. */
  lemma SeenNext(e: Env, t: Table, svc: Service, id: int, n: nat, i: nat)
    requires Shaped(t, NEW_BUCKET_COUNT) && n < NEW_BUCKET_COUNT && i < BUCKET_SIZE
    ensures SeenCount(e, t, svc, id, n, i + 1)
      == SeenCount(e, t, svc, id, n, i) + if Meets(e, t, svc, id, n, i) then 1 else 0
  {
    var a, b := Seen(e, t, svc, id, n, i), Seen(e, t, svc, id, n, i + 1);
    if Meets(e, t, svc, id, n, i) {
      assert forall x :: x in b <==> x in a + {n};
      assert b == a + {n} && n !in a;
    } else {
      assert forall x :: x in b <==> x in a;
      assert b == a;
    }
  }

  lemma SeenRow(e: Env, t: Table, svc: Service, id: int, n: nat)
    requires Shaped(t, NEW_BUCKET_COUNT)
    ensures SeenCount(e, t, svc, id, n, BUCKET_SIZE) == SeenCount(e, t, svc, id, n + 1, 0)
  {
    var a, b := Seen(e, t, svc, id, n, BUCKET_SIZE), Seen(e, t, svc, id, n + 1, 0);
    assert forall x :: x in a <==> x in b;
    assert a == b;
  }

  lemma SeenEnds(e: Env, t: Table, svc: Service, id: int)
    requires Shaped(t, NEW_BUCKET_COUNT)
    ensures SeenCount(e, t, svc, id, 0, 0) == 0
    ensures SeenCount(e, t, svc, id, NEW_BUCKET_COUNT, 0) == |Held(e, t, svc, id)|
  {
    NoMembers(Seen(e, t, svc, id, 0, 0));
    var a, b := Seen(e, t, svc, id, NEW_BUCKET_COUNT, 0), Held(e, t, svc, id);
    assert forall x :: x in a <==> x in b;
    assert a == b;
  }

  /** The scan has met no more buckets than there are; one fewer if another is yet to come. */
  lemma SeenBound(e: Env, t: Table, svc: Service, id: int, n: nat, i: nat)
    requires Shaped(t, NEW_BUCKET_COUNT) && n < NEW_BUCKET_COUNT && i < BUCKET_SIZE
    ensures Meets(e, t, svc, id, n, i) ==> SeenCount(e, t, svc, id, n, i) < |Held(e, t, svc, id)|
  {
    if Meets(e, t, svc, id, n, i) {
      var a, b := Seen(e, t, svc, id, n, i), Held(e, t, svc, id);
      assert n in b && n !in a && a <= b;
      SubsetSmaller(a, b, n);
    }
  }

  lemma SubsetSmaller(a: set<int>, b: set<int>, x: int)
    requires a <= b && x in b && x !in a
    ensures |a| < |b|
  {
    assert a <= b - {x};
    SubsetSize(a, b - {x});
  }

  lemma {:induction false} SubsetSize(a: set<int>, b: set<int>)
    requires a <= b
    ensures |a| <= |b|
    decreases |a|
  {
    if a != {} {
      var x := Pick(a);
      SubsetSize(a - {x}, b - {x});
    }
  }

  /** Reference counts met exactly. */
  ghost predicate CountsOk(e: Env, t: Table, svcs: map<int, Service>, start: map<int, int>)
    requires Shaped(t, NEW_BUCKET_COUNT) && start.Keys <= svcs.Keys
  {
    forall id :: id in start ==> start[id] == |Held(e, t, svcs[id], id)|
  }

  /** One slot of the new table. */
  method CheckNewSlot(e: Env, x: int, m: map<int, Entry>, left: map<int, int>, n: nat, i: nat, ghost t: Table,
                      ghost start: map<int, int>)
    returns (err: int, left': map<int, int>)
    requires Shaped(t, NEW_BUCKET_COUNT) && start.Keys <= m.Keys && n < NEW_BUCKET_COUNT && i < BUCKET_SIZE &&
      x == t[n][i]
    requires NewLeft(e, t, Services(m), start, left, n, i)
    ensures err == 0 ==> NewSlotOk(e, x, Services(m), start, n, i) && NewLeft(e, t, Services(m), start, left', n, i + 1)
    ensures err != 0 ==> !NewSlotOk(e, x, Services(m), start, n, i) || !CountsOk(e, t, Services(m), start)
  {
    hide SeenCount; hide Held;
    left' := left;
    forall id | id in m
      ensures SeenCount(e, t, m[id].service, id, n, i + 1)
        == SeenCount(e, t, m[id].service, id, n, i) + if Meets(e, t, m[id].service, id, n, i) then 1 else 0
    {
      SeenNext(e, t, m[id].service, id, n, i);
    }
    if x == -1 { return 0, left; }
    if x !in left {
      if x in m { SeenBound(e, t, m[x].service, x, n, i); }
      return -12, left;
    }
    if e.NewPos(m[x].service, n) != i { return -19, left; }
    if left[x] == 1 { left' := left - {x}; } else { left' := left[x := left[x] - 1]; }
    err := 0;
  }

  /** The loops over the new table. */
  method CheckNew(e: Env, t: Table, m: map<int, Entry>, start: map<int, int>) returns (err: int, left: map<int, int>)
    requires Shaped(t, NEW_BUCKET_COUNT) && start.Keys <= m.Keys && forall id :: id in start ==> start[id] > 0
    ensures err == 0 ==> NewSlotsOk(e, t, Services(m), start, NEW_BUCKET_COUNT, 0)
    ensures err == 0 ==> (left == map[] <==> CountsOk(e, t, Services(m), start))
    ensures err != 0 ==>
      !NewSlotsOk(e, t, Services(m), start, NEW_BUCKET_COUNT, 0) || !CountsOk(e, t, Services(m), start)
  {
    hide NewLeft; hide NewSlotOk; hide CountsOk;
    left := start;
    NewStarts(e, t, Services(m), start);
    for n := 0 to NEW_BUCKET_COUNT
      invariant NewSlotsOk(e, t, Services(m), start, n, 0) && NewLeft(e, t, Services(m), start, left, n, 0)
    {
      for i := 0 to BUCKET_SIZE
        invariant NewSlotsOk(e, t, Services(m), start, n, i) && NewLeft(e, t, Services(m), start, left, n, i)
      {
        err, left := CheckNewSlot(e, t[n][i], m, left, n, i, t, start);
        if err != 0 {
          assert Passed(NEW_BUCKET_COUNT, 0, n, i);
          return;
        }
      }
      NewRow(e, t, Services(m), start, left, n);
    }
    err := 0;
    NewEnds(e, t, Services(m), start, left);
  }

  lemma NewStarts(e: Env, t: Table, svcs: map<int, Service>, start: map<int, int>)
    requires Shaped(t, NEW_BUCKET_COUNT) && start.Keys <= svcs.Keys && forall id :: id in start ==> start[id] > 0
    ensures NewLeft(e, t, svcs, start, start, 0, 0)
  {
    hide SeenCount; hide Held;
    forall id | id in start ensures SeenCount(e, t, svcs[id], id, 0, 0) == 0 { SeenEnds(e, t, svcs[id], id); }
  }

  lemma NewRow(e: Env, t: Table, svcs: map<int, Service>, start: map<int, int>, left: map<int, int>, n: nat)
    requires Shaped(t, NEW_BUCKET_COUNT) && start.Keys <= svcs.Keys && NewLeft(e, t, svcs, start, left, n, BUCKET_SIZE)
    ensures NewLeft(e, t, svcs, start, left, n + 1, 0)
  {
    hide SeenCount; hide Held;
    forall id | id in start
      ensures SeenCount(e, t, svcs[id], id, n + 1, 0) == SeenCount(e, t, svcs[id], id, n, BUCKET_SIZE) {
      SeenRow(e, t, svcs[id], id, n);
    }
  }

  lemma NewEnds(e: Env, t: Table, svcs: map<int, Service>, start: map<int, int>, left: map<int, int>)
    requires Shaped(t, NEW_BUCKET_COUNT) && start.Keys <= svcs.Keys &&
      NewLeft(e, t, svcs, start, left, NEW_BUCKET_COUNT, 0)
    ensures left == map[] <==> CountsOk(e, t, svcs, start)
  {
    hide SeenCount; hide Held;
    forall id | id in start ensures SeenCount(e, t, svcs[id], id, NEW_BUCKET_COUNT, 0) == |Held(e, t, svcs[id], id)| {
      SeenEnds(e, t, svcs[id], id);
    }
    if CountsOk(e, t, svcs, start) {
      NoMembers(left.Keys);
      NoEntries(left);
    }
  }

  lemma NoEntries(m: map<int, int>)
    requires m.Keys == {}
    ensures m == map[]
  {
    var none: map<int, int> := map[];
    assert m.Keys == none.Keys;
  }

  // ----- the whole check

  /** The clauses of the consistency check that speak of single entries. */
  ghost predicate EntryClauses(s: State)
    requires Formed(s)
  {
    && Timed(s.stats, s.tried) && RefsBounded(s.refs, s.tried, {})
    && (forall id :: id in s.svcs ==> (if s.svcs[id].net in s.addr then s.addr[s.svcs[id].net] else 0) == id)
    && (forall id :: id in s.pos ==> 0 <= s.pos[id] < |s.random| && s.random[s.pos[id]] == id)
  }

  lemma EntriesChecked(s: State, m: map<int, Entry>)
    requires Formed(s) && Aspects(s, m)
    ensures EntriesOk(m, s.addr, s.random) <==> EntryClauses(s)
  {
    if EntryClauses(s) {
      forall id | id in m ensures EntryOk(m[id], id, s.addr, s.random) {
        assert id in s.svcs && id in s.pos && id in s.refs && id in s.stats;
      }
    }
    if EntriesOk(m, s.addr, s.random) {
      forall id | id in s.svcs ensures EntryOk(m[id], id, s.addr, s.random) { assert id in m; }
    }
  }

  /** Slots and counts of the new table: exactly the placement and the counting of new entries, none numbered -1. */
  lemma NewChecked(e: Env, t: Table, m: map<int, Entry>)
    requires Shaped(t, NEW_BUCKET_COUNT)
    requires forall id :: id in m ==> if m[id].inTried then m[id].refCount == 0 else m[id].refCount > 0
    ensures -1 !in TriedIds(m) ==>
      (NewSlotsOk(e, t, Services(m), NewRefs(m), NEW_BUCKET_COUNT, 0) && CountsOk(e, t, Services(m), NewRefs(m)) <==>
       -1 !in Services(m) && NewPlaced(e, t, Services(m), TriedIds(m)) && Counted(e, t, Services(m), RefCounts(m)))
  {
    hide Buckets; hide NewSlotsOk; hide NewPlaced;
    NewSlotsArePlaced(e, t, m);
    if -1 in m {
      if !m[-1].inTried { assert -1 in NewRefs(m) && |Held(e, t, m[-1].service, -1)| == 0; }
    } else if NewPlaced(e, t, Services(m), TriedIds(m)) {
      CountsAgree(e, t, m);
    }
  }

  lemma CountsAgree(e: Env, t: Table, m: map<int, Entry>)
    requires Shaped(t, NEW_BUCKET_COUNT) && -1 !in m && NewPlaced(e, t, Services(m), TriedIds(m))
    requires forall id :: id in m && m[id].inTried ==> m[id].refCount == 0
    ensures CountsOk(e, t, Services(m), NewRefs(m)) <==> Counted(e, t, Services(m), RefCounts(m))
  {
    hide Buckets; hide NewPlaced;
    if CountsOk(e, t, Services(m), NewRefs(m)) {
      forall id | id in Services(m) ensures RefCounts(m)[id] == |Buckets(e, t, Services(m)[id], id)| {
        if m[id].inTried { TriedHasNoBucket(e, t, m, id); } else { assert id in NewRefs(m); }
      }
    }
    if Counted(e, t, Services(m), RefCounts(m)) {
      forall id | id in NewRefs(m) ensures NewRefs(m)[id] == |Held(e, t, Services(m)[id], id)| {
        assert id in Services(m);
      }
    }
  }

  lemma NewSlotsArePlaced(e: Env, t: Table, m: map<int, Entry>)
    requires Shaped(t, NEW_BUCKET_COUNT)
    ensures NewSlotsOk(e, t, Services(m), NewRefs(m), NEW_BUCKET_COUNT, 0) <==>
      NewPlaced(e, t, Services(m), TriedIds(m))
  {
    if NewSlotsOk(e, t, Services(m), NewRefs(m), NEW_BUCKET_COUNT, 0) {
      forall b, p | 0 <= b < NEW_BUCKET_COUNT && 0 <= p < BUCKET_SIZE && t[b][p] != -1
        ensures t[b][p] in m && !m[t[b][p]].inTried && e.NewPos(m[t[b][p]].service, b) == p
      {
        assert Passed(NEW_BUCKET_COUNT, 0, b, p);
        assert NewSlotOk(e, t[b][p], Services(m), NewRefs(m), b, p);
      }
    }
  }

  lemma TriedHasNoBucket(e: Env, t: Table, m: map<int, Entry>, id: int)
    requires Shaped(t, NEW_BUCKET_COUNT) && NewPlaced(e, t, Services(m), TriedIds(m)) && id in m && m[id].inTried &&
      id != -1
    ensures |Buckets(e, t, m[id].service, id)| == 0
  {
    NoMembers(Buckets(e, t, m[id].service, id));
  }

  lemma SizesAgree(m: map<int, Entry>)
    ensures NewRefs(m).Keys == Services(m).Keys - TriedIds(m)
  {
    assert forall id :: id in NewRefs(m).Keys <==> id in Services(m).Keys - TriedIds(m);
  }

  /** `Check_`: returns zero exactly when every clause of the consistency check holds. Looking up an address that
      has no id enters it with id zero. */
  method Check(a: CAddrMan) returns (err: int)
    requires Formed(a.View())
    modifies a`mapAddr
    ensures err == 0 <==> Checked(a.env, old(a.View()))
    ensures LookedUp(old(a.mapAddr), a.mapAddr) && OnlyEntries(a.mapInfo, old(a.mapAddr), a.mapAddr)
  {
    hide OnlyEntries; hide Checked; hide TriedPlaced; hide EntriesOk; hide NewSlotsOk; hide CountsOk; hide LookedUp;
    hide Formed;
    ghost var s := a.View();
    FormedTables(s);
    CheckedNeeds(a.env, s, a.mapInfo);
    if |a.vRandom| != a.nTried + a.nNew { return -7; }
    var addr, setTried, mapNew;
    err, addr, setTried, mapNew := CheckEntries(a.mapInfo, a.mapAddr, a.vRandom);
    a.mapAddr := addr;
    if err != 0 { return; }
    if |setTried| != a.nTried { return -9; }
    if |mapNew| != a.nNew { return -10; }
    EntryRefs(a.mapInfo, s.addr, a.vRandom);
    CheckedRest(a.env, s, a.mapInfo);
    err := CheckTables(a, s, setTried, mapNew);
    if err != 0 { return; }
    if a.env.key == 0 { return -16; }
    return 0;
  }

  lemma FormedTables(s: State)
    requires Formed(s)
    ensures Shaped(s.triedTab, TRIED_BUCKET_COUNT) && Shaped(s.newTab, NEW_BUCKET_COUNT) && s.tried <= s.svcs.Keys
    ensures LookedUp(s.addr, s.addr) && forall m :: OnlyEntries(m, s.addr, s.addr)
  {
  }

  /** The state's aspects are those of the entries. */
  ghost predicate Aspects(s: State, m: map<int, Entry>) {
    && s.svcs == Services(m) && s.pos == Positions(m) && s.refs == RefCounts(m) && s.tried == TriedIds(m)
    && s.stats == StatsOf(m)
  }

  /** What the check looks at before the tables. */
  lemma CheckedNeeds(e: Env, s: State, m: map<int, Entry>)
    requires Formed(s) && Aspects(s, m)
    ensures Checked(e, s) ==>
      && |s.random| == s.nTried + s.nNew && EntriesOk(m, s.addr, s.random)
      && |s.tried| == s.nTried && |NewRefs(m)| == s.nNew && e.key != 0
  {
    hide TriedPlaced; hide NewPlaced; hide Counted; hide EntriesOk; hide Timed; hide RefsBounded;
    EntriesChecked(s, m);
    SizesAgree(m);
  }

  lemma TriedNumbered(e: Env, t: Table, svcs: map<int, Service>, tried: set<int>)
    requires Shaped(t, TRIED_BUCKET_COUNT) && tried <= svcs.Keys
    ensures TriedPlaced(e, t, svcs, tried) ==> -1 !in tried
  {
  }

  /** The rest of it is about the tables and the key. */
  lemma CheckedRest(e: Env, s: State, m: map<int, Entry>)
    requires Formed(s) && Aspects(s, m)
    requires |s.random| == s.nTried + s.nNew && EntriesOk(m, s.addr, s.random)
    requires |s.tried| == s.nTried && |NewRefs(m)| == s.nNew
    ensures Checked(e, s) <==>
      && TriedPlaced(e, s.triedTab, s.svcs, s.tried) && e.key != 0
      && NewSlotsOk(e, s.newTab, s.svcs, NewRefs(m), NEW_BUCKET_COUNT, 0) && CountsOk(e, s.newTab, s.svcs, NewRefs(m))
  {
    hide NewPlaced; hide Counted; hide EntriesOk; hide Timed; hide RefsBounded; hide NewSlotsOk; hide CountsOk;
    hide TriedPlaced; hide Shaped;
    TriedNumbered(e, s.triedTab, s.svcs, s.tried);
    EntriesChecked(s, m);
    SizesAgree(m);
    EntryRefs(m, s.addr, s.random);
    NewChecked(e, s.newTab, m);
  }

  /** The second half: both tables against the ids collected. */
  method CheckTables(a: CAddrMan, ghost s: State, setTried: set<int>, mapNew: map<int, int>) returns (err: int)
    requires Formed(s) && s.svcs == Services(a.mapInfo) && s.tried == setTried == TriedIds(a.mapInfo)
    requires s.triedTab == a.vvTried && s.newTab == a.vvNew && mapNew == NewRefs(a.mapInfo)
    requires forall id :: id in mapNew ==> mapNew[id] > 0
    ensures err == 0 <==>
      && TriedPlaced(a.env, s.triedTab, s.svcs, s.tried)
      && NewSlotsOk(a.env, s.newTab, s.svcs, mapNew, NEW_BUCKET_COUNT, 0) && CountsOk(a.env, s.newTab, s.svcs, mapNew)
  {
    hide NewPlaced; hide Counted; hide TriedSlotsOk; hide TriedLeft; hide NewSlotsOk; hide CountsOk;
    var left, leftNew;
    err, left := CheckTried(a.env, a.vvTried, a.mapInfo, setTried);
    TriedChecked(a.env, a.vvTried, s.svcs, setTried, left);
    if err != 0 { return; }
    err, leftNew := CheckNew(a.env, a.vvNew, a.mapInfo, mapNew);
    if err != 0 { return; }
    if left != {} { return -13; }
    if |leftNew| != 0 { return -15; }
    return 0;
  }

  lemma EntryRefs(m: map<int, Entry>, addr: map<NetAddr, int>, random: seq<int>)
    ensures EntriesOk(m, addr, random) ==>
      && (forall id :: id in m ==> if m[id].inTried then m[id].refCount == 0 else m[id].refCount > 0)
      && (forall id :: id in NewRefs(m) ==> NewRefs(m)[id] > 0)
  {
  }

  /** In every run from construction with a key and positive times the check passes, and changes nothing. */
  method CheckPasses(a: CAddrMan) returns (err: int)
    requires a.Valid() && Timed(a.View().stats, a.View().tried) && a.env.key != 0
    modifies a`mapAddr
    ensures err == 0 && a.View() == old(a.View())
  {
    hide Timed; hide Checked; hide Placed; hide RandomIndex;
    InvChecks(a.env, a.View());
    ghost var addr, svcs := a.mapAddr, a.View().svcs;
    assert forall id :: id in a.mapInfo ==> id in svcs && svcs[id].net in addr;
    err := Check(a);
    assert forall x :: x in a.mapAddr.Keys <==> x in addr.Keys;
    assert a.mapAddr == addr;
  }
}
