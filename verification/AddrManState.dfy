/** The address manager's state as a value, the steps its operations take on it,
    and the consistency invariant that `CAddrMan::Check_` tests.

    The state is kept aspect by aspect: instead of one map of entries there is
    one map for each thing an entry records. `AddrMan` relates it to entries.

    The salted hashes that place an entry in a bucket (fixed key and asmap) are
    arbitrary functions; randomness and the clock are arguments. */
module AddrManState {

  const TRIED_BUCKET_COUNT := 256
  const NEW_BUCKET_COUNT := 1024
  const BUCKET_SIZE := 64
  const NEW_BUCKETS_PER_ADDRESS := 8
  const SET_TRIED_COLLISION_SIZE := 10
  const REPLACEMENT_SECONDS := 4 * 60 * 60
  const TEST_WINDOW := 40 * 60
  const GETADDR_MAX_PCT := 23
  const GETADDR_MAX := 2500

  datatype Option<T> = None | Some(value: T)

  /** `CNetAddr`: the raw address, without a port. */
  datatype NetAddr = NetAddr(ip: seq<int>)

  /** `CService`: an address with a port. */
  datatype Service = Service(net: NetAddr, port: nat)

  /** `CAddress`: a service with its advertised services (a set of flags) and last-seen time. */
  datatype Address = Address(service: Service, services: set<nat>, time: int)

  /** What a `CAddrInfo` records beside its address, references, table and random position. */
  datatype Stats = Stats(services: set<nat>, time: int, source: NetAddr,
                         lastTry: int, lastCountAttempt: int, lastSuccess: int, attempts: int)

  /** The key, the salted hashes (for that key and one asmap) and the address classes. */
  datatype Env = Env(
    key: nat,
    triedHash: Service -> nat,
    newHash: (NetAddr, NetAddr) -> nat,
    positionHash: (bool, int, Service) -> nat,
    routable: NetAddr -> bool,
    valid: NetAddr -> bool)
  {
    function TriedBucket(s: Service): nat { triedHash(s) % TRIED_BUCKET_COUNT }
    function NewBucket(s: Service, source: NetAddr): nat { newHash(s.net, source) % NEW_BUCKET_COUNT }
    function Position(inNew: bool, bucket: int, s: Service): nat { positionHash(inNew, bucket, s) % BUCKET_SIZE }
    function TriedPos(s: Service): nat { Position(false, TriedBucket(s), s) }
    function NewPos(s: Service, bucket: int): nat { Position(true, bucket, s) }
  }

  /** A bucket table; -1 marks an empty slot. */
  type Table = seq<seq<int>>

  predicate Shaped(t: Table, buckets: nat) {
    |t| == buckets && forall b :: 0 <= b < |t| ==> |t[b]| == BUCKET_SIZE
  }

  function Put(t: Table, b: nat, p: nat, id: int): Table
    requires b < |t| && p < |t[b]|
  {
    t[b := t[b][p := id]]
  }

  datatype State = State(
    idCount: int,
    svcs: map<int, Service>,
    pos: map<int, int>,
    refs: map<int, int>,
    tried: set<int>,
    stats: map<int, Stats>,
    addr: map<NetAddr, int>,
    random: seq<int>,
    nTried: int,
    triedTab: Table,
    nNew: int,
    newTab: Table,
    lastGood: int,
    collisions: set<int>)

  // ----- the invariant -----

  predicate Formed(s: State) {
    && Shaped(s.triedTab, TRIED_BUCKET_COUNT) && Shaped(s.newTab, NEW_BUCKET_COUNT)
    && s.pos.Keys == s.refs.Keys == s.stats.Keys == s.svcs.Keys && s.tried <= s.svcs.Keys
  }

  /** `mapAddr` and the entries' addresses are inverse to each other. */
  ghost predicate AddrIndex(svcs: map<int, Service>, addr: map<NetAddr, int>) {
    && (forall id :: id in svcs ==> svcs[id].net in addr && addr[svcs[id].net] == id)
    && (forall a :: a in addr ==> addr[a] in svcs && svcs[addr[a]].net == a)
  }

  /** `vRandom` and the entries' positions are inverse to each other. */
  ghost predicate RandomIndex(pos: map<int, int>, random: seq<int>) {
    && |random| == |pos|
    && (forall id :: id in pos ==> 0 <= pos[id] < |random| && random[pos[id]] == id)
    && (forall i :: 0 <= i < |random| ==> random[i] in pos && pos[random[i]] == i)
  }

  ghost predicate IdsBelow(svcs: map<int, Service>, idCount: int) {
    0 <= idCount && forall id :: id in svcs ==> 0 <= id < idCount
  }

  /** Every occupied tried slot holds a tried entry at its hashed place, and every tried entry has its slot. */
  ghost predicate TriedPlaced(e: Env, t: Table, svcs: map<int, Service>, tried: set<int>)
    requires Shaped(t, TRIED_BUCKET_COUNT) && tried <= svcs.Keys
  {
    && (forall b, p :: 0 <= b < TRIED_BUCKET_COUNT && 0 <= p < BUCKET_SIZE && t[b][p] != -1 ==>
          t[b][p] in tried && e.TriedBucket(svcs[t[b][p]]) == b && e.TriedPos(svcs[t[b][p]]) == p)
    && (forall id :: id in tried ==> id != -1 && t[e.TriedBucket(svcs[id])][e.TriedPos(svcs[id])] == id)
  }

  /** Every occupied new slot holds a non-tried entry at its hashed position. */
  ghost predicate NewPlaced(e: Env, t: Table, svcs: map<int, Service>, tried: set<int>)
    requires Shaped(t, NEW_BUCKET_COUNT)
  {
    forall b, p :: 0 <= b < NEW_BUCKET_COUNT && 0 <= p < BUCKET_SIZE && t[b][p] != -1 ==>
      t[b][p] in svcs && t[b][p] !in tried && e.NewPos(svcs[t[b][p]], b) == p
  }

  /** The new buckets whose slot for this service holds `id`. */
  function Buckets(e: Env, t: Table, svc: Service, id: int): set<int>
    requires Shaped(t, NEW_BUCKET_COUNT)
  {
    set b | 0 <= b < NEW_BUCKET_COUNT && t[b][e.NewPos(svc, b)] == id
  }

  /** Each reference count is the number of new slots holding the id. */
  ghost predicate Counted(e: Env, t: Table, svcs: map<int, Service>, refs: map<int, int>)
    requires Shaped(t, NEW_BUCKET_COUNT) && refs.Keys == svcs.Keys
  {
    forall id :: id in svcs ==> refs[id] == |Buckets(e, t, svcs[id], id)|
  }

  /** New entries have 1 to 8 references (those in `limbo` may have 0), tried entries none. */
  ghost predicate RefsBounded(refs: map<int, int>, tried: set<int>, limbo: set<int>) {
    forall id :: id in refs ==>
      if id in tried then refs[id] == 0
      else (id in limbo || 0 < refs[id]) && refs[id] <= NEW_BUCKETS_PER_ADDRESS
  }

  ghost predicate Timed(stats: map<int, Stats>, tried: set<int>) {
    forall id :: id in stats ==>
      0 <= stats[id].lastTry && 0 <= stats[id].lastSuccess && (id in tried ==> stats[id].lastSuccess != 0)
  }

  /** Pending collisions are old ids, and one that still exists has an occupied tried slot. */
  ghost predicate CollisionsHeld(e: Env, t: Table, svcs: map<int, Service>, idCount: int, collisions: set<int>)
    requires Shaped(t, TRIED_BUCKET_COUNT)
  {
    forall id :: id in collisions ==>
      0 <= id < idCount && (id in svcs ==> t[e.TriedBucket(svcs[id])][e.TriedPos(svcs[id])] != -1)
  }

  /** `mapInfo`, `mapAddr` and `vRandom` are indexes over one set of ids, all below `nIdCount`. */
  ghost predicate Indexed(s: State) {
    IdsBelow(s.svcs, s.idCount) && AddrIndex(s.svcs, s.addr) && RandomIndex(s.pos, s.random)
  }

  /** The tables, reference counts and tallies agree with the entries.
      `limbo` ids may be new without a reference; `uncounted` of the ids are in
      neither `nNew` nor `nTried`. */
  ghost predicate Placed(e: Env, s: State, limbo: set<int>, uncounted: nat)
    requires Formed(s)
  {
    && NewPlaced(e, s.newTab, s.svcs, s.tried)
    && TriedPlaced(e, s.triedTab, s.svcs, s.tried)
    && Counted(e, s.newTab, s.svcs, s.refs)
    && RefsBounded(s.refs, s.tried, limbo)
    && s.nTried == |s.tried|
    && s.nNew + s.nTried + uncounted == |s.svcs|
  }

  /** The invariant inside an operation. */
  ghost predicate Mid(e: Env, s: State, limbo: set<int>, uncounted: nat) {
    Formed(s) && Indexed(s) && Placed(e, s, limbo, uncounted)
  }

  /** The invariant between operations; `Timed` joins it where all times given are positive. */
  ghost predicate Inv(e: Env, s: State) {
    Mid(e, s, {}, 0) && CollisionsHeld(e, s.triedTab, s.svcs, s.idCount, s.collisions)
  }

  // ----- steps -----

  function EmptyTable(buckets: nat): (t: Table)
    ensures Shaped(t, buckets)
    ensures forall b, p :: 0 <= b < buckets && 0 <= p < BUCKET_SIZE ==> t[b][p] == -1
  {
    seq(buckets, _ => seq(BUCKET_SIZE, _ => -1))
  }

  /** A freshly constructed manager. */
  function Cleared(): State {
    State(0, map[], map[], map[], {}, map[], map[], [],
          0, EmptyTable(TRIED_BUCKET_COUNT), 0, EmptyTable(NEW_BUCKET_COUNT), 1, {})
  }

  function Find(s: State, a: NetAddr): Option<int> {
    if a in s.addr && s.addr[a] in s.svcs then Some(s.addr[a]) else None
  }

  /** Adds an entry under the next id; it is in neither table yet. */
  function Create(s: State, svc: Service, st: Stats): State {
    var id := s.idCount;
    s.(idCount := id + 1,
       svcs := s.svcs[id := svc],
       pos := s.pos[id := |s.random|],
       refs := s.refs[id := 0],
       tried := s.tried - {id},
       stats := s.stats[id := st],
       addr := s.addr[svc.net := id],
       random := s.random + [id])
  }

  function SwapRandom(s: State, i: nat, j: nat): State
    requires i < |s.random| && j < |s.random|
  {
    if i == j then s else
      s.(pos := s.pos[s.random[i] := j][s.random[j] := i],
         random := s.random[i := s.random[j]][j := s.random[i]])
  }

  function Delete(s: State, id: int): State
    requires id in s.svcs && id in s.pos && 0 <= s.pos[id] < |s.random|
  {
    var t := SwapRandom(s, s.pos[id], |s.random| - 1);
    t.(random := t.random[..|t.random| - 1],
       addr := t.addr - {s.svcs[id].net},
       svcs := t.svcs - {id},
       pos := t.pos - {id},
       refs := t.refs - {id},
       tried := t.tried - {id},
       stats := t.stats - {id},
       nNew := t.nNew - 1)
  }

  /** Empties new slot (b, p); an entry that loses its last reference goes. */
  function ClearNew(s: State, b: nat, p: nat): State
    requires Formed(s) && RandomIndex(s.pos, s.random) && b < NEW_BUCKET_COUNT && p < BUCKET_SIZE
    requires s.newTab[b][p] != -1 ==> s.newTab[b][p] in s.svcs
  {
    var id := s.newTab[b][p];
    if id == -1 then s else
      var t := s.(refs := s.refs[id := s.refs[id] - 1], newTab := Put(s.newTab, b, p, -1));
      if t.refs[id] == 0 then Delete(t, id) else t
  }

  /** The new table with every slot of this service that holds `id` emptied. */
  function Emptied(e: Env, t: Table, svc: Service, id: int): (r: Table)
    requires Shaped(t, NEW_BUCKET_COUNT)
    ensures Shaped(r, NEW_BUCKET_COUNT)
  {
    seq(NEW_BUCKET_COUNT, b requires 0 <= b < NEW_BUCKET_COUNT =>
      if t[b][e.NewPos(svc, b)] == id then t[b][e.NewPos(svc, b) := -1] else t[b])
  }

  /** Removes the entry from all new buckets, before it becomes tried. */
  function LeaveNew(e: Env, s: State, id: int): State
    requires Formed(s) && id in s.svcs
  {
    s.(newTab := Emptied(e, s.newTab, s.svcs[id], id),
       refs := s.refs[id := s.refs[id] - |Buckets(e, s.newTab, s.svcs[id], id)|],
       nNew := s.nNew - 1)
  }

  /** Takes the entry in tried slot (b, p) out of the tried table. */
  function LeaveTried(s: State, b: nat, p: nat): State
    requires Formed(s) && b < TRIED_BUCKET_COUNT && p < BUCKET_SIZE
  {
    s.(tried := s.tried - {s.triedTab[b][p]},
       triedTab := Put(s.triedTab, b, p, -1),
       nTried := s.nTried - 1)
  }

  /** Writes the entry into new slot (b, p) with the given reference count. */
  function EnterNew(s: State, id: int, b: nat, p: nat, refs: int): State
    requires Formed(s) && b < NEW_BUCKET_COUNT && p < BUCKET_SIZE
  {
    s.(refs := s.refs[id := refs], newTab := Put(s.newTab, b, p, id))
  }

  function EnterTried(s: State, id: int, b: nat, p: nat): State
    requires Formed(s) && b < TRIED_BUCKET_COUNT && p < BUCKET_SIZE
  {
    s.(tried := s.tried + {id}, triedTab := Put(s.triedTab, b, p, id), nTried := s.nTried + 1)
  }
}
