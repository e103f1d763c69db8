/** Entries (`CAddrInfo`) and the aspects of them that the state keeps. */
module AddrManEntries {
  import opened AddrManState

  /** `CAddrInfo`. */
  datatype Entry = Entry(service: Service, st: Stats, refCount: int, inTried: bool, randomPos: int)

  // What the entries say, one aspect at a time.
  ghost function Services(m: map<int, Entry>): map<int, Service> { map id | id in m :: m[id].service }
  ghost function Positions(m: map<int, Entry>): map<int, int> { map id | id in m :: m[id].randomPos }
  ghost function RefCounts(m: map<int, Entry>): map<int, int> { map id | id in m :: m[id].refCount }
  ghost function TriedIds(m: map<int, Entry>): set<int> { set id | id in m && m[id].inTried }
  ghost function StatsOf(m: map<int, Entry>): map<int, Stats> { map id | id in m :: m[id].st }

  /** Only the named aspect of one entry changes. */
  lemma SetPosition(m: map<int, Entry>, id: int, p: int)
    requires id in m
    ensures var k := m[id := m[id].(randomPos := p)];
      && Positions(k) == Positions(m)[id := p] && Services(k) == Services(m) && RefCounts(k) == RefCounts(m)
      && TriedIds(k) == TriedIds(m) && StatsOf(k) == StatsOf(m)
  {
  }

  lemma SetRefCount(m: map<int, Entry>, id: int, r: int)
    requires id in m
    ensures var k := m[id := m[id].(refCount := r)];
      && RefCounts(k) == RefCounts(m)[id := r] && Services(k) == Services(m) && Positions(k) == Positions(m)
      && TriedIds(k) == TriedIds(m) && StatsOf(k) == StatsOf(m)
  {
  }

  lemma SetTried(m: map<int, Entry>, id: int, inTried: bool)
    requires id in m
    ensures var k := m[id := m[id].(inTried := inTried)];
      && TriedIds(k) == (if inTried then TriedIds(m) + {id} else TriedIds(m) - {id})
      && Services(k) == Services(m) && Positions(k) == Positions(m) && RefCounts(k) == RefCounts(m) &&
        StatsOf(k) == StatsOf(m)
  {
  }

  lemma SetStat(m: map<int, Entry>, id: int, st: Stats)
    requires id in m
    ensures var k := m[id := m[id].(st := st)];
      && StatsOf(k) == StatsOf(m)[id := st] && Services(k) == Services(m) && Positions(k) == Positions(m)
      && RefCounts(k) == RefCounts(m) && TriedIds(k) == TriedIds(m)
  {
  }

  lemma NewEntry(m: map<int, Entry>, id: int, x: Entry)
    ensures Services(m[id := x]) == Services(m)[id := x.service]
    ensures Positions(m[id := x]) == Positions(m)[id := x.randomPos]
    ensures RefCounts(m[id := x]) == RefCounts(m)[id := x.refCount]
    ensures !x.inTried ==> TriedIds(m[id := x]) == TriedIds(m) - {id}
    ensures StatsOf(m[id := x]) == StatsOf(m)[id := x.st]
  {
  }

  lemma DropEntry(m: map<int, Entry>, id: int)
    ensures Services(m - {id}) == Services(m) - {id}
    ensures Positions(m - {id}) == Positions(m) - {id}
    ensures RefCounts(m - {id}) == RefCounts(m) - {id}
    ensures TriedIds(m - {id}) == TriedIds(m) - {id}
    ensures StatsOf(m - {id}) == StatsOf(m) - {id}
  {
  }

  lemma LastPosition(m: map<int, Entry>, random: seq<int>, id: int)
    requires RandomIndex(Positions(m), random) && id in m
    ensures 0 <= m[id].randomPos < |random| && random[m[id].randomPos] == id
    ensures random[|random| - 1] in m && (random[|random| - 1] == id ==> m[id].randomPos == |random| - 1)
  {
    assert Positions(m)[id] == m[id].randomPos;
    assert random[|random| - 1] in Positions(m);
  }

  /** The entries differ at most in their random positions. */
  ghost predicate Reordered(m: map<int, Entry>, k: map<int, Entry>) {
    && k.Keys == m.Keys
    && (forall id :: id in k ==> k[id] == m[id].(randomPos := k[id].randomPos))
  }

  lemma ReorderedTransitive(m: map<int, Entry>, k: map<int, Entry>, l: map<int, Entry>)
    requires Reordered(m, k) && Reordered(k, l)
    ensures Reordered(m, l)
  {
  }

  lemma ReorderedAt(m: map<int, Entry>, k: map<int, Entry>, id: int)
    requires Reordered(m, k) && id in k
    ensures id in m && k[id].st == m[id].st && AddressOf(k[id]) == AddressOf(m[id])
  {
  }

  lemma ReorderedAspects(m: map<int, Entry>, k: map<int, Entry>)
    requires Reordered(m, k)
    ensures Services(k) == Services(m)
    ensures RefCounts(k) == RefCounts(m)
    ensures StatsOf(k) == StatsOf(m)
    ensures TriedIds(k) == TriedIds(m)
  {
    assert Services(k).Keys == k.Keys && Services(m).Keys == m.Keys;
    assert forall id :: id in Services(k).Keys ==> Services(k)[id] == Services(m)[id];
    assert RefCounts(k).Keys == k.Keys && RefCounts(m).Keys == m.Keys;
    assert forall id :: id in RefCounts(k).Keys ==> RefCounts(k)[id] == RefCounts(m)[id];
    assert StatsOf(k).Keys == k.Keys && StatsOf(m).Keys == m.Keys;
    assert forall id :: id in StatsOf(k).Keys ==> StatsOf(k)[id] == StatsOf(m)[id];
    assert forall id :: id in TriedIds(k) <==> id in TriedIds(m);
  }

  function AddressOf(x: Entry): Address { Address(x.service, x.st.services, x.st.time) }

  lemma RandomKnown(m: map<int, Entry>, random: seq<int>, i: nat)
    requires RandomIndex(Positions(m), random) && i < |random|
    ensures random[i] in m && m[random[i]].randomPos == i
  {
    assert random[i] in Positions(m);
  }
}
