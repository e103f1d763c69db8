/** One layer of the UTXO cache as a value: what it shows above its parent, and what each entry edit does to that. */
module CoinsCache {
  import opened SetSum

  /** An outpoint; only compared and used as a key. */
  type OutPoint = int
  type Script = seq<int>

  const OP_RETURN := 0x6a
  const MAX_SCRIPT_SIZE := 10000
  const DIRECT_SCRIPT_BYTES := 28

  datatype Coin = Spent | Unspent(value: int, script: Script, height: nat, coinBase: bool)

  /** A cached coin with its DIRTY and FRESH flags. */
  datatype Entry = Entry(coin: Coin, isDirty: bool, isFresh: bool)

  type Utxos = map<OutPoint, Coin>
  type Cache = map<OutPoint, Entry>

  predicate Unspendable(s: Script) {
    (|s| > 0 && s[0] == OP_RETURN) || |s| > MAX_SCRIPT_SIZE
  }

  /** Heap bytes behind a coin: short scripts are stored inline, longer ones in one 16-byte aligned block. */
  function Usage(c: Coin): nat {
    if c.Spent? || |c.script| <= DIRECT_SCRIPT_BYTES then 0 else (|c.script| + 31) / 16 * 16
  }

  ghost predicate AllUnspent(m: Utxos) {
    forall o :: o in m ==> m[o].Unspent?
  }

  /** The coin a view shows, `Spent` where it has none. */
  function CoinAt(m: Utxos, o: OutPoint): Coin {
    if o in m then m[o] else Spent
  }

  /** A UTXO map after one outpoint takes a coin, or loses it. */
  function Put(m: Utxos, o: OutPoint, c: Coin): Utxos {
    if c.Unspent? then m[o := c] else m - {o}
  }

  /** What a cache shows over its parent: its own entries first. */
  ghost function Visible(parent: Utxos, cache: Cache): Utxos {
    map o | o in parent.Keys + cache.Keys && (o in cache ==> cache[o].coin.Unspent?)
      :: if o in cache then cache[o].coin else parent[o]
  }

  /** The stated meaning of the two flags against the parent view. */
  ghost predicate FlagsHold(parent: Utxos, e: Entry, o: OutPoint) {
    && (e.isFresh ==> o !in parent)
    && (!e.isDirty ==> e.coin == CoinAt(parent, o))
  }

  ghost predicate Coherent(parent: Utxos, cache: Cache) {
    forall o :: o in cache ==> FlagsHold(parent, cache[o], o)
  }

  /** The entry an added coin leaves: fresh if it was, or if nothing here or below could hold an unspent coin. */
  function AfterAdd(cache: Cache, o: OutPoint, coin: Coin, possibleOverwrite: bool): Cache {
    var existing := if o in cache then cache[o] else Entry(Spent, false, false);
    cache[o := Entry(coin, true, existing.isFresh || (!possibleOverwrite && !existing.isDirty))]
  }

  /** A cache after one modified entry of a child was merged into it. */
  function AfterMerge(cache: Cache, o: OutPoint, e: Entry): Cache {
    if o !in cache then
      if e.isFresh && e.coin.Spent? then cache else cache[o := Entry(e.coin, true, e.isFresh)]
    else
      if cache[o].isFresh && e.coin.Spent? then cache - {o} else cache[o := Entry(e.coin, true, cache[o].isFresh)]
  }

  ghost predicate SameAt(a: Cache, b: Cache, o: OutPoint) {
    (o in a <==> o in b) && (o in a && o in b ==> a[o] == b[o])
  }

  /** At each outpoint the cache is as before, or merged where the child had modified it. */
  ghost predicate MergedAt(before: Cache, after: Cache, child: Cache, o: OutPoint) {
    SameAt(after, if o in child && child[o].isDirty then AfterMerge(before, o, child[o]) else before, o)
  }

  lemma SameUtxos(a: Utxos, b: Utxos)
    requires AllUnspent(a) && AllUnspent(b) && forall o :: CoinAt(a, o) == CoinAt(b, o)
    ensures a == b
  {
    forall o ensures o in a.Keys <==> o in b.Keys { assert CoinAt(a, o) == CoinAt(b, o); }
    assert a.Keys == b.Keys;
    forall o | o in a ensures a[o] == b[o] { assert CoinAt(a, o) == CoinAt(b, o); }
  }

  lemma PutAt(m: Utxos, o: OutPoint, c: Coin, x: OutPoint)
    requires AllUnspent(m)
    ensures AllUnspent(Put(m, o, c))
    ensures CoinAt(Put(m, o, c), x) == if x == o then c else CoinAt(m, x)
  {
  }

  lemma VisibleAt(parent: Utxos, cache: Cache, x: OutPoint)
    requires AllUnspent(parent)
    ensures AllUnspent(Visible(parent, cache))
    ensures CoinAt(Visible(parent, cache), x) == if x in cache then cache[x].coin else CoinAt(parent, x)
  {
  }

  /** Writing an entry changes the view at that outpoint only. */
  lemma VisibleSet(parent: Utxos, cache: Cache, o: OutPoint, e: Entry)
    requires AllUnspent(parent)
    ensures Visible(parent, cache[o := e]) == Put(Visible(parent, cache), o, e.coin)
  {
    var a, b := Visible(parent, cache[o := e]), Put(Visible(parent, cache), o, e.coin);
    VisibleAt(parent, cache, o);
    VisibleAt(parent, cache[o := e], o);
    PutAt(Visible(parent, cache), o, e.coin, o);
    forall x ensures CoinAt(a, x) == CoinAt(b, x) {
      VisibleAt(parent, cache, x);
      VisibleAt(parent, cache[o := e], x);
      PutAt(Visible(parent, cache), o, e.coin, x);
    }
    SameUtxos(a, b);
  }

  /** Erasing an entry lets the parent's coin show through. */
  lemma VisibleErase(parent: Utxos, cache: Cache, o: OutPoint)
    requires AllUnspent(parent)
    ensures Visible(parent, cache - {o}) == Put(Visible(parent, cache), o, CoinAt(parent, o))
  {
    var a, b := Visible(parent, cache - {o}), Put(Visible(parent, cache), o, CoinAt(parent, o));
    VisibleAt(parent, cache, o);
    VisibleAt(parent, cache - {o}, o);
    PutAt(Visible(parent, cache), o, CoinAt(parent, o), o);
    forall x ensures CoinAt(a, x) == CoinAt(b, x) {
      VisibleAt(parent, cache, x);
      VisibleAt(parent, cache - {o}, x);
      PutAt(Visible(parent, cache), o, CoinAt(parent, o), x);
    }
    SameUtxos(a, b);
  }

  lemma PutSame(m: Utxos, o: OutPoint, c: Coin)
    requires AllUnspent(m) && c == CoinAt(m, o)
    ensures Put(m, o, c) == m
  {
    PutAt(m, o, c, o);
    forall x ensures CoinAt(Put(m, o, c), x) == CoinAt(m, x) { PutAt(m, o, c, x); }
    SameUtxos(Put(m, o, c), m);
  }

  /** An empty cache shows its parent. */
  lemma VisibleEmpty(parent: Utxos)
    requires AllUnspent(parent)
    ensures Visible(parent, map[]) == parent
  {
    VisibleAt(parent, map[], 0);
    forall x ensures CoinAt(Visible(parent, map[]), x) == CoinAt(parent, x) { VisibleAt(parent, map[], x); }
    SameUtxos(Visible(parent, map[]), parent);
  }

  /** Coherence survives writing an entry exactly if its flags hold. */
  lemma CoherentSet(parent: Utxos, cache: Cache, o: OutPoint, e: Entry)
    requires Coherent(parent, cache)
    ensures Coherent(parent, cache[o := e]) <==> FlagsHold(parent, e, o)
  {
    assert cache[o := e][o] == e;
  }

  lemma CoherentErase(parent: Utxos, cache: Cache, o: OutPoint)
    requires Coherent(parent, cache)
    ensures Coherent(parent, cache - {o})
  {
  }

  lemma CoherentAt(parent: Utxos, cache: Cache, o: OutPoint)
    requires Coherent(parent, cache)
    ensures o in cache ==> FlagsHold(parent, cache[o], o)
  {
  }

  // ----- best block

  type BlockHash = int

  /** The null hash: ask the layer below. */
  const NO_BLOCK: BlockHash := 0

  // ----- memory accounting

  ghost function UsageMap(cache: Cache): map<int, int> {
    map o | o in cache :: Usage(cache[o].coin)
  }

  /** Heap bytes behind all the cached coins. */
  ghost function TotalUsage(cache: Cache): int {
    Sum(UsageMap(cache), cache.Keys)
  }

  lemma NothingCached(parent: Utxos)
    ensures Coherent(parent, map[]) && TotalUsage(map[]) == 0
  {
  }

  lemma UsageErase(cache: Cache, o: OutPoint)
    requires o in cache
    ensures TotalUsage(cache - {o}) == TotalUsage(cache) - Usage(cache[o].coin)
  {
    SumRemove(UsageMap(cache), cache.Keys, o);
    assert (cache - {o}).Keys == cache.Keys - {o};
    SumAgrees(UsageMap(cache), UsageMap(cache - {o}), cache.Keys - {o});
  }

  lemma UsageInsert(cache: Cache, o: OutPoint, e: Entry)
    requires o !in cache
    ensures TotalUsage(cache[o := e]) == TotalUsage(cache) + Usage(e.coin)
  {
    var c := cache[o := e];
    UsageErase(c, o);
    assert (c - {o}).Keys == cache.Keys;
    assert c - {o} == cache;
  }

  lemma UsageWrite(cache: Cache, o: OutPoint, e: Entry)
    ensures TotalUsage(cache[o := e])
      == TotalUsage(cache) + Usage(e.coin) - if o in cache then Usage(cache[o].coin) else 0
  {
    var c := cache - {o};
    UsageInsert(c, o, e);
    assert c[o := e].Keys == cache[o := e].Keys;
    assert c[o := e] == cache[o := e];
    if o in cache {
      UsageErase(cache, o);
    } else {
      assert c.Keys == cache.Keys;
      assert c == cache;
    }
  }
}
