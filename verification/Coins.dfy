/** The stack of UTXO caches over a database (`CCoinsViewCache`), of any depth. */
module Coins {
  import opened SetSum
  import opened CoinsCache

  /** A coin view: the database when `base` is null, otherwise a cache over `base`. */
  class CoinsView {
    const base: CoinsView?
    var stored: Utxos
    var cacheCoins: Cache
    var cachedCoinsUsage: int
    var hashBlock: BlockHash
    ghost const Repr: set<CoinsView>

    /** The layers are distinct objects. */
    ghost predicate Layered()
      decreases Repr
    {
      && this in Repr
      && (base != null ==> base.Repr < Repr && this !in base.Repr && base.Layered())
    }

    /** The UTXO map this view shows. */
    ghost function View(): Utxos
      requires Layered()
      reads Repr
      decreases Repr
    {
      if base == null then stored else Visible(base.View(), cacheCoins)
    }

    /** The best block: this layer's own hash if it is set, otherwise what the layer below says. */
    ghost function BestBlock(): BlockHash
      requires Layered()
      reads Repr
      decreases Repr
    {
      if base == null || hashBlock != NO_BLOCK then hashBlock else base.BestBlock()
    }

    ghost predicate Valid()
      reads Repr
      ensures Valid() ==> Layered()
      decreases Repr
    {
      && Layered()
      && (base == null ==> AllUnspent(stored))
      && (base != null ==> base.Valid() && Coherent(base.View(), cacheCoins))
      && (base != null ==> cachedCoinsUsage == TotalUsage(cacheCoins))
    }

    lemma {:induction false} ViewUnspent()
      requires Valid()
      ensures AllUnspent(View())
      decreases Repr
    {
      if base != null {
        base.ViewUnspent();
        VisibleAt(base.View(), cacheCoins, 0);
      }
    }

    /** A database holding the given unspent coins. */
    constructor Database(contents: Utxos, bestBlock: BlockHash)
      requires AllUnspent(contents)
      ensures Valid() && View() == contents && BestBlock() == bestBlock && fresh(Repr)
    {
      hashBlock := bestBlock;
      base := null;
      stored := contents;
      cacheCoins := map[];
      cachedCoinsUsage := 0;
      Repr := {this};
    }

    /** An empty cache over another view. */
    constructor Over(parent: CoinsView)
      requires parent.Valid()
      ensures Valid() && base == parent && View() == parent.View() && Repr == parent.Repr + {this}
      ensures hashBlock == NO_BLOCK && BestBlock() == parent.BestBlock()
    {
      hashBlock := NO_BLOCK;
      base := parent;
      stored := map[];
      cacheCoins := map[];
      cachedCoinsUsage := 0;
      Repr := parent.Repr + {this};
      new;
      parent.ViewUnspent();
      VisibleEmpty(parent.View());
    }

    /** `FetchCoin`: makes sure a coin of the parent view is cached, filling the lower caches on the way. */
    method FetchCoin(o: OutPoint) returns (found: bool)
      requires Valid() && base != null
      modifies Repr
      ensures Valid() && View() == old(View())
      ensures hashBlock == old(hashBlock) && BestBlock() == old(BestBlock())
      ensures base.View() == old(base.View())
      ensures (found <==> o in cacheCoins) && (found <==> o in old(cacheCoins) || o in base.View())
      ensures CoinAt(View(), o) == if found then cacheCoins[o].coin else Spent
      ensures cacheCoins == if o in old(cacheCoins) || !found then old(cacheCoins)
        else old(cacheCoins)[o := Entry(CoinAt(base.View(), o), false, false)]
      decreases Repr, 0
    {
      hide Visible; hide TotalUsage; hide Usage; hide Put; hide AllUnspent;
      base.ViewUnspent();
      VisibleAt(base.View(), cacheCoins, o);
      if o in cacheCoins { return true; }
      var tmp;
      found, tmp := base.GetCoin(o);
      if !found { return; }
      ghost var was := cacheCoins;
      // A spent coin would start out fresh; a valid parent never hands one out.
      var e := Entry(tmp, false, tmp.Spent?);
      cacheCoins := cacheCoins[o := e];
      cachedCoinsUsage := cachedCoinsUsage + Usage(tmp);
      UsageInsert(was, o, e);
      CoherentSet(base.View(), was, o, e);
      VisibleSet(base.View(), was, o, e);
      PutSame(Visible(base.View(), was), o, tmp);
    }

    /** `GetCoin`, and the database read at the bottom. */
    method GetCoin(o: OutPoint) returns (found: bool, coin: Coin)
      requires Valid()
      modifies Repr
      ensures Valid() && View() == old(View())
      ensures hashBlock == old(hashBlock) && BestBlock() == old(BestBlock())
      ensures coin == CoinAt(View(), o) && (found <==> coin.Unspent?)
      decreases Repr, 1
    {
      if base == null {
        if o in stored { return true, stored[o]; }
        return false, Spent;
      }
      var inCache := FetchCoin(o);
      if !inCache { return false, Spent; }
      coin := cacheCoins[o].coin;
      found := coin.Unspent?;
    }

    method HaveCoin(o: OutPoint) returns (have: bool)
      requires Valid() && base != null
      modifies Repr
      ensures Valid() && View() == old(View()) && (have <==> o in View())
      ensures hashBlock == old(hashBlock) && BestBlock() == old(BestBlock())
    {
      var found := FetchCoin(o);
      have := found && cacheCoins[o].coin.Unspent?;
      ViewUnspent();
    }

    /** `AccessCoin`: the empty coin where the view has none. */
    method AccessCoin(o: OutPoint) returns (coin: Coin)
      requires Valid() && base != null
      modifies Repr
      ensures Valid() && View() == old(View()) && coin == CoinAt(View(), o)
      ensures hashBlock == old(hashBlock) && BestBlock() == old(BestBlock())
    {
      var found := FetchCoin(o);
      coin := if found then cacheCoins[o].coin else Spent;
    }

    /** Replaces or adds one cached entry, with its memory accounted for; sound exactly if its flags are. */
    method WriteEntry(o: OutPoint, e: Entry)
      requires Valid() && base != null
      modifies this
      ensures base.Valid() && base.View() == old(base.View()) && View() == Put(old(View()), o, e.coin)
      ensures Valid() <==> FlagsHold(base.View(), e, o)
      ensures cacheCoins == old(cacheCoins)[o := e]
      ensures hashBlock == old(hashBlock) && BestBlock() == old(BestBlock())
    {
      hide Visible; hide TotalUsage; hide Usage; hide Put; hide Coherent; hide AllUnspent; hide FlagsHold; hide CoinAt;
      base.ViewUnspent();
      ghost var was := cacheCoins;
      if o in cacheCoins { cachedCoinsUsage := cachedCoinsUsage - Usage(cacheCoins[o].coin); }
      cacheCoins := cacheCoins[o := e];
      cachedCoinsUsage := cachedCoinsUsage + Usage(e.coin);
      UsageWrite(was, o, e);
      CoherentSet(base.View(), was, o, e);
      VisibleSet(base.View(), was, o, e);
    }

    /** Drops one cached entry, so that the parent's coin shows again. */
    method EraseEntry(o: OutPoint)
      requires Valid() && base != null && o in cacheCoins
      modifies this
      ensures Valid() && base.View() == old(base.View())
      ensures hashBlock == old(hashBlock) && BestBlock() == old(BestBlock())
      ensures View() == Put(old(View()), o, CoinAt(base.View(), o))
      ensures cacheCoins == old(cacheCoins) - {o}
    {
      hide Visible; hide TotalUsage; hide Usage; hide Put; hide Coherent; hide AllUnspent; hide CoinAt;
      base.ViewUnspent();
      ghost var was := cacheCoins;
      cachedCoinsUsage := cachedCoinsUsage - Usage(cacheCoins[o].coin);
      cacheCoins := cacheCoins - {o};
      UsageErase(was, o);
      CoherentErase(base.View(), was, o);
      VisibleErase(base.View(), was, o);
    }

    /**
     * `AddCoin`: unspendable outputs are ignored. Without `possibleOverwrite` the view must have no unspent coin
     * there: a cached one is an error, which leaves the memory accounting short; one that only the parent knows is
     * not noticed, and the entry is then wrongly marked fresh.
     */
    method AddCoin(o: OutPoint, coin: Coin, possibleOverwrite: bool) returns (ok: bool)
      requires Valid() && base != null && coin.Unspent?
      modifies this
      ensures base.Valid() && base.View() == old(base.View())
      ensures hashBlock == old(hashBlock) && BestBlock() == old(BestBlock())
      ensures ok <==>
        Unspendable(coin.script) || possibleOverwrite || CoinAt(old(View()), o).Spent? || o !in old(cacheCoins)
      ensures ok ==> (Valid() <==> Unspendable(coin.script) || possibleOverwrite || o !in old(View()))
      ensures ok ==> View() == if Unspendable(coin.script) then old(View()) else old(View())[o := coin]
      ensures ok && !Unspendable(coin.script) ==> cacheCoins == AfterAdd(old(cacheCoins), o, coin, possibleOverwrite)
      ensures !ok || Unspendable(coin.script) ==> cacheCoins == old(cacheCoins) && View() == old(View())
      ensures !ok ==> cachedCoinsUsage == old(cachedCoinsUsage) - Usage(old(cacheCoins)[o].coin)
    {
      hide Visible; hide TotalUsage; hide Usage; hide Coherent; hide AllUnspent;
      if Unspendable(coin.script) { return true; }
      base.ViewUnspent();
      VisibleAt(base.View(), cacheCoins, o);
      var existing := if o in cacheCoins then cacheCoins[o] else Entry(Spent, false, false);
      var isFresh := false;
      if !possibleOverwrite {
        if existing.coin.Unspent? {
          cachedCoinsUsage := cachedCoinsUsage - Usage(existing.coin);
          return false;
        }
        isFresh := !existing.isDirty;
      }
      CoherentAt(base.View(), cacheCoins, o);
      WriteEntry(o, Entry(coin, true, existing.isFresh || isFresh));
      ok := true;
    }

    /** `SpendCoin`: false only when neither the cache nor the parent view knows the outpoint. */
    method SpendCoin(o: OutPoint) returns (found: bool, moved: Coin)
      requires Valid() && base != null
      modifies Repr
      ensures Valid() && base.View() == old(base.View())
      ensures hashBlock == old(hashBlock) && BestBlock() == old(BestBlock())
      ensures View() == old(View()) - {o}
      ensures moved == CoinAt(old(View()), o) && (moved.Unspent? ==> found)
      ensures found <==> o in old(cacheCoins) || o in old(base.View())
      ensures o in old(cacheCoins) ==>
        cacheCoins == if old(cacheCoins)[o].isFresh then old(cacheCoins) - {o}
          else old(cacheCoins)[o := Entry(Spent, true, false)]
      ensures o !in old(cacheCoins) ==>
        cacheCoins == if found then old(cacheCoins)[o := Entry(Spent, true, false)] else old(cacheCoins)
    {
      hide Visible; hide TotalUsage; hide Coherent;
      found := FetchCoin(o);
      if !found {
        moved := Spent;
        ViewUnspent();
        PutSame(View(), o, Spent);
        return;
      }
      moved := cacheCoins[o].coin;
      assert o !in old(cacheCoins) ==>
        cacheCoins[o := Entry(Spent, true, false)] == old(cacheCoins)[o := Entry(Spent, true, false)];
      Clear(o);
    }

    /** Drops a fresh entry, or marks it as spent for the parent to learn. */
    method Clear(o: OutPoint)
      requires Valid() && base != null && o in cacheCoins
      modifies this
      ensures Valid() && base.View() == old(base.View()) && View() == old(View()) - {o}
      ensures hashBlock == old(hashBlock) && BestBlock() == old(BestBlock())
      ensures cacheCoins == if old(cacheCoins)[o].isFresh then old(cacheCoins) - {o}
        else old(cacheCoins)[o := Entry(Spent, true, false)]
    {
      hide Visible; hide TotalUsage;
      if cacheCoins[o].isFresh {
        EraseEntry(o);
      } else {
        WriteEntry(o, Entry(Spent, true, false));
      }
    }

    /** `Uncache`: forgets an unmodified entry. */
    method Uncache(o: OutPoint)
      requires Valid() && base != null
      modifies this
      ensures Valid() && base.View() == old(base.View()) && View() == old(View())
      ensures hashBlock == old(hashBlock) && BestBlock() == old(BestBlock())
      ensures cacheCoins == if o in old(cacheCoins) && !old(cacheCoins)[o].isDirty && !old(cacheCoins)[o].isFresh
        then old(cacheCoins) - {o} else old(cacheCoins)
    {
      if o in cacheCoins && !cacheCoins[o].isDirty && !cacheCoins[o].isFresh {
        base.ViewUnspent();
        VisibleAt(base.View(), cacheCoins, o);
        PutSame(View(), o, CoinAt(base.View(), o));
        EraseEntry(o);
      }
    }

    /** One entry of `BatchWrite`, for a dirty entry of a child. */
    method Merge(o: OutPoint, e: Entry)
      requires Valid() && base != null && e.isDirty && (e.isFresh ==> o !in View())
      modifies this
      ensures Valid() && base.View() == old(base.View()) && View() == Put(old(View()), o, e.coin)
      ensures hashBlock == old(hashBlock) && BestBlock() == old(BestBlock())
      ensures cacheCoins == AfterMerge(old(cacheCoins), o, e)
    {
      base.ViewUnspent();
      VisibleAt(base.View(), cacheCoins, o);
      if o !in cacheCoins {
        if e.isFresh && e.coin.Spent? {
          PutSame(View(), o, Spent);
        } else {
          WriteEntry(o, Entry(e.coin, true, e.isFresh));
        }
      } else {
        assert !(e.isFresh && cacheCoins[o].coin.Unspent?);
        if cacheCoins[o].isFresh && e.coin.Spent? {
          EraseEntry(o);
        } else {
          WriteEntry(o, Entry(e.coin, true, cacheCoins[o].isFresh));
        }
      }
    }

    /** Takes over one entry of a child, into a cache or into the database; an unmodified one is ignored. */
    method TakeOver(o: OutPoint, e: Entry)
      requires Valid() && FlagsHold(View(), e, o)
      modifies this
      ensures Valid() && View() == Put(old(View()), o, e.coin)
      ensures base != null ==> base.View() == old(base.View())
      ensures base != null ==> cacheCoins == if e.isDirty then AfterMerge(old(cacheCoins), o, e) else old(cacheCoins)
    {
      hide Visible; hide TotalUsage; hide Coherent;
      ViewUnspent();
      if !e.isDirty {
        PutSame(View(), o, e.coin);
      } else if base == null {
        stored := if e.coin.Spent? then stored - {o} else stored[o := e.coin];
      } else {
        Merge(o, e);
      }
    }

    /** `BatchWrite`: takes over the modified entries of a child cache, into a cache or into the database. */
    method BatchWrite(mapCoins: Cache, hash: BlockHash)
      requires Valid() && Coherent(View(), mapCoins) && (base == null ==> hash != NO_BLOCK)
      modifies this
      ensures Valid() && View() == Visible(old(View()), mapCoins) && hashBlock == hash
      ensures base != null ==> base.View() == old(base.View())
      ensures base != null ==> forall o :: MergedAt(old(cacheCoins), cacheCoins, mapCoins, o)
    {
      hide MergedAt; hide Visible; hide TotalUsage; hide Coherent; hide FlagsHold; hide Put; hide AllUnspent;
      hide AfterMerge;
      ghost var v, before := View(), cacheCoins;
      NotMerged(before, mapCoins);
      ViewUnspent();
      TakenNone(v, mapCoins);
      var todo := mapCoins.Keys;
      while todo != {}
        invariant todo <= mapCoins.Keys
        invariant Valid() && (base != null ==> base.View() == old(base.View())) && AllUnspent(View())
        invariant base != null ==> forall x :: MergedAt(before, cacheCoins, mapCoins - todo, x)
        invariant Taken(v, mapCoins, todo, View())
        decreases |todo|
      {
        Inhabited(todo);
        var o :| o in todo;
        ghost var was, cache := View(), cacheCoins;
        TakenFlags(v, mapCoins, todo, was, o);
        TakeOver(o, mapCoins[o]);
        ViewUnspent();
        if base != null { MergedOne(before, cache, cacheCoins, mapCoins, todo, o); }
        TakenOne(v, mapCoins, todo, was, o);
        todo := todo - {o};
      }
      if base != null { AllMerged(before, cacheCoins, mapCoins); }
      TakenAll(v, mapCoins, View());
      hashBlock := hash;
    }

    /**
     * `Flush`: moves every change one layer down; what this view shows stays the same. The parent takes over this
     * layer's own best-block hash even if it was never set, so the best block stays the same exactly when it was
     * set, or the parent had none of its own that differs from what is below.
     */
    method Flush()
      requires Valid() && base != null && (base.base == null ==> hashBlock != NO_BLOCK)
      modifies Repr
      ensures Valid() && View() == old(View()) && base.View() == old(View()) && cacheCoins == map[]
      ensures hashBlock == old(hashBlock) == base.hashBlock
      ensures hashBlock != NO_BLOCK ==> BestBlock() == old(BestBlock())
      ensures hashBlock == NO_BLOCK ==>
        (BestBlock() == old(BestBlock()) <==> old(base.BestBlock()) == old(base.base.BestBlock()))
    {
      hide Visible; hide AllUnspent; hide Coherent; hide TotalUsage;
      base.BatchWrite(cacheCoins, hashBlock);
      cacheCoins := map[];
      cachedCoinsUsage := 0;
      base.ViewUnspent();
      VisibleEmpty(base.View());
      NothingCached(base.View());
    }

    /** `GetBestBlock`: remembers what the layer below says. */
    method GetBestBlock() returns (hash: BlockHash)
      requires Valid()
      modifies Repr
      ensures Valid() && View() == old(View()) && hash == old(BestBlock()) == BestBlock()
      ensures hashBlock == hash && (base != null ==> base.BestBlock() == old(base.BestBlock()))
      decreases Repr
    {
      hide Visible; hide AllUnspent; hide Coherent; hide TotalUsage;
      if base != null && hashBlock == NO_BLOCK {
        hashBlock := base.GetBestBlock();
      }
      hash := hashBlock;
    }

    method SetBestBlock(hash: BlockHash)
      requires Valid()
      modifies this
      ensures Valid() && View() == old(View()) && hashBlock == hash
    {
      hide Visible; hide AllUnspent; hide Coherent; hide TotalUsage;
      hashBlock := hash;
    }

    /** `AddCoins`: the outputs of one transaction; with `check` no promise about the view is needed. */
    method AddCoins(outs: seq<Output>, coinBase: bool, check: bool)
      requires Valid() && base != null && Distinct(outs) && forall i :: 0 <= i < |outs| ==> outs[i].coin.Unspent?
      requires check || coinBase || forall i :: 0 <= i < |outs| ==> outs[i].o !in View()
      modifies Repr
      ensures Valid() && View() == WithOutputs(old(View()), outs)
      ensures hashBlock == old(hashBlock) && BestBlock() == old(BestBlock())
    {
      ghost var v := View();
      assert outs[..0] == [];
      for i := 0 to |outs|
        invariant Valid() && View() == WithOutputs(v, outs[..i]) && hashBlock == old(hashBlock) &&
          BestBlock() == old(BestBlock())
      {
        var overwrite := coinBase;
        if check { overwrite := HaveCoin(outs[i].o); }
        OutputsAt(v, outs[..i], outs[i].o);
        var _ := AddCoin(outs[i].o, outs[i].coin, overwrite);
        assert outs[..i + 1][..i] == outs[..i];
      }
      assert outs[..|outs|] == outs;
    }

    /** `HaveInputs` for a transaction that is not a coinbase. */
    method HaveInputs(prevouts: seq<OutPoint>) returns (have: bool)
      requires Valid() && base != null
      modifies Repr
      ensures Valid() && View() == old(View())
      ensures hashBlock == old(hashBlock) && BestBlock() == old(BestBlock())
      ensures have <==> forall i :: 0 <= i < |prevouts| ==> prevouts[i] in View()
    {
      ghost var v := View();
      for i := 0 to |prevouts|
        invariant Valid() && View() == v && hashBlock == old(hashBlock) && BestBlock() == old(BestBlock()) &&
          forall j :: 0 <= j < i ==> prevouts[j] in v
      {
        have := HaveCoin(prevouts[i]);
        if !have { return; }
      }
      have := true;
    }
  }

  /** The view once all of a child's entries but those in `todo` have been taken over. */
  ghost predicate Taken(v: Utxos, child: Cache, todo: set<OutPoint>, now: Utxos) {
    forall x :: CoinAt(now, x) == if x in child && x !in todo then child[x].coin else CoinAt(v, x)
  }

  lemma TakenNone(v: Utxos, child: Cache)
    ensures Taken(v, child, child.Keys, v)
  {
  }

  lemma TakenFlags(v: Utxos, child: Cache, todo: set<OutPoint>, now: Utxos, o: OutPoint)
    requires Coherent(v, child) && Taken(v, child, todo, now) && o in todo && o in child
    requires AllUnspent(v) && AllUnspent(now)
    ensures FlagsHold(now, child[o], o)
  {
    assert CoinAt(now, o) == CoinAt(v, o);
  }

  lemma TakenOne(v: Utxos, child: Cache, todo: set<OutPoint>, now: Utxos, o: OutPoint)
    requires Taken(v, child, todo, now) && AllUnspent(now) && o in todo && o in child
    ensures Taken(v, child, todo - {o}, Put(now, o, child[o].coin))
  {
    forall x
      ensures CoinAt(Put(now, o, child[o].coin), x)
        == if x in child && x !in todo - {o} then child[x].coin else CoinAt(v, x)
    {
      PutAt(now, o, child[o].coin, x);
    }
  }

  lemma TakenAll(v: Utxos, child: Cache, now: Utxos)
    requires Taken(v, child, {}, now) && AllUnspent(v) && AllUnspent(now)
    ensures now == Visible(v, child)
  {
    VisibleAt(v, child, 0);
    forall x ensures CoinAt(now, x) == CoinAt(Visible(v, child), x) { VisibleAt(v, child, x); }
    SameUtxos(now, Visible(v, child));
  }

  lemma NotMerged(before: Cache, child: Cache)
    ensures forall o :: MergedAt(before, before, child - child.Keys, o)
  {
  }

  lemma MergedOne(before: Cache, cache: Cache, after: Cache, child: Cache, todo: set<OutPoint>, o: OutPoint)
    requires o in todo && todo <= child.Keys && (forall x :: MergedAt(before, cache, child - todo, x))
    requires after == if child[o].isDirty then AfterMerge(cache, o, child[o]) else cache
    ensures forall x :: MergedAt(before, after, child - (todo - {o}), x)
  {
    forall x ensures MergedAt(before, after, child - (todo - {o}), x) {
      assert MergedAt(before, cache, child - todo, x);
    }
  }

  lemma AllMerged(before: Cache, after: Cache, child: Cache)
    requires forall o :: MergedAt(before, after, child - {}, o)
    ensures forall o :: MergedAt(before, after, child, o)
  {
    forall o ensures MergedAt(before, after, child, o) { assert MergedAt(before, after, child - {}, o); }
  }

  datatype Output = Output(o: OutPoint, coin: Coin)

  ghost predicate Distinct(outs: seq<Output>) {
    forall i, j :: 0 <= i < j < |outs| ==> outs[i].o != outs[j].o
  }

  /** A plain map given the spendable outputs of a transaction in order. */
  ghost function WithOutputs(m: Utxos, outs: seq<Output>): Utxos {
    if outs == [] then m
    else
      var last := outs[|outs| - 1];
      var before := WithOutputs(m, outs[..|outs| - 1]);
      if last.coin.Spent? || Unspendable(last.coin.script) then before else before[last.o := last.coin]
  }

  lemma {:induction false} OutputsAt(m: Utxos, outs: seq<Output>, o: OutPoint)
    requires forall i :: 0 <= i < |outs| ==> outs[i].o != o
    ensures o in WithOutputs(m, outs) <==> o in m
  {
    if outs != [] { OutputsAt(m, outs[..|outs| - 1], o); }
  }

  // ----- whole runs against one plain map

  datatype Op =
    | Get(o: OutPoint)
    | Add(o: OutPoint, coin: Coin, overwrite: bool)
    | Spend(o: OutPoint)
    | Uncache(o: OutPoint)
    | Flush
    | GetBest
    | SetBest(hash: BlockHash)

  /** What an operation answers. */
  datatype Answer = None | Shows(coin: Coin) | Names(hash: BlockHash)

  /** A plain map with its best block; `known` once the top layer has a hash of its own, and `kept` as long as
      nothing was flushed without one. */
  datatype Plain = Plain(utxos: Utxos, best: BlockHash, known: bool, kept: bool)

  /** The caller's side: only unspent coins are added, without `overwrite` only where there is none, and a best
      block is known before anything is written to the database. */
  ghost predicate Legal(m: Plain, overDatabase: bool, op: Op) {
    && (op.Add? ==> op.coin.Unspent? && (op.overwrite || op.o !in m.utxos))
    && (op.Flush? && overDatabase ==> m.known)
    && (op.SetBest? ==> op.hash != NO_BLOCK)
  }

  /** The plain map given the same operation. */
  ghost function Apply(m: Plain, op: Op): Plain {
    match op
    case Add(o, coin, _) => if coin.Spent? || Unspendable(coin.script) then m else m.(utxos := m.utxos[o := coin])
    case Spend(o) => m.(utxos := m.utxos - {o})
    case Flush => m.(kept := m.kept && m.known)
    case GetBest => m.(known := m.known || (m.kept && m.best != NO_BLOCK))
    case SetBest(hash) => m.(best := hash, known := true)
    case _ => m
  }

  ghost function Applied(m: Plain, ops: seq<Op>): Plain {
    if ops == [] then m else Apply(Applied(m, ops[..|ops| - 1]), ops[|ops| - 1])
  }

  ghost predicate AllLegal(m: Plain, overDatabase: bool, ops: seq<Op>) {
    forall i :: 0 <= i < |ops| ==> Legal(Applied(m, ops[..i]), overDatabase, ops[i])
  }

  /** The coin an operation reads or takes out, or the best block it names. */
  ghost predicate Answers(m: Plain, op: Op, a: Answer) {
    match op
    case Get(o) => a == Shows(CoinAt(m.utxos, o))
    case Spend(o) => a == Shows(CoinAt(m.utxos, o))
    case GetBest => a.Names? && (m.kept ==> a.hash == m.best)
    case _ => a == None
  }

  /** The stack shows what the plain map holds. */
  ghost predicate Agrees(v: CoinsView, m: Plain)
    reads v.Repr
  {
    && v.Valid() && v.View() == m.utxos
    && (m.kept ==> v.BestBlock() == m.best)
    && (m.known ==> v.hashBlock != NO_BLOCK)
  }

  method Perform(v: CoinsView, op: Op, ghost m: Plain) returns (a: Answer)
    requires v.base != null && Agrees(v, m) && Legal(m, v.base.base == null, op)
    modifies v.Repr
    ensures Agrees(v, Apply(m, op)) && Answers(m, op, a)
  {
    a := None;
    match op {
      case Get(o) => var c := v.AccessCoin(o); a := Shows(c);
      case Add(o, c, overwrite) => var _ := v.AddCoin(o, c, overwrite);
      case Spend(o) => var _, c := v.SpendCoin(o); a := Shows(c);
      case Uncache(o) => v.Uncache(o);
      case Flush => v.Flush();
      case GetBest => var h := v.GetBestBlock(); a := Names(h);
      case SetBest(h) => v.SetBestBlock(h);
    }
  }

  /** Any run of operations on top of any stack shows and answers what one plain map would. */
  method PerformAll(v: CoinsView, ops: seq<Op>) returns (answers: seq<Answer>)
    requires v.Valid() && v.base != null
    requires AllLegal(Plain(v.View(), v.BestBlock(), v.hashBlock != NO_BLOCK, true), v.base.base == null, ops)
    modifies v.Repr
    ensures var m := old(Plain(v.View(), v.BestBlock(), v.hashBlock != NO_BLOCK, true));
      && Agrees(v, Applied(m, ops)) && |answers| == |ops|
      && forall i :: 0 <= i < |ops| ==> Answers(Applied(m, ops[..i]), ops[i], answers[i])
  {
    hide Agrees; hide Legal; hide Apply; hide Answers;
    ghost var m := Plain(v.View(), v.BestBlock(), v.hashBlock != NO_BLOCK, true);
    AgreesFirst(v);
    answers := [];
    assert ops[..0] == [];
    for i := 0 to |ops|
      invariant Agrees(v, Applied(m, ops[..i]))
      invariant |answers| == i && forall j :: 0 <= j < i ==> Answers(Applied(m, ops[..j]), ops[j], answers[j])
    {
      assert Legal(Applied(m, ops[..i]), v.base.base == null, ops[i]);
      var a := Perform(v, ops[i], Applied(m, ops[..i]));
      answers := answers + [a];
      assert ops[..i + 1][..i] == ops[..i];
    }
    assert ops[..|ops|] == ops;
  }

  lemma AgreesFirst(v: CoinsView)
    requires v.Valid()
    ensures Agrees(v, Plain(v.View(), v.BestBlock(), v.hashBlock != NO_BLOCK, true))
  {
  }
}
