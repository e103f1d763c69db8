/** The cuckoo cache (`CuckooCache::cache`), in sequential runs. */
module Cuckoo {
  import opened Basics
  import opened CuckooTable

  /** How far the live count of an epoch may exceed the epoch size. */
  function Slack(epochSize: nat): nat { Max(1, epochSize / 16) }

  class Cache {
    const hash: Hashes
    const size: nat
    const epochSize: nat
    const depthLimit: nat
    var table: seq<Element>
    var flags: Flags
    var epochFlags: seq<bool>
    var epochHeuristicCounter: nat

    ghost predicate Shaped()
      reads this
    {
      && size >= 2 && epochSize >= 1 && depthLimit >= 1 && |table| == size == |epochFlags|
      && Covers(flags, size) && WellPlaced(table, flags, hash) && NoTwice(table)
    }

    /** Slots well placed, and the live count of the epoch within bounds however the next inserts go. */
    ghost predicate Valid()
      reads this
    {
      Shaped() && LiveCount(flags, epochFlags, size) + epochHeuristicCounter <= epochSize + Slack(epochSize)
    }

    ghost function Live(): set<Element>
      reads this
      requires Shaped()
    {
      LiveSet(table, flags)
    }

    /** `setup`; the depth limit is computed from the size in floating point and is at least one. */
    constructor (newSize: nat, depth: nat, hashing: Hashes)
      requires newSize < 0xffff_ffff && depth >= 1
      ensures Valid() && Live() == {} && size == Max(2, newSize) && epochSize == Max(1, 45 * size % 0x1_0000_0000 / 100)
    {
      hide LiveCount; hide LiveSet; hide Locs; hide BitIsSet;
      var n := Max(2, newSize);
      var epoch := Max(1, 45 * n % 0x1_0000_0000 / 100);
      hash, depthLimit, size, epochSize, epochHeuristicCounter := hashing, depth, n, epoch, epoch;
      table := seq(n, i => BLANK);
      flags := seq((n + 7) / 8, i => {0, 1, 2, 3, 4, 5, 6, 7});
      epochFlags := seq(n, i => false);
      new;
      NoneLive(flags, table);
      CountNone(flags, epochFlags, size);
    }

    /** The counting loop of `epoch_check`. */
    method CountEpoch() returns (count: nat)
      requires Shaped()
      ensures count == LiveCount(flags, epochFlags, size)
    {
      count := 0;
      for i := 0 to size
        invariant count == LiveCount(flags, epochFlags, i)
      {
        if epochFlags[i] && !BitIsSet(flags, i) { count := count + 1; }
      }
    }

    /** The aging loop of `epoch_check`: the old epoch becomes collectable, the current one old. */
    method Age()
      requires Shaped()
      modifies this`flags, this`epochFlags
      ensures Shaped() && LiveCount(flags, epochFlags, size) == 0 && Live() == old(CurrentSet(table, flags, epochFlags))
      ensures forall i :: 0 <= i < size ==>
        !epochFlags[i] && (IsLive(flags, i) <==> old(IsLive(flags, i) && epochFlags[i]))
    {
      hide BitIsSet; hide BitSet; hide Locs;
      ghost var before, epochs := flags, epochFlags;
      for i := 0 to size
        invariant |epochFlags| == size && Covers(flags, size)
        invariant forall j :: 0 <= j < i ==> !epochFlags[j] && (IsLive(flags, j) <==> IsLive(before, j) && epochs[j])
        invariant forall j :: i <= j < size ==> epochFlags[j] == epochs[j] && (IsLive(flags, j) <==> IsLive(before, j))
      {
        if epochFlags[i] {
          epochFlags := epochFlags[i := false];
        } else {
          FlagsElsewhere(flags, size, i);
          flags := BitSet(flags, i);
        }
      }
      CountNone(flags, epochFlags, size);
      AgedSet(table, before, epochs, flags);
    }

    /** `epoch_check`: afterwards one more live element of the current epoch still fits the bound. */
    method EpochCheck() returns (ghost aged: bool)
      requires Valid()
      modifies this`flags, this`epochFlags, this`epochHeuristicCounter
      ensures Shaped() && Live() == if aged then old(CurrentSet(table, flags, epochFlags)) else old(Live())
      ensures aged <==> old(epochHeuristicCounter) == 0 && old(LiveCount(flags, epochFlags, size)) >= epochSize
      ensures aged ==> forall i :: 0 <= i < size ==>
        !epochFlags[i] && (IsLive(flags, i) <==> old(IsLive(flags, i) && epochFlags[i]))
      ensures !aged ==> flags == old(flags) && epochFlags == old(epochFlags)
      ensures epochHeuristicCounter == if old(epochHeuristicCounter) != 0 then old(epochHeuristicCounter) - 1
        else if aged then epochSize
        else Max(1, Max(epochSize / 16, epochSize - old(LiveCount(flags, epochFlags, size))))
      ensures LiveCount(flags, epochFlags, size) + epochHeuristicCounter + 1 <= epochSize + Slack(epochSize)
    {
      hide LiveCount; hide WellPlaced; hide LiveSet; hide CurrentSet;
      aged := false;
      if epochHeuristicCounter != 0 {
        epochHeuristicCounter := epochHeuristicCounter - 1;
        return;
      }
      var count := CountEpoch();
      if count >= epochSize {
        Age();
        aged := true;
        epochHeuristicCounter := epochSize;
      } else {
        epochHeuristicCounter := Max(1, Max(epochSize / 16, epochSize - count));
      }
    }

    /** `contains`: looks at the element's own locations; may mark it as collectable. */
    method Contains(e: Element, erase: bool) returns (found: bool)
      requires Valid()
      modifies this`flags
      ensures Valid() && (found <==> FirstAt(table, Locs(hash, size, e), e) < WAYS)
      ensures flags == if found && erase then old(BitSet(flags, Slot(e))) else old(flags)
      ensures found && erase ==> !IsLive(flags, Slot(e)) && table[Slot(e)] == e
      ensures e in old(Live()) ==> found
      ensures e != BLANK ==> (found <==> e in table)
      ensures e != BLANK ==> Live() == if erase then old(Live()) - {e} else old(Live())
      ensures Live() <= old(Live()) <= Live() + {e}
    {
      hide LiveCount; hide BitIsSet; hide BitSet; hide Loc; hide WellPlaced; hide NoTwice; hide LiveSet; hide Locs;
      var locs := Locs(hash, size, e);
      if e != BLANK { PlacedIsAt(table, flags, hash, e); }
      LiveIsAt(table, flags, hash, e);
      for k := 0 to WAYS
        invariant forall j :: 0 <= j < k ==> table[locs[j]] != e
      {
        if table[locs[k]] == e {
          assert FirstAt(table, locs, e) == k;
          if erase { Erase(locs[k]); }
          return true;
        }
      }
      return false;
    }

    /** The first of an element's own locations that holds it. */
    ghost function Slot(e: Element): (l: nat)
      requires Shaped()
      reads this
      ensures l < size
    {
      var locs := Locs(hash, size, e);
      var k := FirstAt(table, locs, e);
      if k < WAYS then locs[k] else 0
    }

    /** `allow_erase`. */
    method Erase(n: nat)
      requires Valid() && n < size
      modifies this`flags
      ensures Valid() && flags == BitSet(old(flags), n) && !IsLive(flags, n)
      ensures Live() <= old(Live()) <= Live() + {table[n]}
      ensures table[n] != BLANK ==> Live() == old(Live()) - {table[n]}
    {
      hide LiveCount; hide BitIsSet; hide BitSet; hide Locs; hide LiveSet; hide NoTwice;
      FlagsElsewhere(flags, size, n);
      CountErase(flags, epochFlags, n);
      EraseExact(table, flags, BitSet(flags, n), n);
      flags := BitSet(flags, n);
    }

    ghost function State(): Slots
      reads this
    {
      Slots(table, flags, epochFlags)
    }

    /**
     * `insert`: of the elements that are live once epochs are checked, and the new one, all are live afterwards
     * except at most one; likewise at most one element is gone from the table. Nothing is lost if the element is
     * there already, or if one of its locations is collectable.
     */
    method Insert(e: Element)
      returns (ghost aged: bool, ghost swept: Slots, ghost lost: set<Element>, ghost gone: set<Element>)
      requires Valid()
      modifies this
      ensures Fit(swept, size) && swept.table == old(table) && (!aged ==> swept == old(State()))
      ensures aged ==> forall i :: 0 <= i < size ==>
        !swept.epochs[i] && (IsLive(swept.flags, i) <==> old(IsLive(flags, i) && epochFlags[i]))
      ensures aged <==> old(epochHeuristicCounter) == 0 && old(LiveCount(flags, epochFlags, size)) >= epochSize
      ensures Valid() && LiveCount(flags, epochFlags, size) <= epochSize + Slack(epochSize)
      ensures |lost| <= 1 && LiveSet(swept.table, swept.flags) + {e} - lost <= Live()
      ensures Live() <= LiveSet(swept.table, swept.flags) + {e}
      ensures |gone| <= 1 && forall x :: (x in old(table) || x == e) && x !in gone ==> x in table
      ensures FirstAt(old(table), Locs(hash, size, e), e) < WAYS ==>
        && lost == {} == gone && State().table == swept.table
        && State().flags == BitUnset(swept.flags, old(Slot(e)))
        && State().epochs == swept.epochs[old(Slot(e)) := true]
      ensures FirstAt(old(table), Locs(hash, size, e), e) >= WAYS ==>
        (State(), lost) == Displaced(hash, swept, e, 0xffff_ffff, true, depthLimit)
      ensures lost != {} ==> forall k :: 0 <= k < WAYS ==>
        old(IsLive(flags, Locs(hash, size, e)[k])) && (aged ==> old(epochFlags)[Locs(hash, size, e)[k]])
    {
      hide LiveCount; hide BitIsSet; hide BitUnset; hide Locs; hide WellPlaced; hide Slack; hide CurrentSet;
      hide LiveSet;
      hide Displaced; hide NoTwice;
      aged := EpochCheck();
      swept, lost, gone := State(), {}, {};
      var same := KeepIfPresent(e);
      if same { return; }
      if e != BLANK { PlacedIsAt(table, flags, hash, e); }
      lost, gone := Displace(e);
    }

    /** The first loop of `insert`: an element already in the table is kept and made current. */
    method KeepIfPresent(e: Element) returns (found: bool)
      requires Shaped()
      requires LiveCount(flags, epochFlags, size) + epochHeuristicCounter + 1 <= epochSize + Slack(epochSize)
      modifies this`flags, this`epochFlags
      ensures found <==> FirstAt(table, Locs(hash, size, e), e) < WAYS
      ensures found ==> Valid() && Live() == old(Live()) + {e} && e in table
      ensures found ==> flags == old(BitUnset(flags, Slot(e))) && epochFlags == old(epochFlags[Slot(e) := true])
      ensures !found ==> flags == old(flags) && epochFlags == old(epochFlags)
    {
      hide LiveCount; hide BitIsSet; hide BitUnset; hide Loc; hide WellPlaced; hide Slack; hide NoTwice; hide LiveSet;
      hide Locs;
      var locs := Locs(hash, size, e);
      for k := 0 to WAYS
        invariant forall j :: 0 <= j < k ==> table[locs[j]] != e
        invariant flags == old(flags) && epochFlags == old(epochFlags)
      {
        if table[locs[k]] == e {
          assert FirstAt(table, locs, e) == k;
          PutLive(table, flags, hash, locs[k], e);
          assert table[locs[k] := e] == table;
          CountPut(flags, epochFlags, locs[k], true);
          flags := BitUnset(flags, locs[k]);
          epochFlags := epochFlags[locs[k] := true];
          return true;
        }
      }
      return false;
    }

    /** The displacement loop of `insert`. */
    method Displace(first: Element) returns (ghost lost: set<Element>, ghost gone: set<Element>)
      requires Shaped() && (first == BLANK || first !in table)
      requires LiveCount(flags, epochFlags, size) + epochHeuristicCounter + 1 <= epochSize + Slack(epochSize)
      modifies this`table, this`flags, this`epochFlags
      ensures Valid()
      ensures |lost| <= 1 && old(Live()) + {first} - lost <= Live() <= old(Live()) + {first}
      ensures |gone| <= 1 && forall x :: (x in old(table) || x == first) && x !in gone ==> x in table
      ensures (State(), lost) == Displaced(hash, old(State()), first, 0xffff_ffff, true, depthLimit)
      ensures lost != {} ==> forall k :: 0 <= k < WAYS ==> old(IsLive(flags, Locs(hash, size, first)[k]))
    {
      hide LiveCount; hide BitIsSet; hide BitUnset; hide Locs; hide WellPlaced; hide Slack; hide LiveSet; hide NoTwice;
      hide Displaced; hide FirstOpen; hide FindLoc;
      var e, lastLoc, lastEpoch := first, 0xffff_ffff, true;
      for depth := 0 to depthLimit
        invariant Shaped() && Live() + {e} == old(Live()) + {first} && (e == BLANK || e !in table)
        invariant flags == old(flags)
        invariant forall x :: (x in old(table) || x == first) && x != e ==> x in table
        invariant LiveCount(flags, epochFlags, size) + (if lastEpoch then 1 else 0) + epochHeuristicCounter
          <= epochSize + Slack(epochSize)
        invariant Displaced(hash, State(), e, lastLoc, lastEpoch, depthLimit - depth)
          == Displaced(hash, old(State()), first, 0xffff_ffff, true, depthLimit)
        invariant if depth == 0 then e == first
          else forall k :: 0 <= k < WAYS ==> IsLive(flags, Locs(hash, size, first)[k])
      {
        var locs := Locs(hash, size, e);
        var at := FindOpen(locs);
        if at < WAYS {
          gone := {table[locs[at]]};
          DisplacedOpen(hash, State(), e, lastLoc, lastEpoch, depthLimit - depth, at);
          Take(locs[at], e, lastEpoch);
          return {}, gone;
        }
        var l := locs[(1 + FindLoc(locs, lastLoc)) % WAYS];
        DisplacedOn(hash, State(), e, lastLoc, lastEpoch, depthLimit - depth, l);
        lastLoc := l;
        e, lastEpoch := Exchange(lastLoc, e, lastEpoch);
      }
      DisplacedEnd(hash, State(), e, lastLoc, lastEpoch);
      return {e}, {e};
    }

    /** Looks for a collectable slot among the locations. */
    method FindOpen(locs: seq<nat>) returns (at: nat)
      requires Shaped() && |locs| == WAYS && forall k :: 0 <= k < WAYS ==> locs[k] < size
      ensures at == FirstOpen(flags, locs)
    {
      hide BitIsSet; hide WellPlaced; hide NoTwice;
      for k := 0 to WAYS
        invariant forall j :: 0 <= j < k ==> IsLive(flags, locs[j])
      {
        if BitIsSet(flags, locs[k]) { return k; }
      }
      return WAYS;
    }

    /** Moves the element in hand into a collectable slot. */
    method Take(l: nat, e: Element, epoch: bool)
      requires Shaped() && l < size && !IsLive(flags, l) && l in Locs(hash, size, e) && (e == BLANK || e !in table)
      modifies this`table, this`flags, this`epochFlags
      ensures Shaped() && Live() == old(Live()) + {e} && table == old(table)[l := e]
      ensures flags == old(BitUnset(flags, l)) && epochFlags == old(epochFlags)[l := epoch]
      ensures LiveCount(flags, epochFlags, size) <= old(LiveCount(flags, epochFlags, size)) + (if epoch then 1 else 0)
      ensures forall x :: (x in old(table) || x == e) && x != old(table)[l] ==> x in table
    {
      hide LiveCount; hide BitIsSet; hide BitUnset; hide Locs; hide LiveSet; hide WellPlaced; hide NoTwice;
      NoTwiceReplaced(table, l, e);
      PutLive(table, flags, hash, l, e);
      CountPut(flags, epochFlags, l, epoch);
      ghost var was := table;
      table := table[l := e];
      flags := BitUnset(flags, l);
      epochFlags := epochFlags[l := epoch];
      forall x | (x in was || x == e) && x != was[l] ensures x in table { Replaced(was, l, e, x); }
    }

    /** Exchanges the element in hand, and its epoch, with a live slot. */
    method Exchange(l: nat, e: Element, epoch: bool) returns (out: Element, outEpoch: bool)
      requires Shaped() && l < size && IsLive(flags, l) && l in Locs(hash, size, e) && (e == BLANK || e !in table)
      modifies this`table, this`epochFlags
      ensures Shaped() && Live() + {out} == old(Live()) + {e} && table == old(table)[l := e] && out == old(table)[l]
      ensures (out == BLANK || out !in table) && epochFlags == old(epochFlags)[l := epoch] &&
        outEpoch == old(epochFlags)[l]
      ensures LiveCount(flags, epochFlags, size) + (if outEpoch then 1 else 0)
        == old(LiveCount(flags, epochFlags, size)) + (if epoch then 1 else 0)
      ensures forall x :: (x in old(table) || x == e) && x != out ==> x in table
    {
      hide LiveCount; hide BitIsSet; hide Locs; hide LiveSet; hide WellPlaced; hide NoTwice;
      NoTwiceReplaced(table, l, e);
      SwapLive(table, flags, hash, l, e);
      CountSwap(flags, epochFlags, l, epoch);
      ghost var was := table;
      out, outEpoch := table[l], epochFlags[l];
      table := table[l := e];
      epochFlags := epochFlags[l := epoch];
      forall x | (x in was || x == e) && x != was[l] ensures x in table { Replaced(was, l, e, x); }
    }
  }
}
