/** The parts of the cuckoo cache as values: packed collection flags, hash locations, live slots and their count. */
module CuckooTable {
  import opened Powers

  // ----- collection flags, eight to a byte; a byte is the set of its set bits

  type Flags = seq<set<nat>>

  predicate BitIsSet(mem: Flags, s: nat)
    requires s / 8 < |mem|
  {
    s % 8 in mem[s / 8]
  }

  function BitSet(mem: Flags, s: nat): Flags
    requires s / 8 < |mem|
  {
    mem[s / 8 := mem[s / 8] + {s % 8}]
  }

  function BitUnset(mem: Flags, s: nat): Flags
    requires s / 8 < |mem|
  {
    mem[s / 8 := mem[s / 8] - {s % 8}]
  }

  /** Enough bytes for the given number of slots. */
  predicate Covers(mem: Flags, size: nat) { |mem| == (size + 7) / 8 }

  /** Setting or clearing a flag changes that flag only. */
  lemma FlagChanges(mem: Flags, size: nat, s: nat, t: nat)
    requires Covers(mem, size) && s < size && t < size
    ensures s / 8 < |mem| && t / 8 < |mem|
    ensures Covers(BitSet(mem, s), size) && Covers(BitUnset(mem, s), size)
    ensures BitIsSet(BitSet(mem, s), t) <==> t == s || BitIsSet(mem, t)
    ensures BitIsSet(BitUnset(mem, s), t) <==> t != s && BitIsSet(mem, t)
  {
  }

  // ----- locations

  type Element = int

  /** What freshly allocated slots hold. */
  const BLANK: Element := 0

  const WAYS := 8

  /** The hash functions of an element, by number. */
  type Hashes = (nat, Element) -> nat

  function Loc(hash: Hashes, size: nat, k: nat, e: Element): (r: nat)
    requires size >= 1
    ensures r < size
  {
    var h := hash(k, e) % 0x1_0000_0000;
    ScaledBelow(h, size, 0x1_0000_0000);
    h * size / 0x1_0000_0000
  }

  /** A location is the k-th hash, taken as a fraction of 2^32, of the size. */
  lemma LocIs(hash: Hashes, size: nat, k: nat, e: Element)
    requires size >= 1
    ensures var r, h := Loc(hash, size, k, e), hash(k, e) % 0x1_0000_0000;
      r * 0x1_0000_0000 <= h * size < (r + 1) * 0x1_0000_0000
  {
  }

  /** The eight locations are those of the eight hashes. */
  lemma LocsAre(hash: Hashes, size: nat, e: Element, k: nat)
    requires size >= 1 && k < WAYS
    ensures var r, h := Locs(hash, size, e)[k], hash(k, e) % 0x1_0000_0000;
      r * 0x1_0000_0000 <= h * size < (r + 1) * 0x1_0000_0000
  {
    hide Loc;
    LocIs(hash, size, k, e);
  }

  /** Every slot of a table of at most 2^32 slots is reached by some hash. */
  lemma SlotReached(size: nat, slot: nat) returns (h: nat)
    requires slot < size <= 0x1_0000_0000
    ensures h < 0x1_0000_0000
    ensures forall hash: Hashes, k: nat, e: Element :: hash(k, e) == h ==> Loc(hash, size, k, e) == slot
  {
    // the least number whose multiple reaches the slot
    h := (slot * 0x1_0000_0000 + size - 1) / size;
    assert slot * 0x1_0000_0000 <= h * size < slot * 0x1_0000_0000 + size by { RoundUp(slot * 0x1_0000_0000, size); }
    assert h < 0x1_0000_0000 by {
      if h >= 0x1_0000_0000 { MulOrder(0x1_0000_0000, h, size); }
    }
  }

  lemma RoundUp(x: nat, d: nat)
    requires d > 0
    ensures x <= (x + d - 1) / d * d < x + d
  {
  }

  function Locs(hash: Hashes, size: nat, e: Element): (r: seq<nat>)
    requires size >= 1
    ensures |r| == WAYS && forall k :: 0 <= k < WAYS ==> r[k] < size
  {
    seq(WAYS, k requires 0 <= k < WAYS => Loc(hash, size, k, e))
  }

  /** The first position of a location, or eight. */
  function FindLoc(locs: seq<nat>, loc: nat): (k: nat)
    ensures k <= |locs|
    ensures k < |locs| ==> locs[k] == loc
    ensures forall j :: 0 <= j < k ==> locs[j] != loc
  {
    if locs == [] || locs[0] == loc then 0 else 1 + FindLoc(locs[1..], loc)
  }

  // ----- live slots

  predicate IsLive(mem: Flags, i: nat)
    requires i / 8 < |mem|
  {
    !BitIsSet(mem, i)
  }

  /** How many slots of the current epoch are live, among the first n. */
  function LiveCount(mem: Flags, epochs: seq<bool>, n: nat): nat
    requires n <= |epochs| && Covers(mem, |epochs|)
  {
    if n == 0 then 0 else LiveCount(mem, epochs, n - 1) + if epochs[n - 1] && IsLive(mem, n - 1) then 1 else 0
  }

  function Counts(mem: Flags, epochs: seq<bool>, i: nat): nat
    requires i < |epochs| && Covers(mem, |epochs|)
  {
    if epochs[i] && IsLive(mem, i) then 1 else 0
  }

  /** The count changes by what changes at one slot. */
  lemma {:induction false} LiveCountChanges(mem: Flags, epochs: seq<bool>, mem': Flags, epochs': seq<bool>, i: nat,
                                            n: nat)
    requires n <= |epochs| == |epochs'| && i < |epochs| && Covers(mem, |epochs|) && Covers(mem', |epochs|)
    requires forall j :: 0 <= j < |epochs| && j != i ==> Counts(mem', epochs', j) == Counts(mem, epochs, j)
    ensures LiveCount(mem', epochs', n)
      == LiveCount(mem, epochs, n) + if i < n then Counts(mem', epochs', i) - Counts(mem, epochs, i) else 0
  {
    if n > 0 {
      LiveCountChanges(mem, epochs, mem', epochs', i, n - 1);
      assert Counts(mem', epochs', n - 1) == Counts(mem, epochs, n - 1) || n - 1 == i;
    }
  }

  /** The elements in live slots. */
  ghost function LiveSet(table: seq<Element>, mem: Flags): set<Element>
    requires Covers(mem, |table|)
  {
    set i | 0 <= i < |table| && IsLive(mem, i) :: table[i]
  }

  /** The live elements of the current epoch. */
  ghost function CurrentSet(table: seq<Element>, mem: Flags, epochs: seq<bool>): set<Element>
    requires Covers(mem, |table|) && |epochs| == |table|
  {
    set i | 0 <= i < |table| && IsLive(mem, i) && epochs[i] :: table[i]
  }

  /** Once the old epoch is collectable, the live elements are those of the epoch that was current. */
  lemma AgedSet(table: seq<Element>, mem: Flags, epochs: seq<bool>, aged: Flags)
    requires Covers(mem, |table|) && Covers(aged, |table|) && |epochs| == |table|
    requires forall i :: 0 <= i < |table| ==> (IsLive(aged, i) <==> IsLive(mem, i) && epochs[i])
    ensures LiveSet(table, aged) == CurrentSet(table, mem, epochs)
  {
    hide BitIsSet;
    forall x ensures x in LiveSet(table, aged) <==> x in CurrentSet(table, mem, epochs) {
      if x in LiveSet(table, aged) {
        var i :| 0 <= i < |table| && IsLive(aged, i) && table[i] == x;
        assert table[i] in CurrentSet(table, mem, epochs);
      }
      if x in CurrentSet(table, mem, epochs) {
        var i :| 0 <= i < |table| && IsLive(mem, i) && epochs[i] && table[i] == x;
        InLiveSet(table, aged, i);
      }
    }
  }

  /** A live slot holds an element at one of its own locations; a collectable one does too, unless it was never used. */
  ghost predicate WellPlaced(table: seq<Element>, mem: Flags, hash: Hashes) {
    && |table| >= 1 && Covers(mem, |table|)
    && forall i :: 0 <= i < |table| ==> i in Locs(hash, |table|, table[i]) || (table[i] == BLANK && !IsLive(mem, i))
  }

  /** No element but the blank one is in two slots. */
  ghost predicate NoTwice(table: seq<Element>) {
    forall i, j :: 0 <= i < j < |table| && table[i] == table[j] ==> table[i] == BLANK
  }

  /** The first of the locations that holds the element, or eight. */
  function FirstAt(table: seq<Element>, locs: seq<nat>, e: Element): (k: nat)
    requires forall i :: 0 <= i < |locs| ==> locs[i] < |table|
    ensures k <= |locs| && forall j :: 0 <= j < k ==> table[locs[j]] != e
    ensures k < |locs| ==> table[locs[k]] == e
  {
    if locs == [] || table[locs[0]] == e then 0
    else
      assert forall i :: 0 <= i < |locs| - 1 ==> locs[1..][i] == locs[i + 1];
      1 + FirstAt(table, locs[1..], e)
  }

  /** The first of the locations that is collectable, or eight. */
  function FirstOpen(mem: Flags, locs: seq<nat>): (k: nat)
    requires forall i :: 0 <= i < |locs| ==> locs[i] / 8 < |mem|
    ensures k <= |locs| && forall j :: 0 <= j < k ==> IsLive(mem, locs[j])
    ensures k < |locs| ==> !IsLive(mem, locs[k])
  {
    if locs == [] || BitIsSet(mem, locs[0]) then 0
    else
      assert forall i :: 0 <= i < |locs| - 1 ==> locs[1..][i] == locs[i + 1];
      1 + FirstOpen(mem, locs[1..])
  }

  /** A well placed element that is anywhere is at one of its own locations. */
  lemma PlacedIsAt(table: seq<Element>, mem: Flags, hash: Hashes, e: Element)
    requires WellPlaced(table, mem, hash) && e != BLANK
    ensures e in table <==> FirstAt(table, Locs(hash, |table|, e), e) < WAYS
  {
    hide Locs; hide BitIsSet;
    var locs := Locs(hash, |table|, e);
    var k := FirstAt(table, locs, e);
    if k < WAYS { assert table[locs[k]] == e; }
    if e in table {
      var i :| 0 <= i < |table| && table[i] == e;
      assert i in locs;
      var j :| 0 <= j < |locs| && locs[j] == i;
      assert !(j < k);
    }
  }

  /** A live element is at one of its own locations. */
  lemma LiveIsAt(table: seq<Element>, mem: Flags, hash: Hashes, e: Element)
    requires WellPlaced(table, mem, hash)
    ensures e in LiveSet(table, mem) ==> FirstAt(table, Locs(hash, |table|, e), e) < WAYS
  {
    hide Locs; hide BitIsSet;
    var locs := Locs(hash, |table|, e);
    if e in LiveSet(table, mem) {
      var i :| 0 <= i < |table| && IsLive(mem, i) && table[i] == e;
      assert i in locs;
      var j :| 0 <= j < |locs| && locs[j] == i;
      assert !(j < FirstAt(table, locs, e));
    }
  }

  lemma NoTwiceReplaced(table: seq<Element>, l: nat, e: Element)
    requires NoTwice(table) && l < |table| && (e == BLANK || e !in table)
    ensures NoTwice(table[l := e]) && (table[l] == BLANK || table[l] !in table[l := e])
  {
    var table' := table[l := e];
    forall i | 0 <= i < |table'| ensures table[l] == BLANK || table'[i] != table[l] {
      assert table[l] in table;
    }
  }

  /** Without repetition, making a slot collectable takes exactly its element out of the live ones. */
  lemma EraseExact(table: seq<Element>, mem: Flags, mem': Flags, n: nat)
    requires Covers(mem, |table|) && Covers(mem', |table|) && n < |table|
    requires forall t :: 0 <= t < |table| ==> (IsLive(mem', t) <==> t != n && IsLive(mem, t))
    ensures LiveSet(table, mem') <= LiveSet(table, mem) <= LiveSet(table, mem') + {table[n]}
    ensures NoTwice(table) && table[n] != BLANK ==> LiveSet(table, mem') == LiveSet(table, mem) - {table[n]}
  {
    hide BitIsSet;
    forall x | x in LiveSet(table, mem')
      ensures x in LiveSet(table, mem) && (NoTwice(table) && table[n] != BLANK ==> x != table[n])
    {
      var i :| 0 <= i < |table| && IsLive(mem', i) && table[i] == x;
      InLiveSet(table, mem, i);
    }
    forall x | x in LiveSet(table, mem) ensures x in LiveSet(table, mem') + {table[n]} {
      var i :| 0 <= i < |table| && IsLive(mem, i) && table[i] == x;
      if i != n { InLiveSet(table, mem', i); }
    }
  }

  // ----- displacement

  /** Slots with their flags and epochs, and the element that was dropped at the end, if any. */
  datatype Slots = Slots(table: seq<Element>, flags: Flags, epochs: seq<bool>)

  ghost predicate Fit(s: Slots, size: nat) {
    size >= 1 && |s.table| == size == |s.epochs| && Covers(s.flags, size)
  }

  /** Looks for a collectable slot for the element in hand, exchanging it with a live one up to `depth` times. */
  ghost function Displaced(hash: Hashes, s: Slots, e: Element, lastLoc: nat, epoch: bool, depth: nat)
    : (Slots, set<Element>)
    requires Fit(s, |s.table|)
    decreases depth
  {
    if depth == 0 then (s, {e})
    else
      var locs := Locs(hash, |s.table|, e);
      var k := FirstOpen(s.flags, locs);
      if k < WAYS then
        (Slots(s.table[locs[k] := e], BitUnset(s.flags, locs[k]), s.epochs[locs[k] := epoch]), {})
      else
        var l := locs[(1 + FindLoc(locs, lastLoc)) % WAYS];
        var t := s.(table := s.table[l := e], epochs := s.epochs[l := epoch]);
        Displaced(hash, t, s.table[l], l, s.epochs[l], depth - 1)
  }

  lemma DisplacedOpen(hash: Hashes, s: Slots, e: Element, lastLoc: nat, epoch: bool, depth: nat, k: nat)
    requires Fit(s, |s.table|) && depth > 0
    requires k == FirstOpen(s.flags, Locs(hash, |s.table|, e)) < WAYS
    ensures var l := Locs(hash, |s.table|, e)[k];
      Displaced(hash, s, e, lastLoc, epoch, depth)
        == (Slots(s.table[l := e], BitUnset(s.flags, l), s.epochs[l := epoch]), {})
  {
  }

  lemma DisplacedOn(hash: Hashes, s: Slots, e: Element, lastLoc: nat, epoch: bool, depth: nat, l: nat)
    requires Fit(s, |s.table|) && depth > 0
    requires FirstOpen(s.flags, Locs(hash, |s.table|, e)) == WAYS
    requires l == Locs(hash, |s.table|, e)[(1 + FindLoc(Locs(hash, |s.table|, e), lastLoc)) % WAYS]
    ensures Displaced(hash, s, e, lastLoc, epoch, depth)
      == Displaced(hash, Slots(s.table[l := e], s.flags, s.epochs[l := epoch]), s.table[l], l, s.epochs[l], depth - 1)
  {
  }

  lemma DisplacedEnd(hash: Hashes, s: Slots, e: Element, lastLoc: nat, epoch: bool)
    requires Fit(s, |s.table|)
    ensures Displaced(hash, s, e, lastLoc, epoch, 0) == (s, {e})
  {
  }

  lemma InLiveSet(table: seq<Element>, mem: Flags, i: nat)
    requires Covers(mem, |table|) && i < |table| && IsLive(mem, i)
    ensures table[i] in LiveSet(table, mem)
  {
  }

  lemma FlagsElsewhere(mem: Flags, size: nat, s: nat)
    requires Covers(mem, size) && s < size
    ensures Covers(BitSet(mem, s), size) && Covers(BitUnset(mem, s), size)
    ensures forall t :: 0 <= t < size ==> (IsLive(BitUnset(mem, s), t) <==> t == s || IsLive(mem, t))
    ensures forall t :: 0 <= t < size ==> (IsLive(BitSet(mem, s), t) <==> t != s && IsLive(mem, t))
  {
    forall t | 0 <= t < size
      ensures IsLive(BitUnset(mem, s), t) <==> t == s || IsLive(mem, t)
      ensures IsLive(BitSet(mem, s), t) <==> t != s && IsLive(mem, t)
    {
      FlagChanges(mem, size, s, t);
    }
    FlagChanges(mem, size, s, s);
  }

  /** Putting an element into a collectable slot, or keeping the one that is there. */
  lemma PutLive(table: seq<Element>, mem: Flags, hash: Hashes, l: nat, e: Element)
    requires WellPlaced(table, mem, hash) && l < |table| && l in Locs(hash, |table|, e) &&
      (!IsLive(mem, l) || table[l] == e)
    ensures WellPlaced(table[l := e], BitUnset(mem, l), hash)
    ensures LiveSet(table[l := e], BitUnset(mem, l)) == LiveSet(table, mem) + {e}
  {
    hide BitIsSet; hide BitUnset; hide BitSet; hide Locs;
    FlagsElsewhere(mem, |table|, l);
    var table', mem' := table[l := e], BitUnset(mem, l);
    forall x ensures x in LiveSet(table', mem') <==> x in LiveSet(table, mem) + {e} {
      if x in LiveSet(table', mem') {
        var i :| 0 <= i < |table'| && IsLive(mem', i) && table'[i] == x;
        if i != l { InLiveSet(table, mem, i); }
      }
      if x in LiveSet(table, mem) {
        var i :| 0 <= i < |table| && IsLive(mem, i) && table[i] == x;
        InLiveSet(table', mem', i);
      }
      InLiveSet(table', mem', l);
    }
  }

  /** Exchanging the element in hand with that of a live slot. */
  lemma SwapLive(table: seq<Element>, mem: Flags, hash: Hashes, l: nat, e: Element)
    requires WellPlaced(table, mem, hash) && l < |table| && l in Locs(hash, |table|, e) && IsLive(mem, l)
    ensures WellPlaced(table[l := e], mem, hash)
    ensures LiveSet(table[l := e], mem) + {table[l]} == LiveSet(table, mem) + {e}
  {
    hide BitIsSet; hide Locs;
    var table' := table[l := e];
    forall x ensures x in LiveSet(table', mem) + {table[l]} <==> x in LiveSet(table, mem) + {e} {
      if x in LiveSet(table', mem) {
        var i :| 0 <= i < |table'| && IsLive(mem, i) && table'[i] == x;
        if i != l { InLiveSet(table, mem, i); }
      }
      if x in LiveSet(table, mem) {
        var i :| 0 <= i < |table| && IsLive(mem, i) && table[i] == x;
        if i != l { InLiveSet(table', mem, i); }
      }
      InLiveSet(table, mem, l);
      InLiveSet(table', mem, l);
    }
  }

  /** Replacing one entry takes at most that element out of a sequence. */
  lemma Replaced(table: seq<Element>, l: nat, e: Element, x: Element)
    requires l < |table| && (x in table || x == e) && x != table[l]
    ensures x in table[l := e]
  {
    assert table[l := e][l] == e;
    if x in table {
      var i :| 0 <= i < |table| && table[i] == x;
      assert table[l := e][i] == x;
    }
  }

  /** With every flag set nothing is live. */
  lemma NoneLive(mem: Flags, table: seq<Element>)
    requires Covers(mem, |table|) && forall b :: 0 <= b < |mem| ==> mem[b] == {0, 1, 2, 3, 4, 5, 6, 7}
    ensures (forall i :: 0 <= i < |table| ==> !IsLive(mem, i)) && LiveSet(table, mem) == {}
  {
    forall i | 0 <= i < |table| ensures !IsLive(mem, i) { AllSet(i % 8); }
    forall x ensures x !in LiveSet(table, mem) { }
    var none: set<Element> := {};
    assert forall x :: x in LiveSet(table, mem) <==> x in none;
  }

  lemma AllSet(r: nat)
    requires r < 8
    ensures r in {0, 1, 2, 3, 4, 5, 6, 7}
  {
  }

  // ----- the count of the current epoch

  /** Giving a slot to an element of a given epoch changes the count by what it replaces. */
  lemma CountPut(mem: Flags, epochs: seq<bool>, l: nat, epoch: bool)
    requires Covers(mem, |epochs|) && l < |epochs|
    ensures Covers(BitUnset(mem, l), |epochs|)
    ensures LiveCount(BitUnset(mem, l), epochs[l := epoch], |epochs|)
      == LiveCount(mem, epochs, |epochs|) - Counts(mem, epochs, l) + if epoch then 1 else 0
  {
    FlagsElsewhere(mem, |epochs|, l);
    LiveCountChanges(mem, epochs, BitUnset(mem, l), epochs[l := epoch], l, |epochs|);
  }

  lemma CountSwap(mem: Flags, epochs: seq<bool>, l: nat, epoch: bool)
    requires Covers(mem, |epochs|) && l < |epochs| && IsLive(mem, l)
    ensures LiveCount(mem, epochs[l := epoch], |epochs|)
      == LiveCount(mem, epochs, |epochs|) - (if epochs[l] then 1 else 0) + if epoch then 1 else 0
  {
    LiveCountChanges(mem, epochs, mem, epochs[l := epoch], l, |epochs|);
  }

  lemma CountErase(mem: Flags, epochs: seq<bool>, l: nat)
    requires Covers(mem, |epochs|) && l < |epochs|
    ensures Covers(BitSet(mem, l), |epochs|)
    ensures LiveCount(BitSet(mem, l), epochs, |epochs|) <= LiveCount(mem, epochs, |epochs|)
  {
    FlagsElsewhere(mem, |epochs|, l);
    LiveCountChanges(mem, epochs, BitSet(mem, l), epochs, l, |epochs|);
  }

  lemma {:induction false} CountNone(mem: Flags, epochs: seq<bool>, n: nat)
    requires Covers(mem, |epochs|) && n <= |epochs| && forall i :: 0 <= i < |epochs| ==> !epochs[i]
    ensures LiveCount(mem, epochs, n) == 0
  {
    if n > 0 { CountNone(mem, epochs, n - 1); }
  }
}
