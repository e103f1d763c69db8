/** `CRollingBloomFilter`: three rotating generations of entries in a table of two-bit tags. */
module RollingBloom {
  import opened Powers

  /** A 64-bit word as the set of its set bits; the bitwise operators are the set operators. */
  type Word = set<nat>

  const ALL: Word := set b: nat | b < 64

  function Not(x: Word): Word { ALL - x }
  function Xor(x: Word, y: Word): Word { (x - y) + (y - x) }

  /** All ones or all zeros: zero minus a one-bit number. */
  function Fill(bit: nat): Word { if bit == 1 then ALL else {} }

  type Key = seq<int>

  // ----- places

  /** A filter position: a pair of words, and a bit in both. */
  datatype Place = Place(pair: nat, bit: nat)

  predicate IsPlace(data: seq<Word>, p: Place) { 2 * p.pair + 1 < |data| && p.bit < 64 }

  /** The generation number stored at a place; zero when it is unset. */
  function Tag(data: seq<Word>, p: Place): nat
    requires IsPlace(data, p)
  {
    (if p.bit in data[2 * p.pair] then 1 else 0) + (if p.bit in data[2 * p.pair + 1] then 2 else 0)
  }

  /** Maps a 32-bit number into 0..n without division. */
  function FastMod(x: nat, n: nat): (r: nat)
    requires x < 0x1_0000_0000 && n >= 1
    ensures r < n
  {
    ScaledBelow(x, n, 0x1_0000_0000);
    x * n / 0x1_0000_0000
  }

  /** Where one hash of a key falls; both `pos & ~1` and `pos | 1` belong to the same pair. */
  function PlaceOf(h: nat, size: nat): (p: Place)
    requires size >= 2 && size % 2 == 0
    ensures 2 * p.pair + 1 < size && p.bit < 64
  {
    hide FastMod;
    var x := h % 0x1_0000_0000;
    var pos := FastMod(x, size);
    Place(pos / 2, x % 0x40)
  }

  /** The upper bits of a hash choose the pair of words, evenly over the table, its low six bits the bit. */
  lemma PlaceIs(h: nat, size: nat)
    requires size >= 2 && size % 2 == 0
    ensures var p, x := PlaceOf(h, size), h % 0x1_0000_0000;
      p.bit == h % 64 && 2 * p.pair * 0x1_0000_0000 <= x * size < (2 * p.pair + 2) * 0x1_0000_0000
  {
    var x := h % 0x1_0000_0000;
    var pos := FastMod(x, size);
    assert pos * 0x1_0000_0000 <= x * size < (pos + 1) * 0x1_0000_0000;
    assert 2 * (pos / 2) <= pos <= 2 * (pos / 2) + 1;
  }

  // ----- wiping a generation

  function WipeMask(p1: Word, p2: Word, generation: nat): Word {
    Xor(p1, Fill(generation % 2)) + Xor(p2, Fill(generation / 2))
  }

  /** The table with every place of a generation number cleared. */
  function Wiped(data: seq<Word>, generation: nat): seq<Word>
    requires |data| % 2 == 0
  {
    seq(|data|, i requires 0 <= i < |data| =>
      var k := i / 2; data[i] * WipeMask(data[2 * k], data[2 * k + 1], generation))
  }

  lemma WipedPair(data: seq<Word>, generation: nat, p: nat)
    requires |data| % 2 == 0 && p % 2 == 0 && p + 1 < |data|
    ensures var mask := WipeMask(data[p], data[p + 1], generation);
      && |Wiped(data, generation)| == |data|
      && Wiped(data, generation)[p] == data[p] * mask && Wiped(data, generation)[p + 1] == data[p + 1] * mask
  {
    hide WipeMask;
    assert p / 2 * 2 == p && (p + 1) / 2 == p / 2;
  }

  /** The masks clear exactly the places tagged with that number. */
  lemma WipedTag(data: seq<Word>, generation: nat, p: Place)
    requires |data| % 2 == 0 && IsPlace(data, p) && 1 <= generation <= 3
    ensures IsPlace(Wiped(data, generation), p)
    ensures Tag(Wiped(data, generation), p) == if Tag(data, p) == generation then 0 else Tag(data, p)
  {
    var i := 2 * p.pair;
    assert i / 2 == p.pair && (i + 1) / 2 == p.pair;
    var mask := WipeMask(data[i], data[i + 1], generation);
    assert p.bit in mask <==> Tag(data, p) != generation;
  }

  // ----- writing a tag

  function PutBit(x: Word, bit: nat, value: nat): Word { x * Not({bit}) + if value == 1 then {bit} else {} }

  function Tagged(data: seq<Word>, p: Place, generation: nat): seq<Word>
    requires IsPlace(data, p)
  {
    data[2 * p.pair := PutBit(data[2 * p.pair], p.bit, generation % 2)]
        [2 * p.pair + 1 := PutBit(data[2 * p.pair + 1], p.bit, generation / 2)]
  }

  /** Writing changes the tag there and nowhere else. */
  lemma TaggedTag(data: seq<Word>, p: Place, generation: nat, q: Place)
    requires IsPlace(data, p) && IsPlace(data, q) && 1 <= generation <= 3
    ensures IsPlace(Tagged(data, p, generation), q)
    ensures Tag(Tagged(data, p, generation), q) == if q == p then generation else Tag(data, q)
  {
    assert q.bit in ALL;
  }

  // ----- generations

  /** The number under which the j-th generation since a reset is stored. */
  function Number(j: nat): nat { 1 + j % 3 }

  /** The generation being filled after n insertions. */
  function Current(n: nat, perGeneration: nat): nat
    requires perGeneration >= 1
  {
    if n == 0 then 0 else (n - 1) / perGeneration
  }

  /** How a key is hashed: by the number of the hash function, a tweak and the key. */
  type Hashing = (nat, nat, Key) -> nat

  function HashPlace(hash: Hashing, tweak: nat, size: nat, n: nat, key: Key): (p: Place)
    requires size >= 2 && size % 2 == 0
    ensures 2 * p.pair + 1 < size && p.bit < 64
  {
    PlaceOf(hash(n, tweak, key), size)
  }

  function PlacesOf(hash: Hashing, tweak: nat, size: nat, count: nat, key: Key): (ps: seq<Place>)
    requires size >= 2 && size % 2 == 0
    ensures |ps| == count && forall n :: 0 <= n < count ==> ps[n] == HashPlace(hash, tweak, size, n, key)
  {
    seq(count, n requires 0 <= n < count => HashPlace(hash, tweak, size, n, key))
  }

  /** All places of a key carry the number of some generation from lo to hi. */
  ghost predicate Kept(data: seq<Word>, places: seq<Place>, lo: nat, hi: nat) {
    forall f :: 0 <= f < |places| ==> IsPlace(data, places[f]) && TaggedWithin(Tag(data, places[f]), lo, hi)
  }

  ghost predicate TaggedWithin(tag: nat, lo: nat, hi: nat) {
    exists j: nat :: lo <= j <= hi && tag == Number(j)
  }

  lemma KeptWiped(data: seq<Word>, places: seq<Place>, lo: nat, hi: nat)
    requires |data| % 2 == 0 && Kept(data, places, lo, hi) && lo <= hi <= lo + 1
    ensures Kept(Wiped(data, Number(hi + 1)), places, lo, hi + 1)
  {
    hide Wiped; hide Tag; hide TaggedWithin;
    forall f | 0 <= f < |places|
      ensures IsPlace(Wiped(data, Number(hi + 1)), places[f]) &&
        TaggedWithin(Tag(Wiped(data, Number(hi + 1)), places[f]), lo, hi + 1)
    {
      WipedTag(data, Number(hi + 1), places[f]);
      NumberFree(Tag(data, places[f]), lo, hi);
    }
  }

  /** The number of the next generation is not in use by the last two. */
  lemma NumberFree(tag: nat, lo: nat, hi: nat)
    requires TaggedWithin(tag, lo, hi) && lo <= hi <= lo + 1
    ensures tag != Number(hi + 1) && TaggedWithin(tag, lo, hi + 1)
  {
    var j: nat :| lo <= j <= hi && tag == Number(j);
    assert Number(j) != Number(hi + 1);
  }

  lemma KeptTagged(data: seq<Word>, places: seq<Place>, lo: nat, hi: nat, p: Place)
    requires Kept(data, places, lo, hi) && lo <= hi && IsPlace(data, p)
    ensures Kept(Tagged(data, p, Number(hi)), places, lo, hi)
  {
    hide Tagged; hide Tag;
    forall f | 0 <= f < |places|
      ensures IsPlace(Tagged(data, p, Number(hi)), places[f]) &&
        TaggedWithin(Tag(Tagged(data, p, Number(hi)), places[f]), lo, hi)
    {
      TaggedTag(data, p, Number(hi), places[f]);
      assert TaggedWithin(Tag(data, places[f]), lo, hi);
    }
  }

  /** The keys of the current and the two previous generations are all kept. */
  ghost predicate AllKept(data: seq<Word>, hash: Hashing, tweak: nat, count: nat, keys: seq<Key>, e: nat, g: nat) {
    && e >= 1 && |data| >= 2 && |data| % 2 == 0
    && forall i :: 0 <= i < |keys| && i / e + 2 >= g ==>
      Kept(data, PlacesOf(hash, tweak, |data|, count, keys[i]), i / e, g)
  }

  lemma AllKeptWiped(data: seq<Word>, hash: Hashing, tweak: nat, count: nat, keys: seq<Key>, e: nat, g: nat)
    requires AllKept(data, hash, tweak, count, keys, e, g) && |keys| <= (g + 1) * e
    ensures AllKept(Wiped(data, Number(g + 1)), hash, tweak, count, keys, e, g + 1)
  {
    hide Wiped; hide Kept; hide Number; hide HashPlace;
    var after := Wiped(data, Number(g + 1));
    assert |after| == |data| by { WipedLength(data, Number(g + 1)); }
    forall i | 0 <= i < |keys| && i / e + 2 >= g + 1
      ensures Kept(after, PlacesOf(hash, tweak, |after|, count, keys[i]), i / e, g + 1)
    {
      GenerationBound(i, e, g);
      KeptWiped(data, PlacesOf(hash, tweak, |data|, count, keys[i]), i / e, g);
    }
  }

  lemma WipedLength(data: seq<Word>, generation: nat)
    requires |data| % 2 == 0
    ensures |Wiped(data, generation)| == |data|
  {
  }

  lemma GenerationBound(i: nat, e: nat, g: nat)
    requires e >= 1 && i < (g + 1) * e
    ensures i / e <= g
  {
    MulOrder(g + 1, i / e, e);
  }

  lemma AllKeptTagged(data: seq<Word>, hash: Hashing, tweak: nat, count: nat, keys: seq<Key>, e: nat, g: nat, p: Place)
    requires AllKept(data, hash, tweak, count, keys, e, g) && IsPlace(data, p) && |keys| <= (g + 1) * e
    ensures AllKept(Tagged(data, p, Number(g)), hash, tweak, count, keys, e, g)
  {
    hide Tagged; hide Kept; hide Number; hide HashPlace;
    var after := Tagged(data, p, Number(g));
    assert |after| == |data| by { TaggedLength(data, p, Number(g)); }
    forall i | 0 <= i < |keys| && i / e + 2 >= g
      ensures Kept(after, PlacesOf(hash, tweak, |after|, count, keys[i]), i / e, g)
    {
      GenerationBound(i, e, g);
      KeptTagged(data, PlacesOf(hash, tweak, |data|, count, keys[i]), i / e, g, p);
    }
  }

  lemma TaggedLength(data: seq<Word>, p: Place, generation: nat)
    requires IsPlace(data, p)
    ensures |Tagged(data, p, generation)| == |data|
  {
  }

  /** The generation of the i-th key since a reset. */
  function GenerationOf(i: nat, e: nat): nat
    requires e >= 1
  {
    DivMonotone(0, i, e);
    i / e
  }

  /** Some key of the current or the two previous generations left this number at this place. */
  ghost predicate LeftBy(tag: nat, p: Place, hash: Hashing, tweak: nat, size: nat, count: nat, keys: seq<Key>, e: nat,
                         g: nat)
    requires e >= 1 && size >= 2 && size % 2 == 0
  {
    exists i :: 0 <= i < |keys| && GenerationOf(i, e) + 2 >= g && Number(GenerationOf(i, e)) == tag &&
      p in PlacesOf(hash, tweak, size, count, keys[i])
  }

  /** No tag outlives its three generations. */
  ghost predicate NoneStale(data: seq<Word>, hash: Hashing, tweak: nat, count: nat, keys: seq<Key>, e: nat, g: nat) {
    && e >= 1 && |data| >= 2 && |data| % 2 == 0
    && forall p :: IsPlace(data, p) && Tag(data, p) != 0 ==>
      LeftBy(Tag(data, p), p, hash, tweak, |data|, count, keys, e, g)
  }

  lemma NoneStaleWiped(data: seq<Word>, hash: Hashing, tweak: nat, count: nat, keys: seq<Key>, e: nat, g: nat)
    requires NoneStale(data, hash, tweak, count, keys, e, g)
    ensures NoneStale(Wiped(data, Number(g + 1)), hash, tweak, count, keys, e, g + 1)
  {
    hide Wiped; hide Tag; hide HashPlace; hide LeftBy;
    var after := Wiped(data, Number(g + 1));
    WipedLength(data, Number(g + 1));
    forall p | IsPlace(after, p) && Tag(after, p) != 0
      ensures LeftBy(Tag(after, p), p, hash, tweak, |after|, count, keys, e, g + 1) {
      WipedTag(data, Number(g + 1), p);
      StillLeft(Tag(data, p), p, hash, tweak, |data|, count, keys, e, g);
    }
  }

  /** A number that is not the reused one was not left three generations ago. */
  lemma StillLeft(tag: nat, p: Place, hash: Hashing, tweak: nat, size: nat, count: nat, keys: seq<Key>, e: nat, g: nat)
    requires e >= 1 && size >= 2 && size % 2 == 0 && LeftBy(tag, p, hash, tweak, size, count, keys, e, g) &&
      tag != Number(g + 1)
    ensures LeftBy(tag, p, hash, tweak, size, count, keys, e, g + 1)
  {
    hide HashPlace; hide Number; hide GenerationOf;
    var i :| 0 <= i < |keys| && GenerationOf(i, e) + 2 >= g && Number(GenerationOf(i, e)) == tag &&
      p in PlacesOf(hash, tweak, size, count, keys[i]);
    NumberRepeats(GenerationOf(i, e), g);
  }

  lemma NumberRepeats(j: nat, g: nat)
    ensures j + 2 == g ==> Number(j) == Number(g + 1)
  {
  }

  lemma NoneStaleMore(data: seq<Word>, hash: Hashing, tweak: nat, count: nat, keys: seq<Key>, e: nat, g: nat, key: Key)
    requires NoneStale(data, hash, tweak, count, keys, e, g)
    ensures NoneStale(data, hash, tweak, count, keys + [key], e, g)
  {
    hide Tag; hide HashPlace; hide LeftBy;
    forall p | IsPlace(data, p) && Tag(data, p) != 0
      ensures LeftBy(Tag(data, p), p, hash, tweak, |data|, count, keys + [key], e, g) {
      LeftByMore(Tag(data, p), p, hash, tweak, |data|, count, keys, e, g, key);
    }
  }

  lemma LeftByMore(tag: nat, p: Place, hash: Hashing, tweak: nat, size: nat, count: nat, keys: seq<Key>, e: nat,
                   g: nat, key: Key)
    requires e >= 1 && size >= 2 && size % 2 == 0 && LeftBy(tag, p, hash, tweak, size, count, keys, e, g)
    ensures LeftBy(tag, p, hash, tweak, size, count, keys + [key], e, g)
  {
    hide HashPlace; hide Number; hide GenerationOf;
    var i :| 0 <= i < |keys| && GenerationOf(i, e) + 2 >= g && Number(GenerationOf(i, e)) == tag &&
      p in PlacesOf(hash, tweak, size, count, keys[i]);
    assert (keys + [key])[i] == keys[i];
  }

  lemma NoneStaleTagged(data: seq<Word>, hash: Hashing, tweak: nat, count: nat, keys: seq<Key>, e: nat, g: nat, f: nat)
    requires NoneStale(data, hash, tweak, count, keys, e, g) && keys != [] && (|keys| - 1) / e == g && f < count
    ensures IsPlace(data, HashPlace(hash, tweak, |data|, f, keys[|keys| - 1]))
    ensures NoneStale(Tagged(data, HashPlace(hash, tweak, |data|, f, keys[|keys| - 1]), Number(g)), hash, tweak, count,
      keys, e, g)
  {
    hide Tag; hide Tagged; hide HashPlace;
    var n := |keys| - 1;
    var at := HashPlace(hash, tweak, |data|, f, keys[n]);
    var after := Tagged(data, at, Number(g));
    TaggedLength(data, at, Number(g));
    assert PlacesOf(hash, tweak, |data|, count, keys[n])[f] == at;
    forall p | IsPlace(after, p) && Tag(after, p) != 0
      ensures LeftBy(Tag(after, p), p, hash, tweak, |after|, count, keys, e, g) {
      TaggedTag(data, at, Number(g), p);
    }
  }

  /** A full generation is followed by the next one. */
  lemma NextGeneration(n: nat, e: nat, g: nat)
    requires e >= 1 && g == Current(n, e) && n - g * e == e
    ensures n == (g + 1) * e && Current(n + 1, e) == g + 1 && n / e == g + 1
    ensures Number(g + 1) == if Number(g) + 1 == 4 then 1 else Number(g) + 1
  {
    assert n == (g + 1) * e;
    QuotientIs(n, e, g + 1);
  }

  lemma SameGeneration(n: nat, e: nat, g: nat)
    requires e >= 1 && g == Current(n, e) && n - g * e != e
    ensures 0 <= n - g * e < e && Current(n + 1, e) == g && n / e == g && n < (g + 1) * e
  {
    assert n - g * e <= e;
    assert (g + 1) * e == g * e + e;
    QuotientIs(n, e, g);
  }

  lemma QuotientIs(n: nat, e: nat, g: nat)
    requires e >= 1 && g * e <= n < g * e + e
    ensures n / e == g
  {
    DivModUnique(n, e, g, n - g * e);
  }

  /** A key inserted since the beginning of the generation before the last belongs to a generation that is kept. */
  lemma RecentGeneration(i: nat, e: nat, g: nat)
    requires e >= 1 && (g - 2) * e <= i
    ensures i / e + 2 >= g
  {
    MulOrder(i / e + 1, g - 2, e);
    MulDistributes(i / e, 1, e);
  }

  class CRollingBloomFilter {
    const nEntriesPerGeneration: nat
    const nHashFuncs: nat
    const hash: Hashing
    var nTweak: nat
    var nEntriesThisGeneration: nat
    var nGeneration: nat
    var data: seq<Word>
    ghost var inserted: seq<Key>   // since the last reset

    ghost predicate Valid()
      reads this
    {
      && nEntriesPerGeneration >= 1
      && AllKept(data, hash, nTweak, nHashFuncs, inserted, nEntriesPerGeneration,
        Current(|inserted|, nEntriesPerGeneration))
      && NoneStale(data, hash, nTweak, nHashFuncs, inserted, nEntriesPerGeneration,
        Current(|inserted|, nEntriesPerGeneration))
      && nGeneration == Number(Current(|inserted|, nEntriesPerGeneration))
      && nEntriesThisGeneration == |inserted| - Current(|inserted|, nEntriesPerGeneration) * nEntriesPerGeneration
    }

    constructor (nElements: nat, hashFuncs: nat, filterBits: nat, hashing: Hashing, tweak: nat)
      requires nElements >= 1 && filterBits >= 1
      ensures Valid() && inserted == [] && 2 * nEntriesPerGeneration >= nElements
    {
      nEntriesPerGeneration := (nElements + 1) / 2;
      nHashFuncs, hash, nTweak := hashFuncs, hashing, tweak;
      data := seq((filterBits + 63) / 64 * 2, i => {});
      nEntriesThisGeneration, nGeneration, inserted := 0, 1, [];
    }

    method Reset(tweak: nat)
      requires Valid()
      modifies this
      ensures Valid() && inserted == [] && |data| == |old(data)|
    {
      nTweak, nEntriesThisGeneration, nGeneration := tweak, 0, 1;
      data := seq(|data|, i => {});
      inserted := [];
    }

    /** The wiping loop of `insert`. */
    method Wipe(generation: nat)
      requires |data| % 2 == 0
      modifies this`data
      ensures data == Wiped(old(data), generation)
    {
      hide Wiped; hide WipeMask;
      var before := data;
      WipedLength(before, generation);
      ghost var wiped := Wiped(before, generation);
      var p := 0;
      while p < |data|
        invariant 0 <= p <= |data| == |before| && p % 2 == 0
        invariant forall i :: 0 <= i < p ==> data[i] == wiped[i]
        invariant forall i :: p <= i < |data| ==> data[i] == before[i]
      {
        WipedPair(before, generation, p);
        var p1, p2 := data[p], data[p + 1];
        var mask := WipeMask(p1, p2, generation);
        data := data[p := p1 * mask][p + 1 := p2 * mask];
        p := p + 2;
      }
    }

    /** `insert`. */
    method Insert(key: Key)
      requires Valid()
      modifies this
      ensures Valid() && inserted == old(inserted) + [key] && nTweak == old(nTweak) && |data| == |old(data)|
    {
      hide AllKept; hide NoneStale; hide Wiped; hide Number;
      ghost var n, e := |inserted|, nEntriesPerGeneration;
      ghost var g := Current(n, e);
      EvenTable(data, hash, nTweak, nHashFuncs, inserted, e, g);
      if nEntriesThisGeneration == nEntriesPerGeneration {
        NextGeneration(n, e, g);
        nEntriesThisGeneration := 0;
        nGeneration := nGeneration + 1;
        if nGeneration == 4 { nGeneration := 1; }
        AllKeptWiped(data, hash, nTweak, nHashFuncs, inserted, e, g);
        NoneStaleWiped(data, hash, nTweak, nHashFuncs, inserted, e, g);
        WipedLength(data, Number(g + 1));
        Wipe(nGeneration);
        g := g + 1;
      } else {
        SameGeneration(n, e, g);
      }
      nEntriesThisGeneration := nEntriesThisGeneration + 1;
      Mark(key, g);
      inserted := inserted + [key];
    }

    /** The tagging loop of `insert`. */
    method Mark(key: Key, ghost g: nat)
      requires AllKept(data, hash, nTweak, nHashFuncs, inserted, nEntriesPerGeneration, g)
      requires NoneStale(data, hash, nTweak, nHashFuncs, inserted, nEntriesPerGeneration, g)
      requires nGeneration == Number(g) && |inserted| < (g + 1) * nEntriesPerGeneration &&
        |inserted| / nEntriesPerGeneration == g
      modifies this`data
      ensures |data| == |old(data)| &&
        AllKept(data, hash, nTweak, nHashFuncs, inserted + [key], nEntriesPerGeneration, g)
      ensures NoneStale(data, hash, nTweak, nHashFuncs, inserted + [key], nEntriesPerGeneration, g)
    {
      hide AllKept; hide NoneStale; hide Tagged; hide Number; hide HashPlace; hide Kept;
      ghost var e := nEntriesPerGeneration;
      EvenTable(data, hash, nTweak, nHashFuncs, inserted, e, g);
      ghost var places := PlacesOf(hash, nTweak, |data|, nHashFuncs, key);
      NoPlaces(data, g);
      NoneStaleMore(data, hash, nTweak, nHashFuncs, inserted, e, g, key);
      ghost var keys := inserted + [key];
      for n := 0 to nHashFuncs
        invariant |data| == |old(data)| && AllKept(data, hash, nTweak, nHashFuncs, inserted, e, g)
        invariant Kept(data, places[..n], g, g) && NoneStale(data, hash, nTweak, nHashFuncs, keys, e, g)
      {
        var p := HashPlace(hash, nTweak, |data|, n, key);
        TaggedLength(data, p, nGeneration);
        AllKeptTagged(data, hash, nTweak, nHashFuncs, inserted, e, g, p);
        KeptMore(data, places[..n], g, p);
        NoneStaleTagged(data, hash, nTweak, nHashFuncs, keys, e, g, n);
        data := Tagged(data, p, nGeneration);
        assert places[..n + 1] == places[..n] + [p];
      }
      assert places[..nHashFuncs] == places;
      AllKeptMore(data, hash, nTweak, nHashFuncs, inserted, e, g, key);
    }

    /**
     * `contains`: whether every place of the key is tagged; true for every key of the current generation and the two
     * before it, and then each place was left by some key of these generations.
     */
    method Contains(key: Key) returns (r: bool)
      requires Valid()
      ensures |data| >= 2 && |data| % 2 == 0
      ensures r <==> forall f :: 0 <= f < nHashFuncs ==> Tag(data, HashPlace(hash, nTweak, |data|, f, key)) != 0
      ensures Recent(inserted, |inserted| - 2 * nEntriesPerGeneration - nEntriesThisGeneration, key) ==> r
      ensures r ==> forall f :: 0 <= f < nHashFuncs ==>
        var p := HashPlace(hash, nTweak, |data|, f, key);
        LeftBy(Tag(data, p), p, hash, nTweak, |data|, nHashFuncs, inserted, nEntriesPerGeneration,
               Current(|inserted|, nEntriesPerGeneration))
    {
      hide LeftBy; hide AllKept; hide HashPlace; hide Number; hide Current; hide Tag;
      ghost var g := Current(|inserted|, nEntriesPerGeneration);
      EvenTable(data, hash, nTweak, nHashFuncs, inserted, nEntriesPerGeneration, g);
      MulDistributes(g, -2, nEntriesPerGeneration);
      RecentTagged(data, hash, nTweak, nHashFuncs, inserted, nEntriesPerGeneration, g, key);
      for n := 0 to nHashFuncs
        invariant forall f :: 0 <= f < n ==> Tag(data, HashPlace(hash, nTweak, |data|, f, key)) != 0
      {
        var p := HashPlace(hash, nTweak, |data|, n, key);
        Untagged(data, p);
        if p.bit !in data[2 * p.pair] + data[2 * p.pair + 1] { return false; }
      }
      r := true;
    }
  }

  lemma EvenTable(data: seq<Word>, hash: Hashing, tweak: nat, count: nat, keys: seq<Key>, e: nat, g: nat)
    requires AllKept(data, hash, tweak, count, keys, e, g)
    ensures e >= 1 && |data| >= 2 && |data| % 2 == 0
  {
  }

  lemma Untagged(data: seq<Word>, p: Place)
    requires IsPlace(data, p)
    ensures Tag(data, p) == 0 <==> p.bit !in data[2 * p.pair] + data[2 * p.pair + 1]
  {
  }

  lemma NoPlaces(data: seq<Word>, g: nat)
    ensures Kept(data, [], g, g)
  {
  }

  lemma KeptMore(data: seq<Word>, places: seq<Place>, g: nat, p: Place)
    requires Kept(data, places, g, g) && IsPlace(data, p)
    ensures Kept(Tagged(data, p, Number(g)), places + [p], g, g)
  {
    hide Tagged; hide Tag;
    KeptTagged(data, places, g, g, p);
    TaggedTag(data, p, Number(g), p);
    assert TaggedWithin(Number(g), g, g);
  }

  lemma AllKeptMore(data: seq<Word>, hash: Hashing, tweak: nat, count: nat, keys: seq<Key>, e: nat, g: nat, key: Key)
    requires AllKept(data, hash, tweak, count, keys, e, g) && |keys| / e == g
    requires Kept(data, PlacesOf(hash, tweak, |data|, count, key), g, g)
    ensures AllKept(data, hash, tweak, count, keys + [key], e, g)
  {
    hide Kept; hide HashPlace;
  }

  /** The key was inserted at position `from` or later. */
  ghost predicate Recent(keys: seq<Key>, from: int, key: Key) {
    exists i :: 0 <= i < |keys| && from <= i && keys[i] == key
  }

  /** Every place of a recently inserted key is tagged. */
  lemma RecentTagged(data: seq<Word>, hash: Hashing, tweak: nat, count: nat, keys: seq<Key>, e: nat, g: nat, key: Key)
    requires e >= 1 && AllKept(data, hash, tweak, count, keys, e, g)
    ensures Recent(keys, (g - 2) * e, key) ==>
      forall f :: 0 <= f < count ==> Tag(data, HashPlace(hash, tweak, |data|, f, key)) != 0
  {
    hide HashPlace; hide Tag;
    if i :| 0 <= i < |keys| && (g - 2) * e <= i && keys[i] == key {
      RecentGeneration(i, e, g);
      var places := PlacesOf(hash, tweak, |data|, count, key);
      assert Kept(data, places, i / e, g);
      forall f | 0 <= f < count ensures Tag(data, HashPlace(hash, tweak, |data|, f, key)) != 0 {
        assert places[f] == HashPlace(hash, tweak, |data|, f, key);
        assert TaggedWithin(Tag(data, places[f]), i / e, g);
      }
    }
  }
}
