/** Flag bits packed eight to a byte, least significant bit first. */
module BitPacking {
  import opened Basics

  function Shift(k: nat): (r: nat)
    requires k < 8
    ensures 1 <= r <= 128
  {
    [1, 2, 4, 8, 16, 32, 64, 128][k]
  }

  /** Whether bit k of a byte is set. */
  predicate BitAt(b: byte, k: nat)
    requires k < 8
  {
    b / Shift(k) % 2 == 1
  }

  /** The value of up to eight bits. */
  function Value(bits: seq<bool>): (v: nat)
    requires |bits| <= 8
  {
    if bits == [] then 0 else (if bits[0] then 1 else 0) + 2 * Value(bits[1..])
  }

  lemma {:induction false} ValueBound(bits: seq<bool>)
    requires |bits| <= 8
    ensures |bits| < 8 ==> Value(bits) < Shift(|bits|)
    ensures Value(bits) < 256
  {
    if bits != [] { ValueBound(bits[1..]); }
  }

  lemma {:induction false} ValueBit(bits: seq<bool>, k: nat)
    requires |bits| <= 8 && k < 8
    ensures Value(bits) < 256
    ensures BitAt(Value(bits), k) <==> k < |bits| && bits[k]
  {
    ValueBound(bits);
    if bits == [] {
    } else if k == 0 {
      assert Value(bits) == (if bits[0] then 1 else 0) + 2 * Value(bits[1..]);
    } else {
      ValueBit(bits[1..], k - 1);
      HalfBit(Value(bits), k);
    }
  }

  lemma HalfBit(v: nat, k: nat)
    requires v < 256 && 1 <= k < 8
    ensures BitAt(v, k) <==> BitAt(v / 2, k - 1)
  {
    assert Shift(k) == 2 * Shift(k - 1);
    assert v / (2 * Shift(k - 1)) == v / 2 / Shift(k - 1);
  }

  /** Or-ing a bit above the ones already there. */
  lemma {:induction false} ValuePush(bits: seq<bool>, bit: bool)
    requires |bits| < 8
    ensures Value(bits + [bit]) == Value(bits) + if bit then Shift(|bits|) else 0
  {
    if bits == [] {
      assert bits + [bit] == [bit] && [bit][1..] == [];
    } else {
      assert (bits + [bit])[1..] == bits[1..] + [bit];
      ValuePush(bits[1..], bit);
    }
  }

  /** The bits that go into byte j. */
  function Group(bits: seq<bool>, j: nat): (g: seq<bool>)
    requires 8 * j <= |bits|
    ensures |g| <= 8
  {
    bits[8 * j..Min(8 * j + 8, |bits|)]
  }

  /** The packed form: byte j holds its group of bits, the missing ones of the last byte are zero. */
  ghost predicate IsPacked(bits: seq<bool>, bytes: seq<byte>) {
    |bytes| == (|bits| + 7) / 8 && forall j :: 0 <= j < |bytes| ==> bytes[j] == Value(Group(bits, j))
  }

  /** The bits of a byte sequence. */
  function Unpacked(bytes: seq<byte>): seq<bool> {
    seq(8 * |bytes|, p requires 0 <= p < 8 * |bytes| => BitAt(bytes[p / 8], p % 8))
  }

  function Falses(n: nat): seq<bool> { seq(n, i => false) }

  /** Packing and unpacking gives the bits back, filled up with zeros to a whole byte. */
  lemma UnpackPacked(bits: seq<bool>, bytes: seq<byte>)
    requires IsPacked(bits, bytes)
    ensures |bits| <= 8 * |bytes| < |bits| + 8
    ensures Unpacked(bytes) == bits + Falses(8 * |bytes| - |bits|)
  {
    var pad := bits + Falses(8 * |bytes| - |bits|);
    forall p | 0 <= p < 8 * |bytes| ensures Unpacked(bytes)[p] == pad[p] {
      var j, k := p / 8, p % 8;
      assert p == 8 * j + k;
      ValueBit(Group(bits, j), k);
      assert k < |Group(bits, j)| <==> p < |bits|;
    }
  }

  /** The writing half of `SerializationOp`. */
  method Pack(bits: seq<bool>) returns (bytes: seq<byte>)
    ensures IsPacked(bits, bytes)
  {
    bytes := seq((|bits| + 7) / 8, i => 0);
    for p := 0 to |bits|
      invariant |bytes| == (|bits| + 7) / 8
      invariant forall j :: 0 <= j < |bytes| ==> bytes[j] == Partly(bits, p, j)
    {
      forall j | 0 <= j < |bytes| ensures j != p / 8 ==>
        Partly(bits, p + 1, j) == Partly(bits, p, j) { PartlyNext(bits, p, j); }
      PartlyNext(bits, p, p / 8);
      if bits[p] {
        bytes := bytes[p / 8 := SetBit(bytes[p / 8], p % 8)];
      }
    }
    forall j | 0 <= j < |bytes| ensures bytes[j] == Value(Group(bits, j)) { assert bits[..|bits|] == bits; }
  }

  /** `byte |= 1 << k`. */
  function SetBit(b: byte, k: nat): (r: byte)
    requires k < 8
  {
    if BitAt(b, k) then b
    else
      ByteRoom(b, k);
      b + Shift(k)
  }

  lemma ByteRoom(b: byte, k: nat)
    requires k < 8 && !BitAt(b, k)
    ensures b + Shift(k) < 256
  {
  }

  /** Byte j once the first p bits are in. */
  function Partly(bits: seq<bool>, p: nat, j: nat): nat
    requires p <= |bits|
  {
    if 8 * j <= p then Value(Group(bits[..p], j)) else 0
  }

  lemma PartlyNext(bits: seq<bool>, p: nat, j: nat)
    requires p < |bits|
    ensures j != p / 8 ==> Partly(bits, p + 1, j) == Partly(bits, p, j)
    ensures j == p / 8 ==> Partly(bits, p, j) < 256
    ensures j == p / 8 ==>
      Partly(bits, p + 1, j) == if bits[p] then SetBit(Partly(bits, p, j), p % 8) else Partly(bits, p, j)
  {
    if j < p / 8 {
      assert Group(bits[..p + 1], j) == Group(bits[..p], j);
    } else if j == p / 8 {
      assert p == 8 * j + p % 8;
      var g := Group(bits[..p], j);
      assert Group(bits[..p + 1], j) == g + [bits[p]];
      ValuePush(g, bits[p]);
      ValueBit(g, p % 8);
    }
  }

  /** The reading half of `SerializationOp`. */
  method Unpack(bytes: seq<byte>) returns (bits: seq<bool>)
    ensures bits == Unpacked(bytes)
  {
    bits := Falses(8 * |bytes|);
    for p := 0 to |bits|
      invariant |bits| == 8 * |bytes| && bits[..p] == Unpacked(bytes)[..p]
    {
      bits := bits[p := BitAt(bytes[p / 8], p % 8)];
    }
  }
}
