/** Bech32 and Bech32m strings: checksum creation and verification, encoding and decoding. */
module Bech32 {
  import opened Bech32Checksum
  import Bech32Distance

  /** A 5-bit value. */
  type Symbol = x: int | 0 <= x < 32

  datatype Encoding = INVALID | BECH32 | BECH32M

  const BECH32_CONST: bv32 := 1
  const BECH32M_CONST: bv32 := 0x2bc830a3

  const CHARSET := "qpzry9x8gf2tvdw0s3jn54khce6mua7l"

  // ----- symbols as bits

  function Digit(on: bool, d: bv32): bv32 { if on then d else 0 }

  function FromDigits(a: bool, b: bool, c: bool, d: bool, e: bool): bv32 {
    Digit(a, 1) | Digit(b, 2) | Digit(c, 4) | Digit(d, 8) | Digit(e, 16)
  }

  function Bits(x: Symbol): bv32 {
    FromDigits(x % 2 == 1, x / 2 % 2 == 1, x / 4 % 2 == 1, x / 8 % 2 == 1, x / 16 % 2 == 1)
  }

  function SymbolOf(b: bv32): Symbol
    requires Small(b)
  {
    (if b & 1 != 0 then 1 else 0) + (if b & 2 != 0 then 2 else 0) + (if b & 4 != 0 then 4 else 0)
    + (if b & 8 != 0 then 8 else 0) + (if b & 16 != 0 then 16 else 0)
  }

  lemma DigitsBack(a: bool, b: bool, c: bool, d: bool, e: bool)
    ensures var r := FromDigits(a, b, c, d, e);
      Small(r) && (r & 1 != 0 <==> a) && (r & 2 != 0 <==> b) && (r & 4 != 0 <==> c) && (r & 8 != 0 <==> d) &&
        (r & 16 != 0 <==> e)
  {
  }

  lemma SymbolOfBits(x: Symbol)
    ensures Small(Bits(x)) && SymbolOf(Bits(x)) == x
  {
    hide FromDigits; hide Small;
    DigitsBack(x % 2 == 1, x / 2 % 2 == 1, x / 4 % 2 == 1, x / 8 % 2 == 1, x / 16 % 2 == 1);
  }

  lemma BitsOfSymbol(b: bv32)
    requires Small(b)
    ensures Bits(SymbolOf(b)) == b
  {
  }

  // ----- characters

  const DIGITS := [15, -1, 10, 17, 21, 20, 26, 30, 7, 5, -1, -1, -1, -1, -1, -1]
  const LETTERS_A := [-1, 29, -1, 24, 13, 25, 9, 8, 23, -1, 18, 22, 31, 27, 19, -1]
  const LETTERS_P := [1, 0, 3, 16, 11, 28, 12, 14, 6, 4, 2, -1, -1, -1, -1, -1]

  /** The reverse character table, row by row; -1 for characters outside the set. */
  function CharsetRev(c: char): (r: int)
    ensures -1 <= r < 32
  {
    var k := c as int;
    if 48 <= k < 64 then DIGITS[k - 48]
    else if 64 <= k < 80 then LETTERS_A[k - 64]
    else if 80 <= k < 96 then LETTERS_P[k - 80]
    else if 96 <= k < 112 then LETTERS_A[k - 96]
    else if 112 <= k < 128 then LETTERS_P[k - 112]
    else -1
  }

  predicate IsUpper(c: char) { 'A' <= c <= 'Z' }
  predicate IsLower(c: char) { 'a' <= c <= 'z' }
  predicate InRange(c: char) { 33 <= c as int <= 126 }

  function LowerCase(c: char): char {
    if IsUpper(c) then (c as int - 'A' as int + 'a' as int) as char else c
  }

  function Lower(s: string): string { seq(|s|, i requires 0 <= i < |s| => LowerCase(s[i])) }

  ghost predicate StandsFor(c: char, x: Symbol) {
    CharsetRev(c) == x && InRange(c) && !IsUpper(c) && c != '1'
  }

  /** Each symbol's character stands for it, is printable, not upper case and not the separator. */
  lemma CharsetForth(x: Symbol)
    ensures StandsFor(CHARSET[x], x)
  {
    hide StandsFor;
    if x < 16 { CharsetForthLow(x); } else { CharsetForthHigh(x); }
  }

  lemma CharsetForthLow(x: Symbol)
    requires x < 16
    ensures StandsFor(CHARSET[x], x)
  {
  }

  lemma CharsetForthHigh(x: Symbol)
    requires x >= 16
    ensures StandsFor(CHARSET[x], x)
  {
  }

  ghost predicate Stood(c: char) {
    CharsetRev(c) != -1 ==> CHARSET[CharsetRev(c)] == LowerCase(c)
  }

  /** A character that stands for a symbol is that symbol's character, up to case. */
  lemma CharsetBack(c: char)
    ensures Stood(c)
  {
    if 48 <= c as int < 64 { CharsetBackDigit(c); }
    else if 64 <= c as int < 80 || 96 <= c as int < 112 { CharsetBackA(c); }
    else if 80 <= c as int < 96 || 112 <= c as int < 128 { CharsetBackP(c); }
  }

  lemma CharsetBackDigit(c: char)
    requires 48 <= c as int < 64
    ensures Stood(c)
  {
  }

  lemma CharsetBackA(c: char)
    requires 64 <= c as int < 80 || 96 <= c as int < 112
    ensures Stood(c)
  {
  }

  lemma CharsetBackP(c: char)
    requires 80 <= c as int < 96 || 112 <= c as int < 128
    ensures Stood(c)
  {
  }

  // ----- checksums

  function AsBits(v: seq<Symbol>): seq<bv32> { seq(|v|, i requires 0 <= i < |v| => Bits(v[i])) }

  lemma AsBitsSmall(v: seq<Symbol>)
    ensures AllSmall(AsBits(v))
  {
    hide Bits; hide Small;
    forall i | 0 <= i < |v| ensures Small(AsBits(v)[i]) { SymbolOfBits(v[i]); }
  }

  /** The human-readable part as symbols: high bits, a zero, low bits. */
  function Expand(hrp: string): seq<Symbol>
    requires Bytes(hrp)
  {
    seq(|hrp|, i requires 0 <= i < |hrp| => hrp[i] as int / 32) + [0]
      + seq(|hrp|, i requires 0 <= i < |hrp| => hrp[i] as int % 32)
  }

  predicate Bytes(s: string) { forall i :: 0 <= i < |s| ==> s[i] as int < 256 }

  function Const(e: Encoding): bv32
    requires e != INVALID
  {
    if e == BECH32 then BECH32_CONST else BECH32M_CONST
  }

  function PolyMod(v: seq<Symbol>): bv32 { Remainder(1, AsBits(v)) }

  function Verify(hrp: string, values: seq<Symbol>): Encoding
    requires Bytes(hrp)
  {
    var check := PolyMod(Expand(hrp) + values);
    if check == BECH32_CONST then BECH32 else if check == BECH32M_CONST then BECH32M else INVALID
  }

  /** The six checksum symbols. */
  function Checksum(e: Encoding, hrp: string, values: seq<Symbol>): (r: seq<Symbol>)
    requires Bytes(hrp) && e != INVALID
    ensures |r| == 6
  {
    var m := Xor(PolyMod(Expand(hrp) + values + [0, 0, 0, 0, 0, 0]), Const(e));
    GroupsSmall(m);
    seq(6, i requires 0 <= i < 6 => SymbolOf(Groups(m)[i]))
  }

  lemma AsBitsAppend(v: seq<Symbol>, w: seq<Symbol>)
    ensures AsBits(v + w) == AsBits(v) + AsBits(w)
  {
  }

  /** The created checksum verifies under its own encoding. */
  lemma ChecksumCorrect(e: Encoding, hrp: string, values: seq<Symbol>)
    requires Bytes(hrp) && e != INVALID
    ensures Verify(hrp, values + Checksum(e, hrp, values)) == e
  {
    hide Xor; hide Packed; hide Groups; hide Small; hide Bits; hide SymbolOf; hide Remainder;
    var x := Expand(hrp) + values;
    var c := Remainder(1, AsBits(x));
    var m := Xor(Remainder(c, Zeros(6)), Const(e));
    ZeroPacked();
    AsBitsSmall(x);
    RemainderPacked(1, AsBits(x));
    ChecksumVerifies(c, Const(e));
    GroupsSmall(m);
    SixGroups(m);
    AsBitsAppend(x, [0, 0, 0, 0, 0, 0]);
    RemainderAppend(1, AsBits(x), Zeros(6));
    assert AsBits([0, 0, 0, 0, 0, 0]) == Zeros(6) by { ZeroBits(); }
    var k := Checksum(e, hrp, values);
    assert AsBits(k) == Groups(m) by {
      forall i | 0 <= i < 6 ensures AsBits(k)[i] == Groups(m)[i] { BitsOfSymbol(Groups(m)[i]); }
    }
    AsBitsAppend(x, k);
    RemainderAppend(1, AsBits(x), AsBits(k));
    assert Expand(hrp) + (values + k) == x + k;
  }

  lemma ZeroBits()
    ensures Bits(0) == 0
  {
  }

  /** No change confined to six consecutive values verifies under the same encoding. */
  lemma BurstsDetected(hrp: string, v: seq<Symbol>, w: seq<Symbol>, i: nat)
    requires Bytes(hrp) && |v| == |w| && (forall k :: 0 <= k < |v| && !(i <= k < i + 6) ==> v[k] == w[k])
    requires Verify(hrp, v) == Verify(hrp, w) != INVALID
    ensures v == w
  {
    hide Bits; hide Remainder; hide Small; hide SymbolOf;
    var x := Expand(hrp);
    var a, b := AsBits(x + v), AsBits(x + w);
    AsBitsSmall(x + v);
    AsBitsSmall(x + w);
    assert AgreeOutside(a, b, |x| + i, |x| + i + 6);
    BurstDetected(1, a, b, |x| + i);
    forall k | 0 <= k < |v| ensures v[k] == w[k] {
      assert a[|x| + k] == Bits(v[k]) && b[|x| + k] == Bits(w[k]);
      SymbolOfBits(v[k]);
      SymbolOfBits(w[k]);
    }
  }

  /** Two prefixes read as symbols, where their characters are known to agree. */
  lemma ExpandAgrees(h: string, g: string, v: seq<Symbol>, i: nat)
    requires Bytes(h) && Bytes(g) && |h| == |g|
    requires forall k :: 0 <= k < |h| && !(i <= k < i + 6) ==> h[k] == g[k]
    requires forall k :: 0 <= k < |h| ==> h[k] as int / 32 == g[k] as int / 32
    ensures AgreeOutside(AsBits(Expand(h) + v), AsBits(Expand(g) + v), |h| + 1 + i, |h| + 1 + i + 6)
  {
    hide Bits;
    var x, y := Expand(h) + v, Expand(g) + v;
    forall k | 0 <= k < |x| && !(|h| + 1 + i <= k < |h| + 1 + i + 6) ensures x[k] == y[k] {
      if |h| < k < 2 * |h| + 1 { assert h[k - |h| - 1] == g[k - |h| - 1]; }
    }
  }

  /** One changed character of a short prefix changes two symbols, at most six places apart. */
  lemma ExpandAgreesShort(h: string, g: string, v: seq<Symbol>, i: nat)
    requires Bytes(h) && Bytes(g) && |h| == |g| <= 4 && forall k :: 0 <= k < |h| && k != i ==> h[k] == g[k]
    ensures AgreeOutside(AsBits(Expand(h) + v), AsBits(Expand(g) + v), i, i + 6)
  {
    hide Bits;
    var x, y := Expand(h) + v, Expand(g) + v;
    forall k | 0 <= k < |x| && !(i <= k < i + 6) ensures x[k] == y[k] {
      if k < |h| { assert h[k] == g[k]; } else if |h| < k < 2 * |h| + 1 { assert h[k - |h| - 1] == g[k - |h| - 1]; }
    }
  }

  lemma ExpandInjective(h: string, g: string, v: seq<Symbol>)
    requires Bytes(h) && Bytes(g) && |h| == |g| && AsBits(Expand(h) + v) == AsBits(Expand(g) + v)
    ensures h == g
  {
    hide Bits; hide SymbolOf; hide Small;
    var x, y := Expand(h) + v, Expand(g) + v;
    forall k | 0 <= k < |x| ensures x[k] == y[k] {
      assert AsBits(x)[k] == Bits(x[k]) && AsBits(y)[k] == Bits(y[k]);
      SymbolOfBits(x[k]);
      SymbolOfBits(y[k]);
    }
    forall k | 0 <= k < |h| ensures h[k] == g[k] {
      assert x[k] == h[k] as int / 32 && x[|h| + 1 + k] == h[k] as int % 32;
      assert y[k] == g[k] as int / 32 && y[|h| + 1 + k] == g[k] as int % 32;
    }
  }

  lemma PrefixDetected(h: string, g: string, v: seq<Symbol>, i: nat)
    requires Bytes(h) && Bytes(g) && |h| == |g| && Verify(h, v) == Verify(g, v) != INVALID
    requires AgreeOutside(AsBits(Expand(h) + v), AsBits(Expand(g) + v), i, i + 6)
    ensures h == g
  {
    hide AsBits; hide Remainder; hide Expand; hide AgreeOutside; hide AllSmall;
    AsBitsSmall(Expand(h) + v);
    AsBitsSmall(Expand(g) + v);
    BurstDetected(1, AsBits(Expand(h) + v), AsBits(Expand(g) + v), i);
    ExpandInjective(h, g, v);
  }

  /** The checksum covers the human-readable part: no change within six consecutive characters of it that keeps their
      high three bits (the row of letters, say) verifies under the same encoding. */
  lemma PrefixBurstsDetected(h: string, g: string, v: seq<Symbol>, i: nat)
    requires Bytes(h) && Bytes(g) && |h| == |g| && Verify(h, v) == Verify(g, v) != INVALID
    requires forall k :: 0 <= k < |h| && !(i <= k < i + 6) ==> h[k] == g[k]
    requires forall k :: 0 <= k < |h| ==> h[k] as int / 32 == g[k] as int / 32
    ensures h == g
  {
    hide AsBits; hide Verify; hide Expand; hide AgreeOutside;
    ExpandAgrees(h, g, v, i);
    PrefixDetected(h, g, v, |h| + 1 + i);
  }

  /** No change at all of one character of a human-readable part of up to four verifies. */
  lemma PrefixChangeDetected(h: string, g: string, v: seq<Symbol>, i: nat)
    requires Bytes(h) && Bytes(g) && |h| == |g| <= 4 && Verify(h, v) == Verify(g, v) != INVALID
    requires forall k :: 0 <= k < |h| && k != i ==> h[k] == g[k]
    ensures h == g
  {
    hide AsBits; hide Verify; hide Expand; hide AgreeOutside;
    ExpandAgreesShort(h, g, v, i);
    PrefixDetected(h, g, v, i);
  }

  lemma AsBitsInjective(x: seq<Symbol>, y: seq<Symbol>)
    requires AsBits(x) == AsBits(y)
    ensures x == y
  {
    hide Bits; hide SymbolOf; hide Small;
    assert |AsBits(x)| == |x| && |AsBits(y)| == |y|;
    forall k | 0 <= k < |x| ensures x[k] == y[k] {
      assert AsBits(x)[k] == Bits(x[k]) && AsBits(y)[k] == Bits(y[k]);
      SymbolOfBits(x[k]);
      SymbolOfBits(y[k]);
    }
  }

  /** Two symbol sequences that verify alike and differ in at most three places within 1023 are the same. */
  lemma SymbolsDetected(x: seq<Symbol>, y: seq<Symbol>, i: nat, j: nat, k: nat)
    requires |x| == |y| && i <= j <= k < i + 1023 && PolyMod(x) == PolyMod(y)
    requires forall l :: 0 <= l < |x| && l != i && l != j && l != k ==> x[l] == y[l]
    ensures x == y
  {
    hide Bits; hide Remainder; hide AllSmall;
    AsBitsSmall(x);
    AsBitsSmall(y);
    Bech32Distance.ThreeChangesDetected(1, AsBits(x), AsBits(y), i, j, k);
    AsBitsInjective(x, y);
  }

  /** No change of up to three values, all within 1023, verifies under the same encoding. */
  lemma ThreeChangesDetected(hrp: string, v: seq<Symbol>, w: seq<Symbol>, i: nat, j: nat, k: nat)
    requires Bytes(hrp) && |v| == |w| && i <= j <= k < i + 1023
    requires forall l :: 0 <= l < |v| && l != i && l != j && l != k ==> v[l] == w[l]
    requires Verify(hrp, v) == Verify(hrp, w) != INVALID
    ensures v == w
  {
    hide PolyMod; hide Expand;
    var x := Expand(hrp);
    SymbolsDetected(x + v, x + w, |x| + i, |x| + j, |x| + k);
    assert (x + v)[|x|..] == v && (x + w)[|x|..] == w;
  }

  /** Nor does any change of one character of the human-readable part together with one value, in up to 1023 symbols. */
  lemma CharacterAndValueDetected(h: string, g: string, v: seq<Symbol>, w: seq<Symbol>, i: nat, k: nat)
    requires Bytes(h) && Bytes(g) && |h| == |g| && |v| == |w| && 2 * |h| + 1 + |v| <= 1023 && i < |h| && k < |v|
    requires forall l :: 0 <= l < |h| && l != i ==> h[l] == g[l]
    requires forall l :: 0 <= l < |v| && l != k ==> v[l] == w[l]
    requires Verify(h, v) == Verify(g, w) != INVALID
    ensures h == g && v == w
  {
    hide PolyMod;
    var n := |h|;
    var x, y := Expand(h) + v, Expand(g) + w;
    forall l | 0 <= l < |x| && l != i && l != n + 1 + i && l != 2 * n + 1 + k ensures x[l] == y[l] {
      ExpandedPlaces(h, g, v, w, i, k, l);
    }
    SymbolsDetected(x, y, i, n + 1 + i, 2 * n + 1 + k);
    assert x[..2 * n + 1] == Expand(h) && y[..2 * n + 1] == Expand(g);
    assert x[2 * n + 1..] == v && y[2 * n + 1..] == w;
    ExpandInjective(h, g, []);
  }

  lemma ExpandedPlaces(h: string, g: string, v: seq<Symbol>, w: seq<Symbol>, i: nat, k: nat, l: nat)
    requires Bytes(h) && Bytes(g) && |h| == |g| && |v| == |w| && l < 2 * |h| + 1 + |v|
    requires forall l :: 0 <= l < |h| && l != i ==> h[l] == g[l]
    requires forall l :: 0 <= l < |v| && l != k ==> v[l] == w[l]
    requires l != i && l != |h| + 1 + i && l != 2 * |h| + 1 + k
    ensures (Expand(h) + v)[l] == (Expand(g) + w)[l]
  {
    var n := |h|;
    if l < n {
      assert h[l] == g[l];
    } else if n < l < 2 * n + 1 {
      assert h[l - n - 1] == g[l - n - 1];
    } else if l > 2 * n {
      assert v[l - 2 * n - 1] == w[l - 2 * n - 1];
    }
  }

  /** A chain of steps is the remainder. */
  lemma {:induction false} ChainIsRemainder(states: seq<bv32>, v: seq<bv32>)
    requires |states| == |v| + 1 && forall i :: 0 <= i < |v| ==> states[i + 1] == Step(states[i], v[i])
    ensures Remainder(states[0], v) == states[|v|]
  {
    hide Step;
    if v != [] { ChainIsRemainder(states[..|v|], v[..|v| - 1]); }
  }

  lemma ExpandA()
    ensures Bytes("a") && Expand("a") == [3, 0, 1]
  {
  }

  /** The shortest test vector of BIP 173, `a12uel5l`. */
  lemma KnownBech32()
    ensures Bytes("a") && Verify("a", [10, 28, 25, 31, 20, 31]) == BECH32
  {
    hide Remainder; hide Step; hide Expand; hide Bits;
    ExpandA();
    BitsOfVectors();
    StepsOfVectors();
    var v := [10, 28, 25, 31, 20, 31];
    assert AsBits([3, 0, 1] + v) == [3, 0, 1, 10, 28, 25, 31, 20, 31];
    ChainIsRemainder([1, 0x23, 0x460, 0x8c01, 0x11802a, 0x230055c, 0x3d6afc2b, 0x2f84386, 0x24622766, 1],
                     [3, 0, 1, 10, 28, 25, 31, 20, 31]);
  }

  /** The shortest test vector of BIP 350, `a1lqfn3a`. */
  lemma KnownBech32m()
    ensures Bytes("a") && Verify("a", [31, 0, 9, 19, 17, 29]) == BECH32M
  {
    hide Remainder; hide Step; hide Expand; hide Bits;
    ExpandA();
    BitsOfVectors();
    StepsOfVectors();
    var v := [31, 0, 9, 19, 17, 29];
    assert AsBits([3, 0, 1] + v) == [3, 0, 1, 31, 0, 9, 19, 17, 29];
    ChainIsRemainder([1, 0x23, 0x460, 0x8c01, 0x11803f, 0x23007e0, 0x3d6aabbb, 0x2f2b18a, 0x253c66e3, 0x2bc830a3],
                     [3, 0, 1, 31, 0, 9, 19, 17, 29]);
  }

  lemma BitsOfVectors()
    ensures Bits(0) == 0 && Bits(1) == 1 && Bits(3) == 3 && Bits(9) == 9 && Bits(10) == 10 && Bits(17) == 17
    ensures Bits(19) == 19 && Bits(20) == 20 && Bits(25) == 25 && Bits(28) == 28 && Bits(29) == 29 && Bits(31) == 31
  {
  }

  lemma StepsOfVectors()
    ensures Step(1, 3) == 0x23 && Step(0x23, 0) == 0x460 && Step(0x460, 1) == 0x8c01
    ensures Step(0x8c01, 10) == 0x11802a && Step(0x11802a, 28) == 0x230055c && Step(0x230055c, 25) == 0x3d6afc2b
    ensures Step(0x3d6afc2b, 31) == 0x2f84386 && Step(0x2f84386, 20) == 0x24622766 && Step(0x24622766, 31) == 1
    ensures Step(0x8c01, 31) == 0x11803f && Step(0x11803f, 0) == 0x23007e0 && Step(0x23007e0, 9) == 0x3d6aabbb
    ensures Step(0x3d6aabbb, 19) == 0x2f2b18a && Step(0x2f2b18a, 17) == 0x253c66e3
    ensures Step(0x253c66e3, 29) == 0x2bc830a3
  {
  }
}
