/** The compact form of a 256-bit number: one byte of size, a sign bit and 23 bits of mantissa, on plain numbers. */
module CompactTarget {
  import opened Powers

  const SIGN_BIT := 0x0080_0000
  const SIZE_UNIT := 0x0100_0000

  // ----- decoding

  function Size(c: nat): nat { c / SIZE_UNIT }

  /** The mantissa, shifted right when the size is less than three bytes. */
  function Word(c: nat): nat {
    if Size(c) <= 3 then Shr(c % SIGN_BIT, 8 * (3 - Size(c))) else c % SIGN_BIT
  }

  /** The number an encoding stands for, before it is cut to 256 bits. */
  function Full(c: nat): nat { if Size(c) <= 3 then Word(c) else Shl(Word(c), 8 * (Size(c) - 3)) }

  function Signed(c: nat): bool { c / SIGN_BIT % 2 == 1 }

  /** The overflow test of `SetCompact`. */
  predicate Overflows(c: nat) {
    Word(c) != 0 && (Size(c) > 34 || (Word(c) > 0xff && Size(c) > 33) || (Word(c) > 0xffff && Size(c) > 32))
  }

  lemma WordBound(c: nat)
    ensures Word(c) < SIGN_BIT
  {
    hide Pow2;
    if Size(c) <= 3 { QuotientBound(c % SIGN_BIT, Pow2(8 * (3 - Size(c)))); }
  }

  /** What an encoding stands for: the mantissa times 256^(size - 3), rounded down. */
  lemma FullMeans(c: nat)
    ensures Full(c) == (c % 0x80_0000) * Pow2(8 * (c / 0x100_0000)) / Pow2(24)
  {
    hide Pow2;
    var m, s := c % SIGN_BIT, Size(c);
    if s <= 3 {
      Pow2Add(8 * (3 - s), 8 * s);
      CommonFactor(m, Pow2(8 * (3 - s)), Pow2(8 * s));
    } else {
      Pow2Add(8 * (s - 3), 24);
      assert m * (Pow2(8 * (s - 3)) * Pow2(24)) == m * Pow2(8 * (s - 3)) * Pow2(24);
      DivModUnique(m * Pow2(8 * (s - 3)) * Pow2(24), Pow2(24), m * Pow2(8 * (s - 3)), 0);
    }
  }

  /** A common factor of dividend and divisor can be left out. */
  lemma CommonFactor(x: nat, d: nat, f: nat)
    requires d > 0 && f > 0
    ensures d * f > 0 && x * f / (d * f) == x / d
  {
    var q, r := x / d, x % d;
    assert x * f == q * (d * f) + r * f by { assert (q * d + r) * f == q * (d * f) + r * f; }
    MulOrder(r + 1, d, f);
    assert 0 < d * f && 0 <= r * f < d * f;
    DivModUnique(x * f, d * f, q, r * f);
  }

  /** Overflow is reported exactly when mantissa times 256^(size - 3) does not fit 256 bits. */
  lemma OverflowExact(c: nat)
    ensures Overflows(c) <==> Full(c) >= Pow2(256)
  {
    hide Pow2;
    var w, s := Word(c), Size(c);
    WordBound(c);
    Pow2Values();
    if s <= 3 {
      Pow2Monotone(32, 256);
    } else if s <= 32 {
      Threshold(w, 8 * (s - 3), 24);
      Pow2Monotone(8 * (s - 3) + 24, 256);
    } else if s == 33 {
      Threshold(w, 240, 16);
    } else if s == 34 {
      Threshold(w, 248, 8);
    } else {
      Pow2Monotone(256, 8 * (s - 3));
      MulOrder(1, w, Pow2(8 * (s - 3)));
    }
  }

  /** A product with a power of two reaches another one exactly when the factor reaches their quotient. */
  lemma Threshold(w: nat, e: nat, t: nat)
    ensures w * Pow2(e) >= Pow2(e + t) <==> w >= Pow2(t)
  {
    hide Pow2;
    Pow2Add(t, e);
    MulOrder(Pow2(t), w, Pow2(e));
    MulOrder(w + 1, Pow2(t), Pow2(e));
    assert (w + 1) * Pow2(e) == w * Pow2(e) + Pow2(e);
  }

  // ----- encoding

  function BitLength(x: nat): nat { if x == 0 then 0 else 1 + BitLength(x / 2) }

  lemma {:induction false} BitLengthBounds(x: nat)
    ensures x < Pow2(BitLength(x)) && (x > 0 ==> Pow2(BitLength(x) - 1) <= x)
  {
    if x > 0 { BitLengthBounds(x / 2); }
  }

  lemma BitLengthUnique(x: nat, n: nat)
    requires x < Pow2(n) && (n > 0 ==> Pow2(n - 1) <= x)
    ensures n == BitLength(x)
  {
    hide BitLength;
    BitLengthBounds(x);
    var b := BitLength(x);
    if n < b { Pow2Monotone(n, b - 1); }
    if b < n { Pow2Monotone(b, n - 1); }
    assert x == 0 ==> b == 0 by { BitLengthZero(); }
  }

  lemma BitLengthZero()
    ensures BitLength(0) == 0
  {
  }

  /** The bytes needed so that the sign bit stays clear. */
  function ByteSize(x: nat): nat { if x == 0 then 0 else BitLength(x) / 8 + 1 }

  /** The mantissa of the encoding. */
  function Mantissa(x: nat): nat {
    if ByteSize(x) <= 3 then Shl(x, 8 * (3 - ByteSize(x))) else Shr(x, 8 * (ByteSize(x) - 3))
  }

  /** What `GetCompact` returns. */
  function Encode(x: nat, negative: bool): nat {
    ByteSize(x) * SIZE_UNIT + Mantissa(x) + if negative && Mantissa(x) != 0 then SIGN_BIT else 0
  }

  /** The size is the least number of bytes that leaves the top bit free. */
  lemma ByteSizeBounds(x: nat)
    requires x > 0
    ensures ByteSize(x) >= 1 && x < Pow2(8 * ByteSize(x) - 1)
    ensures ByteSize(x) >= 2 ==> Pow2(8 * ByteSize(x) - 9) <= x
  {
    hide Pow2; hide BitLength;
    BitLengthBounds(x);
    var b := BitLength(x);
    var k := b / 8 + 1;
    assert 8 * k - 8 <= b <= 8 * k - 1;
    Pow2Monotone(b, 8 * k - 1);
    if k >= 2 { Pow2Monotone(8 * k - 9, b - 1); }
  }

  lemma ByteSizeUnique(x: nat, k: nat)
    requires x > 0 && k >= 1 && x < Pow2(8 * k - 1) && (k >= 2 ==> Pow2(8 * k - 9) <= x)
    ensures ByteSize(x) == k
  {
    hide Pow2; hide ByteSize;
    ByteSizeBounds(x);
    var j := ByteSize(x);
    if j < k { Pow2Monotone(8 * j - 1, 8 * k - 9); }
    if k < j { Pow2Monotone(8 * k - 1, 8 * j - 9); }
  }

  /** The mantissa fits 23 bits; with more than three bytes its top byte is in use. */
  lemma MantissaBounds(x: nat)
    ensures Mantissa(x) < SIGN_BIT
    ensures ByteSize(x) > 3 ==> 0x8000 <= Mantissa(x)
    ensures ByteSize(x) <= 3 && x > 0 ==> Mantissa(x) > 0
  {
    hide Pow2; hide ByteSize;
    var k := ByteSize(x);
    SmallPowers();
    if x == 0 {
      assert k == 0 by { ZeroSize(); }
    } else if k <= 3 {
      ByteSizeBounds(x);
      var e := 8 * (3 - k);
      Pow2Add(8 * k - 1, e);
      MulOrder(x + 1, Pow2(8 * k - 1), Pow2(e));
      assert (x + 1) * Pow2(e) == x * Pow2(e) + Pow2(e);
      MulOrder(1, x, Pow2(e));
    } else {
      ByteSizeBounds(x);
      var e := 8 * (k - 3);
      QuotientBetween(x, Pow2(e), 0x8000, SIGN_BIT, Pow2(e + 15), Pow2(e + 23)) by { Pow2Add(15, e); Pow2Add(23, e); }
    }
  }

  lemma SmallPowers()
    ensures Pow2(23) == SIGN_BIT && Pow2(15) == 0x8000 && Pow2(0) == 1 && Pow2(1) == 2
  {
    Pow2Values();
    assert Pow2(16) == 2 * Pow2(15) && Pow2(24) == 2 * Pow2(23);
  }

  lemma ZeroSize()
    ensures ByteSize(0) == 0
  {
  }

  lemma QuotientBetween(x: nat, d: nat, lo: nat, hi: nat, from: nat, to: nat)
    requires d > 0 && from == lo * d && to == hi * d && from <= x < to
    ensures lo <= x / d < hi
  {
    MulOrder(x / d + 1, lo, d);
    MulOrder(hi, x / d, d);
  }

  // ----- encoding and decoding

  /** The encoding gives back its size, mantissa and sign. */
  lemma EncodeParts(x: nat, negative: bool)
    ensures var c := Encode(x, negative);
      Size(c) == ByteSize(x) && c % SIGN_BIT == Mantissa(x) && (Signed(c) <==> negative && Mantissa(x) != 0)
  {
    hide ByteSize; hide Mantissa;
    MantissaBounds(x);
    var k, m, c := ByteSize(x), Mantissa(x), Encode(x, negative);
    var sign := if negative && m != 0 then 1 else 0;
    DivModUnique(c, SIZE_UNIT, k, m + sign * SIGN_BIT);
    DivModUnique(c, SIGN_BIT, 2 * k + sign, m);
  }

  /** The number with its low bytes cleared, as far as the mantissa does not hold them. */
  function Rounded(x: nat): nat {
    if ByteSize(x) <= 3 then x else Shl(Shr(x, 8 * (ByteSize(x) - 3)), 8 * (ByteSize(x) - 3))
  }

  lemma RoundedBelow(x: nat)
    ensures Rounded(x) <= x
    ensures ByteSize(x) > 3 ==> x < Rounded(x) + Pow2(8 * (ByteSize(x) - 3))
  {
    hide ByteSize; hide Pow2;
  }

  /** Decoding an encoding rounds down, and sets neither flag beyond the sign that was put in. */
  lemma DecodeEncode(x: nat, negative: bool)
    requires x < Pow2(256)
    ensures var c := Encode(x, negative);
      Full(c) == Rounded(x) && !Overflows(c) && (Word(c) != 0 && Signed(c) <==> negative && x != 0)
  {
    hide ByteSize; hide Mantissa; hide Pow2; hide Encode; hide Signed; hide Size; hide Shl; hide Shr;
    var c, k := Encode(x, negative), ByteSize(x);
    EncodeParts(x, negative);
    MantissaBounds(x);
    MantissaIs(x);
    RoundedBelow(x);
    OverflowExact(c);
    if k <= 3 {
      ShiftBack(x, 8 * (3 - k));
      if x == 0 { ZeroSize(); }
    } else if x == 0 {
      ZeroSize();
    }
  }

  lemma MantissaIs(x: nat)
    ensures Mantissa(x) == if ByteSize(x) <= 3 then Shl(x, 8 * (3 - ByteSize(x))) else Shr(x, 8 * (ByteSize(x) - 3))
    ensures Mantissa(0) == 0
  {
  }

  lemma ShiftBack(x: nat, e: nat)
    ensures Shr(Shl(x, e), e) == x
  {
    DivModUnique(x * Pow2(e), Pow2(e), x, 0);
  }

  /** No other encoding without overflow comes closer from below. */
  lemma EncodeLargest(x: nat, c: nat)
    requires Full(c) <= x
    ensures Full(c) <= Rounded(x)
  {
    hide ByteSize; hide Mantissa; hide Pow2; hide Word; hide Shr; hide Shl; hide Size;
    var k, s := ByteSize(x), Size(c);
    if k > 3 {
      RoundedIs(x);
      if s >= k {
        FullIs(c);
        FinerBelow(x, Word(c), s - k, k - 3);
      } else {
        MantissaBounds(x);
        CoarserSmaller(c, k, Mantissa(x));
      }
    }
  }

  lemma RoundedIs(x: nat)
    requires ByteSize(x) > 3
    ensures Rounded(x) == Mantissa(x) * Pow2(8 * (ByteSize(x) - 3))
    ensures Rounded(x) == x / Pow2(8 * (ByteSize(x) - 3)) * Pow2(8 * (ByteSize(x) - 3))
  {
    hide ByteSize; hide Pow2;
    MantissaIs(x);
  }

  lemma FullIs(c: nat)
    requires Size(c) > 3
    ensures Full(c) == Word(c) * Pow2(8 * (Size(c) - 3))
  {
    hide Pow2; hide Size;
  }

  /** A number with a larger shift is a multiple of the smaller one. */
  lemma FinerBelow(x: nat, w: nat, more: nat, shift: nat)
    requires w * Pow2(8 * (more + shift)) <= x
    ensures w * Pow2(8 * (more + shift)) <= x / Pow2(8 * shift) * Pow2(8 * shift)
  {
    hide Pow2;
    var p, g := Pow2(8 * more), Pow2(8 * shift);
    assert 8 * (more + shift) == 8 * more + 8 * shift;
    Pow2Add(8 * more, 8 * shift);
    MulGroups(w, p, g);
    MulOrder(0, w, p);
    MultipleBelow(x, g, w * p);
  }

  lemma MulGroups(a: int, b: int, c: int)
    ensures a * (b * c) == (a * b) * c
  {
  }

  /** A multiple not above x is not above the largest one. */
  lemma MultipleBelow(x: nat, g: nat, q: nat)
    requires g > 0 && q * g <= x
    ensures q * g <= x / g * g
  {
    MulOrder(x / g + 1, q, g);
    MulOrder(q, x / g, g);
  }

  /** With a smaller size an encoding stays below any mantissa that uses its top byte. */
  lemma CoarserSmaller(c: nat, k: nat, m: nat)
    requires 3 < k && Size(c) < k && m >= 0x8000
    ensures Full(c) < m * Pow2(8 * (k - 3))
  {
    hide Pow2; hide Word; hide Shr; hide Size; hide Shl;
    WordBound(c);
    var s, e := Size(c), 8 * (k - 4);
    assert Pow2(8 * (k - 3)) == 0x100 * Pow2(e) by { NextByte(k - 4); }
    if s > 3 {
      FullIs(c);
      Pow2Monotone(8 * (s - 3), e);
      ProductBelow(Word(c), Pow2(8 * (s - 3)), m, Pow2(e));
    } else {
      ProductBelow(Word(c), 1, m, Pow2(e));
    }
  }

  lemma NextByte(n: nat)
    ensures Pow2(8 * (n + 1)) == 0x100 * Pow2(8 * n)
  {
    hide Pow2;
    Pow2Values();
    Pow2Add(8, 8 * n);
  }

  lemma ProductBelow(w: nat, p: nat, m: nat, u: nat)
    requires w < SIGN_BIT && 1 <= p <= u && m >= 0x8000
    ensures w * p < m * (0x100 * u)
  {
    MulOrder(w + 1, SIGN_BIT, p);
    MulDistributes(w, 1, p);
    MulOrder(p, u, SIGN_BIT);
    MulOrder(0x8000, m, 0x100 * u);
  }

  lemma ByteSizeMonotone(x: nat, y: nat)
    requires x <= y
    ensures ByteSize(x) <= ByteSize(y)
  {
    hide Pow2; hide ByteSize;
    if x == 0 {
      ZeroSize();
    } else {
      ByteSizeBounds(x);
      ByteSizeBounds(y);
      if ByteSize(y) < ByteSize(x) { Pow2Monotone(8 * ByteSize(y) - 1, 8 * ByteSize(x) - 9); }
    }
  }

  /** The encoding keeps the order. */
  lemma EncodeMonotone(x: nat, y: nat)
    requires x <= y
    ensures Encode(x, false) <= Encode(y, false)
  {
    hide Pow2; hide ByteSize;
    ByteSizeMonotone(x, y);
    MantissaBounds(x);
    MantissaBounds(y);
    var k := ByteSize(x);
    if k == ByteSize(y) {
      if k <= 3 {
        MulOrder(x, y, Pow2(8 * (3 - k)));
      } else {
        DivMonotone(x, y, Pow2(8 * (k - 3)));
      }
    }
  }

  /** Encoding a rounded number again changes nothing. */
  lemma EncodeIdempotent(x: nat, negative: bool)
    ensures Encode(Rounded(x), negative) == Encode(x, negative)
  {
    hide Pow2; hide ByteSize;
    var k := ByteSize(x);
    if k > 3 {
      var e := 8 * (k - 3);
      MantissaBounds(x);
      RoundedBelow(x);
      SmallPowers();
      if x == 0 { ZeroSize(); }
      ByteSizeBounds(x);
      Pow2Add(15, e);
      MulOrder(0x8000, Mantissa(x), Pow2(e));
      assert Rounded(x) == Mantissa(x) * Pow2(e);
      ByteSizeUnique(Rounded(x), k);
      ShiftBack(Mantissa(x), e);
    }
  }
}
