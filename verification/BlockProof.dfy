/** Difficulty targets: the compact form on 256-bit limbs, and the work a block proves. */
module BlockProof {
  import opened Powers
  import opened Limbs
  import opened Arith256
  import opened CompactTarget

  const WIDTH := 8

  /** `SetCompact`: the value cut to 256 bits, and its two flags. */
  method SetCompact(n: BaseUint, nCompact: nat) returns (negative: bool, overflow: bool)
    requires n.pn.Length == WIDTH && nCompact < 0x1_0000_0000
    modifies n.pn
    ensures n.Value() == Full(nCompact) % Pow2(256)
    ensures negative <==> Word(nCompact) != 0 && Signed(nCompact)
    ensures overflow <==> Overflows(nCompact)
  {
    hide Pow2; hide Val;
    var nSize := nCompact / SIZE_UNIT;
    var nWord := nCompact % SIGN_BIT;
    WordBound(nCompact);
    if nSize <= 3 {
      nWord := Shr(nWord, 8 * (3 - nSize));
      n.Set64(nWord);
      SmallFits(nWord);
    } else {
      n.Set64(nWord);
      n.ShiftLeft(8 * (nSize - 3));
    }
    negative := nWord != 0 && Signed(nCompact);
    overflow := nWord != 0 && (nSize > 34 || (nWord > 0xff && nSize > 33) || (nWord > 0xffff && nSize > 32));
  }

  lemma SmallFits(w: nat)
    requires w < SIGN_BIT
    ensures w % Pow2(256) == w
  {
    hide Pow2;
    Pow2Values();
    Pow2Monotone(32, 256);
    DivModUnique(w, Pow2(256), 0, w);
  }

  /** `GetCompact`. */
  method GetCompact(n: BaseUint, fNegative: bool) returns (nCompact: nat)
    requires n.pn.Length == WIDTH
    ensures nCompact == Encode(n.Value(), fNegative)
  {
    hide Pow2; hide Val; hide Encode; hide Or;
    ghost var x := n.Value();
    var bits := n.Bits();
    var nSize := (bits + 7) / 8;
    Truncates(x, bits);
    if nSize <= 3 {
      var low := n.GetLow64();
      nCompact := Shl(low, 8 * (3 - nSize)) % BASE;
    } else {
      var bn := new BaseUint.Copy(n);
      bn.ShiftRight(8 * (nSize - 3));
      var low := bn.GetLow64();
      nCompact := low % BASE;
    }
    Normalizes(x, bits);
    if nCompact / SIGN_BIT % 2 == 1 {
      nCompact := nCompact / 0x100;
      nSize := nSize + 1;
    }
    MantissaBounds(x);
    ValBound(n.pn[..]);
    EncodeFits(x, fNegative);
    assert nCompact < SIGN_BIT && nSize < 256;
    Assembles(x, nCompact, nSize, fNegative);
    nCompact := Or(nCompact, nSize * SIZE_UNIT);
    nCompact := Or(nCompact, if fNegative && nCompact % SIGN_BIT != 0 then SIGN_BIT else 0);
  }

  /** The top three bytes of a number of the given bit length. */
  ghost function TopBytes(x: nat, bits: nat): nat {
    var n := (bits + 7) / 8;
    if n <= 3 then Shl(x, 8 * (3 - n)) else Shr(x, 8 * (n - 3))
  }

  ghost predicate HasBits(x: nat, bits: nat) {
    x < Pow2(bits) && (bits > 0 ==> Pow2(bits - 1) <= x)
  }

  /** Cutting to 64 and then 32 bits loses nothing of the top bytes. */
  lemma Truncates(x: nat, bits: nat)
    requires HasBits(x, bits)
    ensures TopBytes(x, bits) < SIZE_UNIT && TopBytes(x, bits) % BASE == TopBytes(x, bits)
    ensures bits <= 24 ==> x % Unit(2) == x
    ensures TopBytes(x, bits) % Unit(2) == TopBytes(x, bits)
  {
    hide Pow2;
    var n := (bits + 7) / 8;
    Pow2Monotone(bits, 8 * n);
    Pow2Values();
    TopBelow(x, n, 24);
    Pow2Monotone(24, 64);
    if bits <= 24 {
      Pow2Monotone(bits, 64);
      DivModUnique(x, Unit(2), 0, x);
    }
    DivModUnique(TopBytes(x, bits), Unit(2), 0, TopBytes(x, bits));
  }

  /** Scaling a bound on x to its top bytes. */
  lemma TopBelow(x: nat, n: nat, t: nat)
    requires t <= 24 && 8 * n + t >= 24 && x < Pow2(8 * n + t - 24)
    ensures (if n <= 3 then Shl(x, 8 * (3 - n)) else Shr(x, 8 * (n - 3))) < Pow2(t)
  {
    hide Pow2;
    if n <= 3 {
      var e := 8 * (3 - n);
      Pow2Add(8 * n + t - 24, e);
      Carry(x, Pow2(8 * n + t - 24), Pow2(e));
    } else {
      var e := 8 * (n - 3);
      Pow2Add(t, e);
      QuotientBetween(x, Pow2(e), 0, Pow2(t), 0, Pow2(e + t));
    }
  }

  lemma TopAbove(x: nat, n: nat)
    requires n >= 1 && Pow2(8 * n - 1) <= x
    ensures (if n <= 3 then Shl(x, 8 * (3 - n)) else Shr(x, 8 * (n - 3))) >= Pow2(23)
  {
    hide Pow2;
    if n <= 3 {
      var e := 8 * (3 - n);
      Pow2Add(8 * n - 1, e);
      MulOrder(Pow2(8 * n - 1), x, Pow2(e));
    } else {
      var e := 8 * (n - 3);
      Pow2Add(23, e);
      MulOrder(x / Pow2(e) + 1, Pow2(23), Pow2(e));
    }
  }

  /** Moving the sign bit out of the way gives the size and mantissa of the encoding. */
  lemma Normalizes(x: nat, bits: nat)
    requires HasBits(x, bits)
    ensures var n, m := (bits + 7) / 8, TopBytes(x, bits);
      if m / SIGN_BIT % 2 == 1 then ByteSize(x) == n + 1 && Mantissa(x) == m / 0x100
      else ByteSize(x) == n && Mantissa(x) == m
  {
    hide Pow2; hide BitLength;
    BitLengthUnique(x, bits);
    SmallPowers();
    Truncates(x, bits);
    var n := (bits + 7) / 8;
    if bits == 0 {
      BitsOfZero(x, bits);
    } else if bits % 8 == 0 {
      BitsOfZero(x, bits);
      TopAbove(x, n);
      Demotes(x, n);
    } else {
      BitsOfZero(x, bits);
      Pow2Monotone(bits, 8 * n - 1);
      TopBelow(x, n, 23);
    }
  }

  /** One byte more of size takes one byte off the mantissa. */
  lemma Demotes(x: nat, n: nat)
    ensures (if n <= 3 then Shl(x, 8 * (3 - n)) else Shr(x, 8 * (n - 3))) / 0x100
      == if n + 1 <= 3 then Shl(x, 8 * (3 - (n + 1))) else Shr(x, 8 * (n + 1 - 3))
  {
    hide Pow2;
    Pow2Values();
    if n < 3 {
      var e := 8 * (2 - n);
      Pow2Add(e, 8);
      assert x * Pow2(e + 8) == x * Pow2(e) * 0x100;
    } else if n == 3 {
      assert Pow2(0) == 1 by { Pow2Zero(); }
    } else {
      Pow2Add(8 * (n - 3), 8);
      DivDiv(x, Pow2(8 * (n - 3)), 0x100);
    }
  }

  /** Or-ing in the size and the sign adds them. */
  lemma Assembles(x: nat, m: nat, k: nat, negative: bool)
    requires m == Mantissa(x) && k == ByteSize(x)
    ensures Or(m, k * SIZE_UNIT) == m + k * SIZE_UNIT
    ensures (m + k * SIZE_UNIT) % SIGN_BIT == m
    ensures Or(m + k * SIZE_UNIT, if negative && m != 0 then SIGN_BIT else 0) == Encode(x, negative)
  {
    hide Pow2; hide Or; hide Mantissa; hide ByteSize;
    MantissaBounds(x);
    Pow2Values();
    SmallPowers();
    DivAddMultiple(0, SIZE_UNIT, k);
    OrDisjoint(k * SIZE_UNIT, m, 24);
    var c := m + k * SIZE_UNIT;
    DivModUnique(c, SIGN_BIT, 2 * k, m);
    OrZero(c);
    SetsSign(c, k, m);
  }

  /** Or-ing in the sign bit where it is clear adds it. */
  lemma SetsSign(c: nat, k: nat, m: nat)
    requires m < SIGN_BIT && c == 2 * k * SIGN_BIT + m
    ensures Or(c, SIGN_BIT) == c + SIGN_BIT
  {
    hide Pow2; hide Or; hide Shr;
    SmallPowers();
    DivModUnique(c, SIGN_BIT, 2 * k, m);
    OrSplit(c, SIGN_BIT, 23);
    assert Shr(c, 23) == 2 * k && Shr(SIGN_BIT, 23) == 1 by { ShrIs(c, 23); ShrIs(SIGN_BIT, 23); }
    OrZero(m);
    OrDisjoint(2 * k, 1, 1);
  }

  lemma ShrIs(x: nat, e: nat)
    ensures Shr(x, e) == x / Pow2(e)
  {
  }

  /** The encoding of a 256-bit number fits 32 bits. */
  lemma EncodeFits(x: nat, negative: bool)
    requires x < Pow2(256)
    ensures Encode(x, negative) < 0x1_0000_0000 && ByteSize(x) < 256
  {
    hide Pow2; hide ByteSize; hide Mantissa;
    MantissaBounds(x);
    if x == 0 {
      ZeroSize();
    } else {
      ByteSizeBounds(x);
      if ByteSize(x) > 33 { Pow2Monotone(256, 8 * ByteSize(x) - 9); }
    }
  }

  /** `GetBlockProof`: the expected number of hashes, 2^256 / (target + 1), or zero for a target not accepted. */
  method GetBlockProof(nBits: nat) returns (proof: BaseUint)
    requires nBits < 0x1_0000_0000
    ensures fresh(proof) && fresh(proof.pn) && proof.pn.Length == WIDTH
    ensures proof.Value() ==
      if (Word(nBits) != 0 && Signed(nBits)) || Overflows(nBits) || Full(nBits) == 0 then 0
      else Pow2(256) / (Full(nBits) + 1)
  {
    hide Pow2; hide Val; hide Full; hide Word; hide Overflows; hide Signed;
    var bnTarget := new BaseUint.Zero(WIDTH);
    var fNegative, fOverflow := SetCompact(bnTarget, nBits);
    OverflowExact(nBits);
    Accepted(nBits);
    var zero := bnTarget.EqualTo(0);
    if fNegative || fOverflow || zero {
      proof := new BaseUint.Zero(WIDTH);
      return;
    }
    ghost var t := Full(nBits);
    proof := bnTarget.Complement();
    var divisor := new BaseUint.Copy(bnTarget);
    var one := new BaseUint.From64(1, WIDTH);
    divisor.AddAssign(one);
    ProofValue(t);
    var ok := proof.DivAssign(divisor);
    assert ok;
    proof.AddAssign(one);
  }

  /** An accepted target is neither cut nor the largest number. */
  lemma Accepted(c: nat)
    requires Overflows(c) <==> Full(c) >= Pow2(256)
    ensures !Overflows(c) ==> Full(c) % Pow2(256) == Full(c) && Full(c) + 1 < Pow2(256)
    ensures Full(c) == 0 ==> !Overflows(c)
  {
    hide Pow2; hide Word; hide Overflows;
    if Full(c) < Pow2(256) {
      DivModUnique(Full(c), Pow2(256), 0, Full(c));
      WordBound(c);
      Pow2Values();
      if Size(c) <= 3 {
        Pow2Monotone(32, 256);
      } else {
        EvenShift(Word(c), 8 * (Size(c) - 3));
        EvenShift(1, 256);
      }
    }
  }

  lemma EvenShift(w: nat, e: nat)
    requires e > 0
    ensures Shl(w, e) % 2 == 0
  {
    assert w * Pow2(e) == 2 * (w * Pow2(e - 1));
  }

  /** Complement divided by target plus one, plus one, is the quotient of 2^256 that does not fit itself. */
  lemma ProofValue(t: nat)
    requires 0 < t && t + 1 < Pow2(256)
    ensures var m := Unit(WIDTH);
      && m == Pow2(256) && (t + 1) % m == t + 1
      && (m - 1 - t) / (t + 1) + 1 == m / (t + 1) && m / (t + 1) < m && ((m - 1 - t) / (t + 1) + 1) % m == m / (t + 1)
  {
    hide Pow2;
    var m := Unit(WIDTH);
    DivModUnique(t + 1, m, 0, t + 1);
    DivAddMultiple(m - 1 - t, t + 1, 1);
    var q := m / (t + 1);
    MulOrder(2, t + 1, q);
    DivMonotone(0, m, t + 1);
    DivModUnique(q, m, 0, q);
  }
}
