/** The buffer sizes of the Base58 coder always suffice. */
module Base58Sizes {
  import opened Radix

  lemma SquareOf(b: nat, e: nat)
    ensures Pow(b, e + e) == Pow(b, e) * Pow(b, e)
  {
    PowAdd(b, e, e);
  }

  lemma Powers58()
    ensures Pow(58, 11) == 0x1_5ac2_6455_4f03_2800
    ensures Pow(58, 71) ==
      0xf1a1_0f76_073f_997e_1af0_b37f_5c79_5ecf_1456_3345_2837_a5de_3fa1_7ac7_4b86_f60a_0ebe_5446_f358_940a_4ca1_2a80_0000_0000_0000_0000
  {
    hide Pow;
    assert Pow(58, 1) == 58 && Pow(58, 2) == 3364 by { FirstPowers(); }
    SquareOf(58, 2);
    SquareOf(58, 4);
    PowAdd(58, 8, 2);
    PowAdd(58, 10, 1);
    SquareOf(58, 8);
    SquareOf(58, 16);
    SquareOf(58, 32);
    PowAdd(58, 64, 4);
    PowAdd(58, 68, 2);
    PowAdd(58, 70, 1);
  }

  lemma FirstPowers()
    ensures Pow(58, 1) == 58 && Pow(58, 2) == 3364 && Pow(256, 1) == 256
  {
  }

  lemma Powers256()
    ensures Pow(256, 8) == 0x1_0000_0000_0000_0000
    ensures Pow(256, 52) ==
      0x1_0000_0000_0000_0000_0000_0000_0000_0000_0000_0000_0000_0000_0000_0000_0000_0000_0000_0000_0000_0000_0000_0000_0000_0000_0000_0000
  {
    hide Pow;
    assert Pow(256, 1) == 256 by { FirstPowers(); }
    SquareOf(256, 1);
    SquareOf(256, 2);
    SquareOf(256, 4);
    SquareOf(256, 8);
    SquareOf(256, 16);
    PowAdd(256, 32, 16);
    PowAdd(256, 48, 4);
  }

  /** From a comparison of fixed powers to one of all: if b^p is at least a^q, then b^m is at least a^k
      once m/k is at least p/q. */
  lemma RatioSuffices(a: nat, b: nat, p: nat, q: nat, k: nat, m: nat)
    requires 1 <= a && 1 <= b && q >= 1 && Pow(b, p) >= Pow(a, q) && m * q >= p * k
    ensures Pow(b, m) >= Pow(a, k)
  {
    hide Pow;
    var pk, mq := p * k, m * q;
    assert Pow(b, mq) >= Pow(b, pk) by { PowExponent(b, pk, mq); }
    assert Pow(b, pk) == Pow(Pow(b, p), k) by { PowMul(b, p, k); }
    assert Pow(Pow(b, p), k) >= Pow(Pow(a, q), k) by { PowBase(Pow(a, q), Pow(b, p), k); }
    assert Pow(Pow(a, q), k) == Pow(Pow(a, k), q) by { PowMul(a, q, k); PowMul(a, k, q); Commutes(q, k); }
    assert Pow(b, mq) == Pow(Pow(b, m), q) by { PowMul(b, m, q); }
    RootOrder(Pow(b, m), Pow(a, k), q);
  }

  /** Powers with the same exponent compare as their bases do. */
  lemma RootOrder(x: nat, y: nat, e: nat)
    requires e >= 1 && Pow(x, e) >= Pow(y, e)
    ensures x >= y
  {
    hide Pow;
    if x < y { PowStrict(x, y, e); }
  }

  lemma Commutes(a: int, b: int)
    ensures a * b == b * a
  {
  }

  /** The encoder's buffer: 138/100 digits per byte and one more. */
  lemma EncoderRoom(k: nat)
    ensures Pow(256, k) <= Pow(58, k * 138 / 100 + 1)
  {
    hide Pow;
    Powers58();
    Powers256();
    RatioSuffices(256, 58, 11, 8, k, k * 138 / 100 + 1);
  }

  /** The decoder's buffer: 733/1000 bytes per digit and one more. */
  lemma DecoderRoom(k: nat)
    ensures Pow(58, k) <= Pow(256, k * 733 / 1000 + 1)
  {
    hide Pow;
    Powers58();
    Powers256();
    RatioSuffices(58, 256, 52, 71, k, k * 733 / 1000 + 1);
  }
}
