/** The field the Bech32 checksum is a code over: 1024 elements, as ten-bit numbers, generated by one of them. */
module Bech32Field {
  import opened Bech32Checksum

  // ----- additive maps

  /** The image of the sum of two numbers is the sum of their images. */
  ghost predicate Adds(f: bv32 -> bv32, x: bv32, y: bv32) {
    f(Xor(x, y)) == Xor(f(x), f(y))
  }

  ghost predicate Additive(f: bv32 -> bv32) {
    forall x, y :: Adds(f, x, y)
  }

  lemma AdditiveAt(f: bv32 -> bv32, x: bv32, y: bv32)
    requires Additive(f)
    ensures f(Xor(x, y)) == Xor(f(x), f(y))
  {
    assert Adds(f, x, y);
  }

  /** The sum of those of five numbers that the low bits of `x` select. */
  function Five(x: bv32, c0: bv32, c1: bv32, c2: bv32, c3: bv32, c4: bv32): bv32 {
    Xor(Xor(Selected(x, 1, c0), Selected(x, 2, c1)),
        Xor(Xor(Selected(x, 4, c2), Selected(x, 8, c3)), Selected(x, 16, c4)))
  }

  /** The sum that known bits select. */
  lemma Picks(x: bv32, c0: bv32, c1: bv32, c2: bv32, c3: bv32, c4: bv32,
              b0: bool, b1: bool, b2: bool, b3: bool, b4: bool)
    requires (x & 1 != 0) == b0 && (x & 2 != 0) == b1 && (x & 4 != 0) == b2 && (x & 8 != 0) == b3
    requires (x & 16 != 0) == b4
    ensures Five(x, c0, c1, c2, c3, c4) ==
      Xor(Xor(if b0 then c0 else 0, if b1 then c1 else 0),
          Xor(Xor(if b2 then c2 else 0, if b3 then c3 else 0), if b4 then c4 else 0))
  {
    hide Xor;
  }

  lemma FiveIs(x: bv32)
    requires Small(x)
    ensures Five(x, 1, 2, 4, 8, 16) == x
  {
  }

  lemma SelectedImage(f: bv32 -> bv32, x: bv32, mask: bv32, c: bv32)
    requires Additive(f)
    ensures f(Selected(x, mask, c)) == Selected(x, mask, f(c))
  {
    hide Xor;
    XorZero(0, 0);
    XorZero(f(0), f(0));
    AdditiveAt(f, 0, 0);
  }

  lemma FiveImage(f: bv32 -> bv32, x: bv32, c0: bv32, c1: bv32, c2: bv32, c3: bv32, c4: bv32)
    requires Additive(f)
    ensures f(Five(x, c0, c1, c2, c3, c4)) == Five(x, f(c0), f(c1), f(c2), f(c3), f(c4))
  {
    hide Xor; hide Selected;
    var s0, s1, s2 := Selected(x, 1, c0), Selected(x, 2, c1), Selected(x, 4, c2);
    var s3, s4 := Selected(x, 8, c3), Selected(x, 16, c4);
    SelectedImage(f, x, 1, c0);
    SelectedImage(f, x, 2, c1);
    SelectedImage(f, x, 4, c2);
    SelectedImage(f, x, 8, c3);
    SelectedImage(f, x, 16, c4);
    AdditiveAt(f, Xor(s0, s1), Xor(Xor(s2, s3), s4));
    AdditiveAt(f, s0, s1);
    AdditiveAt(f, Xor(s2, s3), s4);
    AdditiveAt(f, s2, s3);
  }

  lemma FiveLinear(x: bv32, y: bv32, c0: bv32, c1: bv32, c2: bv32, c3: bv32, c4: bv32)
    ensures Five(Xor(x, y), c0, c1, c2, c3, c4) == Xor(Five(x, c0, c1, c2, c3, c4), Five(y, c0, c1, c2, c3, c4))
  {
    hide Xor; hide Selected;
    SelectedLinear(x, y, 1, c0);
    SelectedLinear(x, y, 2, c1);
    SelectedLinear(x, y, 4, c2);
    SelectedLinear(x, y, 8, c3);
    SelectedLinear(x, y, 16, c4);
    var a0, b0 := Selected(x, 1, c0), Selected(y, 1, c0);
    var a1, b1 := Selected(x, 2, c1), Selected(y, 2, c1);
    var a2, b2 := Selected(x, 4, c2), Selected(y, 4, c2);
    var a3, b3 := Selected(x, 8, c3), Selected(y, 8, c3);
    var a4, b4 := Selected(x, 16, c4), Selected(y, 16, c4);
    XorPairs(a0, b0, a1, b1);
    XorPairs(a2, b2, a3, b3);
    XorPairs(Xor(a2, a3), Xor(b2, b3), a4, b4);
    XorPairs(Xor(a0, a1), Xor(b0, b1), Xor(Xor(a2, a3), a4), Xor(Xor(b2, b3), b4));
  }

  /** Additive maps that agree on the five low bits agree on five-bit numbers. */
  lemma SameOnFive(f: bv32 -> bv32, g: bv32 -> bv32, x: bv32)
    requires Additive(f) && Additive(g) && Small(x)
    requires f(1) == g(1) && f(2) == g(2) && f(4) == g(4) && f(8) == g(8) && f(16) == g(16)
    ensures f(x) == g(x)
  {
    hide Five; hide Additive; hide Small;
    FiveIs(x);
    FiveImage(f, x, 1, 2, 4, 8, 16);
    FiveImage(g, x, 1, 2, 4, 8, 16);
  }

  // ----- ten bits

  predicate Element(x: bv32) { x < 1024 }

  lemma HalvesOf(x: bv32)
    requires Element(x)
    ensures Small(x & 31) && Small(DownFive(x)) && Xor(x & 31, UpFive(DownFive(x))) == x
  {
  }

  function UpFive(x: bv32): bv32 { x << 5 }
  function DownFive(x: bv32): bv32 { x >> 5 }
  function UpOne(x: bv32): bv32 { x << 1 }

  lemma UpFiveLinear(x: bv32, y: bv32)
    ensures UpFive(Xor(x, y)) == Xor(UpFive(x), UpFive(y))
  {
  }

  /** Additive maps that agree on ten bits agree on all elements. */
  lemma SameOnTen(f: bv32 -> bv32, g: bv32 -> bv32, x: bv32)
    requires Additive(f) && Additive(g) && Element(x)
    requires f(1) == g(1) && f(2) == g(2) && f(4) == g(4) && f(8) == g(8) && f(16) == g(16)
    requires f(32) == g(32) && f(64) == g(64) && f(128) == g(128) && f(256) == g(256) && f(512) == g(512)
    ensures f(x) == g(x)
  {
    hide Xor; hide Small; hide Element; hide UpFive; hide Additive;
    HalvesOf(x);
    var lo, hi := x & 31, DownFive(x);
    AdditiveAt(f, lo, UpFive(hi));
    AdditiveAt(g, lo, UpFive(hi));
    SameOnFive(f, g, lo);
    SameOnHigh(f, g, hi);
  }

  lemma AdditiveHigh(f: bv32 -> bv32)
    requires Additive(f)
    ensures Additive(y => f(UpFive(y)))
  {
    hide Xor; hide UpFive;
    var g: bv32 -> bv32 := y => f(UpFive(y));
    forall y, z ensures Adds(g, y, z) {
      UpFiveLinear(y, z);
      AdditiveAt(f, UpFive(y), UpFive(z));
    }
  }

  lemma SameOnHigh(f: bv32 -> bv32, g: bv32 -> bv32, y: bv32)
    requires Additive(f) && Additive(g) && Small(y)
    requires f(32) == g(32) && f(64) == g(64) && f(128) == g(128) && f(256) == g(256) && f(512) == g(512)
    ensures f(UpFive(y)) == g(UpFive(y))
  {
    hide Xor; hide Small; hide UpFive; hide Additive;
    AdditiveHigh(f);
    AdditiveHigh(g);
    FiveShifted();
    SameOnFive(y => f(UpFive(y)), y => g(UpFive(y)), y);
  }

  lemma FiveShifted()
    ensures UpFive(1) == 32 && UpFive(2) == 64 && UpFive(4) == 128 && UpFive(8) == 256 && UpFive(16) == 512
  {
  }

  // ----- the generator and its powers

  /** The sum of those of ten numbers that the bits of an element select. */
  function Ten(x: bv32, c0: bv32, c1: bv32, c2: bv32, c3: bv32, c4: bv32,
               c5: bv32, c6: bv32, c7: bv32, c8: bv32, c9: bv32): bv32 {
    Xor(Five(x, c0, c1, c2, c3, c4), Five(DownFive(x), c5, c6, c7, c8, c9))
  }

  lemma DownFiveLinear(x: bv32, y: bv32)
    ensures DownFive(Xor(x, y)) == Xor(DownFive(x), DownFive(y))
  {
  }

  lemma TenLinear(x: bv32, y: bv32, c0: bv32, c1: bv32, c2: bv32, c3: bv32, c4: bv32,
                  c5: bv32, c6: bv32, c7: bv32, c8: bv32, c9: bv32)
    ensures Ten(Xor(x, y), c0, c1, c2, c3, c4, c5, c6, c7, c8, c9)
      == Xor(Ten(x, c0, c1, c2, c3, c4, c5, c6, c7, c8, c9), Ten(y, c0, c1, c2, c3, c4, c5, c6, c7, c8, c9))
  {
    hide Xor; hide Five; hide DownFive;
    DownFiveLinear(x, y);
    FiveLinear(x, y, c0, c1, c2, c3, c4);
    FiveLinear(DownFive(x), DownFive(y), c5, c6, c7, c8, c9);
    XorPairs(Five(x, c0, c1, c2, c3, c4), Five(y, c0, c1, c2, c3, c4),
             Five(DownFive(x), c5, c6, c7, c8, c9), Five(DownFive(y), c5, c6, c7, c8, c9));
  }

  /** Times b, modulo b^10 + b^8 + b^5 + b + 1. */
  function Next(x: bv32): bv32 { Xor(UpOne(x), Selected(DownFive(x), 16, 0x523)) }

  lemma UpOneLinear(x: bv32, y: bv32)
    ensures UpOne(Xor(x, y)) == Xor(UpOne(x), UpOne(y))
  {
  }

  lemma NextLinear(x: bv32, y: bv32)
    ensures Next(Xor(x, y)) == Xor(Next(x), Next(y))
  {
    hide Xor; hide Selected; hide UpOne; hide DownFive;
    UpOneLinear(x, y);
    DownFiveLinear(x, y);
    SelectedLinear(DownFive(x), DownFive(y), 16, 0x523);
    XorPairs(UpOne(x), UpOne(y), Selected(DownFive(x), 16, 0x523), Selected(DownFive(y), 16, 0x523));
  }

  lemma NextElement(x: bv32)
    requires Element(x)
    ensures Element(Next(x)) && (Next(x) == 0 ==> x == 0)
  {
  }

  /** Times the n-th power of b. */
  function Times(n: nat, x: bv32): bv32 { if n == 0 then x else Next(Times(n - 1, x)) }

  lemma {:induction false} TimesLinear(n: nat, x: bv32, y: bv32)
    ensures Times(n, Xor(x, y)) == Xor(Times(n, x), Times(n, y))
  {
    hide Xor; hide Next;
    if n > 0 {
      TimesLinear(n - 1, x, y);
      NextLinear(Times(n - 1, x), Times(n - 1, y));
    }
  }

  lemma {:induction false} TimesElement(n: nat, x: bv32)
    requires Element(x)
    ensures Element(Times(n, x)) && (Times(n, x) == 0 ==> x == 0)
  {
    hide Element; hide Next;
    if n > 0 {
      TimesElement(n - 1, x);
      NextElement(Times(n - 1, x));
    }
  }

  lemma {:induction false} TimesAdd(m: nat, n: nat, x: bv32)
    ensures Times(m + n, x) == Times(m, Times(n, x))
  {
    hide Next;
    if m > 0 { TimesAdd(m - 1, n, x); }
  }

  lemma Advance(n: nat, v: bv32, w: bv32)
    requires Times(n, 1) == v && Next(v) == w
    ensures Times(n + 1, 1) == w
  {
    hide Next;
  }

  /** The bits of an element are the first ten powers. */
  lemma BitsArePowers()
    ensures Times(0, 1) == 1 && Times(1, 1) == 2 && Times(2, 1) == 4 && Times(3, 1) == 8 && Times(4, 1) == 16
    ensures Times(5, 1) == 32 && Times(6, 1) == 64 && Times(7, 1) == 128 && Times(8, 1) == 256 && Times(9, 1) == 512
  {
    hide Next;
    FirstNexts();
    Advance(0, 1, 2);
    Advance(1, 2, 4);
    Advance(2, 4, 8);
    Advance(3, 8, 16);
    Advance(4, 16, 32);
    Advance(5, 32, 64);
    Advance(6, 64, 128);
    Advance(7, 128, 256);
    Advance(8, 256, 512);
  }

  lemma FirstNexts()
    ensures Next(1) == 2 && Next(2) == 4 && Next(4) == 8
    ensures Next(8) == 16 && Next(16) == 32 && Next(32) == 64
    ensures Next(64) == 128 && Next(128) == 256 && Next(256) == 512
  {
  }

  /** Multiplying by a power, from ten powers in a row. */
  lemma TimesIsTen(n: nat, x: bv32, c0: bv32, c1: bv32, c2: bv32, c3: bv32, c4: bv32,
                   c5: bv32, c6: bv32, c7: bv32, c8: bv32, c9: bv32)
    requires Element(x)
    requires Times(n, 1) == c0 && Times(n + 1, 1) == c1 && Times(n + 2, 1) == c2 && Times(n + 3, 1) == c3
    requires Times(n + 4, 1) == c4 && Times(n + 5, 1) == c5 && Times(n + 6, 1) == c6 && Times(n + 7, 1) == c7
    requires Times(n + 8, 1) == c8 && Times(n + 9, 1) == c9
    ensures Times(n, x) == Ten(x, c0, c1, c2, c3, c4, c5, c6, c7, c8, c9)
  {
    hide Five; hide Xor; hide Element; hide Times; hide Additive; hide Small; hide UpFive; hide DownFive;
    BitsArePowers();
    TimesAdd(n, 1, 1);
    TimesAdd(n, 2, 1);
    TimesAdd(n, 3, 1);
    TimesAdd(n, 4, 1);
    TimesAdd(n, 5, 1);
    TimesAdd(n, 6, 1);
    TimesAdd(n, 7, 1);
    TimesAdd(n, 8, 1);
    TimesAdd(n, 9, 1);
    var lo, hi := x & 31, DownFive(x);
    HalvesOf(x);
    TimesLinear(n, lo, UpFive(hi));
    TimesAdditive(n);
    FiveIs(lo);
    FiveImage(y => Times(n, y), lo, 1, 2, 4, 8, 16);
    FiveLow(x, c0, c1, c2, c3, c4);
    UpFiveIs(hi);
    FiveImage(y => Times(n, y), hi, 32, 64, 128, 256, 512);
  }

  /** Only the low five bits select. */
  lemma FiveLow(x: bv32, c0: bv32, c1: bv32, c2: bv32, c3: bv32, c4: bv32)
    ensures Five(x & 31, c0, c1, c2, c3, c4) == Five(x, c0, c1, c2, c3, c4)
  {
    hide Xor;
    LowMask(x, 1);
    LowMask(x, 2);
    LowMask(x, 4);
    LowMask(x, 8);
    LowMask(x, 16);
  }

  lemma LowMask(x: bv32, m: bv32)
    requires m == 1 || m == 2 || m == 4 || m == 8 || m == 16
    ensures (x & 31) & m == x & m
  {
  }

  lemma UpFiveIs(x: bv32)
    requires Small(x)
    ensures Five(x, 32, 64, 128, 256, 512) == UpFive(x)
  {
  }

  lemma TimesAdditive(n: nat)
    ensures Additive(y => Times(n, y))
  {
    hide Xor; hide Times;
    var f: bv32 -> bv32 := y => Times(n, y);
    forall x, y ensures Adds(f, x, y) { TimesLinear(n, x, y); }
  }

  lemma PowersTo24()
    ensures Times(9, 1) == 512 && Times(10, 1) == 291 && Times(11, 1) == 582 && Times(12, 1) == 431
    ensures Times(13, 1) == 862 && Times(14, 1) == 927 && Times(15, 1) == 541 && Times(16, 1) == 281
    ensures Times(17, 1) == 562 && Times(18, 1) == 327 && Times(19, 1) == 654 && Times(20, 1) == 63
    ensures Times(21, 1) == 126 && Times(22, 1) == 252 && Times(23, 1) == 504 && Times(24, 1) == 1008
  {
    hide Next; hide Times;
    BitsArePowers();
    PowersTo24Nexts();
    Advance(9, 512, 291);
    Advance(10, 291, 582);
    Advance(11, 582, 431);
    Advance(12, 431, 862);
    Advance(13, 862, 927);
    Advance(14, 927, 541);
    Advance(15, 541, 281);
    Advance(16, 281, 562);
    Advance(17, 562, 327);
    Advance(18, 327, 654);
    Advance(19, 654, 63);
    Advance(20, 63, 126);
    Advance(21, 126, 252);
    Advance(22, 252, 504);
    Advance(23, 504, 1008);
  }

  lemma PowersTo24Nexts()
    ensures Next(512) == 291 && Next(291) == 582 && Next(582) == 431 && Next(431) == 862
    ensures Next(862) == 927 && Next(927) == 541 && Next(541) == 281 && Next(281) == 562
    ensures Next(562) == 327 && Next(327) == 654 && Next(654) == 63 && Next(63) == 126
    ensures Next(126) == 252 && Next(252) == 504 && Next(504) == 1008
  {
  }

  lemma PowersTo42()
    ensures Times(24, 1) == 1008 && Times(25, 1) == 707 && Times(26, 1) == 165 && Times(27, 1) == 330
    ensures Times(28, 1) == 660 && Times(29, 1) == 11 && Times(30, 1) == 22 && Times(31, 1) == 44
    ensures Times(32, 1) == 88 && Times(33, 1) == 176 && Times(34, 1) == 352 && Times(35, 1) == 704
    ensures Times(36, 1) == 163 && Times(37, 1) == 326 && Times(38, 1) == 652 && Times(39, 1) == 59
    ensures Times(40, 1) == 118 && Times(41, 1) == 236 && Times(42, 1) == 472
  {
    hide Next; hide Times;
    PowersTo24();
    PowersTo42Nexts();
    Advance(24, 1008, 707);
    Advance(25, 707, 165);
    Advance(26, 165, 330);
    Advance(27, 330, 660);
    Advance(28, 660, 11);
    Advance(29, 11, 22);
    Advance(30, 22, 44);
    Advance(31, 44, 88);
    Advance(32, 88, 176);
    Advance(33, 176, 352);
    Advance(34, 352, 704);
    Advance(35, 704, 163);
    Advance(36, 163, 326);
    Advance(37, 326, 652);
    Advance(38, 652, 59);
    Advance(39, 59, 118);
    Advance(40, 118, 236);
    Advance(41, 236, 472);
  }

  lemma PowersTo42Nexts()
    ensures Next(1008) == 707 && Next(707) == 165 && Next(165) == 330 && Next(330) == 660
    ensures Next(660) == 11 && Next(11) == 22 && Next(22) == 44 && Next(44) == 88
    ensures Next(88) == 176 && Next(176) == 352 && Next(352) == 704 && Next(704) == 163
    ensures Next(163) == 326 && Next(326) == 652 && Next(652) == 59 && Next(59) == 118
    ensures Next(118) == 236 && Next(236) == 472
  {
  }

  // ----- the order of the generator

  lemma TimesThirtyOne(x: bv32)
    requires Element(x)
    ensures Times(31, x) == Ten(x, 44, 88, 176, 352, 704, 163, 326, 652, 59, 118)
  {
    hide Next; hide Times; hide Ten;
    PowersTo42();
    TimesIsTen(31, x, 44, 88, 176, 352, 704, 163, 326, 652, 59, 118);
  }

  lemma TimesThirtyThree(x: bv32)
    requires Element(x)
    ensures Times(33, x) == Ten(x, 176, 352, 704, 163, 326, 652, 59, 118, 236, 472)
  {
    hide Next; hide Times; hide Ten;
    PowersTo42();
    TimesIsTen(33, x, 176, 352, 704, 163, 326, 652, 59, 118, 236, 472);
  }

  lemma Power93()
    ensures Times(93, 1) == 874
  {
    hide Next; hide Times; hide Ten;
    PowersTo42();
    TimesAdd(31, 31, 1);
    TimesAdd(31, 62, 1);
    TimesThirtyOne(44);
    TimesThirtyOne(371);
    TensOf93();
  }

  lemma TensOf93()
    ensures Ten(44, 44, 88, 176, 352, 704, 163, 326, 652, 59, 118) == 371
    ensures Ten(371, 44, 88, 176, 352, 704, 163, 326, 652, 59, 118) == 874
  {
    hide Five; hide Xor; hide DownFive;
    TensOf93Parts();
  }

  lemma TensOf93Parts()
    ensures Five(44, 44, 88, 176, 352, 704) == 464 && Five(1, 163, 326, 652, 59, 118) == 163
    ensures Xor(464, 163) == 371 && DownFive(44) == 1
    ensures Five(371, 44, 88, 176, 352, 704) == 692 && Five(11, 163, 326, 652, 59, 118) == 478
    ensures Xor(692, 478) == 874 && DownFive(371) == 11
  {
    hide Five;
    Picks(44, 44, 88, 176, 352, 704, false, false, true, true, false);
    Picks(1, 163, 326, 652, 59, 118, true, false, false, false, false);
    Picks(371, 44, 88, 176, 352, 704, true, true, false, false, true);
    Picks(11, 163, 326, 652, 59, 118, true, true, false, true, false);
  }

  lemma PowersTo102()
    ensures Times(93, 1) == 874 && Times(94, 1) == 1015 && Times(95, 1) == 717 && Times(96, 1) == 185
    ensures Times(97, 1) == 370 && Times(98, 1) == 740 && Times(99, 1) == 235 && Times(100, 1) == 470
    ensures Times(101, 1) == 940 && Times(102, 1) == 635
  {
    hide Next; hide Times;
    Power93();
    PowersTo102Nexts();
    Advance(93, 874, 1015);
    Advance(94, 1015, 717);
    Advance(95, 717, 185);
    Advance(96, 185, 370);
    Advance(97, 370, 740);
    Advance(98, 740, 235);
    Advance(99, 235, 470);
    Advance(100, 470, 940);
    Advance(101, 940, 635);
  }

  lemma PowersTo102Nexts()
    ensures Next(874) == 1015 && Next(1015) == 717 && Next(717) == 185 && Next(185) == 370
    ensures Next(370) == 740 && Next(740) == 235 && Next(235) == 470 && Next(470) == 940
    ensures Next(940) == 635
  {
  }

  lemma TimesNinetyThree(x: bv32)
    requires Element(x)
    ensures Times(93, x) == Ten(x, 874, 1015, 717, 185, 370, 740, 235, 470, 940, 635)
  {
    hide Next; hide Times; hide Ten;
    PowersTo102();
    TimesIsTen(93, x, 874, 1015, 717, 185, 370, 740, 235, 470, 940, 635);
  }

  lemma Power341()
    ensures Times(341, 1) == 54
  {
    hide Next; hide Times; hide Ten;
    PowersTo102();
    TimesAdd(93, 93, 1);
    TimesAdd(93, 186, 1);
    TimesAdd(31, 279, 1);
    TimesAdd(31, 310, 1);
    TimesNinetyThree(874);
    TimesNinetyThree(150);
    TimesThirtyOne(414);
    TimesThirtyOne(511);
    TensOf341();
  }

  lemma TensOf341()
    ensures Ten(874, 874, 1015, 717, 185, 370, 740, 235, 470, 940, 635) == 150
    ensures Ten(150, 874, 1015, 717, 185, 370, 740, 235, 470, 940, 635) == 414
    ensures Ten(414, 44, 88, 176, 352, 704, 163, 326, 652, 59, 118) == 511
    ensures Ten(511, 44, 88, 176, 352, 704, 163, 326, 652, 59, 118) == 54
  {
    hide Five; hide Xor; hide DownFive;
    TensOf341Parts();
  }

  lemma TensOf341Parts()
    ensures Five(874, 874, 1015, 717, 185, 370) == 846 && Five(27, 740, 235, 470, 940, 635) == 984
    ensures Xor(846, 984) == 150 && DownFive(874) == 27
    ensures Five(150, 874, 1015, 717, 185, 370) == 72 && Five(4, 740, 235, 470, 940, 635) == 470
    ensures Xor(72, 470) == 414 && DownFive(150) == 4
    ensures Five(414, 44, 88, 176, 352, 704) == 840 && Five(12, 163, 326, 652, 59, 118) == 695
    ensures Xor(840, 695) == 511 && DownFive(414) == 12
    ensures Five(511, 44, 88, 176, 352, 704) == 868 && Five(15, 163, 326, 652, 59, 118) == 850
    ensures Xor(868, 850) == 54 && DownFive(511) == 15
  {
    hide Five;
    Picks(874, 874, 1015, 717, 185, 370, false, true, false, true, false);
    Picks(27, 740, 235, 470, 940, 635, true, true, false, true, true);
    Picks(150, 874, 1015, 717, 185, 370, false, true, true, false, true);
    Picks(4, 740, 235, 470, 940, 635, false, false, true, false, false);
    Picks(414, 44, 88, 176, 352, 704, false, true, true, true, true);
    Picks(12, 163, 326, 652, 59, 118, false, false, true, true, false);
    Picks(511, 44, 88, 176, 352, 704, true, true, true, true, true);
    Picks(15, 163, 326, 652, 59, 118, true, true, true, true, false);
  }

  lemma PowersTo350()
    ensures Times(341, 1) == 54 && Times(342, 1) == 108 && Times(343, 1) == 216 && Times(344, 1) == 432
    ensures Times(345, 1) == 864 && Times(346, 1) == 995 && Times(347, 1) == 741 && Times(348, 1) == 233
    ensures Times(349, 1) == 466 && Times(350, 1) == 932
  {
    hide Next; hide Times;
    Power341();
    PowersTo350Nexts();
    Advance(341, 54, 108);
    Advance(342, 108, 216);
    Advance(343, 216, 432);
    Advance(344, 432, 864);
    Advance(345, 864, 995);
    Advance(346, 995, 741);
    Advance(347, 741, 233);
    Advance(348, 233, 466);
    Advance(349, 466, 932);
  }

  lemma PowersTo350Nexts()
    ensures Next(54) == 108 && Next(108) == 216 && Next(216) == 432 && Next(432) == 864
    ensures Next(864) == 995 && Next(995) == 741 && Next(741) == 233 && Next(233) == 466
    ensures Next(466) == 932
  {
  }

  lemma TimesThird(x: bv32)
    requires Element(x)
    ensures Times(341, x) == Ten(x, 54, 108, 216, 432, 864, 995, 741, 233, 466, 932)
  {
    hide Next; hide Times; hide Ten;
    PowersTo350();
    TimesIsTen(341, x, 54, 108, 216, 432, 864, 995, 741, 233, 466, 932);
  }

  lemma Power1023()
    ensures Times(1023, 1) == 1
  {
    hide Next; hide Times; hide Ten;
    PowersTo350();
    TimesAdd(341, 341, 1);
    TimesAdd(341, 682, 1);
    TimesThird(54);
    TimesThird(55);
    TensOf1023();
  }

  lemma TensOf1023()
    ensures Ten(54, 54, 108, 216, 432, 864, 995, 741, 233, 466, 932) == 55
    ensures Ten(55, 54, 108, 216, 432, 864, 995, 741, 233, 466, 932) == 1
  {
    hide Five; hide Xor; hide DownFive;
    TensOf1023Parts();
  }

  lemma TensOf1023Parts()
    ensures Five(54, 54, 108, 216, 432, 864) == 980 && Five(1, 995, 741, 233, 466, 932) == 995
    ensures Xor(980, 995) == 55 && DownFive(54) == 1
    ensures Five(55, 54, 108, 216, 432, 864) == 994 && Five(1, 995, 741, 233, 466, 932) == 995
    ensures Xor(994, 995) == 1 && DownFive(55) == 1
  {
    hide Five;
    Picks(54, 54, 108, 216, 432, 864, false, true, true, false, true);
    Picks(1, 995, 741, 233, 466, 932, true, false, false, false, false);
    Picks(55, 54, 108, 216, 432, 864, true, true, true, false, true);
  }

  ghost predicate Period(n: nat, x: bv32) { Times(n, x) == x }

  /** The 1023rd power of the generator is one. */
  lemma FullPeriod(x: bv32)
    requires Element(x)
    ensures Period(1023, x)
  {
    hide Next; hide Times; hide Ten;
    Power1023();
    BitsArePowers();
    TimesAdd(1, 1023, 1);
    TimesAdd(2, 1023, 1);
    TimesAdd(3, 1023, 1);
    TimesAdd(4, 1023, 1);
    TimesAdd(5, 1023, 1);
    TimesAdd(6, 1023, 1);
    TimesAdd(7, 1023, 1);
    TimesAdd(8, 1023, 1);
    TimesAdd(9, 1023, 1);
    TimesIsTen(1023, x, 1, 2, 4, 8, 16, 32, 64, 128, 256, 512);
    TimesIsTen(0, x, 1, 2, 4, 8, 16, 32, 64, 128, 256, 512);
    TimesNone(x);
  }

  lemma TimesNone(x: bv32)
    ensures Times(0, x) == x
  {
  }

  lemma {:induction false} PeriodMultiple(k: nat, n: nat, x: bv32)
    requires Period(n, x)
    ensures Period(k * n, x)
  {
    hide Times;
    if k == 0 {
      TimesNone(x);
    } else {
      PeriodMultiple(k - 1, n, x);
      assert k * n == n + (k - 1) * n;
      TimesAdd(n, (k - 1) * n, x);
    }
  }

  lemma SumElement(x: bv32, y: bv32)
    requires Element(x) && Element(y)
    ensures Element(Xor(x, y))
  {
  }

  /** Multiplying by a power is injective. */
  lemma TimesInjective(n: nat, x: bv32, y: bv32)
    requires Element(x) && Element(y) && Times(n, x) == Times(n, y)
    ensures x == y
  {
    hide Times; hide Xor; hide Element;
    SumElement(x, y);
    TimesLinear(n, x, y);
    XorZero(Times(n, x), Times(n, y));
    TimesElement(n, Xor(x, y));
    XorZero(x, y);
  }

  lemma PeriodLess(m: nat, n: nat, x: bv32)
    requires Element(x) && m <= n && Period(m, x) && Period(n, x)
    ensures Period(n - m, x)
  {
    hide Times; hide Element;
    TimesAdd(m, n - m, x);
    TimesElement(n - m, x);
    TimesInjective(m, Times(n - m, x), x);
  }

  lemma Fixed33(x: bv32)
    requires Element(x) && Ten(x, 176, 352, 704, 163, 326, 652, 59, 118, 236, 472) == x
    ensures x == 0
  {
  }

  lemma Fixed93(x: bv32)
    requires Element(x) && Ten(x, 874, 1015, 717, 185, 370, 740, 235, 470, 940, 635) == x
    ensures x == 0
  {
  }

  lemma Fixed341(x: bv32)
    requires Element(x) && Ten(x, 54, 108, 216, 432, 864, 995, 741, 233, 466, 932) == x
    ensures x == 0
  {
  }

  /** Powers to the orders 1023 / 31, 1023 / 11 and 1023 / 3 move everything but zero. */
  lemma ProperPeriods(x: bv32)
    requires Element(x) && (Period(33, x) || Period(93, x) || Period(341, x))
    ensures x == 0
  {
    hide Times; hide Ten; hide Element;
    TimesThirtyThree(x);
    TimesNinetyThree(x);
    TimesThird(x);
    if Period(33, x) { Fixed33(x); } else if Period(93, x) { Fixed93(x); } else { Fixed341(x); }
  }

  // ----- every smaller power moves everything but zero

  /** An inverse modulo one of the prime factors of 1023. */
  lemma Inverse(p: nat, r: nat) returns (s: nat, t: nat)
    requires p == 3 || p == 11 || p == 31
    requires 0 < r < p
    ensures r * s == p * t + 1
  {
    if p == 3 {
      s, t := InverseBy3(r);
    } else if p == 11 {
      s, t := InverseBy11(r);
    } else {
      s, t := InverseBy31(r);
    }
  }

  lemma InverseBy3(r: nat) returns (s: nat, t: nat)
    requires 0 < r < 3
    ensures r * s == 3 * t + 1
  {
    match r
    case 1 => s, t := 1, 0;
    case 2 => s, t := 2, 1;
  }

  lemma InverseBy11(r: nat) returns (s: nat, t: nat)
    requires 0 < r < 11
    ensures r * s == 11 * t + 1
  {
    match r
    case 1 => s, t := 1, 0;
    case 2 => s, t := 6, 1;
    case 3 => s, t := 4, 1;
    case 4 => s, t := 3, 1;
    case 5 => s, t := 9, 4;
    case 6 => s, t := 2, 1;
    case 7 => s, t := 8, 5;
    case 8 => s, t := 7, 5;
    case 9 => s, t := 5, 4;
    case 10 => s, t := 10, 9;
  }

  lemma InverseBy31(r: nat) returns (s: nat, t: nat)
    requires 0 < r < 31
    ensures r * s == 31 * t + 1
  {
    match r
    case 1 => s, t := 1, 0;
    case 2 => s, t := 16, 1;
    case 3 => s, t := 21, 2;
    case 4 => s, t := 8, 1;
    case 5 => s, t := 25, 4;
    case 6 => s, t := 26, 5;
    case 7 => s, t := 9, 2;
    case 8 => s, t := 4, 1;
    case 9 => s, t := 7, 2;
    case 10 => s, t := 28, 9;
    case 11 => s, t := 17, 6;
    case 12 => s, t := 13, 5;
    case 13 => s, t := 12, 5;
    case 14 => s, t := 20, 9;
    case 15 => s, t := 29, 14;
    case 16 => s, t := 2, 1;
    case 17 => s, t := 11, 6;
    case 18 => s, t := 19, 11;
    case 19 => s, t := 18, 11;
    case 20 => s, t := 14, 9;
    case 21 => s, t := 3, 2;
    case 22 => s, t := 24, 17;
    case 23 => s, t := 27, 20;
    case 24 => s, t := 22, 17;
    case 25 => s, t := 5, 4;
    case 26 => s, t := 6, 5;
    case 27 => s, t := 23, 20;
    case 28 => s, t := 10, 9;
    case 29 => s, t := 15, 14;
    case 30 => s, t := 30, 29;
  }

  /** A period that is not a multiple of the prime factor p makes 1023 / p a period. */
  lemma PeriodReaches(p: nat, q: nat, n: nat, x: bv32)
    requires (p == 3 && q == 341) || (p == 11 && q == 93) || (p == 31 && q == 33)
    requires Element(x) && Period(n, x) && n % p != 0
    ensures Period(q, x)
  {
    hide Times; hide Element; hide Period;
    FullPeriod(x);
    var s, t := Inverse(p, n % p);
    // n times s is one more than a multiple of p
    var m := s * (n / p) + t;
    assert n * s == p * m + 1 by { Rearranged(n, p, s, t); }
    PeriodMultiple(q * s, n, x);
    PeriodMultiple(m, 1023, x);
    assert (q * s) * n == m * 1023 + q by { Scaled(p, q, n, s, m); }
    PeriodLess(m * 1023, (q * s) * n, x);
  }

  lemma Rearranged(n: nat, p: nat, s: nat, t: nat)
    requires p > 0 && (n % p) * s == p * t + 1
    ensures n * s == p * (s * (n / p) + t) + 1
  {
    assert n == p * (n / p) + n % p;
    assert n * s == p * (n / p) * s + (n % p) * s;
  }

  lemma Scaled(p: nat, q: nat, n: nat, s: nat, m: nat)
    requires p * q == 1023 && n * s == p * m + 1
    ensures (q * s) * n == m * 1023 + q
  {
    assert (q * s) * n == q * (n * s);
    assert q * (p * m + 1) == (p * q) * m + q;
  }

  /** No power of the generator below the 1023rd fixes anything but zero. */
  lemma NoPeriod(n: nat, x: bv32)
    requires 0 < n < 1023 && Element(x) && Period(n, x)
    ensures x == 0
  {
    hide Times; hide Element; hide Period;
    if n % 3 != 0 {
      PeriodReaches(3, 341, n, x);
    } else if n % 11 != 0 {
      PeriodReaches(11, 93, n, x);
    } else {
      assert n % 31 != 0;
      PeriodReaches(31, 33, n, x);
    }
    ProperPeriods(x);
  }
}
