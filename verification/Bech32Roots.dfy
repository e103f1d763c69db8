/** Three consecutive powers of a generator of the field of 1024 elements are roots of the Bech32 polynomial. */
module Bech32Roots {
  import opened Bech32Checksum
  import opened Bech32Field

  // ----- GF(32) in the larger field

  /** The image of a five-bit value: a goes to a root of a^5 + a^3 + 1. */
  function Embed(v: bv32): bv32 { Five(v, 1, 14, 84, 856, 191) }

  lemma EmbedLinear(v: bv32, w: bv32)
    ensures Embed(Xor(v, w)) == Xor(Embed(v), Embed(w))
  {
    hide Xor; hide Five;
    FiveLinear(v, w, 1, 14, 84, 856, 191);
  }

  lemma EmbedElement(v: bv32)
    requires Small(v)
    ensures Element(Embed(v)) && (Embed(v) == 0 <==> v == 0)
  {
  }

  lemma ProductLinear(x: bv32, y: bv32, z: bv32)
    ensures Product(x, Xor(y, z)) == Xor(Product(x, y), Product(x, z))
  {
    hide Xor; hide TimesA;
    var x1 := TimesA(x);
    var x2 := TimesA(x1);
    var x3 := TimesA(x2);
    FiveLinear(y, z, x, x1, x2, x3, TimesA(x3));
  }

  // ----- values of polynomials

  /** The value of a polynomial of degree five at the j-th power of the generator. */
  function At(j: nat, e0: bv32, e1: bv32, e2: bv32, e3: bv32, e4: bv32, e5: bv32): bv32 {
    Xor(e0, Times(j, Xor(e1, Times(j, Xor(e2, Times(j, Xor(e3, Times(j, Xor(e4, Times(j, e5))))))))))
  }

  lemma HornerLinear(j: nat, a: bv32, b: bv32, x: bv32, y: bv32)
    ensures Xor(Xor(a, b), Times(j, Xor(x, y))) == Xor(Xor(a, Times(j, x)), Xor(b, Times(j, y)))
  {
    hide Xor; hide Times;
    TimesLinear(j, x, y);
    XorPairs(a, b, Times(j, x), Times(j, y));
  }

  lemma AtLinear(j: nat, a0: bv32, a1: bv32, a2: bv32, a3: bv32, a4: bv32, a5: bv32,
                 b0: bv32, b1: bv32, b2: bv32, b3: bv32, b4: bv32, b5: bv32)
    ensures At(j, Xor(a0, b0), Xor(a1, b1), Xor(a2, b2), Xor(a3, b3), Xor(a4, b4), Xor(a5, b5))
      == Xor(At(j, a0, a1, a2, a3, a4, a5), At(j, b0, b1, b2, b3, b4, b5))
  {
    hide Xor; hide Times;
    HornerLinear(j, a4, b4, a5, b5);
    var a, b := Xor(a4, Times(j, a5)), Xor(b4, Times(j, b5));
    HornerLinear(j, a3, b3, a, b);
    var c, d := Xor(a3, Times(j, a)), Xor(b3, Times(j, b));
    HornerLinear(j, a2, b2, c, d);
    var e, f := Xor(a2, Times(j, c)), Xor(b2, Times(j, d));
    HornerLinear(j, a1, b1, e, f);
    HornerLinear(j, a0, b0, Xor(a1, Times(j, e)), Xor(b1, Times(j, f)));
  }

  /** The value of the generator without its leading term, times a value of GF(32). */
  function Fed(j: nat, y: bv32): bv32 {
    At(j, Embed(Product(18, y)), Embed(Product(29, y)), Embed(Product(21, y)), Embed(Product(20, y)),
       Embed(Product(22, y)), Embed(Product(29, y)))
  }

  /** The sixth power of the point, times a value of GF(32). */
  function Leading(j: nat, y: bv32): bv32 { Times(j, At(j, 0, 0, 0, 0, 0, Embed(y))) }

  lemma FedLinear(j: nat, y: bv32, z: bv32)
    ensures Fed(j, Xor(y, z)) == Xor(Fed(j, y), Fed(j, z))
  {
    hide Xor; hide Product; hide Embed; hide At;
    ProductEmbedded(18, y, z);
    ProductEmbedded(29, y, z);
    ProductEmbedded(21, y, z);
    ProductEmbedded(20, y, z);
    ProductEmbedded(22, y, z);
    AtLinear(j, Embed(Product(18, y)), Embed(Product(29, y)), Embed(Product(21, y)), Embed(Product(20, y)),
             Embed(Product(22, y)), Embed(Product(29, y)), Embed(Product(18, z)), Embed(Product(29, z)),
             Embed(Product(21, z)), Embed(Product(20, z)), Embed(Product(22, z)), Embed(Product(29, z)));
  }

  lemma ProductEmbedded(x: bv32, y: bv32, z: bv32)
    ensures Embed(Product(x, Xor(y, z))) == Xor(Embed(Product(x, y)), Embed(Product(x, z)))
  {
    hide Xor; hide Product; hide Embed;
    ProductLinear(x, y, z);
    EmbedLinear(Product(x, y), Product(x, z));
  }

  lemma LeadingLinear(j: nat, y: bv32, z: bv32)
    ensures Leading(j, Xor(y, z)) == Xor(Leading(j, y), Leading(j, z))
  {
    hide Xor; hide Embed; hide At; hide Times;
    EmbedLinear(y, z);
    XorWith(0);
    AtLinear(j, 0, 0, 0, 0, 0, Embed(y), 0, 0, 0, 0, 0, Embed(z));
    TimesLinear(j, At(j, 0, 0, 0, 0, 0, Embed(y)), At(j, 0, 0, 0, 0, 0, Embed(z)));
  }

  // ----- times a

  /** Multiplication by the image of a. */
  function Theta(x: bv32): bv32 { Ten(x, 14, 28, 56, 112, 224, 448, 896, 547, 357, 714) }

  lemma ThetaLinear(x: bv32, y: bv32)
    ensures Theta(Xor(x, y)) == Xor(Theta(x), Theta(y))
  {
    hide Xor; hide Ten;
    TenLinear(x, y, 14, 28, 56, 112, 224, 448, 896, 547, 357, 714);
  }

  function ThetaOfNext(x: bv32): bv32 { Theta(Next(x)) }
  function NextOfTheta(x: bv32): bv32 { Next(Theta(x)) }

  lemma ThetaOfNextAdditive()
    ensures Additive(ThetaOfNext)
  {
    hide Xor; hide Theta; hide Next;
    forall x, y ensures Adds(ThetaOfNext, x, y) {
      NextLinear(x, y);
      ThetaLinear(Next(x), Next(y));
    }
  }

  lemma NextOfThetaAdditive()
    ensures Additive(NextOfTheta)
  {
    hide Xor; hide Theta; hide Next;
    forall x, y ensures Adds(NextOfTheta, x, y) {
      ThetaLinear(x, y);
      NextLinear(Theta(x), Theta(y));
    }
  }

  /** It commutes with multiplication by the generator. */
  lemma ThetaNext(x: bv32)
    requires Element(x)
    ensures ThetaOfNext(x) == NextOfTheta(x)
  {
    hide ThetaOfNext; hide NextOfTheta; hide Element; hide Additive;
    ThetaOfNextAdditive();
    NextOfThetaAdditive();
    ThetaNextLow();
    ThetaNextHigh();
    SameOnTen(ThetaOfNext, NextOfTheta, x);
  }

  lemma ThetaNextLow()
    ensures ThetaOfNext(1) == NextOfTheta(1)
    ensures ThetaOfNext(2) == NextOfTheta(2)
    ensures ThetaOfNext(4) == NextOfTheta(4)
    ensures ThetaOfNext(8) == NextOfTheta(8)
    ensures ThetaOfNext(16) == NextOfTheta(16)
  {
  }

  lemma ThetaNextHigh()
    ensures ThetaOfNext(32) == NextOfTheta(32)
    ensures ThetaOfNext(64) == NextOfTheta(64)
    ensures ThetaOfNext(128) == NextOfTheta(128)
    ensures ThetaOfNext(256) == NextOfTheta(256)
    ensures ThetaOfNext(512) == NextOfTheta(512)
  {
  }

  lemma {:induction false} ThetaTimes(n: nat, x: bv32)
    requires Element(x)
    ensures Theta(Times(n, x)) == Times(n, Theta(x))
  {
    hide Theta; hide Next; hide Element;
    if n > 0 {
      ThetaTimes(n - 1, x);
      TimesElement(n - 1, x);
      ThetaNext(Times(n - 1, x));
    }
  }

  /** It is the image of multiplication by a. */
  lemma EmbedTheta(v: bv32)
    requires Small(v)
    ensures Embed(TimesA(v)) == Theta(Embed(v)) && Small(TimesA(v))
  {
    hide Five; hide Theta; hide Additive;
    ThetaAdditive();
    FiveImage(Theta, v, 1, 14, 84, 856, 191);
    ThetaImages();
    EmbedTimesA(v);
  }

  lemma ThetaAdditive()
    ensures Additive(Theta)
  {
    hide Xor; hide Theta;
    forall x, y ensures Adds(Theta, x, y) { ThetaLinear(x, y); }
  }

  lemma ThetaImages()
    ensures Theta(1) == 14 && Theta(14) == 84 && Theta(84) == 856 && Theta(856) == 191 && Theta(191) == 857
  {
  }

  lemma EmbedTimesA(v: bv32)
    requires Small(v)
    ensures Five(TimesA(v), 1, 14, 84, 856, 191) == Five(v, 14, 84, 856, 191, 857) && Small(TimesA(v))
  {
  }

  lemma Times24(x: bv32)
    requires Element(x)
    ensures Times(24, x) == Ten(x, 1008, 707, 165, 330, 660, 11, 22, 44, 88, 176)
  {
    hide Next; hide Times; hide Ten;
    PowersTo42();
    TimesIsTen(24, x, 1008, 707, 165, 330, 660, 11, 22, 44, 88, 176);
  }

  lemma Times25(x: bv32)
    requires Element(x)
    ensures Times(25, x) == Ten(x, 707, 165, 330, 660, 11, 22, 44, 88, 176, 352)
  {
    hide Next; hide Times; hide Ten;
    PowersTo42();
    TimesIsTen(25, x, 707, 165, 330, 660, 11, 22, 44, 88, 176, 352);
  }

  lemma Times26(x: bv32)
    requires Element(x)
    ensures Times(26, x) == Ten(x, 165, 330, 660, 11, 22, 44, 88, 176, 352, 704)
  {
    hide Next; hide Times; hide Ten;
    PowersTo42();
    TimesIsTen(26, x, 165, 330, 660, 11, 22, 44, 88, 176, 352, 704);
  }

  // ----- three roots of the generator

  lemma Root24()
    ensures Fed(24, 1) == Leading(24, 1)
  {
    hide Times; hide Ten; hide Xor; hide Product; hide Embed;
    EmbeddedGenerator();
    Sums24();
    Tens24A();
    Tens24B();
    Tens24C();
    Tens24D();
    Times24(946);
    Times24(125);
    Times24(124);
    Times24(212);
    Times24(1);
    Times24(1008);
    Times24(589);
    Times24(697);
    Times24(185);
    Times24(9);
  }

  lemma Tens24A()
    ensures Ten(946, 1008, 707, 165, 330, 660, 11, 22, 44, 88, 176) == 152
    ensures Ten(125, 1008, 707, 165, 330, 660, 11, 22, 44, 88, 176) == 150
    ensures Ten(124, 1008, 707, 165, 330, 660, 11, 22, 44, 88, 176) == 870
  {
    hide Five; hide Xor; hide DownFive;
    Tens24AParts();
  }

  lemma Tens24AParts()
    ensures Five(946, 1008, 707, 165, 330, 660) == 87 && Five(29, 11, 22, 44, 88, 176) == 207
    ensures Xor(87, 207) == 152 && DownFive(946) == 29
    ensures Five(125, 1008, 707, 165, 330, 660) == 139 && Five(3, 11, 22, 44, 88, 176) == 29
    ensures Xor(139, 29) == 150 && DownFive(125) == 3
    ensures Five(124, 1008, 707, 165, 330, 660) == 891 && Five(3, 11, 22, 44, 88, 176) == 29
    ensures Xor(891, 29) == 870 && DownFive(124) == 3
  {
    hide Five;
    Picks(946, 1008, 707, 165, 330, 660, false, true, false, false, true);
    Picks(29, 11, 22, 44, 88, 176, true, false, true, true, true);
    Picks(125, 1008, 707, 165, 330, 660, true, false, true, true, true);
    Picks(3, 11, 22, 44, 88, 176, true, true, false, false, false);
    Picks(124, 1008, 707, 165, 330, 660, false, false, true, true, true);
  }

  lemma Tens24B()
    ensures Ten(212, 1008, 707, 165, 330, 660, 11, 22, 44, 88, 176) == 523
    ensures Ten(1, 1008, 707, 165, 330, 660, 11, 22, 44, 88, 176) == 1008
    ensures Ten(1008, 1008, 707, 165, 330, 660, 11, 22, 44, 88, 176) == 589
  {
    hide Five; hide Xor; hide DownFive;
    Tens24BParts();
  }

  lemma Tens24BParts()
    ensures Five(212, 1008, 707, 165, 330, 660) == 561 && Five(6, 11, 22, 44, 88, 176) == 58
    ensures Xor(561, 58) == 523 && DownFive(212) == 6
    ensures Five(1, 1008, 707, 165, 330, 660) == 1008 && Five(0, 11, 22, 44, 88, 176) == 0
    ensures Xor(1008, 0) == 1008 && DownFive(1) == 0
    ensures Five(1008, 1008, 707, 165, 330, 660) == 660 && Five(31, 11, 22, 44, 88, 176) == 217
    ensures Xor(660, 217) == 589 && DownFive(1008) == 31
  {
    hide Five;
    Picks(212, 1008, 707, 165, 330, 660, false, false, true, false, true);
    Picks(6, 11, 22, 44, 88, 176, false, true, true, false, false);
    Picks(1, 1008, 707, 165, 330, 660, true, false, false, false, false);
    Picks(0, 11, 22, 44, 88, 176, false, false, false, false, false);
    Picks(1008, 1008, 707, 165, 330, 660, false, false, false, false, true);
    Picks(31, 11, 22, 44, 88, 176, true, true, true, true, true);
  }

  lemma Tens24C()
    ensures Ten(589, 1008, 707, 165, 330, 660, 11, 22, 44, 88, 176) == 697
    ensures Ten(697, 1008, 707, 165, 330, 660, 11, 22, 44, 88, 176) == 185
    ensures Ten(185, 1008, 707, 165, 330, 660, 11, 22, 44, 88, 176) == 9
  {
    hide Five; hide Xor; hide DownFive;
    Tens24CParts();
  }

  lemma Tens24CParts()
    ensures Five(589, 1008, 707, 165, 330, 660) == 543 && Five(18, 11, 22, 44, 88, 176) == 166
    ensures Xor(543, 166) == 697 && DownFive(589) == 18
    ensures Five(697, 1008, 707, 165, 330, 660) == 46 && Five(21, 11, 22, 44, 88, 176) == 151
    ensures Xor(46, 151) == 185 && DownFive(697) == 21
    ensures Five(185, 1008, 707, 165, 330, 660) == 46 && Five(5, 11, 22, 44, 88, 176) == 39
    ensures Xor(46, 39) == 9 && DownFive(185) == 5
  {
    hide Five;
    Picks(589, 1008, 707, 165, 330, 660, true, false, true, true, false);
    Picks(18, 11, 22, 44, 88, 176, false, true, false, false, true);
    Picks(697, 1008, 707, 165, 330, 660, true, false, false, true, true);
    Picks(21, 11, 22, 44, 88, 176, true, false, true, false, true);
    Picks(185, 1008, 707, 165, 330, 660, true, false, false, true, true);
    Picks(5, 11, 22, 44, 88, 176, true, false, true, false, false);
  }

  lemma Tens24D()
    ensures Ten(9, 1008, 707, 165, 330, 660, 11, 22, 44, 88, 176) == 698
  {
    hide Five; hide Xor; hide DownFive;
    Tens24DParts();
  }

  lemma Tens24DParts()
    ensures Five(9, 1008, 707, 165, 330, 660) == 698 && Five(0, 11, 22, 44, 88, 176) == 0
    ensures Xor(698, 0) == 698 && DownFive(9) == 0
  {
    hide Five;
    Picks(9, 1008, 707, 165, 330, 660, true, false, false, true, false);
    Picks(0, 11, 22, 44, 88, 176, false, false, false, false, false);
  }

  lemma Sums24()
    ensures Xor(229, 152) == 125 && Xor(235, 150) == 125 && Xor(234, 150) == 124
    ensures Xor(946, 870) == 212 && Xor(177, 523) == 698
    ensures Xor(0, 1008) == 1008 && Xor(0, 589) == 589 && Xor(0, 697) == 697
    ensures Xor(0, 185) == 185 && Xor(0, 9) == 9 && Xor(0, 698) == 698
  {
  }

  lemma Root25()
    ensures Fed(25, 1) == Leading(25, 1)
  {
    hide Times; hide Ten; hide Xor; hide Product; hide Embed;
    EmbeddedGenerator();
    Sums25();
    Tens25A();
    Tens25B();
    Tens25C();
    Tens25D();
    Times25(946);
    Times25(469);
    Times25(941);
    Times25(105);
    Times25(991);
    Times25(1);
    Times25(707);
    Times25(882);
    Times25(324);
    Times25(470);
    Times25(288);
  }

  lemma Tens25A()
    ensures Ten(946, 707, 165, 330, 660, 11, 22, 44, 88, 176, 352) == 304
    ensures Ten(469, 707, 165, 330, 660, 11, 22, 44, 88, 176, 352) == 838
    ensures Ten(941, 707, 165, 330, 660, 11, 22, 44, 88, 176, 352) == 131
  {
    hide Five; hide Xor; hide DownFive;
    Tens25AParts();
  }

  lemma Tens25AParts()
    ensures Five(946, 707, 165, 330, 660, 11) == 174 && Five(29, 22, 44, 88, 176, 352) == 414
    ensures Xor(174, 414) == 304 && DownFive(946) == 29
    ensures Five(469, 707, 165, 330, 660, 11) == 898 && Five(14, 22, 44, 88, 176, 352) == 196
    ensures Xor(898, 196) == 838 && DownFive(469) == 14
    ensures Five(941, 707, 165, 330, 660, 11) == 285 && Five(29, 22, 44, 88, 176, 352) == 414
    ensures Xor(285, 414) == 131 && DownFive(941) == 29
  {
    hide Five;
    Picks(946, 707, 165, 330, 660, 11, false, true, false, false, true);
    Picks(29, 22, 44, 88, 176, 352, true, false, true, true, true);
    Picks(469, 707, 165, 330, 660, 11, true, false, true, false, true);
    Picks(14, 22, 44, 88, 176, 352, false, true, true, true, false);
    Picks(941, 707, 165, 330, 660, 11, true, false, true, true, false);
  }

  lemma Tens25B()
    ensures Ten(105, 707, 165, 330, 660, 11, 22, 44, 88, 176, 352) == 109
    ensures Ten(991, 707, 165, 330, 660, 11, 22, 44, 88, 176, 352) == 23
    ensures Ten(1, 707, 165, 330, 660, 11, 22, 44, 88, 176, 352) == 707
  {
    hide Five; hide Xor; hide DownFive;
    Tens25BParts();
  }

  lemma Tens25BParts()
    ensures Five(105, 707, 165, 330, 660, 11) == 87 && Five(3, 22, 44, 88, 176, 352) == 58
    ensures Xor(87, 58) == 109 && DownFive(105) == 3
    ensures Five(991, 707, 165, 330, 660, 11) == 435 && Five(30, 22, 44, 88, 176, 352) == 420
    ensures Xor(435, 420) == 23 && DownFive(991) == 30
    ensures Five(1, 707, 165, 330, 660, 11) == 707 && Five(0, 22, 44, 88, 176, 352) == 0
    ensures Xor(707, 0) == 707 && DownFive(1) == 0
  {
    hide Five;
    Picks(105, 707, 165, 330, 660, 11, true, false, false, true, false);
    Picks(3, 22, 44, 88, 176, 352, true, true, false, false, false);
    Picks(991, 707, 165, 330, 660, 11, true, true, true, true, true);
    Picks(30, 22, 44, 88, 176, 352, false, true, true, true, true);
    Picks(1, 707, 165, 330, 660, 11, true, false, false, false, false);
    Picks(0, 22, 44, 88, 176, 352, false, false, false, false, false);
  }

  lemma Tens25C()
    ensures Ten(707, 707, 165, 330, 660, 11, 22, 44, 88, 176, 352) == 882
    ensures Ten(882, 707, 165, 330, 660, 11, 22, 44, 88, 176, 352) == 324
    ensures Ten(324, 707, 165, 330, 660, 11, 22, 44, 88, 176, 352) == 470
  {
    hide Five; hide Xor; hide DownFive;
    Tens25CParts();
  }

  lemma Tens25CParts()
    ensures Five(707, 707, 165, 330, 660, 11) == 614 && Five(22, 22, 44, 88, 176, 352) == 276
    ensures Xor(614, 276) == 882 && DownFive(707) == 22
    ensures Five(882, 707, 165, 330, 660, 11) == 174 && Five(27, 22, 44, 88, 176, 352) == 490
    ensures Xor(174, 490) == 324 && DownFive(882) == 27
    ensures Five(324, 707, 165, 330, 660, 11) == 330 && Five(10, 22, 44, 88, 176, 352) == 156
    ensures Xor(330, 156) == 470 && DownFive(324) == 10
  {
    hide Five;
    Picks(707, 707, 165, 330, 660, 11, true, true, false, false, false);
    Picks(22, 22, 44, 88, 176, 352, false, true, true, false, true);
    Picks(882, 707, 165, 330, 660, 11, false, true, false, false, true);
    Picks(27, 22, 44, 88, 176, 352, true, true, false, true, true);
    Picks(324, 707, 165, 330, 660, 11, false, false, true, false, false);
    Picks(10, 22, 44, 88, 176, 352, false, true, false, true, false);
  }

  lemma Tens25D()
    ensures Ten(470, 707, 165, 330, 660, 11, 22, 44, 88, 176, 352) == 288
    ensures Ten(288, 707, 165, 330, 660, 11, 22, 44, 88, 176, 352) == 166
  {
    hide Five; hide Xor; hide DownFive;
    Tens25DParts();
  }

  lemma Tens25DParts()
    ensures Five(470, 707, 165, 330, 660, 11) == 484 && Five(14, 22, 44, 88, 176, 352) == 196
    ensures Xor(484, 196) == 288 && DownFive(470) == 14
    ensures Five(288, 707, 165, 330, 660, 11) == 0 && Five(9, 22, 44, 88, 176, 352) == 166
    ensures Xor(0, 166) == 166 && DownFive(288) == 9
  {
    hide Five;
    Picks(470, 707, 165, 330, 660, 11, false, true, true, false, true);
    Picks(14, 22, 44, 88, 176, 352, false, true, true, true, false);
    Picks(288, 707, 165, 330, 660, 11, false, false, false, false, false);
    Picks(9, 22, 44, 88, 176, 352, true, false, false, true, false);
  }

  lemma Sums25()
    ensures Xor(229, 304) == 469 && Xor(235, 838) == 941 && Xor(234, 131) == 105
    ensures Xor(946, 109) == 991 && Xor(177, 23) == 166
    ensures Xor(0, 707) == 707 && Xor(0, 882) == 882 && Xor(0, 324) == 324
    ensures Xor(0, 470) == 470 && Xor(0, 288) == 288 && Xor(0, 166) == 166
  {
  }

  lemma Root26()
    ensures Fed(26, 1) == Leading(26, 1)
  {
    hide Times; hide Ten; hide Xor; hide Product; hide Embed;
    EmbeddedGenerator();
    Sums26();
    Tens26A();
    Tens26B();
    Tens26C();
    Tens26D();
    Times26(946);
    Times26(645);
    Times26(170);
    Times26(311);
    Times26(403);
    Times26(1);
    Times26(165);
    Times26(685);
    Times26(102);
    Times26(938);
    Times26(637);
  }

  lemma Tens26A()
    ensures Ten(946, 165, 330, 660, 11, 22, 44, 88, 176, 352, 704) == 608
    ensures Ten(645, 165, 330, 660, 11, 22, 44, 88, 176, 352, 704) == 65
    ensures Ten(170, 165, 330, 660, 11, 22, 44, 88, 176, 352, 704) == 477
  {
    hide Five; hide Xor; hide DownFive;
    Tens26AParts();
  }

  lemma Tens26AParts()
    ensures Five(946, 165, 330, 660, 11, 22) == 348 && Five(29, 44, 88, 176, 352, 704) == 828
    ensures Xor(348, 828) == 608 && DownFive(946) == 29
    ensures Five(645, 165, 330, 660, 11, 22) == 561 && Five(20, 44, 88, 176, 352, 704) == 624
    ensures Xor(561, 624) == 65 && DownFive(645) == 20
    ensures Five(170, 165, 330, 660, 11, 22) == 321 && Five(5, 44, 88, 176, 352, 704) == 156
    ensures Xor(321, 156) == 477 && DownFive(170) == 5
  {
    hide Five;
    Picks(946, 165, 330, 660, 11, 22, false, true, false, false, true);
    Picks(29, 44, 88, 176, 352, 704, true, false, true, true, true);
    Picks(645, 165, 330, 660, 11, 22, true, false, true, false, false);
    Picks(20, 44, 88, 176, 352, 704, false, false, true, false, true);
    Picks(170, 165, 330, 660, 11, 22, false, true, false, true, false);
    Picks(5, 44, 88, 176, 352, 704, true, false, true, false, false);
  }

  lemma Tens26B()
    ensures Ten(311, 165, 330, 660, 11, 22, 44, 88, 176, 352, 704) == 545
    ensures Ten(403, 165, 330, 660, 11, 22, 44, 88, 176, 352, 704) == 41
    ensures Ten(1, 165, 330, 660, 11, 22, 44, 88, 176, 352, 704) == 165
  {
    hide Five; hide Xor; hide DownFive;
    Tens26BParts();
  }

  lemma Tens26BParts()
    ensures Five(311, 165, 330, 660, 11, 22) == 877 && Five(9, 44, 88, 176, 352, 704) == 332
    ensures Xor(877, 332) == 545 && DownFive(311) == 9
    ensures Five(403, 165, 330, 660, 11, 22) == 505 && Five(12, 44, 88, 176, 352, 704) == 464
    ensures Xor(505, 464) == 41 && DownFive(403) == 12
    ensures Five(1, 165, 330, 660, 11, 22) == 165 && Five(0, 44, 88, 176, 352, 704) == 0
    ensures Xor(165, 0) == 165 && DownFive(1) == 0
  {
    hide Five;
    Picks(311, 165, 330, 660, 11, 22, true, true, true, false, true);
    Picks(9, 44, 88, 176, 352, 704, true, false, false, true, false);
    Picks(403, 165, 330, 660, 11, 22, true, true, false, false, true);
    Picks(12, 44, 88, 176, 352, 704, false, false, true, true, false);
    Picks(1, 165, 330, 660, 11, 22, true, false, false, false, false);
    Picks(0, 44, 88, 176, 352, 704, false, false, false, false, false);
  }

  lemma Tens26C()
    ensures Ten(165, 165, 330, 660, 11, 22, 44, 88, 176, 352, 704) == 685
    ensures Ten(685, 165, 330, 660, 11, 22, 44, 88, 176, 352, 704) == 102
    ensures Ten(102, 165, 330, 660, 11, 22, 44, 88, 176, 352, 704) == 938
  {
    hide Five; hide Xor; hide DownFive;
    Tens26CParts();
  }

  lemma Tens26CParts()
    ensures Five(165, 165, 330, 660, 11, 22) == 561 && Five(5, 44, 88, 176, 352, 704) == 156
    ensures Xor(561, 156) == 685 && DownFive(165) == 5
    ensures Five(685, 165, 330, 660, 11, 22) == 570 && Five(21, 44, 88, 176, 352, 704) == 604
    ensures Xor(570, 604) == 102 && DownFive(685) == 21
    ensures Five(102, 165, 330, 660, 11, 22) == 990 && Five(3, 44, 88, 176, 352, 704) == 116
    ensures Xor(990, 116) == 938 && DownFive(102) == 3
  {
    hide Five;
    Picks(165, 165, 330, 660, 11, 22, true, false, true, false, false);
    Picks(5, 44, 88, 176, 352, 704, true, false, true, false, false);
    Picks(685, 165, 330, 660, 11, 22, true, false, true, true, false);
    Picks(21, 44, 88, 176, 352, 704, true, false, true, false, true);
    Picks(102, 165, 330, 660, 11, 22, false, true, true, false, false);
    Picks(3, 44, 88, 176, 352, 704, true, true, false, false, false);
  }

  lemma Tens26D()
    ensures Ten(938, 165, 330, 660, 11, 22, 44, 88, 176, 352, 704) == 637
    ensures Ten(637, 165, 330, 660, 11, 22, 44, 88, 176, 352, 704) == 152
  {
    hide Five; hide Xor; hide DownFive;
    Tens26DParts();
  }

  lemma Tens26DParts()
    ensures Five(938, 165, 330, 660, 11, 22) == 321 && Five(29, 44, 88, 176, 352, 704) == 828
    ensures Xor(321, 828) == 637 && DownFive(938) == 29
    ensures Five(637, 165, 330, 660, 11, 22) == 556 && Five(19, 44, 88, 176, 352, 704) == 692
    ensures Xor(556, 692) == 152 && DownFive(637) == 19
  {
    hide Five;
    Picks(938, 165, 330, 660, 11, 22, false, true, false, true, false);
    Picks(29, 44, 88, 176, 352, 704, true, false, true, true, true);
    Picks(637, 165, 330, 660, 11, 22, true, false, true, true, true);
    Picks(19, 44, 88, 176, 352, 704, true, true, false, false, true);
  }

  lemma Sums26()
    ensures Xor(229, 608) == 645 && Xor(235, 65) == 170 && Xor(234, 477) == 311
    ensures Xor(946, 545) == 403 && Xor(177, 41) == 152
    ensures Xor(0, 165) == 165 && Xor(0, 685) == 685 && Xor(0, 102) == 102
    ensures Xor(0, 938) == 938 && Xor(0, 637) == 637 && Xor(0, 152) == 152
  {
  }

  lemma EmbeddedGenerator()
    ensures Embed(1) == 1 && Embed(Product(18, 1)) == 177 && Embed(Product(29, 1)) == 946
    ensures Embed(Product(21, 1)) == 234 && Embed(Product(20, 1)) == 235 && Embed(Product(22, 1)) == 229
  {
  }

  lemma RootsAtOne(j: nat)
    requires 24 <= j <= 26
    ensures Fed(j, 1) == Leading(j, 1)
  {
    hide Fed; hide Leading;
    if j == 24 { Root24(); } else if j == 25 { Root25(); } else { Root26(); }
  }

  lemma HornerTheta(j: nat, e: bv32, x: bv32)
    requires Element(e) && Element(x)
    ensures Xor(Theta(e), Times(j, Theta(x))) == Theta(Xor(e, Times(j, x))) && Element(Xor(e, Times(j, x)))
  {
    hide Theta; hide Times; hide Xor; hide Element;
    ThetaTimes(j, x);
    ThetaLinear(e, Times(j, x));
    TimesElement(j, x);
    SumElement(e, Times(j, x));
  }

  lemma AtTheta(j: nat, e0: bv32, e1: bv32, e2: bv32, e3: bv32, e4: bv32, e5: bv32)
    requires Element(e0) && Element(e1) && Element(e2) && Element(e3) && Element(e4) && Element(e5)
    ensures At(j, Theta(e0), Theta(e1), Theta(e2), Theta(e3), Theta(e4), Theta(e5)) ==
      Theta(At(j, e0, e1, e2, e3, e4, e5))
    ensures Element(At(j, e0, e1, e2, e3, e4, e5))
  {
    hide Theta; hide Times; hide Xor; hide Element;
    HornerTheta(j, e4, e5);
    var a := Xor(e4, Times(j, e5));
    HornerTheta(j, e3, a);
    var b := Xor(e3, Times(j, a));
    HornerTheta(j, e2, b);
    var c := Xor(e2, Times(j, b));
    HornerTheta(j, e1, c);
    HornerTheta(j, e0, Xor(e1, Times(j, c)));
  }

  lemma ProductTheta(x: bv32, y: bv32)
    requires (y == 1 || y == 2 || y == 4 || y == 8) && (x == 18 || x == 29 || x == 21 || x == 20 || x == 22)
    ensures Embed(Product(x, TimesA(y))) == Theta(Embed(Product(x, y))) && Element(Embed(Product(x, y)))
  {
    hide Embed; hide Theta; hide Product; hide Small; hide TimesA; hide Element;
    ProductTimesA(x, y);
    EmbedTheta(Product(x, y));
    EmbedElement(Product(x, y));
  }

  lemma ProductTimesA(x: bv32, y: bv32)
    requires (y == 1 || y == 2 || y == 4 || y == 8) && (x == 18 || x == 29 || x == 21 || x == 20 || x == 22)
    ensures Product(x, TimesA(y)) == TimesA(Product(x, y)) && Small(Product(x, y))
  {
    hide Product; hide TimesA;
    if x == 18 { ProductsOf18(); }
    else if x == 29 { ProductsOf29(); }
    else if x == 21 { ProductsOf21(); }
    else if x == 20 { ProductsOf20(); }
    else { ProductsOf22(); }
  }

  lemma ProductsOf18()
    ensures Product(18, TimesA(1)) == TimesA(Product(18, 1)) && Small(Product(18, 1))
    ensures Product(18, TimesA(2)) == TimesA(Product(18, 2)) && Small(Product(18, 2))
    ensures Product(18, TimesA(4)) == TimesA(Product(18, 4)) && Small(Product(18, 4))
    ensures Product(18, TimesA(8)) == TimesA(Product(18, 8)) && Small(Product(18, 8))
  {
  }

  lemma ProductsOf29()
    ensures Product(29, TimesA(1)) == TimesA(Product(29, 1)) && Small(Product(29, 1))
    ensures Product(29, TimesA(2)) == TimesA(Product(29, 2)) && Small(Product(29, 2))
    ensures Product(29, TimesA(4)) == TimesA(Product(29, 4)) && Small(Product(29, 4))
    ensures Product(29, TimesA(8)) == TimesA(Product(29, 8)) && Small(Product(29, 8))
  {
  }

  lemma ProductsOf21()
    ensures Product(21, TimesA(1)) == TimesA(Product(21, 1)) && Small(Product(21, 1))
    ensures Product(21, TimesA(2)) == TimesA(Product(21, 2)) && Small(Product(21, 2))
    ensures Product(21, TimesA(4)) == TimesA(Product(21, 4)) && Small(Product(21, 4))
    ensures Product(21, TimesA(8)) == TimesA(Product(21, 8)) && Small(Product(21, 8))
  {
  }

  lemma ProductsOf20()
    ensures Product(20, TimesA(1)) == TimesA(Product(20, 1)) && Small(Product(20, 1))
    ensures Product(20, TimesA(2)) == TimesA(Product(20, 2)) && Small(Product(20, 2))
    ensures Product(20, TimesA(4)) == TimesA(Product(20, 4)) && Small(Product(20, 4))
    ensures Product(20, TimesA(8)) == TimesA(Product(20, 8)) && Small(Product(20, 8))
  {
  }

  lemma ProductsOf22()
    ensures Product(22, TimesA(1)) == TimesA(Product(22, 1)) && Small(Product(22, 1))
    ensures Product(22, TimesA(2)) == TimesA(Product(22, 2)) && Small(Product(22, 2))
    ensures Product(22, TimesA(4)) == TimesA(Product(22, 4)) && Small(Product(22, 4))
    ensures Product(22, TimesA(8)) == TimesA(Product(22, 8)) && Small(Product(22, 8))
  {
  }

  lemma FedTheta(j: nat, y: bv32)
    requires y == 1 || y == 2 || y == 4 || y == 8
    ensures Fed(j, TimesA(y)) == Theta(Fed(j, y))
  {
    hide Embed; hide Theta; hide Product; hide Small; hide TimesA; hide Element; hide At;
    ProductTheta(18, y);
    ProductTheta(29, y);
    ProductTheta(21, y);
    ProductTheta(20, y);
    ProductTheta(22, y);
    AtTheta(j, Embed(Product(18, y)), Embed(Product(29, y)), Embed(Product(21, y)), Embed(Product(20, y)),
            Embed(Product(22, y)), Embed(Product(29, y)));
  }

  lemma LeadingTheta(j: nat, y: bv32)
    requires Small(y)
    ensures Leading(j, TimesA(y)) == Theta(Leading(j, y))
  {
    hide Embed; hide Theta; hide Small; hide TimesA; hide Element; hide At; hide Times;
    ThetaZero();
    EmbedTheta(y);
    EmbedElement(y);
    AtTheta(j, 0, 0, 0, 0, 0, Embed(y));
    ThetaTimes(j, At(j, 0, 0, 0, 0, 0, Embed(y)));
  }

  lemma ThetaZero()
    ensures Theta(0) == 0 && Element(0)
  {
  }

  lemma RootsNext(j: nat, y: bv32)
    requires (y == 1 || y == 2 || y == 4 || y == 8) && Fed(j, y) == Leading(j, y)
    ensures Fed(j, TimesA(y)) == Leading(j, TimesA(y))
  {
    hide Fed; hide Leading; hide Theta; hide TimesA; hide Small;
    FirstMultiples();
    FedTheta(j, y);
    LeadingTheta(j, y);
  }

  lemma FirstMultiples()
    ensures TimesA(1) == 2 && TimesA(2) == 4 && TimesA(4) == 8 && TimesA(8) == 16
    ensures Small(1) && Small(2) && Small(4) && Small(8)
  {
  }

  /** The three powers are roots: at them the sixth power is what the generator's other terms make up. */
  lemma Roots(j: nat, y: bv32)
    requires 24 <= j <= 26 && Small(y)
    ensures Fed(j, y) == Leading(j, y)
  {
    hide Fed; hide Leading; hide Small; hide Additive; hide TimesA;
    FedAdditive(j);
    LeadingAdditive(j);
    RootsAtOne(j);
    FirstMultiples();
    RootsNext(j, 1);
    RootsNext(j, 2);
    RootsNext(j, 4);
    RootsNext(j, 8);
    SameOnFive(z => Fed(j, z), z => Leading(j, z), y);
  }

  lemma FedAdditive(j: nat)
    ensures Additive(z => Fed(j, z))
  {
    hide Xor; hide Fed;
    var f: bv32 -> bv32 := z => Fed(j, z);
    forall y, z ensures Adds(f, y, z) { FedLinear(j, y, z); }
  }

  lemma LeadingAdditive(j: nat)
    ensures Additive(z => Leading(j, z))
  {
    hide Xor; hide Leading;
    var f: bv32 -> bv32 := z => Leading(j, z);
    forall y, z ensures Adds(f, y, z) { LeadingLinear(j, y, z); }
  }
}
