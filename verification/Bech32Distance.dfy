/**
 * The Bech32 checksum detects any three changed symbols within 1023.
 *
 * A remainder is a polynomial over GF(32), which is embedded in the field of 1024 elements. Three consecutive powers
 * of a generator of that field are roots of the Bech32 generator polynomial, so at these points a sequence with
 * remainder zero has value zero; for three symbols that is a Vandermonde system.
 */
module Bech32Distance {
  import opened Bech32Checksum
  import opened Bech32Field
  import opened Bech32Roots

  // ----- the value of a remainder

  /** The value of a state. */
  function Value(j: nat, c: bv32): bv32 {
    At(j, Embed(Group(c, 0)), Embed(Group(c, 1)), Embed(Group(c, 2)), Embed(Group(c, 3)), Embed(Group(c, 4)),
       Embed(Group(c, 5)))
  }

  lemma GroupsSmallAll(c: bv32)
    ensures Small(Group(c, 0)) && Small(Group(c, 1)) && Small(Group(c, 2))
    ensures Small(Group(c, 3)) && Small(Group(c, 4)) && Small(Group(c, 5))
  {
    hide Small; hide Group;
    GroupSmall(c, 0);
    GroupSmall(c, 1);
    GroupSmall(c, 2);
    GroupSmall(c, 3);
    GroupSmall(c, 4);
    GroupSmall(c, 5);
  }

  /** Shifting the coefficients up by one multiplies by the point. */
  lemma AtShifted(j: nat, v: bv32, e0: bv32, e1: bv32, e2: bv32, e3: bv32, e4: bv32, e5: bv32)
    ensures Xor(Times(j, At(j, e0, e1, e2, e3, e4, e5)), v)
      == Xor(At(j, v, e0, e1, e2, e3, e4), Times(j, At(j, 0, 0, 0, 0, 0, e5)))
  {
    hide Xor; hide Times;
    TimesOfZero(j);
    XorWith(0);
    XorWith(e0);
    XorWith(e1);
    XorWith(e2);
    XorWith(e3);
    XorWith(e4);
    XorWith(e5);
    var low, top := At(j, e0, e1, e2, e3, e4, 0), At(j, 0, 0, 0, 0, 0, e5);
    AtLinear(j, e0, e1, e2, e3, e4, 0, 0, 0, 0, 0, 0, e5);
    TimesLinear(j, low, top);
    XorLaws(Times(j, low), Times(j, top), v);
    XorLaws(Times(j, low), v, Times(j, top));
    XorLaws(v, Times(j, low), Times(j, top));
    XorLaws(Times(j, top), v, v);
  }

  lemma TimesOfZero(n: nat)
    ensures Times(n, 0) == 0
  {
    hide Xor; hide Times;
    TimesLinear(n, 0, 0);
    XorZero(0, 0);
    XorZero(Times(n, 0), Times(n, 0));
  }

  /** A step multiplies the value by the point and adds the new symbol. */
  lemma ValueOfStep(j: nat, c: bv32, v: bv32)
    requires 24 <= j <= 26 && Packed(c) && Small(v)
    ensures Value(j, Step(c, v)) == Xor(Times(j, Value(j, c)), Embed(v))
  {
    hide Xor; hide Times; hide Embed; hide Group; hide Product; hide Step; hide Packed; hide Small; hide At;
    var y := Group(c, 5);
    GroupsSmallAll(c);
    Roots(j, y);
    GroupsOfStep(c, v);
    EmbedLinear(v, Product(18, y));
    EmbedLinear(Group(c, 0), Product(29, y));
    EmbedLinear(Group(c, 1), Product(21, y));
    EmbedLinear(Group(c, 2), Product(20, y));
    EmbedLinear(Group(c, 3), Product(22, y));
    EmbedLinear(Group(c, 4), Product(29, y));
    AtLinear(j, Embed(v), Embed(Group(c, 0)), Embed(Group(c, 1)), Embed(Group(c, 2)), Embed(Group(c, 3)),
             Embed(Group(c, 4)), Embed(Product(18, y)), Embed(Product(29, y)), Embed(Product(21, y)),
             Embed(Product(20, y)), Embed(Product(22, y)), Embed(Product(29, y)));
    AtShifted(j, Embed(v), Embed(Group(c, 0)), Embed(Group(c, 1)), Embed(Group(c, 2)), Embed(Group(c, 3)),
              Embed(Group(c, 4)), Embed(y));
  }

  lemma GroupsOfStep(c: bv32, v: bv32)
    requires Packed(c) && Small(v)
    ensures var s, y := Step(c, v), Group(c, 5);
      && Group(s, 0) == Xor(v, Product(18, y)) && Group(s, 1) == Xor(Group(c, 0), Product(29, y))
      && Group(s, 2) == Xor(Group(c, 1), Product(21, y)) && Group(s, 3) == Xor(Group(c, 2), Product(20, y))
      && Group(s, 4) == Xor(Group(c, 3), Product(22, y)) && Group(s, 5) == Xor(Group(c, 4), Product(29, y))
  {
    hide Xor; hide Group; hide Product; hide Step; hide Packed; hide Small; hide Generator;
    Generators();
    StepIsReduction(c, v, 0);
    StepIsReduction(c, v, 1);
    StepIsReduction(c, v, 2);
    StepIsReduction(c, v, 3);
    StepIsReduction(c, v, 4);
    StepIsReduction(c, v, 5);
  }

  lemma Generators()
    ensures Generator(0) == 18 && Generator(1) == 29 && Generator(2) == 21
    ensures Generator(3) == 20 && Generator(4) == 22 && Generator(5) == 29
  {
  }

  lemma ValueOfZero(j: nat)
    ensures Value(j, 0) == 0
  {
    hide Xor; hide Times; hide Group;
    GroupsOfZero();
    EmbedOfZero();
    TimesOfZero(j);
    XorZero(0, 0);
  }

  lemma GroupsOfZero()
    ensures Group(0, 0) == 0 && Group(0, 1) == 0 && Group(0, 2) == 0
    ensures Group(0, 3) == 0 && Group(0, 4) == 0 && Group(0, 5) == 0
  {
  }

  lemma EmbedOfZero()
    ensures Embed(0) == 0 && Small(0)
  {
  }

  /** Zeros multiply the value by powers of the point. */
  lemma {:induction false} ValueOfZeros(j: nat, c: bv32, n: nat)
    requires 24 <= j <= 26 && Packed(c)
    ensures Packed(Remainder(c, Zeros(n))) && Value(j, Remainder(c, Zeros(n))) == Times(j * n, Value(j, c))
  {
    hide Step; hide Packed; hide Value; hide Xor; hide Times; hide Small; hide Embed;
    AllSmallZeros(n);
    RemainderPacked(c, Zeros(n));
    if n == 0 {
      TimesNone(Value(j, c));
    } else {
      ValueOfZeros(j, c, n - 1);
      assert Zeros(n)[..n - 1] == Zeros(n - 1);
      var r := Remainder(c, Zeros(n - 1));
      EmbedOfZero();
      ValueOfStep(j, r, 0);
      XorZero(Times(j, Value(j, r)), 0);
      assert j * n == j + j * (n - 1);
      TimesAdd(j, j * (n - 1), Value(j, c));
    }
  }

  /** Zeros and then a symbol. */
  lemma ValueOfGap(j: nat, c: bv32, n: nat, v: bv32)
    requires 24 <= j <= 26 && Packed(c) && Small(v)
    ensures var s := Step(Remainder(c, Zeros(n)), v);
      Packed(s) && Value(j, s) == Xor(Times(j * (n + 1), Value(j, c)), Embed(v))
  {
    hide Step; hide Packed; hide Value; hide Xor; hide Times; hide Small; hide Embed; hide Remainder;
    ValueOfZeros(j, c, n);
    var r := Remainder(c, Zeros(n));
    StepPacked(r, v);
    ValueOfStep(j, r, v);
    assert j * (n + 1) == j + j * n;
    TimesAdd(j, j * n, Value(j, c));
  }

  // ----- the Vandermonde system

  /** Three values whose sums with weights 1, b^n and b^2n vanish are zero. */
  lemma Vandermonde(a: nat, b: nat, w1: bv32, w2: bv32, w3: bv32)
    requires 0 < a && 0 < b && a + b < 1023 && Element(w1) && Element(w2) && Element(w3)
    requires Xor(Xor(w1, w2), w3) == 0
    requires Xor(Xor(Times(a + b, w1), Times(b, w2)), w3) == 0
    requires Xor(Xor(Times(2 * (a + b), w1), Times(2 * b, w2)), w3) == 0
    ensures w1 == 0 && w2 == 0 && w3 == 0
  {
    hide Xor; hide Times; hide Element;
    var x1, x2 := Times(a + b, w1), Times(b, w2);
    TimesElement(a + b, w1);
    TimesElement(b, w2);
    var u, v := Xor(x1, w1), Xor(x2, w2);
    SumElement(x1, w1);
    SumElement(x2, w2);
    SameSums(x1, x2, w1, w2, w3);
    TwiceTimes(a + b, w1);
    TwiceTimes(b, w2);
    SameSums(Times(a + b, x1), Times(b, x2), x1, x2, w3);
    TimesAdd(b, a, u);
    TimesElement(a, u);
    TimesInjective(b, Times(a, u), u);
    NoPeriod(a, u);
    XorZero(x1, w1);
    XorZero(x2, w2);
    NoPeriod(a + b, w1);
    NoPeriod(b, w2);
    XorZero(0, 0);
    XorZero(w3, w3);
  }

  lemma TwiceTimes(n: nat, w: bv32)
    ensures Times(2 * n, w) == Times(n, Times(n, w))
    ensures Times(n, Xor(Times(n, w), w)) == Xor(Times(n, Times(n, w)), Times(n, w))
  {
    hide Xor; hide Times;
    TimesAdd(n, n, w);
    TimesLinear(n, Times(n, w), w);
  }

  /** Two sums with a common part that are both zero. */
  lemma SameSums(x1: bv32, x2: bv32, y1: bv32, y2: bv32, z: bv32)
    requires Xor(Xor(x1, x2), z) == 0 && Xor(Xor(y1, y2), z) == 0
    ensures Xor(x1, y1) == Xor(x2, y2)
  {
    hide Xor;
    XorZero(Xor(x1, x2), z);
    XorZero(Xor(y1, y2), z);
    XorPairs(x1, x2, y1, y2);
    XorZero(Xor(x1, y1), Xor(x2, y2));
    XorZero(z, z);
  }

  // ----- three symbols

  /** The state after three symbols with gaps of zeros between them. */
  function AfterThree(e1: bv32, m: nat, e2: bv32, k: nat, e3: bv32): bv32 {
    Step(Remainder(Step(Remainder(Step(0, e1), Zeros(m)), e2), Zeros(k)), e3)
  }

  /** Its value at one of the points, from the images of the symbols. */
  lemma ValueOfThree(j: nat, e1: bv32, m: nat, e2: bv32, k: nat, e3: bv32)
    requires 24 <= j <= 26 && Small(e1) && Small(e2) && Small(e3)
    ensures Value(j, AfterThree(e1, m, e2, k, e3))
      == Xor(Xor(Times(j * (m + k + 2), Embed(e1)), Times(j * (k + 1), Embed(e2))), Embed(e3))
  {
    hide Step; hide Packed; hide Value; hide Xor; hide Times; hide Small; hide Embed; hide Remainder;
    var s1 := Step(0, e1);
    FirstSymbol(j, e1);
    ValueOfGap(j, s1, m, e2);
    var s2 := Step(Remainder(s1, Zeros(m)), e2);
    ValueOfGap(j, s2, k, e3);
    TimesLinear(j * (k + 1), Times(j * (m + 1), Embed(e1)), Embed(e2));
    assert j * (m + k + 2) == j * (k + 1) + j * (m + 1);
    TimesAdd(j * (k + 1), j * (m + 1), Embed(e1));
  }

  lemma FirstSymbol(j: nat, e: bv32)
    requires 24 <= j <= 26 && Small(e)
    ensures Packed(Step(0, e)) && Value(j, Step(0, e)) == Embed(e)
  {
    hide Step; hide Value; hide Xor; hide Times; hide Small; hide Embed; hide Packed;
    ZeroPacked();
    StepPacked(0, e);
    ValueOfStep(j, 0, e);
    ValueOfZero(j);
    TimesOfZero(j);
    XorZero(Embed(e), 0);
  }

  /** Three symbols within 1023 that leave no remainder are zero. */
  lemma ThreeSymbols(e1: bv32, m: nat, e2: bv32, k: nat, e3: bv32)
    requires Small(e1) && Small(e2) && Small(e3) && m + k + 2 < 1023 && AfterThree(e1, m, e2, k, e3) == 0
    ensures e1 == 0 && e2 == 0 && e3 == 0
  {
    hide AfterThree; hide Value; hide Xor; hide Times; hide Small; hide Embed; hide Element;
    var a, b := m + 1, k + 1;
    var w1, w2, w3 := Times(24 * (a + b), Embed(e1)), Times(24 * b, Embed(e2)), Embed(e3);
    EmbedElement(e1);
    EmbedElement(e2);
    EmbedElement(e3);
    TimesElement(24 * (a + b), Embed(e1));
    TimesElement(24 * b, Embed(e2));
    ValueOfThree(24, e1, m, e2, k, e3);
    ValueOfThree(25, e1, m, e2, k, e3);
    ValueOfThree(26, e1, m, e2, k, e3);
    ValueOfZero(24);
    ValueOfZero(25);
    ValueOfZero(26);
    OnePowerMore(a + b, Embed(e1));
    OnePowerMore(b, Embed(e2));
    Vandermonde(a, b, w1, w2, w3);
  }

  lemma OnePowerMore(n: nat, e: bv32)
    ensures Times(25 * n, e) == Times(n, Times(24 * n, e)) && Times(26 * n, e) == Times(2 * n, Times(24 * n, e))
  {
    hide Times;
    assert 25 * n == n + 24 * n && 26 * n == 2 * n + 24 * n;
    TimesAdd(n, 24 * n, e);
    TimesAdd(2 * n, 24 * n, e);
  }

  /** A sequence of zeros and three symbols. */
  function ThreeIn(i: nat, e1: bv32, m: nat, e2: bv32, k: nat, e3: bv32): seq<bv32> {
    Zeros(i) + [e1] + Zeros(m) + [e2] + Zeros(k) + [e3]
  }

  lemma ZeroSlice(d: seq<bv32>, lo: nat, hi: nat)
    requires lo <= hi <= |d| && forall l :: lo <= l < hi ==> d[l] == 0
    ensures d[lo..hi] == Zeros(hi - lo)
  {
  }

  lemma CutInSeven(d: seq<bv32>, i: nat, j: nat, k: nat)
    requires i < j < k < |d|
    ensures d == d[..i] + [d[i]] + d[i + 1..j] + [d[j]] + d[j + 1..k] + [d[k]] + d[k + 1..]
  {
  }

  lemma ThreeParts(d: seq<bv32>, i: nat, j: nat, k: nat)
    requires i < j < k < |d| && forall l :: 0 <= l < |d| && l != i && l != j && l != k ==> d[l] == 0
    ensures d == ThreeIn(i, d[i], j - i - 1, d[j], k - j - 1, d[k]) + Zeros(|d| - k - 1)
  {
    hide Zeros;
    CutInSeven(d, i, j, k);
    ZeroSlice(d, 0, i);
    ZeroSlice(d, i + 1, j);
    ZeroSlice(d, j + 1, k);
    ZeroSlice(d, k + 1, |d|);
    assert d[..i] == d[0..i] && d[k + 1..] == d[k + 1..|d|];
  }

  lemma SmallPart(v: seq<bv32>, w: seq<bv32>)
    requires AllSmall(v + w)
    ensures AllSmall(v)
  {
    hide Small;
    forall l | 0 <= l < |v| ensures Small(v[l]) { assert (v + w)[l] == v[l]; }
  }

  /** A sequence that is zero but for three places within 1023 and leaves no remainder is zero. */
  lemma ThreePlacesZero(d: seq<bv32>, i: nat, j: nat, k: nat)
    requires i < j < k < |d| && k < i + 1023 && AllSmall(d) && Remainder(0, d) == 0
    requires forall l :: 0 <= l < |d| && l != i && l != j && l != k ==> d[l] == 0
    ensures forall l :: 0 <= l < |d| ==> d[l] == 0
  {
    hide Remainder; hide Small; hide Packed; hide AfterThree; hide ThreeIn; hide Zeros;
    var head, tail := ThreeIn(i, d[i], j - i - 1, d[j], k - j - 1, d[k]), |d| - k - 1;
    ThreeParts(d, i, j, k);
    RemainderAppend(0, head, Zeros(tail));
    RemainderOfThree(i, d[i], j - i - 1, d[j], k - j - 1, d[k]);
    SmallPart(head, Zeros(tail));
    ZeroPacked();
    RemainderPacked(0, head);
    ZerosInjective(Remainder(0, head), tail);
    ThreeSymbols(d[i], j - i - 1, d[j], k - j - 1, d[k]);
  }

  lemma RemainderOfThree(i: nat, e1: bv32, m: nat, e2: bv32, k: nat, e3: bv32)
    ensures Remainder(0, ThreeIn(i, e1, m, e2, k, e3)) == AfterThree(e1, m, e2, k, e3)
  {
    hide Remainder; hide Step; hide Packed;
    ZeroPacked();
    ZerosInjective(0, i);
    var a := Zeros(i) + [e1];
    OneMore(0, Zeros(i), e1);
    RemainderAppend(0, a, Zeros(m));
    OneMore(0, a + Zeros(m), e2);
    var b := a + Zeros(m) + [e2];
    RemainderAppend(0, b, Zeros(k));
    OneMore(0, b + Zeros(k), e3);
  }

  lemma OneMore(c: bv32, v: seq<bv32>, e: bv32)
    ensures Remainder(c, v + [e]) == Step(Remainder(c, v), e)
  {
    hide Step;
    assert (v + [e])[..|v|] == v;
  }

  /** The same for any three places, some of which may coincide or lie beyond the end. */
  lemma AnyThreeZero(d: seq<bv32>, i: nat, j: nat, k: nat)
    requires i <= j <= k < i + 1023 && AllSmall(d) && Remainder(0, d) == 0
    requires forall l :: 0 <= l < |d| && l != i && l != j && l != k ==> d[l] == 0
    ensures forall l :: 0 <= l < |d| ==> d[l] == 0
  {
    hide Remainder; hide Small;
    if k >= |d| {
      if j >= |d| {
        if i < |d| { WindowZero(d, i, i + 1); }
      } else {
        TwoPlacesZero(d, i, j);
      }
    } else if i < j < k {
      ThreePlacesZero(d, i, j, k);
    } else {
      TwoPlacesZero(d, i, k);
    }
  }

  lemma TwoPlacesZero(d: seq<bv32>, i: nat, k: nat)
    requires i <= k < |d| && k < i + 1023 && AllSmall(d) && Remainder(0, d) == 0
    requires forall l :: 0 <= l < |d| && l != i && l != k ==> d[l] == 0
    ensures forall l :: 0 <= l < |d| ==> d[l] == 0
  {
    hide Remainder; hide Small;
    if k <= i + 1 {
      WindowZero(d, i, k + 1);
    } else {
      ThreePlacesZero(d, i, i + 1, k);
    }
  }

  /** Sequences with the same remainder that differ in at most three places, all within 1023, are the same. */
  lemma ThreeChangesDetected(c: bv32, v: seq<bv32>, w: seq<bv32>, i: nat, j: nat, k: nat)
    requires AllSmall(v) && AllSmall(w) && |v| == |w| && i <= j <= k < i + 1023
    requires forall l :: 0 <= l < |v| && l != i && l != j && l != k ==> v[l] == w[l]
    requires Remainder(c, v) == Remainder(c, w)
    ensures v == w
  {
    hide Remainder; hide Xor; hide Small;
    var d := XorEach(v, w);
    RemainderLinear(c, c, v, w);
    XorZero(c, c);
    XorZero(Remainder(c, v), Remainder(c, w));
    assert AllSmall(d) by { forall l | 0 <= l < |d| ensures Small(d[l]) { XorSmall(v[l], w[l]); } }
    forall l | 0 <= l < |d| && l != i && l != j && l != k ensures d[l] == 0 { XorZero(v[l], w[l]); }
    AnyThreeZero(d, i, j, k);
    forall l | 0 <= l < |v| ensures v[l] == w[l] { assert d[l] == Xor(v[l], w[l]); XorZero(v[l], w[l]); }
  }
}
