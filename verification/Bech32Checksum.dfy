/** The Bech32 checksum on 30-bit states: linear over GF(2), and each step injective. */
module Bech32Checksum {
  const GEN0: bv32 := 0x3b6a57b2
  const GEN1: bv32 := 0x26508e6d
  const GEN2: bv32 := 0x1ea119fa
  const GEN3: bv32 := 0x3d4233dd
  const GEN4: bv32 := 0x2a1462b3

  function Xor(a: bv32, b: bv32): bv32 { a ^ b }

  /** A generator, if the selected bit of the top value is set. */
  function Selected(c0: bv32, mask: bv32, g: bv32): bv32 { if c0 & mask != 0 then g else 0 }

  /** What the value shifted out adds back. */
  function Feedback(c0: bv32): bv32 {
    Xor(Xor(Selected(c0, 1, GEN0), Selected(c0, 2, GEN1)),
        Xor(Xor(Selected(c0, 4, GEN2), Selected(c0, 8, GEN3)), Selected(c0, 16, GEN4)))
  }

  function Shifted(c: bv32): bv32 { (c & 0x1ffffff) << 5 }

  /** One round of `PolyMod`: times x, plus the next value, modulo the generator. */
  function Step(c: bv32, v: bv32): bv32 {
    Xor(Xor(Shifted(c), v), Feedback(c >> 25))
  }

  predicate Small(v: bv32) { v < 32 }
  predicate Packed(c: bv32) { c < 0x40000000 }

  lemma SelectedLinear(c: bv32, d: bv32, mask: bv32, g: bv32)
    requires mask == 1 || mask == 2 || mask == 4 || mask == 8 || mask == 16
    ensures Selected(Xor(c, d), mask, g) == Xor(Selected(c, mask, g), Selected(d, mask, g))
  {
    hide Xor;
    XorMask(c, d, mask);
    XorWith(g);
    XorWith(0);
  }

  lemma XorWith(g: bv32)
    ensures Xor(0, g) == g && Xor(g, 0) == g && Xor(g, g) == 0
  {
  }

  /** A bit of an exclusive or is set when just one of the two is. */
  lemma XorMask(c: bv32, d: bv32, m: bv32)
    requires m == 1 || m == 2 || m == 4 || m == 8 || m == 16
    ensures Xor(c, d) & m != 0 <==> (c & m != 0) != (d & m != 0)
  {
    assert (c & m == 0 || c & m == m) && (d & m == 0 || d & m == m);
  }

  lemma XorLaws(a: bv32, b: bv32, c: bv32)
    ensures Xor(Xor(a, b), c) == Xor(a, Xor(b, c)) && Xor(a, b) == Xor(b, a)
  {
    XorAssociative(a, b, c);
  }

  lemma XorAssociative(a: bv32, b: bv32, c: bv32)
    ensures (a ^ b) ^ c == a ^ (b ^ c) && a ^ b == b ^ a
  {
  }

  /** Two sums added term by term. */
  lemma XorPairs(a: bv32, b: bv32, c: bv32, d: bv32)
    ensures Xor(Xor(a, b), Xor(c, d)) == Xor(Xor(a, c), Xor(b, d))
  {
    hide Xor;
    XorLaws(a, b, Xor(c, d));
    XorLaws(b, c, d);
    XorLaws(c, b, d);
    XorLaws(a, c, Xor(b, d));
  }

  lemma FeedbackLinear(c: bv32, d: bv32)
    ensures Feedback(Xor(c, d)) == Xor(Feedback(c), Feedback(d))
  {
    hide Xor; hide Selected;
    SelectedLinear(c, d, 1, GEN0);
    SelectedLinear(c, d, 2, GEN1);
    SelectedLinear(c, d, 4, GEN2);
    SelectedLinear(c, d, 8, GEN3);
    SelectedLinear(c, d, 16, GEN4);
    var a0, b0 := Selected(c, 1, GEN0), Selected(d, 1, GEN0);
    var a1, b1 := Selected(c, 2, GEN1), Selected(d, 2, GEN1);
    var a2, b2 := Selected(c, 4, GEN2), Selected(d, 4, GEN2);
    var a3, b3 := Selected(c, 8, GEN3), Selected(d, 8, GEN3);
    var a4, b4 := Selected(c, 16, GEN4), Selected(d, 16, GEN4);
    XorPairs(a0, b0, a1, b1);
    XorPairs(a2, b2, a3, b3);
    XorPairs(Xor(a2, a3), Xor(b2, b3), a4, b4);
    XorPairs(Xor(a0, a1), Xor(b0, b1), Xor(Xor(a2, a3), a4), Xor(Xor(b2, b3), b4));
  }

  lemma ShiftLinear(c: bv32, d: bv32)
    ensures Xor(c, d) >> 25 == Xor(c >> 25, d >> 25)
    ensures Shifted(Xor(c, d)) == Xor(Shifted(c), Shifted(d))
  {
  }

  /** The step is linear. */
  lemma StepLinear(c: bv32, d: bv32, v: bv32, w: bv32)
    ensures Step(Xor(c, d), Xor(v, w)) == Xor(Step(c, v), Step(d, w))
  {
    hide Xor; hide Feedback; hide Shifted;
    ShiftLinear(c, d);
    FeedbackLinear(c >> 25, d >> 25);
    XorPairs(Shifted(c), Shifted(d), v, w);
    XorPairs(Xor(Shifted(c), v), Xor(Shifted(d), w), Feedback(c >> 25), Feedback(d >> 25));
  }

  lemma StepPacked(c: bv32, v: bv32)
    requires Small(v)
    ensures Packed(Step(c, v))
  {
  }

  /** A nonzero state stays nonzero. */
  lemma StepInjective(c: bv32)
    requires Packed(c) && Step(c, 0) == 0
    ensures c == 0
  {
  }

  lemma StepZero()
    ensures Step(0, 0) == 0
  {
  }

  /** While the top value is zero a step only shifts. */
  lemma StepShifts(c: bv32, v: bv32)
    requires c < 0x2000000
    ensures Step(c, v) == (c << 5) ^ v
  {
  }

  // ----- whole sequences

  /** `PolyMod` from a given state. */
  function Remainder(c: bv32, v: seq<bv32>): bv32 {
    if v == [] then c else Step(Remainder(c, v[..|v| - 1]), v[|v| - 1])
  }

  predicate AllSmall(v: seq<bv32>) { forall i :: 0 <= i < |v| ==> Small(v[i]) }

  function Zeros(n: nat): seq<bv32> { seq(n, i => 0) }

  function XorEach(v: seq<bv32>, w: seq<bv32>): seq<bv32>
    requires |v| == |w|
  {
    seq(|v|, i requires 0 <= i < |v| => Xor(v[i], w[i]))
  }

  lemma {:induction false} RemainderAppend(c: bv32, v: seq<bv32>, w: seq<bv32>)
    ensures Remainder(c, v + w) == Remainder(Remainder(c, v), w)
  {
    hide Step;
    if w == [] {
      assert v + w == v;
    } else {
      RemainderAppend(c, v, w[..|w| - 1]);
      assert (v + w)[..|v + w| - 1] == v + w[..|w| - 1];
    }
  }

  lemma {:induction false} RemainderLinear(c: bv32, d: bv32, v: seq<bv32>, w: seq<bv32>)
    requires |v| == |w|
    ensures Remainder(Xor(c, d), XorEach(v, w)) == Xor(Remainder(c, v), Remainder(d, w))
  {
    hide Step; hide Xor;
    if v != [] {
      var n := |v| - 1;
      RemainderLinear(c, d, v[..n], w[..n]);
      assert XorEach(v, w)[..n] == XorEach(v[..n], w[..n]);
      StepLinear(Remainder(c, v[..n]), Remainder(d, w[..n]), v[n], w[n]);
    }
  }

  lemma RemainderPacked(c: bv32, v: seq<bv32>)
    requires Packed(c) && AllSmall(v)
    ensures Packed(Remainder(c, v))
  {
    hide Step; hide Packed;
    if v != [] { StepPacked(Remainder(c, v[..|v| - 1]), v[|v| - 1]); }
  }

  /** Zeros lead back to the zero state from nowhere else. */
  lemma {:induction false} ZerosInjective(c: bv32, n: nat)
    requires Packed(c)
    ensures Remainder(c, Zeros(n)) == 0 <==> c == 0
  {
    hide Step; hide Packed;
    if n > 0 {
      ZerosInjective(c, n - 1);
      assert Zeros(n)[..n - 1] == Zeros(n - 1);
      var r := Remainder(c, Zeros(n - 1));
      RemainderPacked(c, Zeros(n - 1));
      StepZero();
      if Step(r, 0) == 0 { StepInjective(r); }
    }
  }

  /** The state fits k values. */
  predicate Fits(c: bv32, k: nat)
    requires k <= 6
  {
    match k
    case 0 => c < 1
    case 1 => c < 0x20
    case 2 => c < 0x400
    case 3 => c < 0x8000
    case 4 => c < 0x100000
    case 5 => c < 0x2000000
    case 6 => c < 0x40000000
  }

  lemma StepGrows(c: bv32, v: bv32, k: nat)
    requires k < 6 && Fits(c, k) && Small(v)
    ensures Fits(Step(c, v), k + 1) && (Step(c, v) == 0 <==> c == 0 && v == 0)
  {
    hide Step;
    assert c < 0x2000000;
    StepShifts(c, v);
    ShiftIn(c, v, k);
  }

  lemma ShiftIn(c: bv32, v: bv32, k: nat)
    requires k < 6 && Fits(c, k) && Small(v)
    ensures Fits((c << 5) ^ v, k + 1) && ((c << 5) ^ v == 0 <==> c == 0 && v == 0)
  {
  }

  /** Up to six values are simply packed, so only zeros give zero. */
  lemma {:induction false} SixPacked(v: seq<bv32>)
    requires |v| <= 6 && AllSmall(v)
    ensures Fits(Remainder(0, v), |v|)
    ensures Remainder(0, v) == 0 <==> forall i :: 0 <= i < |v| ==> v[i] == 0
  {
    hide Step; hide Small; hide Fits;
    if v == [] {
      NothingFits();
    } else {
      var n := |v| - 1;
      SixPacked(v[..n]);
      StepGrows(Remainder(0, v[..n]), v[n], n);
      assert forall i :: 0 <= i < n ==> v[..n][i] == v[i];
    }
  }

  lemma NothingFits()
    ensures Fits(0, 0)
  {
  }

  lemma XorZero(a: bv32, b: bv32)
    ensures Xor(a, a) == 0 && Xor(a, 0) == a && Xor(0, a) == a && (Xor(a, b) == 0 <==> a == b)
  {
  }

  lemma XorBack(a: bv32, b: bv32)
    ensures Xor(a, Xor(a, b)) == b
  {
    hide Xor;
    XorLaws(a, a, b);
    XorZero(a, a);
    XorZero(b, b);
  }

  lemma XorSmall(a: bv32, b: bv32)
    ensures Small(a) && Small(b) ==> Small(Xor(a, b))
    ensures Packed(a) && Packed(b) ==> Packed(Xor(a, b))
  {
  }

  /** Where two sequences agree. */
  ghost predicate AgreeOutside(v: seq<bv32>, w: seq<bv32>, i: nat, j: nat) {
    |v| == |w| && forall k :: 0 <= k < |v| && !(i <= k < j) ==> v[k] == w[k]
  }

  /** Sequences with the same checksum that differ within six consecutive places only are the same. */
  lemma BurstDetected(c: bv32, v: seq<bv32>, w: seq<bv32>, i: nat)
    requires AllSmall(v) && AllSmall(w) && AgreeOutside(v, w, i, i + 6) && Remainder(c, v) == Remainder(c, w)
    ensures v == w
  {
    hide Step; hide Xor; hide Small; hide Packed;
    var n := |v|;
    var lo, hi := if i <= n then i else n, if i + 6 <= n then i + 6 else n;
    var d := XorEach(v, w);
    RemainderLinear(c, c, v, w);
    XorZero(c, c);
    XorZero(Remainder(c, v), Remainder(c, v));
    assert AllSmall(d) by { forall k | 0 <= k < n ensures Small(d[k]) { XorSmall(v[k], w[k]); } }
    forall k | 0 <= k < n && !(lo <= k < hi) ensures d[k] == 0 { XorZero(v[k], w[k]); }
    WindowZero(d, lo, hi);
    forall k | 0 <= k < n ensures v[k] == w[k] { assert d[k] == Xor(v[k], w[k]); XorZero(v[k], w[k]); }
  }

  /** A sequence that is zero outside six places and has remainder zero is zero. */
  lemma WindowZero(d: seq<bv32>, lo: nat, hi: nat)
    requires lo <= hi <= |d| && hi - lo <= 6 && AllSmall(d) && Remainder(0, d) == 0
    requires forall k :: 0 <= k < |d| && !(lo <= k < hi) ==> d[k] == 0
    ensures forall k :: 0 <= k < |d| ==> d[k] == 0
  {
    hide Remainder; hide Small; hide Fits;
    var mid := d[lo..hi];
    ZerosAround(d, lo, hi);
    WindowRemainder(mid, lo, |d| - hi);
    SixPacked(mid);
    forall k | lo <= k < hi ensures d[k] == 0 { assert d[k] == mid[k - lo]; }
  }

  lemma ZerosAround(d: seq<bv32>, lo: nat, hi: nat)
    requires lo <= hi <= |d| && forall k :: 0 <= k < |d| && !(lo <= k < hi) ==> d[k] == 0
    ensures d == Zeros(lo) + d[lo..hi] + Zeros(|d| - hi)
  {
  }

  lemma WindowRemainder(mid: seq<bv32>, before: nat, tail: nat)
    requires AllSmall(mid) && Remainder(0, Zeros(before) + mid + Zeros(tail)) == 0
    ensures Remainder(0, mid) == 0
  {
    hide Remainder; hide AllSmall; hide Packed;
    RemainderAppend(0, Zeros(before) + mid, Zeros(tail));
    RemainderAppend(0, Zeros(before), mid);
    ZeroPacked();
    ZerosInjective(0, before);
    RemainderPacked(0, mid);
    ZerosInjective(Remainder(0, mid), tail);
  }

  lemma ZeroPacked()
    ensures Packed(0) && Packed(1) && Packed(0x2bc830a3)
  {
  }

  // ----- creating a checksum

  /** The 5-bit group k places from the low end. */
  function Group(m: bv32, k: nat): bv32
    requires k < 6
  {
    match k
    case 0 => m & 31
    case 1 => (m >> 5) & 31
    case 2 => (m >> 10) & 31
    case 3 => (m >> 15) & 31
    case 4 => (m >> 20) & 31
    case 5 => (m >> 25) & 31
  }

  /** The six 5-bit groups of a 30-bit number, highest first. */
  function Groups(m: bv32): seq<bv32> {
    seq(6, i requires 0 <= i < 6 => Group(m, 5 - i))
  }

  lemma GroupsSmall(m: bv32)
    ensures AllSmall(Groups(m))
  {
    hide Group; hide Small;
    forall i | 0 <= i < 6 ensures Small(Groups(m)[i]) { GroupSmall(m, 5 - i); }
  }

  lemma GroupSmall(m: bv32, k: nat)
    requires k < 6
    ensures Small(Group(m, k))
  {
  }

  /** The number without its low k groups. */
  function High(m: bv32, k: nat): bv32
    requires k <= 6
  {
    match k
    case 0 => m
    case 1 => m >> 5
    case 2 => m >> 10
    case 3 => m >> 15
    case 4 => m >> 20
    case 5 => m >> 25
    case 6 => 0
  }

  /** A group joined to what is above it. */
  function Join(r: bv32, g: bv32): bv32 { (r << 5) ^ g }

  ghost predicate Joins(m: bv32, k: nat)
    requires k < 6
  {
    High(m, k + 1) < 0x2000000 && Join(High(m, k + 1), Group(m, k)) == High(m, k)
  }

  lemma Joins0(m: bv32)
    requires Packed(m)
    ensures Joins(m, 0)
  {
  }

  lemma Joins1(m: bv32)
    requires Packed(m)
    ensures Joins(m, 1)
  {
  }

  lemma Joins2(m: bv32)
    requires Packed(m)
    ensures Joins(m, 2)
  {
  }

  lemma Joins3(m: bv32)
    requires Packed(m)
    ensures Joins(m, 3)
  {
  }

  lemma Joins4(m: bv32)
    requires Packed(m)
    ensures Joins(m, 4)
  {
  }

  lemma Joins5(m: bv32)
    requires Packed(m)
    ensures Joins(m, 5)
  {
  }

  lemma HighJoins(m: bv32, k: nat)
    requires k < 6 && Packed(m)
    ensures Joins(m, k)
  {
    hide Joins; hide Packed;
    match k
    case 0 => Joins0(m);
    case 1 => Joins1(m);
    case 2 => Joins2(m);
    case 3 => Joins3(m);
    case 4 => Joins4(m);
    case 5 => Joins5(m);
  }

  lemma StepJoins(m: bv32, k: nat)
    requires k < 6 && Packed(m)
    ensures Step(High(m, k + 1), Group(m, k)) == High(m, k)
  {
    hide Step; hide Packed; hide High; hide Group;
    HighJoins(m, k);
    StepShifts(High(m, k + 1), Group(m, k));
  }

  /** Packing the groups again gives the number. */
  lemma {:induction false} GroupsPackTo(m: bv32, n: nat)
    requires Packed(m) && n <= 6
    ensures Remainder(0, Groups(m)[..n]) == High(m, 6 - n)
  {
    hide Step; hide Packed; hide High; hide Group;
    var g := Groups(m);
    if n == 0 {
      HighNone(m);
    } else {
      GroupsPackTo(m, n - 1);
      assert g[..n][..n - 1] == g[..n - 1];
      StepJoins(m, 6 - n);
    }
  }

  lemma HighNone(m: bv32)
    ensures High(m, 6) == 0 && High(m, 0) == m
  {
  }

  lemma GroupsPack(m: bv32)
    requires Packed(m)
    ensures Remainder(0, Groups(m)) == m
  {
    hide Step; hide Packed; hide High; hide Group;
    GroupsPackTo(m, 6);
    HighNone(m);
    assert Groups(m)[..6] == Groups(m);
  }

  /** The groups of the remainder after six zeros, plus a constant, bring the checksum to that constant. */
  lemma ChecksumVerifies(c: bv32, k: bv32)
    requires Packed(c) && Packed(k)
    ensures Remainder(c, Groups(Xor(Remainder(c, Zeros(6)), k))) == k
  {
    hide Step; hide Xor; hide Packed; hide Groups; hide Small;
    var r := Remainder(c, Zeros(6));
    var m := Xor(r, k);
    AllSmallZeros(6);
    RemainderPacked(c, Zeros(6));
    XorSmall(r, k);
    GroupsPack(m);
    SixGroups(m);
    RemainderLinear(c, 0, Zeros(6), Groups(m));
    XorZero(c, c);
    assert XorEach(Zeros(6), Groups(m)) == Groups(m) by {
      forall i | 0 <= i < 6 ensures Xor(0, Groups(m)[i]) == Groups(m)[i] { XorZero(Groups(m)[i], 0); }
    }
    XorBack(r, k);
  }

  lemma AllSmallZeros(n: nat)
    ensures AllSmall(Zeros(n))
  {
  }

  lemma SixGroups(m: bv32)
    ensures |Groups(m)| == 6
  {
  }

  // ----- the step as arithmetic over GF(32)

  /** Times a, modulo a^5 + a^3 + 1. */
  function TimesA(x: bv32): bv32 {
    if x & 16 != 0 then (x << 1) ^ 0x29 else x << 1
  }

  /** The product of two elements of GF(32): the sum of the multiples of one by the powers of a in the other. */
  function Product(x: bv32, y: bv32): bv32 {
    var x1 := TimesA(x);
    var x2 := TimesA(x1);
    var x3 := TimesA(x2);
    var x4 := TimesA(x3);
    Xor(Xor(Selected(y, 1, x), Selected(y, 2, x1)),
        Xor(Xor(Selected(y, 4, x2), Selected(y, 8, x3)), Selected(y, 16, x4)))
  }

  /** The generator x^6 + {29}x^5 + {22}x^4 + {20}x^3 + {21}x^2 + {29}x + {18}, without its leading term. */
  function Generator(k: nat): bv32
    requires k < 6
  {
    [18, 29, 21, 20, 22, 29][k]
  }

  /** Each coefficient of the value fed back is the one shifted out times that of the generator. */
  lemma FeedbackIsProduct(c0: bv32, k: nat)
    requires k < 6
    ensures Group(Feedback(c0), k) == Product(Generator(k), c0)
  {
    hide Xor; hide Selected; hide Group; hide Generator; hide TimesA;
    var s0, s1, s2 := Selected(c0, 1, GEN0), Selected(c0, 2, GEN1), Selected(c0, 4, GEN2);
    var s3, s4 := Selected(c0, 8, GEN3), Selected(c0, 16, GEN4);
    GroupLinear(Xor(s0, s1), Xor(Xor(s2, s3), s4), k);
    GroupLinear(s0, s1, k);
    GroupLinear(Xor(s2, s3), s4, k);
    GroupLinear(s2, s3, k);
    GroupOfSelected(c0, 1, GEN0, k);
    GroupOfSelected(c0, 2, GEN1, k);
    GroupOfSelected(c0, 4, GEN2, k);
    GroupOfSelected(c0, 8, GEN3, k);
    GroupOfSelected(c0, 16, GEN4, k);
    GeneratorMultiples(k);
  }

  lemma GroupOfSelected(c0: bv32, mask: bv32, g: bv32, k: nat)
    requires k < 6
    ensures Group(Selected(c0, mask, g), k) == Selected(c0, mask, Group(g, k))
  {
    hide Group;
    GroupOfZero(k);
  }

  lemma GroupOfZero(k: nat)
    requires k < 6
    ensures Group(0, k) == 0
  {
  }

  /** The five constants are the generator times the powers of a. */
  lemma GeneratorMultiples(k: nat)
    requires k < 6
    ensures var x := Generator(k);
      && Group(GEN0, k) == x && Group(GEN1, k) == TimesA(x) && Group(GEN2, k) == TimesA(TimesA(x))
      && Group(GEN3, k) == TimesA(TimesA(TimesA(x))) && Group(GEN4, k) == TimesA(TimesA(TimesA(TimesA(x))))
  {
    match k
    case 0 => assert Generator(0) == 18;
    case 1 => assert Generator(1) == 29;
    case 2 => assert Generator(2) == 21;
    case 3 => assert Generator(3) == 20;
    case 4 => assert Generator(4) == 22;
    case 5 => assert Generator(5) == 29;
  }

  lemma ShiftedGroups(c: bv32, v: bv32, k: nat)
    requires Packed(c) && Small(v) && k < 6
    ensures Group(Xor(Shifted(c), v), k) == if k == 0 then v else Group(c, k - 1)
    ensures Small(c >> 25) && Group(c, 5) == c >> 25
  {
  }

  lemma GroupLinear(c: bv32, d: bv32, k: nat)
    requires k < 6
    ensures Group(Xor(c, d), k) == Xor(Group(c, k), Group(d, k))
  {
    hide Xor; hide Group;
    match k
    case 0 => GroupLinear0(c, d);
    case 1 => GroupLinear1(c, d);
    case 2 => GroupLinear2(c, d);
    case 3 => GroupLinear3(c, d);
    case 4 => GroupLinear4(c, d);
    case 5 => GroupLinear5(c, d);
  }

  lemma GroupLinear0(c: bv32, d: bv32)
    ensures Group(Xor(c, d), 0) == Xor(Group(c, 0), Group(d, 0))
  {
  }

  lemma GroupLinear1(c: bv32, d: bv32)
    ensures Group(Xor(c, d), 1) == Xor(Group(c, 1), Group(d, 1))
  {
  }

  lemma GroupLinear2(c: bv32, d: bv32)
    ensures Group(Xor(c, d), 2) == Xor(Group(c, 2), Group(d, 2))
  {
  }

  lemma GroupLinear3(c: bv32, d: bv32)
    ensures Group(Xor(c, d), 3) == Xor(Group(c, 3), Group(d, 3))
  {
  }

  lemma GroupLinear4(c: bv32, d: bv32)
    ensures Group(Xor(c, d), 4) == Xor(Group(c, 4), Group(d, 4))
  {
  }

  lemma GroupLinear5(c: bv32, d: bv32)
    ensures Group(Xor(c, d), 5) == Xor(Group(c, 5), Group(d, 5))
  {
  }

  /** One step multiplies by x, adds the value, and reduces by the generator: coefficient by coefficient over GF(32). */
  lemma StepIsReduction(c: bv32, v: bv32, k: nat)
    requires Packed(c) && Small(v) && k < 6
    ensures Group(Step(c, v), k) ==
      Xor(if k == 0 then v else Group(c, k - 1), Product(Generator(k), Group(c, 5)))
  {
    hide Group; hide Xor; hide Shifted; hide Feedback; hide Product; hide Generator; hide Small; hide Packed;
    ShiftedGroups(c, v, k);
    GroupLinear(Xor(Shifted(c), v), Feedback(c >> 25), k);
    FeedbackIsProduct(c >> 25, k);
  }
}
