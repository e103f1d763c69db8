/** Numbers as little-endian sequences of 32-bit limbs. */
module Limbs {
  import opened Powers

  const BASE := 0x1_0000_0000

  type Limb = x: int | 0 <= x < 0x1_0000_0000

  /** The weight of limb i. */
  function Unit(i: nat): (u: nat)
    ensures u >= 1
  {
    Pow2(32 * i)
  }

  function Val(s: seq<Limb>): nat {
    if s == [] then 0 else Val(s[..|s| - 1]) + s[|s| - 1] * Unit(|s| - 1)
  }

  lemma UnitNext(i: nat)
    ensures Unit(i + 1) == BASE * Unit(i)
  {
    Pow2Values();
    Pow2Add(32, 32 * i);
  }

  lemma UnitAdd(i: nat, j: nat)
    ensures Unit(i + j) == Unit(i) * Unit(j)
  {
    Pow2Add(32 * i, 32 * j);
  }

  lemma ValTake(s: seq<Limb>, i: nat)
    requires i < |s|
    ensures Val(s[..i + 1]) == Val(s[..i]) + s[i] * Unit(i)
  {
    assert s[..i + 1][..i] == s[..i];
  }

  lemma Carry(x: int, y: int, u: nat)
    requires x < y
    ensures x * u + u <= y * u
  {
    MulOrder(x + 1, y, u);
  }

  lemma {:induction false} ValBound(s: seq<Limb>)
    ensures Val(s) < Unit(|s|)
  {
    hide Unit;
    if s == [] {
    } else {
      var i := |s| - 1;
      ValBound(s[..i]);
      UnitNext(i);
      Carry(s[i], BASE, Unit(i));
    }
  }

  /** Changing one limb changes the number by that much. */
  lemma {:induction false} ValUpdate(s: seq<Limb>, m: nat, x: Limb)
    requires m < |s|
    ensures Val(s[m := x]) == Val(s) + (x - s[m]) * Unit(m)
  {
    var i := |s| - 1;
    if m < i {
      ValUpdate(s[..i], m, x);
      assert s[m := x][..i] == s[..i][m := x];
    } else {
      assert s[m := x][..i] == s[..i];
      assert (x - s[i]) * Unit(i) == x * Unit(i) - s[i] * Unit(i);
    }
  }

  lemma {:induction false} ValZeros(s: seq<Limb>)
    requires forall i :: 0 <= i < |s| ==> s[i] == 0
    ensures Val(s) == 0
  {
    if s != [] { ValZeros(s[..|s| - 1]); }
  }

  /** Leading zeros do not count. */
  lemma {:induction false} ValHighZeros(s: seq<Limb>, i: nat)
    requires i <= |s| && forall k :: i <= k < |s| ==> s[k] == 0
    ensures Val(s) == Val(s[..i])
  {
    if i < |s| {
      ValHighZeros(s[..|s| - 1], i);
      assert s[..|s| - 1][..i] == s[..i];
    } else {
      assert s[..i] == s;
    }
  }

  /** The first differing limb from the top decides. */
  lemma ValLess(a: seq<Limb>, b: seq<Limb>, i: nat)
    requires |a| == |b| && i < |a| && a[i] < b[i] && a[i + 1..] == b[i + 1..]
    ensures Val(a) < Val(b)
  {
    ValPrefixLess(a, b, i);
    SameHigh(a, b, i + 1);
  }

  lemma ValPrefixLess(a: seq<Limb>, b: seq<Limb>, i: nat)
    requires i < |a| && i < |b| && a[i] < b[i]
    ensures Val(a[..i + 1]) < Val(b[..i + 1])
  {
    hide Unit; hide Val;
    ValTake(a, i);
    ValTake(b, i);
    ValBound(a[..i]);
    Carry(a[i], b[i], Unit(i));
  }

  lemma {:induction false} SameHigh(a: seq<Limb>, b: seq<Limb>, i: nat)
    requires |a| == |b| && i <= |a| && a[i..] == b[i..]
    ensures Val(a) - Val(a[..i]) == Val(b) - Val(b[..i])
    decreases |a|
  {
    if i < |a| {
      var k := |a| - 1;
      assert a[k] == a[i..][k - i] && b[k] == b[i..][k - i];
      assert a[..k][i..] == a[i..][..k - i] && b[..k][i..] == b[i..][..k - i];
      SameHigh(a[..k], b[..k], i);
      assert a[..k][..i] == a[..i] && b[..k][..i] == b[..i];
    } else {
      assert a[..i] == a && b[..i] == b;
    }
  }

  // ----- bitwise or

  function Or(x: nat, y: nat): nat {
    if x == 0 && y == 0 then 0
    else (if x % 2 == 1 || y % 2 == 1 then 1 else 0) + 2 * Or(x / 2, y / 2)
  }

  lemma {:induction false} OrZero(x: nat)
    ensures Or(x, 0) == x
  {
    if x > 0 { OrZero(x / 2); }
  }

  lemma HalfMultiple(x: nat, p: nat)
    requires p > 0 && x % (2 * p) == 0
    ensures x % 2 == 0 && x / 2 % p == 0
  {
    var q := x / (2 * p);
    assert x == 2 * (q * p) by { assert x == q * (2 * p); }
    DivAddMultiple(0, p, q);
  }

  /** Or-ing numbers without a common bit adds them. */
  lemma {:induction false} OrDisjoint(x: nat, y: nat, s: nat)
    requires x % Pow2(s) == 0 && y < Pow2(s)
    ensures Or(x, y) == x + y && Or(y, x) == x + y
  {
    OrSwap(x, y);
    if s == 0 {
      OrZero(x);
    } else {
      HalfMultiple(x, Pow2(s - 1));
      OrDisjoint(x / 2, y / 2, s - 1);
    }
  }

  lemma {:induction false} OrSwap(x: nat, y: nat)
    ensures Or(x, y) == Or(y, x)
  {
    if x != 0 || y != 0 { OrSwap(x / 2, y / 2); }
  }

  /** Or works on the bits above and below a position separately. */
  lemma {:induction false} OrSplit(x: nat, y: nat, s: nat)
    ensures Or(x, y) == Or(Shr(x, s), Shr(y, s)) * Pow2(s) + Or(x % Pow2(s), y % Pow2(s))
  {
    hide Pow2; hide Or; hide Shr;
    if s == 0 {
      SplitNowhere(x);
      SplitNowhere(y);
      OrZero(0);
    } else {
      OrSplit(x / 2, y / 2, s - 1);
      OrHalves(x, y);
      SplitHalf(x, s);
      SplitHalf(y, s);
      OrHalves(x % Pow2(s), y % Pow2(s));
      var hi, p := Or(Shr(x, s), Shr(y, s)), Pow2(s - 1);
      assert hi * (2 * p) == 2 * (hi * p);
    }
  }

  lemma OrHalves(x: nat, y: nat)
    ensures Or(x, y) == (if x % 2 == 1 || y % 2 == 1 then 1 else 0) + 2 * Or(x / 2, y / 2)
  {
  }

  lemma SplitNowhere(x: nat)
    ensures Pow2(0) == 1 && Shr(x, 0) == x && x % Pow2(0) == 0
  {
  }

  lemma SplitHalf(x: nat, s: nat)
    requires s > 0
    ensures Pow2(s) == 2 * Pow2(s - 1) && Shr(x / 2, s - 1) == Shr(x, s)
    ensures x % Pow2(s) / 2 == x / 2 % Pow2(s - 1) && x % Pow2(s) % 2 == x % 2
  {
    var p := Pow2(s - 1);
    DivDiv(x, 2, p);
    var q, r := x / (2 * p), x % (2 * p);
    assert x == q * (2 * p) + r;
    assert x == 2 * (q * p) + r;
    DivModUnique(x / 2, p, q, r / 2);
  }

  // ----- more about values

  /** A number is its low part and its high part. */
  lemma {:induction false} ValSplit(s: seq<Limb>, i: nat)
    requires i <= |s|
    ensures Val(s) == Val(s[..i]) + Val(s[i..]) * Unit(i)
  {
    hide Unit;
    if i == |s| {
      assert s[..i] == s;
    } else {
      var k := |s| - 1;
      ValSplit(s[..k], i);
      assert s[..k][..i] == s[..i] && s[..k][i..] == s[i..][..k - i];
      UnitAdd(k - i, i);
      SplitStep(Val(s[i..][..k - i]), s[k], Unit(k - i), Unit(i));
    }
  }

  lemma SplitStep(v: int, x: int, a: int, b: int)
    ensures (v + x * a) * b == v * b + x * (a * b)
  {
  }

  lemma {:induction false} ValOnes(s: seq<Limb>)
    requires forall i :: 0 <= i < |s| ==> s[i] == BASE - 1
    ensures Val(s) == Unit(|s|) - 1
  {
    hide Unit;
    if s == [] {
      UnitZero();
    } else {
      ValOnes(s[..|s| - 1]);
      UnitNext(|s| - 1);
    }
  }

  lemma UnitZero()
    ensures Unit(0) == 1
  {
  }

  /** Adding one stops at the first limb that does not wrap. */
  lemma IncrementStops(a: seq<Limb>, b: seq<Limb>, i: nat)
    requires |a| == |b| && i < |a| && a[i + 1..] == b[i + 1..] && a[i] < BASE - 1 && b[i] == a[i] + 1
    requires forall k :: 0 <= k < i ==> a[k] == BASE - 1 && b[k] == 0
    ensures Val(b) == Val(a) + 1
  {
    hide Unit; hide Val;
    SameHigh(a, b, i + 1);
    ValTake(a, i);
    ValTake(b, i);
    ValOnes(a[..i]);
    ValZeros(b[..i]);
    assert b[i] * Unit(i) == a[i] * Unit(i) + Unit(i);
  }

  /** One column of an addition. */
  lemma AddColumn(r: int, a: int, b: int, carry: int, x: int, y: int, u: int)
    requires r + carry * u == a + b
    ensures var n := carry + x + y; r + n % BASE * u + n / BASE * (BASE * u) == a + x * u + (b + y * u)
  {
    var n := carry + x + y;
    assert n % BASE * u + n / BASE * (BASE * u)
      == n * u by { assert n == n % BASE + n / BASE * BASE; Spread(n % BASE, n / BASE, u); }
    assert n * u == carry * u + x * u + y * u;
  }

  lemma Spread(lo: int, hi: int, u: int)
    ensures (lo + hi * BASE) * u == lo * u + hi * (BASE * u)
  {
  }

  /** One column of a multiplication by a single limb. */
  lemma ScaleColumn(r: int, a: int, f: int, carry: int, x: int, u: int)
    requires r + carry * u == a * f
    ensures var n := carry + f * x; r + n % BASE * u + n / BASE * (BASE * u) == (a + x * u) * f
  {
    var n := carry + f * x;
    assert n % BASE * u + n / BASE * (BASE * u)
      == n * u by { assert n == n % BASE + n / BASE * BASE; Spread(n % BASE, n / BASE, u); }
    assert n * u == carry * u + f * x * u;
    assert (a + x * u) * f == a * f + f * x * u;
  }

  // ----- or-ing into a limb

  lemma {:induction false} OrBound(x: nat, y: nat, n: nat)
    requires x < Pow2(n) && y < Pow2(n)
    ensures Or(x, y) < Pow2(n)
  {
    if n > 0 && (x != 0 || y != 0) { OrBound(x / 2, y / 2, n - 1); }
  }

  function OrLimb(x: Limb, y: Limb): Limb {
    Pow2Values();
    OrBound(x, y, 32);
    Or(x, y)
  }

  /** Or-ing into limb m, if there is such a limb. */
  function OrAt(s: seq<Limb>, m: nat, d: Limb): (r: seq<Limb>)
    ensures |r| == |s|
  {
    if m < |s| then s[m := OrLimb(s[m], d)] else s
  }

  /** How often the modulus of width w goes into a limb d placed at m. */
  ghost function Over(w: nat, m: nat, d: nat): nat {
    if m < w then 0 else d * Unit(m - w)
  }

  /** No bit of x is set from position b on, none of y below it, or the other way round. */
  ghost predicate Apart(x: nat, y: nat, b: nat) {
    (x % Pow2(b) == 0 && y < Pow2(b)) || (y % Pow2(b) == 0 && x < Pow2(b))
  }

  lemma OrAtVal(s: seq<Limb>, m: nat, d: Limb, b: nat)
    requires m < |s| ==> Apart(s[m], d, b)
    ensures Val(OrAt(s, m, d)) + Over(|s|, m, d) * Unit(|s|) == Val(s) + d * Unit(m)
  {
    hide Unit; hide Val; hide Or;
    if m < |s| {
      if s[m] % Pow2(b) == 0 && d < Pow2(b) { OrDisjoint(s[m], d, b); } else { OrDisjoint(d, s[m], b); }
      var x: int := OrLimb(s[m], d);
      ValUpdate(s, m, OrLimb(s[m], d));
      assert x - s[m] == d;
    } else {
      UnitAdd(m - |s|, |s|);
      assert d * Unit(m - |s|) * Unit(|s|) == d * (Unit(m - |s|) * Unit(|s|));
    }
  }

  // ----- shifting

  /** The low and the high limb of a limb shifted left by less than its width. */
  function ShlLow(x: Limb, s: nat): Limb { x * Pow2(s) % BASE }
  function ShlHigh(x: Limb, s: nat): Limb
    requires s < 32
  {
    QuotientBound(x, Pow2(32 - s));
    x / Pow2(32 - s)
  }

  lemma ShlParts(x: Limb, s: nat)
    requires s < 32
    ensures x * Pow2(s) == ShlLow(x, s) + ShlHigh(x, s) * BASE
    ensures ShlHigh(x, s) < Pow2(s) && ShlLow(x, s) % Pow2(s) == 0
  {
    Pow2Values();
    Pow2Add(s, 32 - s);
    ShlArithmetic(x, Pow2(s), Pow2(32 - s));
  }

  lemma ShlArithmetic(x: int, p: int, q: int)
    requires p >= 1 && q >= 1 && p * q == BASE && 0 <= x < BASE
    ensures x * p / BASE == x / q && x * p == x * p % BASE + x / q * BASE
    ensures x / q < p && x * p % BASE % p == 0
  {
    var h, l := x / q, x % q;
    assert x * p == h * BASE + l * p by { assert x == h * q + l; assert (h * q + l) * p == h * (p * q) + l * p; }
    assert 0 <= l * p < BASE by { MulOrder(l + 1, q, p); assert (l + 1) * p == l * p + p; MulOrder(0, l, p); }
    DivModUnique(x * p, BASE, h, l * p);
    DivAddMultiple(0, p, l);
    MulOrder(p, h, q);
  }

  /** The first i limbs shifted left by k limbs and s bits, but for a multiple of the modulus. */
  ghost predicate ShiftedLeft(r: seq<Limb>, a: seq<Limb>, i: nat, k: nat, s: nat, over: int)
    requires i <= |a|
  {
    && Val(r) + over * Unit(|r|) == Val(a[..i]) * Pow2(s) * Unit(k)
    && (forall m :: i + k < m < |r| ==> r[m] == 0)
    && (i + k < |r| ==> r[i + k] < Pow2(s))
  }

  /** One more limb shifted into place. */
  lemma ShlStep(r: seq<Limb>, a: seq<Limb>, i: nat, k: nat, s: nat, over: int)
    requires i < |a| == |r| && s < 32 && ShiftedLeft(r, a, i, k, s, over)
    ensures ShiftedLeft(OrAt(OrAt(r, i + k + 1, ShlHigh(a[i], s)), i + k, ShlLow(a[i], s)), a, i + 1, k, s,
                        over + Over(|r|, i + k + 1, ShlHigh(a[i], s)) + Over(|r|, i + k, ShlLow(a[i], s)))
  {
    hide Unit; hide Val; hide Pow2; hide ShlLow; hide ShlHigh; hide Over;
    var hi, lo := ShlHigh(a[i], s), ShlLow(a[i], s);
    ShlParts(a[i], s);
    var u := OrAt(r, i + k + 1, hi);
    if i + k + 1 < |r| { ZeroApart(hi, s); OrSwap(0, hi); OrZero(hi); }
    OrAtVal(r, i + k + 1, hi, s);
    OrAtVal(u, i + k, lo, s);
    ValTake(a, i);
    UnitNext(i + k);
    UnitAdd(i, k);
    ShlSum(Val(r), Val(u), Val(OrAt(u, i + k, lo)), Over(|r|, i + k + 1, hi), Over(|r|, i + k, lo), over, Unit(|r|),
           Val(a[..i]), a[i], hi, lo, Pow2(s), Unit(i), Unit(k));
  }

  lemma ZeroApart(d: nat, b: nat)
    ensures Apart(0, d, b) || d >= Pow2(b)
  {
    DivAddMultiple(0, Pow2(b), 0);
  }

  lemma ShlSum(r: int, u: int, t: int, o1: int, o2: int, over: int, m: int, low: int, x: int, hi: int, lo: int, p: int,
               ui: int, uk: int)
    requires r + over * m == low * p * uk
    requires u + o1 * m == r + hi * (BASE * (ui * uk)) && t + o2 * m == u + lo * (ui * uk)
    requires x * p == lo + hi * BASE
    ensures t + (over + o1 + o2) * m == (low + x * ui) * p * uk
  {
    assert (over + o1 + o2) * m == over * m + o1 * m + o2 * m;
    assert (low + x * ui) * p * uk == low * p * uk + (x * p) * (ui * uk);
    Spread(lo, hi, ui * uk);
  }

  /** The high and the low limb of a limb shifted right by less than its width. */
  function ShrHigh(x: Limb, s: nat): Limb {
    QuotientBound(x, Pow2(s));
    x / Pow2(s)
  }

  function ShrLow(x: Limb, s: nat): Limb
    requires s < 32
  {
    x * Pow2(32 - s) % BASE
  }

  lemma ShrParts(x: Limb, s: nat)
    requires s < 32
    ensures x * BASE == (ShrHigh(x, s) * BASE + ShrLow(x, s)) * Pow2(s)
    ensures ShrHigh(x, s) < Pow2(32 - s) && ShrLow(x, s) % Pow2(32 - s) == 0
  {
    hide Pow2;
    Pow2Values();
    Pow2Add(32 - s, s);
    var p, q := Pow2(32 - s), Pow2(s);
    ShlArithmetic(x, p, q);
    ShrArithmetic(x, p, q, x / q, x * p % BASE);
  }

  lemma ShrArithmetic(x: int, p: int, q: int, h: int, l: int)
    requires p * q == BASE && x * p == l + h * BASE
    ensures x * BASE == (h * BASE + l) * q
  {
    assert x * (p * q) == (x * p) * q;
  }

  /** The first i limbs shifted right by k limbs and s bits. */
  ghost predicate ShiftedRight(r: seq<Limb>, a: seq<Limb>, i: nat, k: nat, s: nat)
    requires i <= |a| == |r| && s < 32
  {
    && Val(r) == Val(a[..i]) / (Pow2(s) * Unit(k))
    && (forall m :: 0 <= m < |r| && i - k <= m ==> r[m] == 0)
    && (i > k ==> r[i - k - 1] < Pow2(32 - s))
  }

  /** A limb placed at position m and, with its low bits, at the one below. */
  function ShrPlaced(r: seq<Limb>, m: int, x: Limb, s: nat): (t: seq<Limb>)
    requires s < 32
    ensures |t| == |r|
  {
    var u := if m >= 1 then OrAt(r, m - 1, ShrLow(x, s)) else r;
    if m >= 0 then OrAt(u, m, ShrHigh(x, s)) else u
  }

  /** One more limb shifted into place. */
  lemma ShrStep(r: seq<Limb>, a: seq<Limb>, i: nat, k: nat, s: nat)
    requires i < |a| == |r| && s < 32 && ShiftedRight(r, a, i, k, s)
    ensures ShiftedRight(ShrPlaced(r, i - k, a[i], s), a, i + 1, k, s)
  {
    hide Unit; hide Val; hide Pow2; hide ShrLow; hide ShrHigh; hide Or;
    if i > k {
      ShrInner(r, a, i, k, s);
    } else if i == k {
      ShrFirst(r, a, i, s);
    } else {
      ValZeros(r);
      ShrNone(a, i, k, s);
    }
  }

  lemma ShrNone(a: seq<Limb>, i: nat, k: nat, s: nat)
    requires i < |a| && i < k
    ensures Val(a[..i + 1]) / (Pow2(s) * Unit(k)) == 0
  {
    hide Val;
    ValBound(a[..i + 1]);
    Pow2Monotone(32 * (i + 1), 32 * k);
    MulOrder(1, Pow2(s), Unit(k));
    DivModUnique(Val(a[..i + 1]), Pow2(s) * Unit(k), 0, Val(a[..i + 1]));
  }

  lemma ShrFirst(r: seq<Limb>, a: seq<Limb>, i: nat, s: nat)
    requires i < |a| == |r| && s < 32
    requires forall m :: 0 <= m < |r| ==> r[m] == 0
    ensures var t := OrAt(r, 0, ShrHigh(a[i], s));
      Val(t) == Val(a[..i + 1]) / (Pow2(s) * Unit(i)) && t[0] == ShrHigh(a[i], s) &&
        (forall m :: 0 < m < |r| ==> t[m] == 0) && t[0] < Pow2(32 - s)
  {
    hide Unit; hide Val; hide Pow2; hide Or;
    var h := ShrHigh(a[i], s);
    ShrParts(a[i], s);
    OrSwap(0, h);
    OrZero(h);
    ValZeros(r);
    UnitZero();
    ValUpdate(r, 0, h);
    assert OrAt(r, 0, h) == r[0 := h];
    ValTake(a, i);
    ValBound(a[..i]);
    DivAddMultiple(Val(a[..i]), Unit(i), a[i]);
    DivModUnique(Val(a[..i]), Unit(i), 0, Val(a[..i]));
    DivDiv(Val(a[..i + 1]), Unit(i), Pow2(s));
  }

  lemma ShrInner(r: seq<Limb>, a: seq<Limb>, i: nat, k: nat, s: nat)
    requires k < i < |a| == |r| && s < 32
    requires Val(r) == Val(a[..i]) / (Pow2(s) * Unit(k))
    requires forall m :: i - k <= m < |r| ==> r[m] == 0
    requires r[i - k - 1] < Pow2(32 - s)
    ensures var t := OrAt(OrAt(r, i - k - 1, ShrLow(a[i], s)), i - k, ShrHigh(a[i], s));
      Val(t) == Val(a[..i + 1]) / (Pow2(s) * Unit(k)) && (forall m :: i + 1 - k <= m < |r| ==> t[m] == 0) &&
        t[i - k] < Pow2(32 - s)
  {
    hide Unit; hide Val; hide Pow2; hide Or; hide ShrLow; hide ShrHigh; hide Over;
    var h, l, n := ShrHigh(a[i], s), ShrLow(a[i], s), i - k - 1;
    ShrParts(a[i], s);
    var u := OrAt(r, n, l);
    OrAtVal(r, n, l, 32 - s);
    ZeroApart(h, 32 - s);
    OrAtVal(u, n + 1, h, 32 - s);
    assert Over(|r|, n, l) == 0 && Over(|r|, n + 1, h) == 0 by { OverZero(|r|, n, l); OverZero(|r|, n + 1, h); }
    OrSwap(0, h);
    OrZero(h);
    ValTake(a, i);
    UnitNext(n);
    UnitAdd(n + 1, k);
    ShrSum(a[i], h, l, Pow2(s), Unit(n), Unit(k));
    MulOrder(1, Pow2(s), Unit(k));
    DivAddMultiple(Val(a[..i]), Pow2(s) * Unit(k), h * (BASE * Unit(n)) + l * Unit(n));
  }

  lemma OverZero(w: nat, m: nat, d: nat)
    requires m < w
    ensures Over(w, m, d) == 0
  {
  }

  lemma ShrSum(x: int, h: int, l: int, p: int, un: int, uk: int)
    requires x * BASE == (h * BASE + l) * p
    ensures x * (BASE * un * uk) == (h * (BASE * un) + l * un) * (p * uk)
  {
    assert x * (BASE * un * uk) == (x * BASE) * (un * uk);
    assert (h * (BASE * un) + l * un) == (h * BASE + l) * un;
    assert (h * BASE + l) * un * (p * uk) == ((h * BASE + l) * p) * (un * uk);
  }

  // ----- bit positions

  /** Bit n of a number. */
  predicate BitSet(x: nat, n: nat) { x / Pow2(n) % 2 == 1 }

  /** The topmost limb and its topmost bit place the whole number. */
  lemma TopBit(s: seq<Limb>, pos: nat, n: nat)
    requires pos < |s| && n < 32 && Pow2(n) <= s[pos] < Pow2(n + 1) && forall k :: pos < k < |s| ==> s[k] == 0
    ensures Pow2(32 * pos + n) <= Val(s) < Pow2(32 * pos + n + 1)
  {
    hide Val; hide Pow2;
    ValHighZeros(s, pos + 1);
    ValTake(s, pos);
    ValBound(s[..pos]);
    Pow2Add(n, 32 * pos);
    Pow2Add(n + 1, 32 * pos);
    MulOrder(Pow2(n), s[pos], Unit(pos));
    Carry(s[pos], Pow2(n + 1), Unit(pos));
  }

  lemma BitTest(x: nat, n: nat)
    requires x < Pow2(n + 1)
    ensures BitSet(x, n) <==> Pow2(n) <= x
  {
    var p := Pow2(n);
    if x < p {
      DivModUnique(x, p, 0, x);
    } else {
      DivModUnique(x, p, 1, x - p);
    }
  }

  /** All bits below position p are clear. */
  ghost predicate LowClear(s: seq<Limb>, p: nat) {
    && (forall m :: 0 <= m < |s| && m < p / 32 ==> s[m] == 0)
    && (p / 32 < |s| ==> s[p / 32] % Pow2(p % 32) == 0)
  }

  /** Setting the bit just below the clear ones adds its weight. */
  lemma SetNextBit(s: seq<Limb>, p: nat)
    requires LowClear(s, p + 1) && p / 32 < |s|
    ensures Pow2(p % 32) < BASE
    ensures var t := OrAt(s, p / 32, Pow2(p % 32)); Val(t) == Val(s) + Pow2(p) && LowClear(t, p)
    ensures LowClear(s, p)
  {
    hide Unit; hide Val; hide Pow2; hide Or; hide Over; hide OrAt; hide LowClear;
    var m, n := p / 32, p % 32;
    assert Pow2(n) < BASE by { Pow2Values(); Pow2Increases(n, 32); }
    NextClear(s, p);
    assert Pow2(n) < Pow2(n + 1) by { Pow2Increases(n, n + 1); }
    OrAtVal(s, m, Pow2(n), n + 1);
    OverZero(|s|, m, Pow2(n));
    assert Pow2(n) * Unit(m) == Pow2(p) by { UnitIs(m); Pow2Add(n, 32 * m); }
    OrNextClear(s, p, m, n);
  }

  lemma OrNextClear(s: seq<Limb>, p: nat, m: nat, n: nat)
    requires m == p / 32 < |s| && n == p % 32 && LowClear(s, p + 1) && Pow2(n) < BASE
    requires s[m] % Pow2(n + 1) == 0 && s[m] % Pow2(n) == 0 && Pow2(n) < Pow2(n + 1)
    ensures LowClear(OrAt(s, m, Pow2(n)), p) && LowClear(s, p)
  {
    hide Pow2; hide Or;
    OrDisjoint(s[m], Pow2(n), n + 1);
    DivAddMultiple(s[m], Pow2(n), 1);
  }

  lemma UnitIs(m: nat)
    ensures Unit(m) == Pow2(32 * m)
  {
  }

  lemma NextClear(s: seq<Limb>, p: nat)
    requires LowClear(s, p + 1) && p / 32 < |s|
    ensures s[p / 32] % Pow2(p % 32 + 1) == 0 && s[p / 32] % Pow2(p % 32) == 0
  {
    var n := p % 32;
    if n == 31 {
      assert (p + 1) / 32 == p / 32 + 1;
      DivAddMultiple(0, Pow2(32), 0);
    } else {
      assert (p + 1) / 32 == p / 32 && (p + 1) % 32 == n + 1;
    }
    HalfClear(s[p / 32], Pow2(n));
  }

  lemma HalfClear(x: nat, p: nat)
    requires p > 0 && x % (2 * p) == 0
    ensures x % p == 0
  {
    var q := x / (2 * p);
    assert x == (q * 2) * p by { assert x == q * (2 * p); }
    DivAddMultiple(0, p, q * 2);
  }
}
