/** Numbers in an arbitrary base, most significant digit first. */
module Radix {
  import opened Powers

  function Pow(b: nat, e: nat): (r: nat)
    ensures b >= 1 ==> r >= 1
  {
    if e == 0 then 1 else b * Pow(b, e - 1)
  }

  lemma MulAssociates(a: int, b: int, c: int)
    ensures a * (b * c) == a * b * c
  {
  }

  lemma {:induction false} PowAdd(b: nat, x: nat, y: nat)
    ensures Pow(b, x + y) == Pow(b, x) * Pow(b, y)
  {
    if x > 0 {
      PowAdd(b, x - 1, y);
      MulAssociates(b, Pow(b, x - 1), Pow(b, y));
    }
  }

  lemma {:induction false} PowMul(b: nat, x: nat, y: nat)
    ensures Pow(Pow(b, x), y) == Pow(b, x * y)
  {
    if y > 0 {
      PowMul(b, x, y - 1);
      PowAdd(b, x, x * (y - 1));
      assert x + x * (y - 1) == x * y;
    }
  }

  lemma {:induction false} PowExponent(b: nat, x: nat, y: nat)
    requires b >= 1 && x <= y
    ensures Pow(b, x) <= Pow(b, y)
  {
    PowAdd(b, x, y - x);
    MulOrder(1, Pow(b, y - x), Pow(b, x));
  }

  lemma {:induction false} PowBase(a: nat, b: nat, e: nat)
    requires a <= b
    ensures Pow(a, e) <= Pow(b, e)
  {
    if e > 0 {
      PowBase(a, b, e - 1);
      MulOrder(Pow(a, e - 1), Pow(b, e - 1), a);
      MulOrder(a, b, Pow(b, e - 1));
    }
  }

  lemma StrictProduct(a: nat, b: nat, p: nat, q: nat)
    requires a < b && p <= q && q >= 1
    ensures a * p < b * q
  {
    MulOrder(p, q, a);
    MulOrder(a + 1, b, q);
    MulDistributes(a, 1, q);
  }

  /** A strictly larger base gives a strictly larger power. */
  lemma PowStrict(a: nat, b: nat, e: nat)
    requires a < b && e >= 1
    ensures Pow(a, e) < Pow(b, e)
  {
    hide Pow;
    PowBase(a, b, e - 1);
    PowNext(a, e - 1);
    PowNext(b, e - 1);
    StrictProduct(a, b, Pow(a, e - 1), Pow(b, e - 1));
  }

  // ----- digits

  ghost predicate AllBelow(d: seq<nat>, b: nat) { forall i :: 0 <= i < |d| ==> d[i] < b }

  function Num(d: seq<nat>, b: nat): nat {
    if d == [] then 0 else Num(d[..|d| - 1], b) * b + d[|d| - 1]
  }

  function Quot(n: nat, b: nat): nat
    requires b >= 2
  {
    DivMonotone(0, n, b);
    n / b
  }

  function Rem(n: nat, b: nat): nat
    requires b >= 2
  {
    n % b
  }

  lemma DivStep(n: nat, b: nat)
    requires b >= 2
    ensures Quot(n, b) * b + Rem(n, b) == n && Rem(n, b) < b && (n > 0 ==> Quot(n, b) < n) &&
      (Quot(n, b) == 0 ==> Rem(n, b) == n)
  {
    MulOrder(2, b, n / b);
  }

  /** The digits of a number without leading zeros. */
  function Digits(n: nat, b: nat): seq<nat>
    requires b >= 2
  {
    if n == 0 then []
    else
      DivStep(n, b);
      Digits(Quot(n, b), b) + [Rem(n, b)]
  }

  lemma BoundStep(n: nat, p: nat, b: nat, x: nat)
    requires n < p && x < b
    ensures n * b + x < b * p
  {
    MulOrder(n + 1, p, b);
  }

  lemma {:induction false} NumBound(d: seq<nat>, b: nat)
    requires b >= 1 && AllBelow(d, b)
    ensures Num(d, b) < Pow(b, |d|)
  {
    hide Pow;
    if d == [] {
      PowZero(b);
    } else {
      var m := d[..|d| - 1];
      NumBound(m, b);
      PowNext(b, |m|);
      BoundStep(Num(m, b), Pow(b, |m|), b, d[|d| - 1]);
    }
  }

  lemma NumNone(b: nat)
    ensures Num([], b) == 0
  {
  }

  lemma NumPush(d: seq<nat>, x: nat, b: nat)
    ensures Num(d + [x], b) == Num(d, b) * b + x
  {
    assert (d + [x])[..|d|] == d;
  }

  lemma {:induction false} NumOfDigits(n: nat, b: nat)
    requires b >= 2
    ensures Num(Digits(n, b), b) == n && AllBelow(Digits(n, b), b) && (Digits(n, b) != [] ==> Digits(n, b)[0] != 0)
  {
    hide Quot; hide Rem; hide Num;
    if n == 0 {
      NumNone(b);
    } else {
      DivStep(n, b);
      NumOfDigits(Quot(n, b), b);
      NumPush(Digits(Quot(n, b), b), Rem(n, b), b);
    }
  }

  lemma {:induction false} NumPositive(d: seq<nat>, b: nat)
    requires b >= 1 && d != [] && d[0] != 0
    ensures Num(d, b) >= 1
  {
    if |d| > 1 {
      NumPositive(d[..|d| - 1], b);
      MulOrder(1, Num(d[..|d| - 1], b), b);
    } else {
      assert d[..0] == [];
    }
  }

  /** Digits without a leading zero are those of their number. */
  lemma {:induction false} DigitsOfNum(d: seq<nat>, b: nat)
    requires b >= 2 && AllBelow(d, b) && (d != [] ==> d[0] != 0)
    ensures Digits(Num(d, b), b) == d
  {
    hide Num; hide Quot; hide Rem;
    if d == [] {
      NumNone(b);
    } else {
      var m, x := d[..|d| - 1], d[|d| - 1];
      DigitsOfNum(m, b);
      NumPositive(d, b);
      assert d == m + [x];
      NumPush(m, x, b);
      QuotRem(Num(d, b), b, Num(m, b), x);
    }
  }

  lemma QuotRem(n: nat, b: nat, q: nat, r: nat)
    requires b >= 2 && n == q * b + r && r < b
    ensures Quot(n, b) == q && Rem(n, b) == r
  {
    DivModUnique(n, b, q, r);
  }

  /** A leading digit weighs the power of its place. */
  lemma {:induction false} NumCons(x: nat, d: seq<nat>, b: nat)
    ensures Num([x] + d, b) == x * Pow(b, |d|) + Num(d, b)
  {
    hide Pow;
    if d == [] {
      assert [x] + d == [] + [x];
      NumPush([], x, b);
      PowZero(b);
    } else {
      var m, y := d[..|d| - 1], d[|d| - 1];
      NumCons(x, m, b);
      assert [x] + d == ([x] + m) + [y] && d == m + [y];
      NumPush([x] + m, y, b);
      NumPush(m, y, b);
      PowNext(b, |m|);
      ConsStep(x, Pow(b, |m|), Num(m, b), b, y);
    }
  }

  lemma PowZero(b: nat)
    ensures Pow(b, 0) == 1
  {
  }

  lemma PowNext(b: nat, e: nat)
    ensures Pow(b, e + 1) == b * Pow(b, e)
  {
  }

  lemma ConsStep(x: int, p: int, m: int, b: int, y: int)
    ensures (x * p + m) * b + y == x * (b * p) + (m * b + y)
  {
  }

  lemma {:induction false} NumLeadingZeros(d: seq<nat>, k: nat, b: nat)
    requires k <= |d| && forall i :: 0 <= i < k ==> d[i] == 0
    ensures Num(d, b) == Num(d[k..], b)
    decreases k
  {
    if k > 0 {
      assert d == [0] + d[1..];
      NumCons(0, d[1..], b);
      NumLeadingZeros(d[1..], k - 1, b);
      assert d[1..][k - 1..] == d[k..];
    }
  }

  /** Digits with a nonzero first one reach the power of their length. */
  lemma NumReaches(d: seq<nat>, b: nat)
    requires b >= 1 && d != [] && AllBelow(d, b)
    ensures d[0] != 0 <==> Num(d, b) >= Pow(b, |d| - 1)
  {
    hide Pow; hide Num;
    assert d == [d[0]] + d[1..];
    NumCons(d[0], d[1..], b);
    MulOrder(1, d[0], Pow(b, |d| - 1));
    NumBound(d[1..], b);
  }
}
