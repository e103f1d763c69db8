/** Powers of two and the few facts about products and division used with them. */
module Powers {

  function Pow2(k: nat): (r: nat)
    ensures r >= 1
  {
    if k == 0 then 1 else 2 * Pow2(k - 1)
  }

  lemma MulTwice(a: int, b: int)
    ensures a * (2 * b) == 2 * (a * b)
  {
  }

  lemma {:induction false} Pow2Add(a: nat, b: nat)
    ensures Pow2(a + b) == Pow2(a) * Pow2(b)
  {
    if b > 0 {
      Pow2Add(a, b - 1);
      MulTwice(Pow2(a), Pow2(b - 1));
    }
  }

  lemma {:induction false} Pow2Monotone(a: nat, b: nat)
    requires a <= b
    ensures Pow2(a) <= Pow2(b)
    decreases b
  {
    if a < b { Pow2Monotone(a, b - 1); }
  }

  lemma Pow2Increases(a: nat, b: nat)
    requires a < b
    ensures 2 * Pow2(a) <= Pow2(b)
  {
    Pow2Monotone(a + 1, b);
  }

  lemma Pow2Values()
    ensures Pow2(8) == 0x100 && Pow2(16) == 0x1_0000 && Pow2(24) == 0x100_0000
    ensures Pow2(31) == 0x8000_0000 && Pow2(32) == 0x1_0000_0000
  {
    assert Pow2(4) == 16;
    Pow2Add(4, 4);
    Pow2Add(8, 8);
    Pow2Add(16, 8);
    Pow2Add(16, 16);
  }

  /** The quotient and remainder are determined by the division equation. */
  lemma DivModUnique(x: int, d: int, q: int, r: int)
    requires d > 0 && x == q * d + r && 0 <= r < d
    ensures x / d == q && x % d == r
  {
    var e := x / d - q;
    assert x / d * d + x % d == x;
    assert e * d == r - x % d;
    MulOrder(1, e, d);
    MulOrder(e, -1, d);
  }

  /** A multiple of the divisor passes through. */
  lemma DivAddMultiple(x: int, d: int, k: int)
    requires d > 0
    ensures (x + k * d) / d == x / d + k && (x + k * d) % d == x % d
  {
    assert x + k * d == (x / d + k) * d + x % d;
    DivModUnique(x + k * d, d, x / d + k, x % d);
  }

  lemma MulRotates(a: int, b: int, c: int)
    ensures a * (b * c) == (a * c) * b
  {
  }

  lemma MulDistributes(a: int, b: int, c: int)
    ensures (a + b) * c == a * c + b * c
  {
  }

  /** Digits of a two-place number are below its range. */
  lemma TwoPlaces(s: int, r: int, c: int, d: int)
    requires 0 <= s < d && 0 <= r < c
    ensures 0 <= s * c + r < c * d
  {
    MulOrder(0, s, c);
    MulOrder(s + 1, d, c);
    MulDistributes(s, 1, c);
  }

  lemma DivDiv(x: nat, c: int, d: int)
    requires c > 0 && d > 0
    ensures c * d > 0 && x / (c * d) == x / c / d
  {
    var y, r := x / c, x % c;
    var q, s := y / d, y % d;
    assert x == y * c + r && 0 <= r < c;
    assert y == q * d + s && 0 <= s < d;
    MulDistributes(q * d, s, c);
    MulRotates(q, c, d);
    TwoPlaces(s, r, c, d);
    DivModUnique(x, c * d, q, s * c + r);
  }

  /** Multiplying by something nonnegative keeps the order. */
  lemma MulOrder(a: int, b: int, c: int)
    requires c >= 0
    ensures a <= b ==> a * c <= b * c
  {
  }

  /** Scaling a number below the base down by the base stays below the factor. */
  lemma ScaledBelow(x: nat, n: nat, base: nat)
    requires x < base && n >= 1
    ensures 0 <= x * n / base < n
  {
    MulOrder(0, x, n);
    MulOrder(x + 1, base, n);
    MulDistributes(x, 1, n);
    DivMonotone(0, x * n, base);
    MulOrder(n, x * n / base, base);
  }

  lemma DivMonotone(a: int, b: int, d: int)
    requires a <= b && d > 0
    ensures a / d <= b / d
  {
    MulOrder(b / d + 1, a / d, d);
  }

  lemma QuotientBound(x: nat, d: nat)
    requires d >= 1
    ensures 0 <= x / d <= x
  {
    MulOrder(1, d, x / d);
  }

  /** Shifting a number left or right by some bits. */
  function Shl(x: nat, e: nat): nat {
    MulOrder(0, x, Pow2(e));
    x * Pow2(e)
  }

  function Shr(x: nat, e: nat): nat {
    DivMonotone(0, x, Pow2(e));
    x / Pow2(e)
  }

  /** The integer part of the binary logarithm. */
  function Log2(x: nat): nat
    requires x >= 1
  {
    if x == 1 then 0 else 1 + Log2(x / 2)
  }

  lemma {:induction false} Log2Bound(x: nat, k: nat)
    requires x >= 1 && Pow2(k) <= x
    ensures k <= Log2(x)
  {
    if k > 0 { Log2Bound(x / 2, k - 1); }
  }
}
