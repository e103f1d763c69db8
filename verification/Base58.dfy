/** Base58 text, with the digit buffers updated in place. */
module Base58 {
  import opened Powers
  import opened Radix
  import opened Base58Sizes

  /** The places of a buffer before its last `length` digits are zero. */
  ghost predicate ZeroBefore(d: seq<nat>, length: nat) {
    length <= |d| && forall i :: 0 <= i < |d| - length ==> d[i] == 0
  }

  /**
   * The inner loop of both coders: the buffer times a factor plus a digit of the other base. With room for the
   * result the carry is always used up, and the new length is exact when it grows.
   */
  method MultiplyAdd(buf: array<nat>, length: nat, base: nat, factor: nat, ch: nat) returns (newLength: nat)
    requires base >= 2 && factor >= 1 && ch < factor && AllBelow(buf[..], base) && ZeroBefore(buf[..], length)
    requires Num(buf[..], base) * factor + ch < Pow(base, buf.Length)
    modifies buf
    ensures AllBelow(buf[..], base) && ZeroBefore(buf[..], newLength) && length <= newLength
    ensures Num(buf[..], base) == old(Num(buf[..], base)) * factor + ch
    ensures newLength > length ==> Num(buf[..], base) >= Pow(base, newLength - 1)
  {
    hide Partly; hide Num; hide Pow; hide ZeroBefore; hide AllBelow;
    ghost var before := buf[..];
    var carry: nat, i: nat := ch, 0;
    PartlyStarts(before, length, base, factor, ch);
    while (carry != 0 || i < length) && i < buf.Length
      invariant i <= buf.Length && Partly(before, buf[..], length, base, factor, ch, carry, i)
    {
      var p := buf.Length - 1 - i;
      PartlyNext(before, buf[..], length, base, factor, ch, carry, i);
      ghost var now := buf[..];
      carry := carry + factor * buf[p];
      var digit: nat := carry % base;
      buf[p] := digit;
      assert buf[..] == now[p := digit];
      carry := carry / base;
      i := i + 1;
    }
    PartlyEnds(before, buf[..], length, base, factor, ch, carry, i);
    assert carry == 0;
    newLength := i;
  }

  /** The last i digits are through, the others as before. */
  ghost predicate Partly(before: seq<nat>, now: seq<nat>, length: nat, base: nat, factor: nat, ch: nat, carry: nat,
                         i: nat) {
    && |now| == |before| && i <= |before| && AllBelow(now, base)
    && (forall k :: 0 <= k < |before| - i ==> now[k] == before[k])
    && Num(now[|now| - i..], base) + carry * Pow(base, i) == Num(before[|before| - i..], base) * factor + ch
    && (i > length ==> Num(before, base) * factor + ch >= Pow(base, i - 1))
  }

  lemma PartlyStarts(d: seq<nat>, length: nat, base: nat, factor: nat, ch: nat)
    requires AllBelow(d, base)
    ensures Partly(d, d, length, base, factor, ch, ch, 0)
  {
  }

  lemma PartlyNext(before: seq<nat>, now: seq<nat>, length: nat, base: nat, factor: nat, ch: nat, carry: nat, i: nat)
    requires base >= 2 && ZeroBefore(before, length) && i < |before| && (carry != 0 || i < length)
    requires Partly(before, now, length, base, factor, ch, carry, i)
    ensures var p := |now| - 1 - i; var c := carry + factor * now[p];
      0 <= c && Partly(before, now[p := c % base], length, base, factor, ch, c / base, i + 1)
  {
    hide Pow; hide Num; hide AllBelow;
    var p := |now| - 1 - i;
    var low := now[p + 1..];
    if i >= length { CarryReaches(before, low, length, base, factor, ch, carry, i); }
    MulOrder(0, factor, now[p]);
    var c := carry + factor * now[p];
    Column(before, low, p, base, factor, ch, carry);
    var next := now[p := c % base];
    assert next[p..] == [c % base] + low;
    assert AllBelow(next, base) by { BelowUpdate(now, p, c % base, base); }
    DivMonotone(0, c, base);
  }

  lemma BelowUpdate(d: seq<nat>, p: nat, x: nat, base: nat)
    requires AllBelow(d, base) && p < |d| && x < base
    ensures AllBelow(d[p := x], base)
  {
  }

  lemma PartlyEnds(before: seq<nat>, after: seq<nat>, length: nat, base: nat, factor: nat, ch: nat, carry: nat, i: nat)
    requires base >= 1 && ZeroBefore(before, length) && Partly(before, after, length, base, factor, ch, carry, i)
    requires i == |before| || (carry == 0 && i >= length)
    requires Num(before, base) * factor + ch < Pow(base, |before|)
    ensures carry == 0 && AllBelow(after, base) && Num(after, base) == Num(before, base) * factor + ch &&
      ZeroBefore(after, i) && length <= i
    ensures i > length ==> Num(after, base) >= Pow(base, i - 1)
  {
    hide Pow; hide Num;
    if i == |before| {
      assert before[0..] == before && after[0..] == after;
      MulOrder(1, carry, Pow(base, i));
    } else {
      NumLeadingZeros(before, |before| - i, base);
      NumLeadingZeros(after, |before| - i, base);
    }
  }

  /** A carry left beyond the old length shows that the result reaches that place. */
  lemma CarryReaches(before: seq<nat>, low: seq<nat>, length: nat, base: nat, factor: nat, ch: nat, carry: nat, i: nat)
    requires base >= 1 && ZeroBefore(before, length) && length <= i <= |before| && carry != 0
    requires Num(low, base) + carry * Pow(base, i) == Num(before[|before| - i..], base) * factor + ch
    ensures Num(before, base) * factor + ch >= Pow(base, i)
  {
    hide Pow; hide Num;
    NumLeadingZeros(before, |before| - i, base);
    CarryBound(Num(low, base), carry, Pow(base, i), Num(before, base) * factor + ch);
  }

  lemma CarryBound(low: nat, carry: nat, u: nat, total: nat)
    requires carry != 0 && low + carry * u == total
    ensures total >= u
  {
    MulOrder(1, carry, u);
  }

  /** One digit of the product. */
  lemma Column(before: seq<nat>, low: seq<nat>, p: nat, base: nat, factor: nat, ch: nat, carry: nat)
    requires base >= 1 && p < |before| && |low| == |before| - 1 - p
    requires Num(low, base) + carry * Pow(base, |low|) == Num(before[p + 1..], base) * factor + ch
    ensures var c := carry + factor * before[p];
      Num([c % base] + low, base) + c / base * Pow(base, |low| + 1) == Num(before[p..], base) * factor + ch
  {
    hide Pow; hide Num;
    var c := carry + factor * before[p];
    NumCons(c % base, low, base);
    assert before[p..] == [before[p]] + before[p + 1..];
    NumCons(before[p], before[p + 1..], base);
    PowNext(base, |low|);
    ColumnSum(Num(low, base), carry, Pow(base, |low|), Num(before[p + 1..], base), factor, ch, before[p], c, base);
  }

  lemma ColumnSum(low: int, carry: int, u: int, high: int, factor: int, ch: int, x: int, c: int, base: int)
    requires base >= 1 && c == carry + factor * x && low + carry * u == high * factor + ch
    ensures c % base * u + low + c / base * (base * u) == (x * u + high) * factor + ch
  {
    assert c % base * u + c / base * (base * u) == (c % base + c / base * base) * u;
    assert c % base + c / base * base == c;
    assert c * u == carry * u + factor * x * u;
    assert (x * u + high) * factor == factor * x * u + high * factor;
  }
}
