/** `base_uint`: fixed-width unsigned integers whose limbs are updated in place; any width, 256 bits in particular. */
module Arith256 {
  import opened Powers
  import opened Limbs

  class BaseUint {
    const pn: array<Limb>

    ghost function Value(): nat
      reads pn
    {
      Val(pn[..])
    }

    constructor Zero(width: nat)
      ensures fresh(pn) && pn.Length == width && Value() == 0
    {
      pn := new Limb[width](_ => 0);
      new;
      ValZeros(pn[..]);
    }

    constructor Copy(b: BaseUint)
      ensures fresh(pn) && pn[..] == b.pn[..] && Value() == b.Value()
    {
      pn := new Limb[b.pn.Length](i requires 0 <= i < b.pn.Length reads b.pn => b.pn[i]);
      new;
      assert pn[..] == b.pn[..];
    }

    /** From a 64-bit number. */
    constructor From64(b: nat, width: nat)
      requires b < 0x1_0000_0000_0000_0000 && width >= 2
      ensures fresh(pn) && pn.Length == width && Value() == b
    {
      pn := new Limb[width](i => if i == 0 then b % BASE else if i == 1 then b / BASE else 0);
      new;
      Low64(pn[..]);
      ValHighZeros(pn[..], 2);
    }

    /** Assignment of a 64-bit number. */
    method Set64(b: nat)
      requires b < 0x1_0000_0000_0000_0000 && pn.Length >= 2
      modifies pn
      ensures Value() == b
    {
      hide Val;
      pn[0] := b % BASE;
      pn[1] := b / BASE;
      for i := 2 to pn.Length
        invariant pn[0] == b % BASE && pn[1] == b / BASE && forall k :: 2 <= k < i ==> pn[k] == 0
      {
        pn[i] := 0;
      }
      Low64(pn[..]);
      ValHighZeros(pn[..], 2);
    }

    method GetLow64() returns (r: nat)
      requires pn.Length >= 2
      ensures r == Value() % Unit(2)
    {
      hide Val;
      Low64(pn[..]);
      Whole(pn[..2]);
      ValSplit(pn[..], 2);
      assert pn[..][..2] == pn[..2];
      DivAddMultiple(Val(pn[..2]), Unit(2), Val(pn[..][2..]));
      DivModUnique(Val(pn[..2]), Unit(2), 0, Val(pn[..2]));
      r := Or(pn[0], pn[1] * BASE);
      LowApart(pn[0], pn[1]);
    }

    /** `EqualTo`. */
    method EqualTo(b: nat) returns (same: bool)
      requires b < 0x1_0000_0000_0000_0000 && pn.Length >= 2
      ensures same <==> Value() == b
    {
      hide Val; hide Unit;
      Low64(pn[..]);
      var i := pn.Length;
      while i > 2
        invariant 2 <= i <= pn.Length && forall k :: i <= k < pn.Length ==> pn[k] == 0
      {
        i := i - 1;
        if pn[i] != 0 {
          LargeLimb(pn[..], i);
          return false;
        }
      }
      ValHighZeros(pn[..], 2);
      DivModUnique(Val(pn[..2]), BASE, pn[1], pn[0]);
      if pn[1] != b / BASE { return false; }
      if pn[0] != b % BASE { return false; }
      return true;
    }

    /** `operator=`. */
    method Assign(b: BaseUint)
      requires b.pn.Length == pn.Length
      modifies pn
      ensures pn[..] == old(b.pn[..])
    {
      ghost var y := b.pn[..];
      for i := 0 to pn.Length
        invariant pn[..i] == y[..i] && b.pn[..] == if b.pn == pn then pn[..] else y
        invariant forall k :: i <= k < pn.Length ==> b.pn[k] == y[k]
      {
        pn[i] := b.pn[i];
      }
    }

    /** `operator+=`. */
    method AddAssign(b: BaseUint)
      requires b.pn.Length == pn.Length
      modifies pn
      ensures Value() == (old(Value()) + old(b.Value())) % Unit(pn.Length)
    {
      hide Unit; hide Val;
      ghost var a0, b0 := pn[..], b.pn[..];
      var carry := 0;
      EmptyVal(a0);
      EmptyVal(b0);
      for i := 0 to pn.Length
        invariant 0 <= carry <= 1
        invariant Val(pn[..i]) + carry * Unit(i) == Val(a0[..i]) + Val(b0[..i])
        invariant forall k :: i <= k < pn.Length ==> pn[k] == a0[k] && b.pn[k] == b0[k]
      {
        var n := carry + pn[i] + b.pn[i];
        ghost var low := pn[..i];
        AddColumn(Val(low), Val(a0[..i]), Val(b0[..i]), carry, a0[i], b0[i], Unit(i));
        pn[i] := n % BASE;
        carry := n / BASE;
        assert pn[..i] == low;
        ValTake(pn[..], i);
        ValTake(a0, i);
        ValTake(b0, i);
        UnitNext(i);
        assert pn[..i + 1] == pn[..][..i + 1];
      }
      Whole(pn[..]);
      Whole(a0);
      Whole(b0);
      DivModUnique(Val(a0) + Val(b0), Unit(pn.Length), carry, Val(pn[..]));
    }

    /** `operator~`. */
    method Complement() returns (ret: BaseUint)
      ensures fresh(ret) && fresh(ret.pn) && ret.pn.Length == pn.Length
      ensures ret.Value() == Unit(pn.Length) - 1 - Value()
    {
      hide Unit; hide Val;
      ret := new BaseUint.Zero(pn.Length);
      EmptyVal(pn[..]);
      EmptyVal(ret.pn[..]);
      UnitZero();
      for i := 0 to pn.Length
        invariant Val(ret.pn[..i]) + Val(pn[..i]) == Unit(i) - 1
      {
        ghost var low := ret.pn[..i];
        ret.pn[i] := BASE - 1 - pn[i];
        assert ret.pn[..i] == low;
        ValTake(ret.pn[..], i);
        ValTake(pn[..], i);
        UnitNext(i);
        ComplementColumn(pn[i], Unit(i));
        assert ret.pn[..i + 1] == ret.pn[..][..i + 1] && pn[..i + 1] == pn[..][..i + 1];
      }
      Whole(pn[..]);
      Whole(ret.pn[..]);
    }

    /** `operator++`: carries through limbs that wrap to zero. */
    method Increment()
      modifies pn
      ensures Value() == (old(Value()) + 1) % Unit(pn.Length)
    {
      hide Unit; hide Val;
      ghost var a := pn[..];
      var i := 0;
      while i < pn.Length
        invariant 0 <= i <= pn.Length
        invariant forall k :: 0 <= k < i ==> a[k] == BASE - 1 && pn[k] == 0
        invariant forall k :: i <= k < pn.Length ==> pn[k] == a[k]
      {
        pn[i] := (pn[i] + 1) % BASE;
        if pn[i] != 0 {
          assert a[i + 1..] == pn[..][i + 1..];
          IncrementStops(a, pn[..], i);
          ValBound(pn[..]);
          DivModUnique(Val(a) + 1, Unit(pn.Length), 0, Val(pn[..]));
          return;
        }
        i := i + 1;
      }
      ValOnes(a);
      ValZeros(pn[..]);
      DivModUnique(Val(a) + 1, Unit(pn.Length), 1, 0);
    }

    /** `operator--`: borrows through limbs that wrap to the maximum. */
    method Decrement()
      modifies pn
      ensures Value() == (old(Value()) - 1) % Unit(pn.Length)
    {
      hide Unit; hide Val;
      ghost var a := pn[..];
      var i := 0;
      while i < pn.Length
        invariant 0 <= i <= pn.Length
        invariant forall k :: 0 <= k < i ==> a[k] == 0 && pn[k] == BASE - 1
        invariant forall k :: i <= k < pn.Length ==> pn[k] == a[k]
      {
        pn[i] := (pn[i] - 1) % BASE;
        if pn[i] != BASE - 1 {
          assert a[i + 1..] == pn[..][i + 1..];
          IncrementStops(pn[..], a, i);
          ValBound(a);
          DivModUnique(Val(a) - 1, Unit(pn.Length), 0, Val(pn[..]));
          return;
        }
        i := i + 1;
      }
      ValOnes(pn[..]);
      ValZeros(a);
      DivModUnique(Val(a) - 1, Unit(pn.Length), -1, Val(pn[..]));
    }

    /** Unary minus: complement and add one. */
    method Negate() returns (ret: BaseUint)
      ensures fresh(ret) && fresh(ret.pn) && ret.pn.Length == pn.Length
      ensures ret.Value() == (0 - Value()) % Unit(pn.Length)
    {
      hide Unit; hide Val;
      ret := Complement();
      ret.Increment();
      DivAddMultiple(0 - Value(), Unit(pn.Length), 1);
    }

    /** `operator-=`: adds the negation. */
    method SubAssign(b: BaseUint)
      requires b.pn.Length == pn.Length
      modifies pn
      ensures Value() == (old(Value()) - old(b.Value())) % Unit(pn.Length)
    {
      hide Unit; hide Val;
      ghost var x: int, y: int, m: int := Value(), b.Value(), Unit(pn.Length);
      var minus := b.Negate();
      AddAssign(minus);
      ModAdd(x, 0 - y, m);
    }

    /** `operator*=` with a single limb. */
    method MulAssign32(b32: Limb)
      modifies pn
      ensures Value() == old(Value()) * b32 % Unit(pn.Length)
    {
      hide Unit; hide Val;
      ghost var a0 := pn[..];
      var carry := 0;
      EmptyVal(a0);
      for i := 0 to pn.Length
        invariant 0 <= carry < BASE
        invariant Val(pn[..i]) + carry * Unit(i) == Val(a0[..i]) * b32
        invariant forall k :: i <= k < pn.Length ==> pn[k] == a0[k]
      {
        var n := carry + b32 * pn[i];
        Word64(carry, 0, b32, pn[i]);
        ghost var low := pn[..i];
        ScaleColumn(Val(low), Val(a0[..i]), b32, carry, a0[i], Unit(i));
        pn[i] := n % BASE;
        carry := n / BASE;
        assert pn[..i] == low;
        ValTake(pn[..], i);
        ValTake(a0, i);
        UnitNext(i);
        assert pn[..i + 1] == pn[..][..i + 1];
      }
      Whole(pn[..]);
      Whole(a0);
      DivModUnique(Val(a0) * b32, Unit(pn.Length), carry, Val(pn[..]));
    }

    /** `operator*=`: the schoolbook product, dropping what exceeds the width. */
    method MulAssign(b: BaseUint)
      requires b.pn.Length == pn.Length
      modifies pn
      ensures Value() == old(Value()) * old(b.Value()) % Unit(pn.Length)
    {
      hide Unit; hide Val;
      var w := pn.Length;
      ghost var x, y := pn[..], b.pn[..];
      var a := new BaseUint.Zero(w);
      ghost var dropped := 0;
      EmptyVal(x);
      for j := 0 to w
        invariant fresh(a.pn) && a.pn.Length == w && pn[..] == x && b.pn[..] == y
        invariant a.Value() + dropped * Unit(w) == Val(x[..j]) * Val(y)
      {
        ghost var before := a.Value();
        var carry := MulRow(a, j, b);
        assert pn[..] == x && b.pn[..] == y;
        RowDone(before, a.Value(), carry, x, y, j, dropped);
        dropped := dropped + carry + x[j] * Val(y[w - j..]);
      }
      Whole(x);
      Whole(a.pn[..]);
      DivModUnique(Val(x) * Val(y), Unit(w), dropped, Val(a.pn[..]));
      Assign(a);
    }

    /** One row of the product: adds limb j of this times b, shifted by j limbs. */
    method MulRow(a: BaseUint, j: nat, b: BaseUint) returns (carry: nat)
      requires a.pn.Length == pn.Length == b.pn.Length && j < pn.Length && a.pn != pn && a.pn != b.pn
      modifies a.pn
      ensures a.Value() + carry * Unit(pn.Length) == old(a.Value()) + pn[j] * Val(b.pn[..pn.Length - j]) * Unit(j)
    {
      hide Unit; hide Val; hide Accumulate;
      carry := 0;
      ghost var start := a.Value();
      EmptyVal(b.pn[..]);
      var i := 0;
      while i + j < pn.Length
        invariant 0 <= i <= pn.Length - j && carry < BASE
        invariant a.Value() + carry * Unit(i + j) == start + pn[j] * Val(b.pn[..i]) * Unit(j)
      {
        ghost var s := a.pn[..];
        MulColumn(s, carry, start, pn[j], b.pn[..], i, j);
        assert b.pn[..][..i] == b.pn[..i] && b.pn[..][..i + 1] == b.pn[..i + 1];
        var n := Accumulate(carry, a.pn[i + j], pn[j], b.pn[i]);
        a.pn[i + j] := Low(n);
        carry := n / BASE;
        assert a.pn[..] == s[i + j := Low(n)];
        i := i + 1;
      }
    }

    /** `operator<<=`, for any shift count. */
    method ShiftLeft(shift: nat)
      modifies pn
      ensures Value() == old(Value()) * Pow2(shift) % Unit(pn.Length)
    {
      hide Unit; hide Val; hide Pow2; hide ShiftedLeft; hide OrAt; hide ShlLow; hide ShlHigh; hide Over;
      ghost var x := pn[..];
      var a := new BaseUint.Copy(this);
      Clear();
      var k, s := shift / 32, shift % 32;
      ghost var over := 0;
      NothingShifted(pn[..], x, k, s);
      for i := 0 to pn.Length
        invariant fresh(a.pn) && a.pn.Length == pn.Length && a.pn[..] == x && ShiftedLeft(pn[..], x, i, k, s, over)
      {
        ShlStep(pn[..], x, i, k, s, over);
        over := over + Over(pn.Length, i + k + 1, ShlHigh(x[i], s)) + Over(pn.Length, i + k, ShlLow(x[i], s));
        PlaceLeft(a.pn[i], i, k, s);
      }
      AllShiftedLeft(pn[..], x, shift, over);
    }

    /** One iteration of `operator<<=`. */
    method PlaceLeft(x: Limb, i: nat, k: nat, s: nat)
      requires s < 32
      modifies pn
      ensures pn[..] == OrAt(OrAt(old(pn[..]), i + k + 1, ShlHigh(x, s)), i + k, ShlLow(x, s))
    {
      if s != 0 { OrInto(i + k + 1, ShlHigh(x, s)); } else { NoHigh(pn[..], i + k + 1, x); }
      OrInto(i + k, ShlLow(x, s));
    }

    /** `operator>>=`, for any shift count. */
    method ShiftRight(shift: nat)
      modifies pn
      ensures Value() == old(Value()) / Pow2(shift)
    {
      hide Unit; hide Val; hide Pow2; hide ShiftedRight; hide OrAt; hide ShrLow; hide ShrHigh;
      ghost var x := pn[..];
      var a := new BaseUint.Copy(this);
      Clear();
      var k, s := shift / 32, shift % 32;
      NothingShifted(pn[..], x, k, s);
      for i := 0 to pn.Length
        invariant fresh(a.pn) && a.pn.Length == pn.Length && a.pn[..] == x && ShiftedRight(pn[..], x, i, k, s)
      {
        ShrStep(pn[..], x, i, k, s);
        PlaceRight(a.pn[i], i - k, s);
      }
      AllShiftedRight(pn[..], x, shift);
    }

    /** One iteration of `operator>>=`. */
    method PlaceRight(x: Limb, m: int, s: nat)
      requires s < 32
      modifies pn
      ensures pn[..] == ShrPlaced(old(pn[..]), m, x, s)
    {
      if m - 1 >= 0 {
        if s != 0 { OrInto(m - 1, ShrLow(x, s)); } else { NoLow(pn[..], m - 1, x); }
      }
      if m >= 0 { OrInto(m, ShrHigh(x, s)); }
    }

    /** `bits`: the position of the highest set bit plus one, or zero. */
    method Bits() returns (n: nat)
      ensures n <= 32 * pn.Length && Value() < Pow2(n) && (n > 0 ==> Pow2(n - 1) <= Value())
    {
      hide Val; hide Pow2; hide BitSet;
      var pos := pn.Length;
      while pos > 0
        invariant 0 <= pos <= pn.Length && forall k :: pos <= k < pn.Length ==> pn[k] == 0
      {
        pos := pos - 1;
        if pn[pos] != 0 {
          var top := HighestBit(pn[pos]);
          TopBit(pn[..], pos, top);
          return 32 * pos + top + 1;
        }
      }
      ValZeros(pn[..]);
      return 0;
    }

    /** The inner loop of `bits`. */
    static method HighestBit(x: Limb) returns (n: nat)
      requires x != 0
      ensures n < 32 && Pow2(n) <= x < Pow2(n + 1)
    {
      hide Pow2; hide BitSet;
      Pow2Values();
      n := 31;
      while n > 0
        invariant n < 32 && x < Pow2(n + 1)
      {
        BitTest(x, n);
        if BitSet(x, n) { return; }
        n := n - 1;
      }
      assert Pow2(0) == 1 by { Pow2Zero(); }
    }

    /** `operator/=`: the exact quotient; false for the division-by-zero error, which leaves zero behind. */
    method DivAssign(b: BaseUint) returns (ok: bool)
      requires b.pn.Length == pn.Length
      modifies pn
      ensures ok <==> old(b.Value()) != 0
      ensures Value() == if ok then old(Value()) / old(b.Value()) else 0
    {
      hide Unit; hide Val; hide Pow2;
      var div := new BaseUint.Copy(b);
      var num := new BaseUint.Copy(this);
      ghost var n, d := num.Value(), div.Value();
      Clear();
      var numBits := num.Bits();
      var divBits := div.Bits();
      BitsOfZero(d, divBits);
      if divBits == 0 { return false; }
      if divBits > numBits {
        Pow2Monotone(numBits, divBits - 1);
        DivModUnique(n, d, 0, n);
        return true;
      }
      var shift := numBits - divBits;
      Aligns(n, d, numBits, divBits, pn.Length);
      div.ShiftLeft(shift);
      LongDivide(num, div, shift, n, d);
      return true;
    }

    /** The shift-and-subtract loop. */
    method LongDivide(num: BaseUint, div: BaseUint, start: nat, ghost n: nat, ghost d: nat)
      requires num.pn.Length == div.pn.Length == pn.Length && num.pn != div.pn && num.pn != pn && div.pn != pn
      requires forall i :: 0 <= i < pn.Length ==> pn[i] == 0
      requires num.Value() == n && div.Value() == d * Pow2(start) && n < d * Pow2(start + 1) && d > 0 &&
        start / 32 < pn.Length
      modifies pn, num.pn, div.pn
      ensures Value() == n / d
    {
      hide Unit; hide Val; hide Pow2; hide LowClear; hide OrAt;
      var shift: int := start;
      ValZeros(pn[..]);
      ZerosClear(pn[..], start + 1);
      while shift >= 0
        invariant -1 <= shift <= start
        invariant shift >= 0 ==> div.Value() == d * Pow2(shift)
        invariant Value() * d + num.Value() == n && num.Value() < d * Pow2(shift + 1)
        invariant LowClear(pn[..], shift + 1)
      {
        TakeOut(num, div, shift, n, d);
        div.ShiftRight(1);
        if shift > 0 { HalfDivisor(d, shift); }
        shift := shift - 1;
      }
      Pow2Zero();
      DivModUnique(n, d, Value(), num.Value());
    }

    /** One round: if the shifted divisor fits, subtract it and set the quotient bit. */
    method TakeOut(num: BaseUint, div: BaseUint, shift: nat, ghost n: nat, ghost d: nat)
      requires num.pn.Length == div.pn.Length == pn.Length && num.pn != div.pn && num.pn != pn && div.pn != pn &&
        shift / 32 < pn.Length
      requires Value() * d + num.Value() == n && num.Value() < d * Pow2(shift + 1) && div.Value() == d * Pow2(shift)
      requires LowClear(pn[..], shift + 1)
      modifies pn, num.pn
      ensures Value() * d + num.Value() == n && num.Value() < d * Pow2(shift) && LowClear(pn[..], shift)
    {
      hide Unit; hide Val; hide Pow2; hide LowClear; hide OrAt;
      SetNextBit(pn[..], shift);
      ghost var v, r := Value(), num.Value();
      ValBound(num.pn[..]);
      var order := num.CompareTo(div);
      QuotientStep(v, d, r, n, shift, order >= 0);
      if order >= 0 {
        num.SubAssign(div);
        Exact(r, d * Pow2(shift), num.pn[..]);
        OrInto(shift / 32, Pow2(shift % 32));
      }
    }

    method Clear()
      modifies pn
      ensures Value() == 0 && forall i :: 0 <= i < pn.Length ==> pn[i] == 0
    {
      for i := 0 to pn.Length
        invariant forall k :: 0 <= k < i ==> pn[k] == 0
      {
        pn[i] := 0;
      }
      ValZeros(pn[..]);
    }

    /** `pn[m] |= d`, for a position that may be beyond the width. */
    method OrInto(m: nat, d: Limb)
      modifies pn
      ensures pn[..] == OrAt(old(pn[..]), m, d)
    {
      if m < pn.Length { pn[m] := OrLimb(pn[m], d); }
    }

    /** `CompareTo`: the sign of the difference. */
    method CompareTo(b: BaseUint) returns (r: int)
      requires b.pn.Length == pn.Length
      ensures r == if Value() < b.Value() then -1 else if Value() > b.Value() then 1 else 0
    {
      var i := pn.Length;
      while i > 0
        invariant 0 <= i <= pn.Length
        invariant forall k :: i <= k < pn.Length ==> pn[k] == b.pn[k]
      {
        i := i - 1;
        assert pn[..][i + 1..] == b.pn[..][i + 1..];
        if pn[i] < b.pn[i] {
          ValLess(pn[..], b.pn[..], i);
          return -1;
        }
        if pn[i] > b.pn[i] {
          ValLess(b.pn[..], pn[..], i);
          return 1;
        }
      }
      assert pn[..] == b.pn[..];
      return 0;
    }
  }

  lemma EmptyVal(s: seq<Limb>)
    ensures Val(s[..0]) == 0
  {
  }

  lemma Whole(s: seq<Limb>)
    ensures s[..|s|] == s && Val(s) < Unit(|s|)
  {
    ValBound(s);
  }

  lemma ComplementColumn(x: int, u: int)
    ensures (BASE - 1 - x) * u + x * u + u == BASE * u
  {
    Spread(BASE - 1 - x + x + 1, 0, u);
    assert (BASE - 1 - x) * u + x * u + 1 * u == (BASE - 1 - x + x + 1) * u;
  }

  /** Adding up to two limbs to a product of limbs stays within 64 bits. */
  lemma Word64(carry: nat, x: nat, a: Limb, b: Limb)
    requires carry < BASE && x < BASE
    ensures 0 <= carry + x + a * b < 0x1_0000_0000_0000_0000
    ensures (carry + x + a * b) / BASE < BASE
  {
    var p := a * b;
    assert 0 <= p <= (BASE - 1) * (BASE - 1) by { ProductBound(a, b, BASE - 1); }
  }

  lemma ProductBound(a: int, b: int, m: int)
    requires 0 <= a <= m && 0 <= b <= m
    ensures 0 <= a * b <= m * m
  {
    MulOrder(a, m, b);
    MulOrder(b, m, m);
    MulOrder(0, a, b);
  }

  lemma ModAdd(x: int, y: int, m: int)
    requires m > 0
    ensures (x + y % m) % m == (x + y) % m
  {
    DivAddMultiple(x + y % m, m, y / m);
  }

  /** The low 32 bits. */
  function Low(n: nat): Limb { n % BASE }

  /** `carry + x + a * b` in 64 bits. */
  function Accumulate(carry: nat, x: Limb, a: Limb, b: Limb): (n: nat)
    requires carry < BASE
    ensures n < 0x1_0000_0000_0000_0000 && n / BASE < BASE
  {
    Word64(carry, x, a, b);
    carry + x + a * b
  }

  lemma MulColumn(s: seq<Limb>, carry: nat, start: int, f: Limb, y: seq<Limb>, i: nat, j: nat)
    requires i + j < |s| && i < |y| && carry < BASE
    requires Val(s) + carry * Unit(i + j) == start + f * Val(y[..i]) * Unit(j)
    ensures var n := Accumulate(carry, s[i + j], f, y[i]);
      Val(s[i + j := Low(n)]) + n / BASE * Unit(i + j + 1) == start + f * Val(y[..i + 1]) * Unit(j)
  {
    hide Unit; hide Val;
    var n := Accumulate(carry, s[i + j], f, y[i]);
    ValUpdate(s, i + j, Low(n));
    UnitAdd(i, j);
    RowColumn(Val(s), carry, start, f, Val(y[..i]), y[i], s[i + j], Unit(i), Unit(j));
    ValTake(y, i);
    UnitNext(i + j);
  }

  /** One column of a product row. */
  lemma RowColumn(v: int, carry: int, start: int, f: int, low: int, y: int, at: int, ui: int, uj: int)
    requires v + carry * (ui * uj) == start + f * low * uj
    ensures var n := carry + at + f * y;
      v + (n % BASE - at) * (ui * uj) + n / BASE * (BASE * (ui * uj)) == start + f * (low + y * ui) * uj
  {
    var n, u := carry + at + f * y, ui * uj;
    assert n % BASE * u + n / BASE * (BASE * u)
      == n * u by { assert n == n % BASE + n / BASE * BASE; Spread(n % BASE, n / BASE, u); }
    assert (n % BASE - at) * u == n % BASE * u - at * u;
    assert n * u == carry * u + at * u + f * y * u;
    assert f * (low + y * ui) * uj == f * low * uj + f * y * (ui * uj);
  }

  /** A row adds its limb times the whole factor, up to what exceeds the width. */
  lemma RowDone(before: int, after: int, carry: int, x: seq<Limb>, y: seq<Limb>, j: nat, dropped: int)
    requires j < |x| == |y|
    requires before + dropped * Unit(|x|) == Val(x[..j]) * Val(y)
    requires after + carry * Unit(|x|) == before + x[j] * Val(y[..|x| - j]) * Unit(j)
    ensures after + (dropped + carry + x[j] * Val(y[|x| - j..])) * Unit(|x|) == Val(x[..j + 1]) * Val(y)
  {
    hide Unit; hide Val;
    ValTake(x, j);
    ValSplit(y, |x| - j);
    UnitAdd(|x| - j, j);
    RowSum(before, after, carry, dropped, x[j], Val(x[..j]), Val(y[..|x| - j]), Val(y[|x| - j..]), Unit(|x| - j),
      Unit(j));
  }

  lemma RowSum(before: int, after: int, carry: int, dropped: int, f: int, xs: int, lo: int, hi: int, u: int, uj: int)
    requires before + dropped * (u * uj) == xs * (lo + hi * u)
    requires after + carry * (u * uj) == before + f * lo * uj
    ensures after + (dropped + carry + f * hi) * (u * uj) == (xs + f * uj) * (lo + hi * u)
  {
    var y, m := lo + hi * u, u * uj;
    assert (dropped + carry + f * hi) * m == dropped * m + carry * m + f * hi * m;
    assert f * uj * y == f * lo * uj + f * hi * m;
    assert (xs + f * uj) * y == xs * y + f * uj * y;
  }

  lemma NoHigh(r: seq<Limb>, m: nat, x: Limb)
    ensures OrAt(r, m, ShlHigh(x, 0)) == r
  {
    Pow2Values();
    DivModUnique(x, BASE, 0, x);
    if m < |r| { OrZero(r[m]); }
  }

  lemma NothingShifted(r: seq<Limb>, x: seq<Limb>, k: nat, s: nat)
    requires |r| == |x| && s < 32 && forall i :: 0 <= i < |r| ==> r[i] == 0
    ensures ShiftedLeft(r, x, 0, k, s, 0) && ShiftedRight(r, x, 0, k, s)
  {
    hide Unit; hide Val; hide Pow2;
    ValZeros(r);
    EmptyVal(x);
    MulOrder(1, Pow2(s), Unit(k));
    DivModUnique(0, Pow2(s) * Unit(k), 0, 0);
  }

  lemma AllShiftedLeft(r: seq<Limb>, x: seq<Limb>, shift: nat, over: int)
    requires |r| == |x| && ShiftedLeft(r, x, |x|, shift / 32, shift % 32, over)
    ensures Val(r) == Val(x) * Pow2(shift) % Unit(|r|)
  {
    hide Unit; hide Val; hide Pow2;
    Whole(x);
    Whole(r);
    ShiftTotal(Val(x), shift, shift % 32, shift / 32);
    DivModUnique(Val(x) * Pow2(shift), Unit(|r|), over, Val(r));
  }

  lemma AllShiftedRight(r: seq<Limb>, x: seq<Limb>, shift: nat)
    requires |r| == |x| && ShiftedRight(r, x, |x|, shift / 32, shift % 32)
    ensures Val(r) == Val(x) / Pow2(shift)
  {
    hide Unit; hide Val; hide Pow2;
    Whole(x);
    ShiftTotal(1, shift, shift % 32, shift / 32);
  }

  lemma ShiftTotal(v: int, shift: nat, s: nat, k: nat)
    requires shift == s + 32 * k
    ensures v * Pow2(s) * Unit(k) == v * Pow2(shift)
  {
    Pow2Add(s, 32 * k);
    assert v * Pow2(s) * Unit(k) == v * (Pow2(s) * Unit(k));
  }

  lemma NoLow(r: seq<Limb>, m: nat, x: Limb)
    ensures OrAt(r, m, ShrLow(x, 0)) == r
  {
    Pow2Values();
    DivAddMultiple(0, BASE, x);
    if m < |r| { OrZero(r[m]); }
  }

  lemma Pow2Zero()
    ensures Pow2(0) == 1
  {
  }

  lemma BitsOfZero(v: nat, bits: nat)
    requires v < Pow2(bits) && (bits > 0 ==> Pow2(bits - 1) <= v)
    ensures bits == 0 <==> v == 0
  {
  }

  /** After aligning, the divisor fits and the number is less than twice it. */
  lemma Aligns(n: nat, d: nat, numBits: nat, divBits: nat, w: nat)
    requires 0 < divBits <= numBits <= 32 * w
    requires n < Pow2(numBits) && d < Pow2(divBits) && Pow2(divBits - 1) <= d
    ensures var s := numBits - divBits; d * Pow2(s) % Unit(w) == d * Pow2(s) && n < d * Pow2(s + 1) && s / 32 < w
  {
    hide Pow2;
    var s := numBits - divBits;
    Pow2Add(divBits, s);
    Pow2Add(divBits - 1, s + 1);
    Carry(d, Pow2(divBits), Pow2(s));
    MulOrder(Pow2(divBits - 1), d, Pow2(s + 1));
    Pow2Monotone(numBits, 32 * w);
    MulOrder(0, d, Pow2(s));
    DivModUnique(d * Pow2(s), Unit(w), 0, d * Pow2(s));
  }

  lemma ZerosClear(s: seq<Limb>, p: nat)
    requires forall i :: 0 <= i < |s| ==> s[i] == 0
    ensures LowClear(s, p)
  {
    DivAddMultiple(0, Pow2(p % 32), 0);
  }

  /** A difference that does not wrap is exact. */
  lemma Exact(x: nat, y: nat, after: seq<Limb>)
    requires y <= x < Unit(|after|) && Val(after) == (x - y) % Unit(|after|)
    ensures Val(after) == x - y
  {
    DivModUnique(x - y, Unit(|after|), 0, x - y);
  }

  lemma QuotientStep(v: nat, d: nat, r: nat, n: nat, shift: nat, taken: bool)
    requires v * d + r == n && r < d * Pow2(shift + 1) && (taken <==> r >= d * Pow2(shift))
    ensures taken ==> (v + Pow2(shift)) * d + (r - d * Pow2(shift)) == n && r - d * Pow2(shift) < d * Pow2(shift)
  {
    var p := Pow2(shift);
    assert Pow2(shift + 1) == 2 * p;
    assert d * (2 * p) == d * p + d * p;
    assert (v + p) * d == v * d + d * p;
  }

  lemma HalfDivisor(d: nat, shift: nat)
    requires shift > 0
    ensures d * Pow2(shift) / Pow2(1) == d * Pow2(shift - 1)
  {
    assert Pow2(1) == 2;
    assert d * Pow2(shift) == (d * Pow2(shift - 1)) * 2;
  }

  lemma Low64(s: seq<Limb>)
    requires |s| >= 2
    ensures Val(s[..2]) == s[0] + s[1] * BASE
  {
    hide Unit;
    UnitZero();
    UnitNext(0);
    EmptyVal(s);
    ValTake(s, 0);
    ValTake(s, 1);
  }

  lemma LowApart(x: Limb, y: Limb)
    ensures Or(x, y * BASE) == x + y * BASE
  {
    Pow2Values();
    DivAddMultiple(0, BASE, y);
    OrDisjoint(y * BASE, x, 32);
  }

  /** A nonzero limb beyond the first two makes the number exceed 64 bits. */
  lemma LargeLimb(s: seq<Limb>, i: nat)
    requires 2 <= i < |s| && s[i] != 0
    ensures Val(s) >= 0x1_0000_0000_0000_0000
  {
    hide Val; hide Unit;
    ValUpdate(s, i, 0);
    LargeUnit(i);
    LargeProduct(Val(s), Val(s[i := 0]), s[i], Unit(i));
  }

  lemma LargeUnit(i: nat)
    requires i >= 2
    ensures Unit(i) >= 0x1_0000_0000_0000_0000
  {
    hide Pow2;
    Pow2Values();
    Pow2Add(32, 32);
    Pow2Monotone(64, 32 * i);
  }

  lemma LargeProduct(v: int, rest: int, x: int, u: nat)
    requires rest == v + (0 - x) * u && rest >= 0 && x >= 1
    ensures v >= u
  {
    MulOrder(1, x, u);
  }
}
