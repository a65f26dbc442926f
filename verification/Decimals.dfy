/** Non-negative decimals in the default arithmetic context of Python's `decimal`: 28 significant digits,
    ties to even.  A value is c * 10^e; the range of exponents is not limited. */
module Decimals {

  datatype Dec = Dec(c: nat, e: int)

  const ZERO := Dec(0, 0)

  function Pow10(k: nat): (p: int)
    ensures p >= 1
  {
    if k == 0 then 1 else 10 * Pow10(k - 1)
  }

  /** 10^28 and 10^27. */
  const TOO_LONG: int := 10_000_000_000_000_000_000_000_000_000
  const LONGEST: int := 1_000_000_000_000_000_000_000_000_000

  predicate Tenfold(f: int -> real, e: int) { f(e + 1) == 10.0 * f(e) }

  /** `f` is the function that maps e to 10^e. */
  ghost predicate PowersOfTen(f: int -> real) {
    f(0) == 1.0 && forall e :: Tenfold(f, e)
  }

  function TenTo(e: int): real
    decreases if e < 0 then -e else e
  {
    if e == 0 then 1.0 else if e > 0 then 10.0 * TenTo(e - 1) else TenTo(e + 1) / 10.0
  }

  lemma PowersOfTenExist()
    ensures exists f: int -> real :: PowersOfTen(f)
  {
    var f := (e: int) => TenTo(e);
    forall e ensures Tenfold(f, e) {
      assert TenTo(e + 1) == 10.0 * TenTo(e);
    }
    assert PowersOfTen(f);
  }

  /** 10^e as a real number, known by its defining equations only. */
  ghost const TEN: int -> real := (PowersOfTenExist(); var f: int -> real :| PowersOfTen(f); f)

  ghost function Value(d: Dec): real { d.c as real * TEN(d.e) }

  // ---------- exact operations ----------

  function ExactMul(a: Dec, b: Dec): Dec { Dec(a.c * b.c, a.e + b.e) }

  /** `b` has the larger exponent. */
  function Aligned(a: Dec, b: Dec): Dec
    requires a.e <= b.e
  {
    Dec(a.c + b.c * Pow10(b.e - a.e), a.e)
  }

  function ExactAdd(a: Dec, b: Dec): Dec {
    if a.c == 0 then b
    else if b.c == 0 then a
    else if a.e <= b.e then Aligned(a, b)
    else Aligned(b, a)
  }

  // ---------- rounding ----------

  /** How many digits a coefficient has beyond 28. */
  function Excess(c: nat): nat { if c < TOO_LONG then 0 else 1 + Excess(c / 10) }

  /** c / unit rounded to the nearest integer, ties to even. */
  function HalfEven(c: nat, unit: int): nat
    requires unit >= 1
  {
    var q, r := c / unit, c % unit;
    if 2 * r > unit || (2 * r == unit && q % 2 == 1) then q + 1 else q
  }

  /** The coefficient of a too long result, cut to 28 digits. */
  function Rounded(c: nat): nat { HalfEven(c, Pow10(Excess(c))) }

  /** The result of an operation with the given exact value. */
  function Fix(d: Dec): Dec {
    if d.c < TOO_LONG then d
    else if Rounded(d.c) == TOO_LONG then Dec(LONGEST, d.e + Excess(d.c) + 1)
    else Dec(Rounded(d.c), d.e + Excess(d.c))
  }

  function Mul(a: Dec, b: Dec): Dec { Fix(ExactMul(a, b)) }

  function Add(a: Dec, b: Dec): Dec { Fix(ExactAdd(a, b)) }

  // ---------- arithmetic facts ----------

  lemma Associate(x: real, y: real, z: real)
    ensures (x * y) * z == x * (y * z) && x * y == y * x
  {
  }

  /** A product of products, regrouped. */
  lemma Regroup(x: real, y: real, s: real, t: real, xy: real, st: real)
    requires xy == x * y && st == s * t
    ensures xy * st == (x * s) * (y * t)
  {
    Associate(x, y, s * t);
    Associate(y, s, t);
    Associate(s, y, t);
    Associate(x, s, y * t);
  }

  lemma TenTimes(s: real, t: real, next: real, st: real, result: real)
    requires next == 10.0 * t && st == s * t && result == 10.0 * st
    ensures result == s * next
  {
    Associate(10.0, s, t);
    Associate(s, 10.0, t);
  }

  lemma TenthOf(s: real, t: real, next: real, st: real, result: real)
    requires next == 10.0 * t && st == s * next && st == 10.0 * result
    ensures result == s * t
  {
    Associate(10.0, s, t);
    Associate(s, 10.0, t);
  }

  lemma AtLeastOnce(k: int, unit: int)
    requires k >= 1 && unit >= 1
    ensures k * unit >= unit
  {
    assert (k - 1) * unit >= 0;
  }

  lemma Distribute(x: real, y: real, z: real)
    ensures (x + y) * z == x * z + y * z && (x - y) * z == x * z - y * z
  {
  }

  lemma Monotone(x: real, y: real, z: real)
    requires x <= y && z >= 0.0
    ensures x * z <= y * z
  {
    Distribute(y, x, z);
    assert (y - x) * z >= 0.0;
  }

  // ---------- powers of ten ----------

  lemma TenNext(e: int)
    ensures TEN(e + 1) == 10.0 * TEN(e)
  {
    assert Tenfold(TEN, e);
  }

  lemma {:induction false} TenPositive(e: int)
    ensures TEN(e) > 0.0
    decreases if e < 0 then -e else e
  {
    if e > 0 {
      TenPositive(e - 1);
      TenNext(e - 1);
    } else if e < 0 {
      TenPositive(e + 1);
      TenNext(e);
    }
  }

  lemma {:induction false} TenAdds(a: int, b: int)
    ensures TEN(a + b) == TEN(a) * TEN(b)
    decreases if b < 0 then -b else b
  {
    if b > 0 {
      TenAdds(a, b - 1);
      TenNext(a + b - 1);
      TenNext(b - 1);
      TenTimes(TEN(a), TEN(b - 1), TEN(b), TEN(a + b - 1), TEN(a + b));
    } else if b < 0 {
      TenAdds(a, b + 1);
      TenNext(a + b);
      TenNext(b);
      TenthOf(TEN(a), TEN(b), TEN(b + 1), TEN(a + b + 1), TEN(a + b));
    }
  }

  lemma {:induction false} TenOfNat(k: nat)
    ensures TEN(k) == Pow10(k) as real
  {
    if k > 0 {
      TenOfNat(k - 1);
      TenNext(k - 1);
    }
  }

  lemma CastProduct(a: int, b: int)
    ensures (a * b) as real == a as real * b as real
  {
  }

  /** Shifting k digits from the exponent into the coefficient keeps the value. */
  lemma ShiftKeepsValue(c: nat, e: int, k: nat)
    ensures c as real * TEN(e + k) == (c * Pow10(k)) as real * TEN(e)
  {
    TenAdds(k, e);
    TenOfNat(k);
    CastProduct(c, Pow10(k));
    Associate(c as real, TEN(k), TEN(e));
  }

  lemma MulValue(a: Dec, b: Dec)
    ensures Value(ExactMul(a, b)) == Value(a) * Value(b)
  {
    TenAdds(a.e, b.e);
    CastProduct(a.c, b.c);
    Regroup(a.c as real, b.c as real, TEN(a.e), TEN(b.e), (a.c * b.c) as real, TEN(a.e + b.e));
  }

  lemma AlignedValue(a: Dec, b: Dec)
    requires a.e <= b.e
    ensures Value(Aligned(a, b)) == Value(a) + Value(b)
  {
    var k := b.e - a.e;
    ShiftKeepsValue(b.c, a.e, k);
    Distribute(a.c as real, (b.c * Pow10(k)) as real, TEN(a.e));
  }

  lemma ZeroValue(d: Dec)
    requires d.c == 0
    ensures Value(d) == 0.0
  {
  }

  lemma AddValue(a: Dec, b: Dec)
    ensures Value(ExactAdd(a, b)) == Value(a) + Value(b)
  {
    if a.c == 0 {
      ZeroValue(a);
    } else if b.c == 0 {
      ZeroValue(b);
    } else if a.e <= b.e {
      AlignedValue(a, b);
    } else {
      AlignedValue(b, a);
    }
  }

  // ---------- the rounding error ----------

  /** The excess digits leave a coefficient of exactly 28 digits. */
  lemma {:induction false} ExcessBounds(c: nat)
    requires c >= TOO_LONG
    ensures LONGEST * Pow10(Excess(c)) <= c < TOO_LONG * Pow10(Excess(c))
  {
    var k := Excess(c / 10);
    assert Pow10(Excess(c)) == 10 * Pow10(k);
    if c / 10 >= TOO_LONG {
      ExcessBounds(c / 10);
    } else {
      assert Pow10(k) == 1;
    }
  }

  /** Rounding moves by at most half a unit, and by exactly half only towards an even digit. */
  lemma HalfEvenIsNearest(c: nat, unit: int)
    requires unit >= 1
    ensures var d := HalfEven(c, unit) * unit - c;
      0 <= unit + 2 * d && 2 * d <= unit && (2 * d == unit || 2 * d == -unit ==> HalfEven(c, unit) % 2 == 0)
  {
    var q, r := c / unit, c % unit;
    assert c == q * unit + r;
    assert (q + 1) * unit == q * unit + unit;
  }

  lemma ScaledError(longest: int, unit: int, c: int, d: int)
    requires longest >= 1 && longest * unit <= c && 0 <= unit + 2 * d && 2 * d <= unit
    ensures 0 <= c + 2 * (longest * d) && 2 * (longest * d) <= c
  {
    assert longest * (unit + 2 * d) >= 0 && longest * (unit - 2 * d) >= 0;
    assert longest * (unit + 2 * d) == longest * unit + 2 * (longest * d);
    assert longest * (unit - 2 * d) == longest * unit - 2 * (longest * d);
  }

  /** The coefficient form of the error bound. */
  lemma CoefficientError(c: nat)
    requires c >= TOO_LONG
    ensures var d := Rounded(c) * Pow10(Excess(c)) - c;
            0 <= c + 2 * (LONGEST * d) && 2 * (LONGEST * d) <= c
  {
    ExcessBounds(c);
    var unit := Pow10(Excess(c));
    HalfEvenIsNearest(c, unit);
    ScaledError(LONGEST, unit, c, Rounded(c) * unit - c);
  }

  lemma QuotientBound(q: int, unit: int, c: int, limit: int)
    requires unit >= 1 && c < limit * unit && 2 * (q * unit - c) <= unit
    ensures q <= limit
  {
    assert (q - limit) * unit == q * unit - limit * unit;
    if q > limit {
      AtLeastOnce(q - limit, unit);
    }
  }

  /** A rounded value has at most 28 digits, so rounding it again changes nothing. */
  lemma FixIsIdempotent(d: Dec)
    ensures Fix(d).c < TOO_LONG && Fix(Fix(d)) == Fix(d)
  {
    if d.c >= TOO_LONG {
      ExcessBounds(d.c);
      var unit := Pow10(Excess(d.c));
      HalfEvenIsNearest(d.c, unit);
      QuotientBound(Rounded(d.c), unit, d.c, TOO_LONG);
    }
  }

  /** The unit roundoff of 28 digits: half of 10^-27. */
  const U: real := 0.5 / (LONGEST as real)

  lemma Carry(s: real, next: real)
    requires next == 10.0 * s
    ensures LONGEST as real * next == TOO_LONG as real * s
  {
  }

  lemma FixValue(d: Dec)
    requires d.c >= TOO_LONG
    ensures Value(Fix(d)) == (Rounded(d.c) * Pow10(Excess(d.c))) as real * TEN(d.e)
  {
    var q, k := Rounded(d.c), Excess(d.c);
    ShiftKeepsValue(q, d.e, k);
    if q == TOO_LONG {
      TenNext(d.e + k);
      Carry(TEN(d.e + k), TEN(d.e + k + 1));
    }
  }

  lemma ErrorAsFactor(c: real, d: real, longest: real)
    requires longest > 0.0 && -c <= 2.0 * (longest * d) <= c
    ensures -(0.5 / longest * c) <= d <= 0.5 / longest * c
  {
    var u := 0.5 / longest;
    assert u * longest == 0.5;
    Monotone(-c, 2.0 * (longest * d), u);
    Monotone(2.0 * (longest * d), c, u);
    assert 2.0 * (longest * d) * u == 2.0 * (u * longest) * d;
  }

  /** `x` approximates `exact` with a relative error of at most U. */
  predicate Near(x: real, exact: real) { (1.0 - U) * exact <= x <= (1.0 + U) * exact }

  lemma RelativeError(c: nat, r: int, s: real)
    requires s > 0.0 && 0 <= c + 2 * (LONGEST * (r - c)) && 2 * (LONGEST * (r - c)) <= c
    ensures Near(r as real * s, c as real * s)
  {
    var x, y := c as real, r as real;
    CastProduct(LONGEST, r - c);
    ErrorAsFactor(x, y - x, LONGEST as real);
    Monotone(x - U * x, y, s);
    Monotone(y, x + U * x, s);
    Distribute(1.0, U, x);
    Associate(1.0 - U, x, s);
    Associate(1.0 + U, x, s);
  }

  /** A rounded value is a multiple r of the unrounded value's unit, near its coefficient. */
  lemma RoundedMultiple(d: Dec) returns (r: int)
    requires d.c >= TOO_LONG
    ensures Value(Fix(d)) == r as real * TEN(d.e)
    ensures 0 <= d.c + 2 * (LONGEST * (r - d.c)) && 2 * (LONGEST * (r - d.c)) <= d.c
  {
    r := Rounded(d.c) * Pow10(Excess(d.c));
    FixValue(d);
    CoefficientError(d.c);
  }

  lemma MultipleError(d: Dec, r: int, t: real, value: real, fixed: real)
    requires t > 0.0 && value == d.c as real * t && fixed == r as real * t
    requires 0 <= d.c + 2 * (LONGEST * (r - d.c)) && 2 * (LONGEST * (r - d.c)) <= d.c
    ensures Near(fixed, value)
  {
    RelativeError(d.c, r, t);
  }

  lemma LongError(d: Dec, r: int, fixed: real)
    requires 0 <= d.c + 2 * (LONGEST * (r - d.c)) && 2 * (LONGEST * (r - d.c)) <= d.c
    requires fixed == r as real * TEN(d.e)
    ensures Near(fixed, Value(d))
  {
    TenPositive(d.e);
    MultipleError(d, r, TEN(d.e), Value(d), fixed);
  }

  lemma ShortError(v: real)
    requires v >= 0.0
    ensures Near(v, v)
  {
    Monotone(1.0 - U, 1.0, v);
    Monotone(1.0, 1.0 + U, v);
  }

  lemma ValueNonNegative(d: Dec)
    ensures Value(d) >= 0.0
  {
    TenPositive(d.e);
    Monotone(0.0, d.c as real, TEN(d.e));
  }

  /** One rounding is off by at most U. */
  lemma FixError(d: Dec)
    ensures Near(Value(Fix(d)), Value(d))
  {
    if d.c < TOO_LONG {
      ValueNonNegative(d);
      ShortError(Value(d));
    } else {
      var r := RoundedMultiple(d);
      LongError(d, r, Value(Fix(d)));
    }
  }

  lemma FixErrorOf(d: Dec, exact: real)
    requires Value(d) == exact
    ensures Near(Value(Fix(d)), exact)
  {
    FixError(d);
  }

  lemma AddError(a: Dec, b: Dec)
    ensures Near(Value(Add(a, b)), Value(a) + Value(b))
  {
    AddValue(a, b);
    FixErrorOf(ExactAdd(a, b), Value(a) + Value(b));
  }

  lemma MulError(a: Dec, b: Dec)
    ensures Near(Value(Mul(a, b)), Value(a) * Value(b))
  {
    MulValue(a, b);
    FixErrorOf(ExactMul(a, b), Value(a) * Value(b));
  }
}
