/**
 When the builder takes a scalar for its default: integers by their bits, floats as numbers.
 */
module FlatScalars {
  import opened Bits
  import opened Bytes

  /** How C++ compares a scalar: integers, enums and booleans by their bits, floats as numbers. */
  datatype Comparison = Integral | Floating

  /** A float or double that is zero, of either sign. */
  predicate IsZero(size: nat, bits: nat) { bits == 0 || 2 * bits == Pow256(size) }

  /** All exponent bits set and the mantissa not zero. */
  predicate IsNan(size: nat, bits: nat) {
    if size == 4 then bits % 0x8000_0000 > 0x7F80_0000
    else bits % 0x8000_0000_0000_0000 > 0x7FF0_0000_0000_0000
  }

  predicate IsTheSameAs(kind: Comparison, size: nat, e: nat, def: nat) {
    match kind
    case Integral => e == def
    case Floating => !IsNan(size, e) && !IsNan(size, def) && (e == def || (IsZero(size, e) && IsZero(size, def)))
  }

  // ---- Floats as numbers ----

  /** The mantissa bits of a `float` or `double`. */
  function MantissaBits(size: nat): nat { if size == 4 then 23 else 52 }

  /** A magnitude in units of the least positive one: biased exponent and mantissa. */
  function Magnitude(size: nat, exponent: nat, mantissa: nat): nat {
    if exponent == 0 then mantissa else (Pow2(MantissaBits(size)) + mantissa) * Pow2(exponent - 1)
  }

  /** IEEE 754: sign, exponent, mantissa; an infinity counts as the magnitude after the largest finite one. */
  function NumberOf(size: nat, bits: nat): int
    requires size == 4 || size == 8
  {
    var half, m := Pow2(8 * size - 1), Pow2(MantissaBits(size));
    DivisionNat(bits % half, m);
    var magnitude: int := Magnitude(size, bits % half / m, bits % half % m);
    if bits >= half then -magnitude else magnitude
  }

  /** The largest exponent with a mantissa is no number. */
  predicate NoNumber(size: nat, bits: nat)
    requires size == 4 || size == 8
  {
    var half, m := Pow2(8 * size - 1), Pow2(MantissaBits(size));
    bits % half / m == half / m - 1 && bits % half % m != 0
  }

  lemma MagnitudeGrows(size: nat, e: nat, m: nat, e': nat, m': nat)
    requires m < Pow2(MantissaBits(size)) && m' < Pow2(MantissaBits(size)) && e < e'
    ensures Magnitude(size, e, m) < Magnitude(size, e', m')
  {
    hide Pow2;
    var p := Pow2(MantissaBits(size));
    PowersGrow(e, e' - 1);
    LessTimes(p, Pow2(e), Pow2(e' - 1), m');
    if e > 0 {
      Pow2Step(e);
      BelowDouble(p, m, Pow2(e - 1));
    } else {
      Pow2Zero();
    }
  }

  lemma LessTimes(p: nat, a: nat, b: nat, m: nat)
    requires a <= b
    ensures p * a <= (p + m) * b
  {
    assert p * a <= p * b && (p + m) * b == p * b + m * b;
  }

  lemma BelowDouble(p: nat, m: nat, a: nat)
    requires m < p && a > 0
    ensures (p + m) * a < p * (2 * a)
  {
    assert p * (2 * a) - (p + m) * a == (p - m) * a;
  }

  lemma {:induction false} PowersGrow(a: nat, b: nat)
    requires a <= b
    ensures Pow2(a) <= Pow2(b)
  {
    if a < b { PowersGrow(a, b - 1); }
  }

  lemma MagnitudeInjective(size: nat, e: nat, m: nat, e': nat, m': nat)
    requires m < Pow2(MantissaBits(size)) && m' < Pow2(MantissaBits(size))
    ensures Magnitude(size, e, m) == Magnitude(size, e', m') <==> e == e' && m == m'
    ensures Magnitude(size, e, m) == 0 <==> e == 0 && m == 0
  {
    hide Pow2, MantissaBits;
    if e < e' {
      MagnitudeGrows(size, e, m, e', m');
    } else if e' < e {
      MagnitudeGrows(size, e', m', e, m);
    } else if e > 0 && m != m' {
      var p := Pow2(MantissaBits(size));
      TimesInjective(p + m, p + m', Pow2(e - 1));
    }
    if e > 0 { TimesInjective(Pow2(MantissaBits(size)) + m, 0, Pow2(e - 1)); }
  }

  lemma TimesInjective(a: nat, b: nat, p: nat)
    requires p > 0 && a != b
    ensures a * p != b * p
  {
    assert a * p - b * p == (a - b) * p;
  }

  /** Comparing two floats is comparing two numbers, and NaN is equal to nothing. */
  lemma SameIsEqualNumber(size: nat, a: nat, b: nat)
    requires (size == 4 || size == 8) && a < Pow256(size) && b < Pow256(size)
    ensures IsTheSameAs(Floating, size, a, b)
            <==> !NoNumber(size, a) && !NoNumber(size, b) && NumberOf(size, a) == NumberOf(size, b)
  {
    hide Pow2, Magnitude, Pow256;
    FloatLimits();
    var half, m := Pow2(8 * size - 1), Pow2(MantissaBits(size));
    PatternSplits(size, a);
    PatternSplits(size, b);
    MagnitudeInjective(size, a % half / m, a % half % m, b % half / m, b % half % m);
    MagnitudeInjective(size, b % half / m, b % half % m, 0, 0);
    NanIsNoNumber(size, a);
    NanIsNoNumber(size, b);
  }

  lemma FloatLimits()
    ensures Pow2(23) == 0x80_0000 && Pow2(31) == 0x8000_0000
    ensures Pow2(52) == 0x10_0000_0000_0000 && Pow2(63) == 0x8000_0000_0000_0000
    ensures Pow256(4) == 0x1_0000_0000 && Pow256(8) == 0x1_0000_0000_0000_0000
  {
    hide Pow2;
    Pow2Values();
    Pow2Adds(12, 11);
    Pow2Adds(26, 26);
    Pow2Adds(52, 11);
    Pow256Values();
  }

  lemma NanIsNoNumber(size: nat, a: nat)
    requires (size == 4 || size == 8) && a < Pow256(size)
    ensures IsNan(size, a) <==> NoNumber(size, a)
  {
    hide Pow2, Pow256;
    FloatLimits();
    if size == 4 {
      TopExponent(a % 0x8000_0000, 0x80_0000, 0xFF);
    } else {
      TopExponent(a % 0x8000_0000_0000_0000, 0x10_0000_0000_0000, 0x7FF);
    }
  }

  lemma TopExponent(x: nat, m: nat, top: nat)
    requires m > 0 && x < m * top + m
    ensures x > m * top <==> x / m == top && x % m != 0
  {
    var d := x / m - top;
    assert x == m * (x / m) + x % m;
    assert m * d == m * (x / m) - m * top;
    SignOfProduct(m, d);
  }

  lemma SignOfProduct(m: int, d: int)
    requires m >= 0
    ensures d <= -1 ==> m * d <= -m
    ensures d >= 1 ==> m * d >= m
  {
  }

  /** Sign, exponent and mantissa determine a pattern. */
  lemma PatternSplits(size: nat, a: nat)
    requires (size == 4 || size == 8) && a < Pow256(size)
    ensures var half, m := Pow2(8 * size - 1), Pow2(MantissaBits(size));
            && a == (if a >= half then half else 0) + m * (a % half / m) + a % half % m
            && 0 <= a % half / m && 0 <= a % half % m < m
            && (IsZero(size, a) <==> a % half / m == 0 && a % half % m == 0)
  {
    hide Pow2, Pow256;
    FloatLimits();
    if size == 4 {
      Splits(a, 0x8000_0000, 0x80_0000);
    } else {
      Splits(a, 0x8000_0000_0000_0000, 0x10_0000_0000_0000);
    }
  }

  lemma Splits(a: nat, half: nat, m: nat)
    requires a < 2 * half && m > 0 && half > 0
    ensures a == (if a >= half then half else 0) + m * (a % half / m) + a % half % m
    ensures 0 <= a % half / m && 0 <= a % half % m < m
    ensures a == 0 || a == half <==> a % half / m == 0 && a % half % m == 0
  {
    var low := if a >= half then a - half else a;
    RemainderIs(a, half, if a >= half then 1 else 0, low);
    var q, r := low / m, low % m;
    assert low == m * q + r;
    DivisionNat(low, m);
    if low == 0 { RemainderIs(low, m, 0, 0); }
  }
}
