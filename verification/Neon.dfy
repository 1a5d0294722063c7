/**
 The vector instructions the quantized kernel uses: registers are sequences of lanes, 32-bit lanes wrap
 around or saturate as each instruction says.
 */
module Neon {
  import opened Bits

  const TWO_32: int := 0x1_0000_0000
  const INT32_MIN: int := -0x8000_0000
  const INT32_MAX: int := 0x7FFF_FFFF

  predicate IsInt32(x: int) { INT32_MIN <= x <= INT32_MAX }

  /** Two's complement wrap-around. */
  function Wrap32(x: int): (r: int)
    ensures IsInt32(r) && (IsInt32(x) ==> r == x)
    ensures (x - r) % TWO_32 == 0
  {
    (x - INT32_MIN) % TWO_32 + INT32_MIN
  }

  /** A wrapped operand is as good as the exact one. */
  lemma WrapAdd(x: int, y: int)
    ensures Wrap32(Wrap32(x) + y) == Wrap32(x + y)
  {
    var k := (x - Wrap32(x)) / TWO_32;
    assert x == Wrap32(x) + TWO_32 * k;
    WrapPeriod(Wrap32(x) + y, k);
  }

  lemma WrapPeriod(x: int, k: int)
    ensures Wrap32(x + TWO_32 * k) == Wrap32(x)
  {
    Period(x - INT32_MIN, k);
  }

  lemma Period(a: int, k: int)
    ensures (a + 0x1_0000_0000 * k) % 0x1_0000_0000 == a % 0x1_0000_0000
  {
    var b := a + 0x1_0000_0000 * k;
    var d := b / 0x1_0000_0000 - a / 0x1_0000_0000 - k;
    assert 0x1_0000_0000 * d == a % 0x1_0000_0000 - b % 0x1_0000_0000;
    assert -1 < d < 1;
  }

  lemma WrapBoth(x: int, y: int)
    ensures Wrap32(Wrap32(x) + Wrap32(y)) == Wrap32(x + y)
  {
    WrapAdd(x, Wrap32(y));
    WrapAdd(y, x);
  }

  function Saturate(x: int, lo: int, hi: int): (r: int)
    requires lo <= hi
    ensures lo <= r <= hi
  {
    if x < lo then lo else if x > hi then hi else x
  }

  function Max(a: int, b: int): int { if a > b then a else b }

  function Min(a: int, b: int): int { if a < b then a else b }

  // ---- Multiply and accumulate ----

  type Lanes = seq<int>

  /** `vmlal_s16`: four 32-bit lanes gain the products of four 16-bit lanes. */
  function MulAcc(acc: Lanes, a: Lanes, b: Lanes): (r: Lanes)
    requires |acc| == |a| == |b| == 4
    ensures |r| == 4
  {
    [Wrap32(acc[0] + a[0] * b[0]), Wrap32(acc[1] + a[1] * b[1]),
     Wrap32(acc[2] + a[2] * b[2]), Wrap32(acc[3] + a[3] * b[3])]
  }

  /** `vpadd_s32`: sums of neighbours. */
  function PairAdd(a: Lanes, b: Lanes): (r: Lanes)
    requires |a| == |b| == 2
    ensures |r| == 2
  {
    [Wrap32(a[0] + a[1]), Wrap32(b[0] + b[1])]
  }

  /** `vaddq_s32` */
  function Add(a: Lanes, b: Lanes): (r: Lanes)
    requires |a| == |b| == 4
    ensures |r| == 4
  {
    [Wrap32(a[0] + b[0]), Wrap32(a[1] + b[1]), Wrap32(a[2] + b[2]), Wrap32(a[3] + b[3])]
  }

  // ---- Requantization ----

  /** `vshlq_s32` by a non-negative amount. */
  function ShiftLeft(x: int, n: nat): int { Wrap32(x * Pow2(n)) }

  /** `vqrdmulhq_s32`: the high half of the doubled product, rounded; one product saturates. */
  function RoundingDoublingHigh(a: int, b: int): int {
    Saturate((2 * a * b + 0x8000_0000) / TWO_32, INT32_MIN, INT32_MAX)
  }

  /** `vrshlq_s32` by a non-positive amount `-n`. */
  function RoundingShiftRight(x: int, n: nat): int {
    if n == 0 then x else (x + Pow2(n - 1)) / Pow2(n)
  }

  lemma MulBound(a: int, b: int)
    requires IsInt32(a) && IsInt32(b)
    ensures -0x4000_0000_0000_0000 <= a * b <= 0x4000_0000_0000_0000
    ensures !(a == INT32_MIN && b == INT32_MIN) ==> a * b <= 0x3FFF_FFFF_8000_0000
  {
    var m := 0x8000_0000;
    if a >= 0 && b >= 0 {
      MulMono(a, b, INT32_MAX, INT32_MAX);
    } else if a < 0 && b < 0 {
      if a == INT32_MIN {
        assert a * b == m * -b;
        if b != INT32_MIN { MulMono(m, -b, m, INT32_MAX); }
      } else {
        assert a * b == -a * -b;
        MulMono(-a, -b, INT32_MAX, m);
      }
    } else if a < 0 {
      assert a * b == -(-a * b);
      MulMono(-a, b, m, m);
    } else {
      assert a * b == -(a * -b);
      MulMono(a, -b, m, m);
    }
  }

  lemma MulMono(a: int, b: int, c: int, d: int)
    requires 0 <= a <= c && 0 <= b <= d
    ensures 0 <= a * b <= c * d
  {
    assert a * b <= c * b <= c * d;
  }

  /** Rounded to the nearest multiple, in every case but INT32_MIN squared, which saturates. */
  lemma RoundingDoublingHighIsNearest(a: int, b: int)
    requires IsInt32(a) && IsInt32(b)
    ensures var r := RoundingDoublingHigh(a, b);
            if a == INT32_MIN && b == INT32_MIN then r == INT32_MAX
            else -0x4000_0000 <= a * b - r * 0x8000_0000 <= 0x4000_0000 && IsInt32(r)
  {
    var p := a * b;
    MulBound(a, b);
    assert 2 * a * b == 2 * p;
    var q := (2 * p + 0x8000_0000) / TWO_32;
    assert TWO_32 * q <= 2 * p + 0x8000_0000 < TWO_32 * q + TWO_32;
  }

  /** `r` times `p` is the multiple of `p` nearest to `x`, ties upwards. */
  predicate Nearest(r: int, p: int, x: int) {
    2 * (r * p - x) <= p && 2 * (x - r * p) < p
  }

  lemma RoundingShiftRightIsNearest(x: int, n: nat)
    ensures Nearest(RoundingShiftRight(x, n), Pow2(n), x)
  {
    hide Nearest;
    if n == 0 {
      ExactIsNearest(x);
    } else {
      var h := Pow2(n - 1);
      NearestQuotient(x, h, Pow2(n));
    }
  }

  lemma ExactIsNearest(x: int)
    ensures Nearest(x, 1, x)
  {
  }

  lemma NearestQuotient(x: int, h: int, p: int)
    requires p == 2 * h > 0
    ensures Nearest((x + h) / p, p, x)
  {
    var r, rem := (x + h) / p, (x + h) % p;
    var whole := r * p;
    assert whole + rem == x + h;
  }

  // ---- Narrowing ----

  /** The types results are stored in. */
  datatype Narrow = U8 | I8 | I16

  function Lowest(t: Narrow): int { match t case U8 => 0 case I8 => -128 case I16 => -0x8000 }

  function Highest(t: Narrow): int { match t case U8 => 255 case I8 => 127 case I16 => 0x7FFF }

  /** One lane of `ClampAndStore`: saturating narrowing in one or two steps, then maximum, then minimum. */
  function NarrowAndClamp(x: int, t: Narrow, clampMin: int, clampMax: int): int {
    var n16 := Saturate(x, -0x8000, 0x7FFF);
    var n := if t.I16? then n16 else Saturate(n16, Lowest(t), Highest(t));
    Min(Max(n, clampMin), clampMax)
  }

  /** The intermediate saturations never show: the result is the clamped exact value. */
  lemma NarrowAndClampIsClamp(x: int, t: Narrow, clampMin: int, clampMax: int)
    requires clampMin <= clampMax
    requires t.U8? ==> 0 <= clampMin && clampMax <= 255
    requires t.I8? ==> -128 <= clampMin && clampMax <= 127
    requires t.I16? ==> -0x8000 <= clampMin && clampMax <= 0x7FFF
    ensures NarrowAndClamp(x, t, clampMin, clampMax) == Saturate(x, clampMin, clampMax)
  {
  }
}
