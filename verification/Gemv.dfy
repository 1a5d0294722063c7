/**
 The quantized matrix-vector kernel: four rows and sixteen or eight columns at a time, with the last row
 group nudged back and the last column block overlapping. It refines one dot product per row.
 */
module Gemv {
  import opened Options
  import opened Bits
  import opened Neon

  datatype Multiplier =
    | Uniform(fixedpoint: int, exponent: int)
    | PerRow(fixedpoints: seq<int>, exponents: seq<int>)

  /** A row-major matrix, a column vector, and how results are scaled and stored. */
  datatype Problem = Problem(
    rows: nat, cols: nat, lhs: seq<int>, rhs: seq<int>, lhsZero: int, rhsZero: int, bias: Option<seq<int>>,
    multiplier: Multiplier, dstType: Narrow, dstZero: int, clampMin: int, clampMax: int)

  /** Values of `int8_t` and `uint8_t`. */
  predicate Is8Bit(x: int) { -128 <= x <= 255 }

  predicate All8Bit(s: seq<int>) { forall i :: 0 <= i < |s| ==> Is8Bit(s[i]) }

  /** `IsSupportedGivenSufficientlyManyRows`, and buffers of the sizes the parameters announce. */
  predicate Supported(p: Problem) {
    && p.cols >= 8 && |p.lhs| == p.rows * p.cols && |p.rhs| == p.cols
    && All8Bit(p.lhs) && All8Bit(p.rhs) && Is8Bit(p.lhsZero) && Is8Bit(p.rhsZero)
    && (p.bias.Some? ==> |p.bias.value| == p.rows)
    && (p.multiplier.PerRow? ==> |p.multiplier.fixedpoints| == |p.multiplier.exponents| == p.rows)
    && Lowest(p.dstType) <= p.clampMin <= p.clampMax <= Highest(p.dstType)
  }

  // ---- What is computed ----

  function RowStart(p: Problem, row: nat): nat { row * p.cols }

  lemma RowFits(p: Problem, row: nat)
    requires row < p.rows && |p.lhs| == p.rows * p.cols
    ensures RowStart(p, row) + p.cols <= |p.lhs| && RowStart(p, row + 1) == RowStart(p, row) + p.cols
  {
    assert (row + 1) * p.cols == row * p.cols + p.cols;
    assert (row + 1) * p.cols <= p.rows * p.cols;
  }

  /** The first `n` terms of a row's dot product, zero points subtracted. */
  function Dot(p: Problem, row: nat, n: nat): int
    requires Supported(p) && row < p.rows && n <= p.cols
  {
    if n == 0 then 0 else RowFits(p, row); Dot(p, row, n - 1) + Term(p, row, n - 1)
  }

  function Term(p: Problem, row: nat, k: nat): int
    requires Supported(p) && row < p.rows && k < p.cols
  {
    RowFits(p, row);
    (p.lhs[RowStart(p, row) + k] - p.lhsZero) * (p.rhs[k] - p.rhsZero)
  }

  function Bias(p: Problem, row: nat): int
    requires Supported(p) && row < p.rows
  {
    if p.bias.Some? then p.bias.value[row] else 0
  }

  function Fixedpoint(p: Problem, row: nat): int
    requires Supported(p) && row < p.rows
  {
    match p.multiplier case Uniform(m, _) => m case PerRow(ms, _) => ms[row]
  }

  function Exponent(p: Problem, row: nat): int
    requires Supported(p) && row < p.rows
  {
    match p.multiplier case Uniform(_, e) => e case PerRow(_, es) => es[row]
  }

  /** Scaling by `fixedpoint * 2^(exponent - 31)`, in the order of the instructions. */
  function Requantize(x: int, fixedpoint: int, exponent: int): int {
    RoundingShiftRight(
      RoundingDoublingHigh(ShiftLeft(x, Max(exponent, 0)), fixedpoint),
      -Min(exponent, 0))
  }

  /** The result for one row: the clamped, requantized 32-bit dot product. */
  function Output(p: Problem, row: nat): (r: int)
    requires Supported(p) && row < p.rows
    ensures p.clampMin <= r <= p.clampMax
  {
    var x := Wrap32(Dot(p, row, p.cols) + Bias(p, row));
    Saturate(Wrap32(Requantize(x, Fixedpoint(p, row), Exponent(p, row)) + p.dstZero), p.clampMin, p.clampMax)
  }

  /** All operands and their zero point are of one 8-bit type, whose lowest value is `low`. */
  predicate OfType(s: seq<int>, zero: int, low: int) {
    && (low == -128 || low == 0) && low <= zero <= low + 255
    && forall i :: 0 <= i < |s| ==> low <= s[i] <= low + 255
  }

  /** With at most 33025 columns the exact dot product fits in 32 bits, so wrapping never shows. */
  lemma DotFits(p: Problem, row: nat, lhsLow: int, rhsLow: int)
    requires Supported(p) && row < p.rows && p.cols <= 33025
    requires OfType(p.lhs, p.lhsZero, lhsLow) && OfType(p.rhs, p.rhsZero, rhsLow)
    ensures IsInt32(Dot(p, row, p.cols)) && Wrap32(Dot(p, row, p.cols)) == Dot(p, row, p.cols)
  {
    DotBound(p, row, p.cols, lhsLow, rhsLow);
  }

  lemma {:induction false} DotBound(p: Problem, row: nat, n: nat, lhsLow: int, rhsLow: int)
    requires Supported(p) && row < p.rows && n <= p.cols
    requires OfType(p.lhs, p.lhsZero, lhsLow) && OfType(p.rhs, p.rhsZero, rhsLow)
    ensures -65025 * n <= Dot(p, row, n) <= 65025 * n
  {
    if n > 0 {
      DotBound(p, row, n - 1, lhsLow, rhsLow);
      RowFits(p, row);
      SmallProduct(p.lhs[RowStart(p, row) + n - 1] - p.lhsZero, p.rhs[n - 1] - p.rhsZero);
    }
  }

  lemma SmallProduct(a: int, b: int)
    requires -255 <= a <= 255 && -255 <= b <= 255
    ensures -65025 <= a * b <= 65025
  {
    var x, y := if a < 0 then -a else a, if b < 0 then -b else b;
    MulMono(x, y, 255, 255);
    assert a * b == x * y || a * b == -(x * y);
  }

  /** The integer next to `x * fixedpoint * 2^(exponent - 31)` that the instructions compute, wrapping aside. */
  function Scaled(x: int, fixedpoint: int, exponent: int): int {
    RoundingShiftRight(RoundingDoublingHigh(x * Pow2(Max(exponent, 0)), fixedpoint), -Min(exponent, 0))
  }

  /** Nothing leaves the 32-bit range on the way, and the one saturating product does not occur. */
  predicate NoOverflow(x: int, m: int, e: int, zero: int) {
    && IsInt32(x) && IsInt32(m) && IsInt32(x * Pow2(Max(e, 0)))
    && !(x * Pow2(Max(e, 0)) == m == INT32_MIN)
    && IsInt32(Scaled(x, m, e) + zero)
  }

  /**
   `r` is near the real number `x * m * 2^(e - 31)`: multiplied out by `2^(31 - e)`, or by `2^31` if the
   exponent is not negative, the distance is at most half a unit, and for a negative exponent half a unit of
   the intermediate result more.
   */
  predicate NearProduct(r: int, x: int, m: int, e: int) {
    var n := -Min(e, 0);
    var distance := r * Pow2(n) * 0x8000_0000 - x * Pow2(Max(e, 0)) * m;
    var bound := 0x4000_0000 * (Pow2(n) + if n == 0 then 0 else 1);
    -bound <= distance <= bound
  }

  /** The sum of products of two lists, each element less its zero point. */
  function PlainSum(a: seq<int>, b: seq<int>, aZero: int, bZero: int): int
    requires |a| == |b|
  {
    if a == [] then 0 else (a[0] - aZero) * (b[0] - bZero) + PlainSum(a[1..], b[1..], aZero, bZero)
  }

  lemma {:induction false} PlainSumLast(a: seq<int>, b: seq<int>, aZero: int, bZero: int, x: int, y: int)
    requires |a| == |b|
    ensures PlainSum(a + [x], b + [y], aZero, bZero) == PlainSum(a, b, aZero, bZero) + (x - aZero) * (y - bZero)
  {
    if a == [] {
      assert a + [x] == [x] && b + [y] == [y];
    } else {
      assert (a + [x])[1..] == a[1..] + [x] && (b + [y])[1..] == b[1..] + [y];
      PlainSumLast(a[1..], b[1..], aZero, bZero, x, y);
    }
  }

  lemma {:induction false} DotIsPlainSum(p: Problem, row: nat, start: nat, n: nat)
    requires Supported(p) && row < p.rows && n <= p.cols && start == RowStart(p, row)
    requires start + p.cols <= |p.lhs| && |p.rhs| == p.cols
    ensures Dot(p, row, n) == PlainSum(p.lhs[start..start + n], p.rhs[..n], p.lhsZero, p.rhsZero)
  {
    hide RowStart, Supported, PlainSum;
    if n == 0 {
      NoSum(p.lhs[start..start + n], p.rhs[..n], p.lhsZero, p.rhsZero);
    } else {
      var a, b := p.lhs[start..start + n - 1], p.rhs[..n - 1];
      DotIsPlainSum(p, row, start, n - 1);
      assert p.lhs[start..start + n] == a + [p.lhs[start + (n - 1)]] && p.rhs[..n] == b + [p.rhs[n - 1]];
      PlainSumLast(a, b, p.lhsZero, p.rhsZero, p.lhs[start + (n - 1)], p.rhs[n - 1]);
    }
  }

  lemma NoSum(a: seq<int>, b: seq<int>, aZero: int, bZero: int)
    requires |a| == |b| == 0
    ensures PlainSum(a, b, aZero, bZero) == 0
  {
  }

  /**
   What the parameters say the result `r` of a row is: bias plus plain sum, times the row's own multiplier or the
   common one, near the real product, plus the output offset, clamped.
   */
  predicate IsResult(p: Problem, row: nat, r: int)
    requires Supported(p) && row < p.rows
  {
    RowFits(p, row);
    var bias := if p.bias.Some? then p.bias.value[row] else 0;
    var m := if p.multiplier.PerRow? then p.multiplier.fixedpoints[row] else p.multiplier.fixedpoint;
    var e := if p.multiplier.PerRow? then p.multiplier.exponents[row] else p.multiplier.exponent;
    var x := PlainSum(p.lhs[row * p.cols..row * p.cols + p.cols], p.rhs, p.lhsZero, p.rhsZero) + bias;
    NoOverflow(x, m, e, p.dstZero) ==>
      NearProduct(Scaled(x, m, e), x, m, e) && r == Saturate(Scaled(x, m, e) + p.dstZero, p.clampMin, p.clampMax)
  }

  /** Without overflow the stored result is the clamped near product, and nothing wraps. */
  lemma OutputIsNear(p: Problem, row: nat)
    requires Supported(p) && row < p.rows
    ensures IsResult(p, row, Output(p, row))
  {
    hide Dot, RoundingDoublingHigh, RoundingShiftRight, NearProduct, PlainSum, All8Bit;
    RowFits(p, row);
    DotIsPlainSum(p, row, RowStart(p, row), p.cols);
    assert p.rhs[..p.cols] == p.rhs;
    var x, m, e := Dot(p, row, p.cols) + Bias(p, row), Fixedpoint(p, row), Exponent(p, row);
    if NoOverflow(x, m, e, p.dstZero) { ScaledIsNear(x, m, e); }
  }

  lemma ScaledIsNear(x: int, m: int, e: int)
    requires IsInt32(m) && IsInt32(x * Pow2(Max(e, 0))) && !(x * Pow2(Max(e, 0)) == m == INT32_MIN)
    ensures NearProduct(Scaled(x, m, e), x, m, e)
  {
    hide RoundingDoublingHigh, RoundingShiftRight, Pow2;
    var shifted, n := x * Pow2(Max(e, 0)), -Min(e, 0);
    var high := RoundingDoublingHigh(shifted, m);
    RoundingDoublingHighIsNearest(shifted, m);
    RoundingShiftRightIsNearest(high, n);
    TwoRoundings(shifted * m, high, RoundingShiftRight(high, n), Pow2(n));
    if n == 0 { ShiftByNothing(high); }
  }

  lemma ShiftByNothing(x: int)
    ensures RoundingShiftRight(x, 0) == x && Pow2(0) == 1
  {
  }

  lemma TwoRoundings(product: int, high: int, r: int, p: nat)
    requires -0x4000_0000 <= product - high * 0x8000_0000 <= 0x4000_0000 && Nearest(r, p, high)
    ensures var bound := 0x4000_0000 * (p + 1); -bound <= r * p * 0x8000_0000 - product <= bound
    ensures r * p == high ==> -0x4000_0000 <= r * p * 0x8000_0000 - product <= 0x4000_0000
  {
    var whole := r * p;
    assert r * p * 0x8000_0000 == whole * 0x8000_0000;
  }

  // ---- Lanes and their sums ----

  /** The accumulator's lanes add up, modulo 2^32, to `total`. */
  predicate Sums(acc: Lanes, total: int) {
    |acc| == 4 && Wrap32(acc[0] + acc[1] + acc[2] + acc[3]) == Wrap32(total)
  }

  function LaneDot(a: Lanes, b: Lanes, n: nat): int
    requires n <= |a| == |b|
  {
    if n == 0 then 0 else LaneDot(a, b, n - 1) + a[n - 1] * b[n - 1]
  }

  function LaneSum(a: Lanes, b: Lanes): int
    requires |a| == |b|
  {
    LaneDot(a, b, |a|)
  }

  lemma FourWraps(x0: int, x1: int, x2: int, x3: int)
    ensures Wrap32(Wrap32(x0) + Wrap32(x1) + Wrap32(x2) + Wrap32(x3)) == Wrap32(x0 + x1 + x2 + x3)
  {
    WrapAdd(x0, Wrap32(x1) + Wrap32(x2) + Wrap32(x3));
    WrapAdd(x1, x0 + Wrap32(x2) + Wrap32(x3));
    WrapAdd(x2, x0 + x1 + Wrap32(x3));
    WrapAdd(x3, x0 + x1 + x2);
  }

  lemma GainSums(acc: Lanes, g: Lanes, total: int)
    requires Sums(acc, total) && |g| == 4
    ensures Sums([Wrap32(acc[0] + g[0]), Wrap32(acc[1] + g[1]), Wrap32(acc[2] + g[2]), Wrap32(acc[3] + g[3])],
                 total + (g[0] + g[1] + g[2] + g[3]))
  {
    hide Wrap32;
    FourWraps(acc[0] + g[0], acc[1] + g[1], acc[2] + g[2], acc[3] + g[3]);
    var s, d := acc[0] + acc[1] + acc[2] + acc[3], g[0] + g[1] + g[2] + g[3];
    WrapAdd(s, d);
    WrapAdd(total, d);
  }

  lemma LaneDotFour(a: Lanes, b: Lanes)
    requires |a| == |b| == 4
    ensures LaneSum(a, b) == a[0] * b[0] + a[1] * b[1] + a[2] * b[2] + a[3] * b[3]
  {
    assert LaneDot(a, b, 1) == a[0] * b[0];
    assert LaneDot(a, b, 2) == LaneDot(a, b, 1) + a[1] * b[1];
    assert LaneDot(a, b, 3) == LaneDot(a, b, 2) + a[2] * b[2];
  }

  lemma MulAccSums(acc: Lanes, a: Lanes, b: Lanes, total: int)
    requires Sums(acc, total) && |a| == |b| == 4
    ensures Sums(MulAcc(acc, a, b), total + LaneSum(a, b))
  {
    hide Wrap32, LaneSum, Sums;
    SumsFour(acc, total);
    LaneDotFour(a, b);
    var g := [a[0] * b[0], a[1] * b[1], a[2] * b[2], a[3] * b[3]];
    GainSums(acc, g, total);
  }

  /** Both halves of eight lanes: `vget_low_s16`, then `vget_high_s16`. */
  function MulAcc8(acc: Lanes, a: Lanes, b: Lanes): (r: Lanes)
    requires |acc| == 4 && |a| == |b| == 8
    ensures |r| == 4
  {
    MulAcc(MulAcc(acc, a[..4], b[..4]), a[4..], b[4..])
  }

  lemma {:induction false} LaneDotSplit(a: Lanes, b: Lanes, n: nat)
    requires |a| == |b| && 4 <= n <= |a|
    ensures LaneDot(a, b, n) == LaneSum(a[..4], b[..4]) + LaneDot(a[4..], b[4..], n - 4)
    decreases n
  {
    if n == 4 {
      LaneDotPrefix(a, b, 4);
    } else {
      LaneDotSplit(a, b, n - 1);
    }
  }

  lemma {:induction false} LaneDotPrefix(a: Lanes, b: Lanes, n: nat)
    requires n <= 4 <= |a| == |b|
    ensures LaneDot(a, b, n) == LaneDot(a[..4], b[..4], n)
  {
    if n > 0 { LaneDotPrefix(a, b, n - 1); }
  }

  lemma EightLanes(a: Lanes, b: Lanes)
    requires |a| == |b| == 8
    ensures LaneSum(a, b) == LaneSum(a[..4], b[..4]) + LaneSum(a[4..], b[4..])
  {
    hide LaneDot;
    LaneDotSplit(a, b, |a|);
  }

  lemma MulAcc8Sums(acc: Lanes, a: Lanes, b: Lanes, total: int)
    requires Sums(acc, total) && |a| == |b| == 8
    ensures Sums(MulAcc8(acc, a, b), total + LaneSum(a, b))
  {
    hide Sums, LaneSum, MulAcc;
    SumsFour(acc, total);
    MulAccSums(acc, a[..4], b[..4], total);
    EightLanes(a, b);
    MulAccSums(MulAcc(acc, a[..4], b[..4]), a[4..], b[4..], total + LaneSum(a[..4], b[..4]));
  }

  lemma SumsFour(acc: Lanes, total: int)
    requires Sums(acc, total)
    ensures |acc| == 4
  {
  }

  // ---- Loading ----

  /** `Load8AndSubtractZeroPoint` */
  function Load8(src: seq<int>, at: nat, zeroPoint: int): (r: Lanes)
    requires at + 8 <= |src|
    ensures |r| == 8 && forall j :: 0 <= j < 8 ==> r[j] == src[at + j] - zeroPoint
  {
    seq(8, j requires 0 <= j < 8 => src[at + j] - zeroPoint)
  }

  /** The `switch` on `back`, whose cases fall through: the first `back` lanes become zero. */
  method ZeroLanes(input: Lanes, back: nat) returns (r: Lanes)
    requires |input| == 8 && 1 <= back <= 7
    ensures |r| == 8 && forall j :: 0 <= j < 8 ==> r[j] == if j < back then 0 else input[j]
  {
    r := input;
    if back >= 7 { r := r[6 := 0]; }
    if back >= 6 { r := r[5 := 0]; }
    if back >= 5 { r := r[4 := 0]; }
    if back >= 4 { r := r[3 := 0]; }
    if back >= 3 { r := r[2 := 0]; }
    if back >= 2 { r := r[1 := 0]; }
    r := r[0 := 0];
  }

  /** Eight columns ending at column `end`, with the input lanes of the first `back` of them zeroed. */
  predicate Block(p: Problem, row: nat, end: nat, back: nat, filter: Lanes, input: Lanes) {
    && Supported(p) && row < p.rows && 8 <= end <= p.cols && back <= 8 && |filter| == |input| == 8
    && RowStart(p, row) + p.cols <= |p.lhs|
    && (forall j :: 0 <= j < 8 ==> filter[j] == p.lhs[RowStart(p, row) + end - 8 + j] - p.lhsZero)
    && (forall j :: 0 <= j < 8 ==> input[j] == if j < back then 0 else p.rhs[end - 8 + j] - p.rhsZero)
  }

  lemma {:induction false} BlockDot(p: Problem, row: nat, end: nat, back: nat, filter: Lanes, input: Lanes, j: nat)
    requires Block(p, row, end, back, filter, input) && j <= 8
    ensures LaneDot(filter, input, j)
            == if j <= back then 0 else Dot(p, row, end - 8 + j) - Dot(p, row, end - 8 + back)
  {
    if j > 0 {
      BlockDot(p, row, end, back, filter, input, j - 1);
      if j > back {
        assert filter[j - 1] * input[j - 1] == Term(p, row, end - 8 + j - 1);
      }
    }
  }

  lemma BlockSum(p: Problem, row: nat, end: nat, back: nat, filter: Lanes, input: Lanes)
    requires Block(p, row, end, back, filter, input)
    ensures Dot(p, row, end - 8 + back) + LaneSum(filter, input) == Dot(p, row, end)
  {
    hide LaneDot, Dot;
    BlockDot(p, row, end, back, filter, input, |filter|);
  }

  /** One block brings an accumulator from the columns before it to the columns up to its end. */
  lemma BlockSums(p: Problem, row: nat, end: nat, back: nat, filter: Lanes, input: Lanes, acc: Lanes)
    requires Block(p, row, end, back, filter, input) && Sums(acc, Dot(p, row, end - 8 + back))
    ensures Sums(MulAcc8(acc, filter, input), Dot(p, row, end))
  {
    hide Sums, MulAcc8, LaneSum, Dot;
    BlockSum(p, row, end, back, filter, input);
    MulAcc8Sums(acc, filter, input, Dot(p, row, end - 8 + back));
  }

  /** Sixteen lanes, in the order the kernel takes them: both low halves, then both high halves. */
  function MulAcc16(acc: Lanes, a0: Lanes, a1: Lanes, b0: Lanes, b1: Lanes): (r: Lanes)
    requires |acc| == 4 && |a0| == |a1| == |b0| == |b1| == 8
    ensures |r| == 4
  {
    MulAcc(MulAcc(MulAcc(MulAcc(acc, a0[..4], b0[..4]), a1[..4], b1[..4]), a0[4..], b0[4..]), a1[4..], b1[4..])
  }

  lemma MulAcc16Sums(acc: Lanes, a0: Lanes, a1: Lanes, b0: Lanes, b1: Lanes, total: int)
    requires Sums(acc, total) && |a0| == |a1| == |b0| == |b1| == 8
    ensures Sums(MulAcc16(acc, a0, a1, b0, b1), total + LaneSum(a0, b0) + LaneSum(a1, b1))
  {
    hide Sums, LaneSum, MulAcc;
    SumsFour(acc, total);
    EightLanes(a0, b0);
    EightLanes(a1, b1);
    FourMulAccs(acc, a0[..4], b0[..4], a1[..4], b1[..4], a0[4..], b0[4..], a1[4..], b1[4..], total);
  }

  lemma FourMulAccs(acc: Lanes, a0: Lanes, b0: Lanes, a1: Lanes, b1: Lanes, a2: Lanes, b2: Lanes, a3: Lanes, b3: Lanes,
                    total: int)
    requires Sums(acc, total) && |acc| == 4
    requires |a0| == |b0| == |a1| == |b1| == |a2| == |b2| == |a3| == |b3| == 4
    ensures Sums(MulAcc(MulAcc(MulAcc(MulAcc(acc, a0, b0), a1, b1), a2, b2), a3, b3),
                 total + LaneSum(a0, b0) + LaneSum(a1, b1) + LaneSum(a2, b2) + LaneSum(a3, b3))
  {
    hide Sums, LaneSum, MulAcc;
    var d0, d1, d2 := LaneSum(a0, b0), LaneSum(a1, b1), LaneSum(a2, b2);
    MulAccSums(acc, a0, b0, total);
    MulAccSums(MulAcc(acc, a0, b0), a1, b1, total + d0);
    MulAccSums(MulAcc(MulAcc(acc, a0, b0), a1, b1), a2, b2, total + d0 + d1);
    MulAccSums(MulAcc(MulAcc(MulAcc(acc, a0, b0), a1, b1), a2, b2), a3, b3, total + d0 + d1 + d2);
  }

  // ---- One row's share of a block ----

  method Row16(p: Problem, acc: Lanes, filterAt: nat, inputLo: Lanes, inputHi: Lanes, ghost row: nat, ghost col: nat)
    returns (r: Lanes)
    requires Supported(p) && row < p.rows && col + 16 <= p.cols && filterAt == RowStart(p, row) + col
    requires inputLo == Load8(p.rhs, col, p.rhsZero) && inputHi == Load8(p.rhs, col + 8, p.rhsZero)
    requires Sums(acc, Dot(p, row, col))
    ensures Sums(r, Dot(p, row, col + 16))
  {
    hide Sums, Dot, LaneSum, MulAcc16, RowStart;
    RowFits(p, row);
    SumsFour(acc, Dot(p, row, col));
    var filterLo, filterHi := Load8(p.lhs, filterAt, p.lhsZero), Load8(p.lhs, filterAt + 8, p.lhsZero);
    BlockSum(p, row, col + 8, 0, filterLo, inputLo);
    BlockSum(p, row, col + 16, 0, filterHi, inputHi);
    MulAcc16Sums(acc, filterLo, filterHi, inputLo, inputHi, Dot(p, row, col));
    r := MulAcc16(acc, filterLo, filterHi, inputLo, inputHi);
  }

  /** Eight columns ending at `end`, the first `back` of them already counted. */
  method Row8(p: Problem, acc: Lanes, filterAt: nat, input: Lanes, ghost row: nat, ghost end: nat, ghost back: nat)
    returns (r: Lanes)
    requires Supported(p) && row < p.rows && 8 <= end <= p.cols && back <= 8
    requires filterAt == RowStart(p, row) + end - 8
    requires |input| == 8
    requires forall j :: 0 <= j < 8 ==> input[j] == if j < back then 0 else p.rhs[end - 8 + j] - p.rhsZero
    requires Sums(acc, Dot(p, row, end - 8 + back))
    ensures Sums(r, Dot(p, row, end))
  {
    hide Sums, Dot, MulAcc8, RowStart;
    RowFits(p, row);
    SumsFour(acc, Dot(p, row, end - 8 + back));
    var filter := Load8(p.lhs, filterAt, p.lhsZero);
    BlockSums(p, row, end, back, filter, input, acc);
    r := MulAcc8(acc, filter, input);
  }

  // ---- Four rows ----

  lemma FourRows(p: Problem, row: nat)
    requires Supported(p) && row + 4 <= p.rows
    ensures RowStart(p, row + 1) == RowStart(p, row) + p.cols
    ensures RowStart(p, row + 2) == RowStart(p, row) + 2 * p.cols
    ensures RowStart(p, row + 3) == RowStart(p, row) + 3 * p.cols
    ensures RowStart(p, row) + 4 * p.cols <= |p.lhs| && |p.rhs| == p.cols >= 8
  {
    hide RowStart;
    RowFits(p, row);
    RowFits(p, row + 1);
    RowFits(p, row + 2);
    RowFits(p, row + 3);
  }

  predicate GroupSums(p: Problem, row: nat, n: nat, acc0: Lanes, acc1: Lanes, acc2: Lanes, acc3: Lanes)
    requires Supported(p) && row + 4 <= p.rows && n <= p.cols
  {
    && Sums(acc0, Dot(p, row, n)) && Sums(acc1, Dot(p, row + 1, n))
    && Sums(acc2, Dot(p, row + 2, n)) && Sums(acc3, Dot(p, row + 3, n))
  }

  method Group16(p: Problem, row: nat, filterPtr: nat, col: nat, a0: Lanes, a1: Lanes, a2: Lanes, a3: Lanes)
    returns (acc0: Lanes, acc1: Lanes, acc2: Lanes, acc3: Lanes)
    requires Supported(p) && row + 4 <= p.rows && col + 16 <= p.cols && filterPtr == RowStart(p, row) + col
    requires GroupSums(p, row, col, a0, a1, a2, a3)
    ensures GroupSums(p, row, col + 16, acc0, acc1, acc2, acc3)
  {
    hide Sums, RowStart, Dot;
    FourRows(p, row);
    var inputLo, inputHi := Load8(p.rhs, col, p.rhsZero), Load8(p.rhs, col + 8, p.rhsZero);
    acc0 := Row16(p, a0, filterPtr, inputLo, inputHi, row, col);
    acc1 := Row16(p, a1, filterPtr + p.cols, inputLo, inputHi, row + 1, col);
    acc2 := Row16(p, a2, filterPtr + 2 * p.cols, inputLo, inputHi, row + 2, col);
    acc3 := Row16(p, a3, filterPtr + 3 * p.cols, inputLo, inputHi, row + 3, col);
  }

  method Group8(p: Problem, row: nat, filterPtr: nat, input: Lanes, ghost end: nat, ghost back: nat,
                a0: Lanes, a1: Lanes, a2: Lanes, a3: Lanes)
    returns (acc0: Lanes, acc1: Lanes, acc2: Lanes, acc3: Lanes)
    requires Supported(p) && row + 4 <= p.rows && 8 <= end <= p.cols && back <= 8
    requires filterPtr == RowStart(p, row) + end - 8
    requires |input| == 8
    requires forall j :: 0 <= j < 8 ==> input[j] == if j < back then 0 else p.rhs[end - 8 + j] - p.rhsZero
    requires GroupSums(p, row, end - 8 + back, a0, a1, a2, a3)
    ensures GroupSums(p, row, end, acc0, acc1, acc2, acc3)
  {
    hide Sums, RowStart, Dot;
    FourRows(p, row);
    acc0 := Row8(p, a0, filterPtr, input, row, end, back);
    acc1 := Row8(p, a1, filterPtr + p.cols, input, row + 1, end, back);
    acc2 := Row8(p, a2, filterPtr + 2 * p.cols, input, row + 2, end, back);
    acc3 := Row8(p, a3, filterPtr + 3 * p.cols, input, row + 3, end, back);
  }

  /** The column loop, the block of eight, and the overlapping block, for four rows at once. */
  method Accumulate(p: Problem, row: nat) returns (acc0: Lanes, acc1: Lanes, acc2: Lanes, acc3: Lanes)
    requires Supported(p) && row + 4 <= p.rows
    ensures GroupSums(p, row, p.cols, acc0, acc1, acc2, acc3)
  {
    hide GroupSums, RowStart, Supported;
    FourRows(p, row);
    ZeroSums(p, row);
    acc0 := [0, 0, 0, 0];
    acc1, acc2, acc3 := acc0, acc0, acc0;
    var filterPtr, col := RowStart(p, row), 0;
    while col <= p.cols - 16
      invariant 0 <= col <= p.cols && filterPtr == RowStart(p, row) + col
      invariant GroupSums(p, row, col, acc0, acc1, acc2, acc3)
    {
      acc0, acc1, acc2, acc3 := Group16(p, row, filterPtr, col, acc0, acc1, acc2, acc3);
      filterPtr, col := filterPtr + 16, col + 16;
    }
    if col <= p.cols - 8 {
      var input := Load8(p.rhs, col, p.rhsZero);
      acc0, acc1, acc2, acc3 := Group8(p, row, filterPtr, input, col + 8, 0, acc0, acc1, acc2, acc3);
      filterPtr, col := filterPtr + 8, col + 8;
    }
    if col < p.cols {
      // fewer than eight columns remain: walk back and zero what was already counted
      var back := col + 8 - p.cols;
      var input := ZeroLanes(Load8(p.rhs, p.cols - 8, p.rhsZero), back);
      acc0, acc1, acc2, acc3 := Group8(p, row, filterPtr - back, input, p.cols, back, acc0, acc1, acc2, acc3);
    }
  }

  lemma ZeroSums(p: Problem, row: nat)
    requires Supported(p) && row + 4 <= p.rows
    ensures GroupSums(p, row, 0, [0, 0, 0, 0], [0, 0, 0, 0], [0, 0, 0, 0], [0, 0, 0, 0])
  {
  }

  /** The pairwise additions leave the wrapped sum of each accumulator's lanes. */
  function Reduce(acc0: Lanes, acc1: Lanes, acc2: Lanes, acc3: Lanes): (r: Lanes)
    requires |acc0| == |acc1| == |acc2| == |acc3| == 4
    ensures |r| == 4
  {
    PairAdd(PairAdd(acc0[..2], acc0[2..]), PairAdd(acc1[..2], acc1[2..]))
    + PairAdd(PairAdd(acc2[..2], acc2[2..]), PairAdd(acc3[..2], acc3[2..]))
  }

  lemma PairwiseSums(acc: Lanes, total: int)
    requires Sums(acc, total)
    ensures var q := PairAdd(acc[..2], acc[2..]); Wrap32(q[0] + q[1]) == Wrap32(total)
  {
    hide Wrap32;
    WrapBoth(acc[0] + acc[1], acc[2] + acc[3]);
  }

  lemma ReduceSums(acc0: Lanes, acc1: Lanes, acc2: Lanes, acc3: Lanes, t0: int, t1: int, t2: int, t3: int)
    requires Sums(acc0, t0) && Sums(acc1, t1) && Sums(acc2, t2) && Sums(acc3, t3)
    ensures Reduce(acc0, acc1, acc2, acc3) == [Wrap32(t0), Wrap32(t1), Wrap32(t2), Wrap32(t3)]
  {
    hide Wrap32;
    PairwiseSums(acc0, t0);
    PairwiseSums(acc1, t1);
    PairwiseSums(acc2, t2);
    PairwiseSums(acc3, t3);
  }

  // ---- Bias, requantization, narrowing ----

  method Finish(p: Problem, row: nat, dots: Lanes) returns (out: Lanes)
    requires Supported(p) && row + 4 <= p.rows && |dots| == 4
    requires forall i :: 0 <= i < 4 ==> dots[i] == Wrap32(Dot(p, row + i, p.cols))
    ensures |out| == 4 && forall i :: 0 <= i < 4 ==> out[i] == Output(p, row + i)
  {
    hide Dot, Saturate, Wrap32, All8Bit, Requantize, Bias;
    var reduced := Biased(p, row, dots);
    var fixedpoints, exponents: Lanes;
    match p.multiplier {
      case PerRow(ms, es) => fixedpoints, exponents := ms[row..row + 4], es[row..row + 4];
      case Uniform(m, e) => fixedpoints, exponents := [m, m, m, m], [e, e, e, e];
    }
    out := Narrowed(p, reduced, fixedpoints, exponents);
    forall i | 0 <= i < 4
      ensures out[i] == Output(p, row + i)
    {
      assert fixedpoints[i] == Fixedpoint(p, row + i) && exponents[i] == Exponent(p, row + i);
    }
  }

  method Biased(p: Problem, row: nat, dots: Lanes) returns (reduced: Lanes)
    requires Supported(p) && row + 4 <= p.rows && |dots| == 4
    requires forall i :: 0 <= i < 4 ==> dots[i] == Wrap32(Dot(p, row + i, p.cols))
    ensures |reduced| == 4
    ensures forall i :: 0 <= i < 4 ==> reduced[i] == Wrap32(Dot(p, row + i, p.cols) + Bias(p, row + i))
  {
    hide Dot, Wrap32, All8Bit;
    reduced := dots;
    if p.bias.Some? {
      reduced := Add(reduced, p.bias.value[row..row + 4]);
      forall i | 0 <= i < 4
        ensures reduced[i] == Wrap32(Dot(p, row + i, p.cols) + Bias(p, row + i))
      {
        WrapAdd(Dot(p, row + i, p.cols), Bias(p, row + i));
      }
    }
  }

  /** Requantization, the destination's zero point, narrowing and clamping, lane by lane. */
  method Narrowed(p: Problem, x: Lanes, fixedpoints: Lanes, exponents: Lanes) returns (out: Lanes)
    requires Supported(p) && |x| == |fixedpoints| == |exponents| == 4
    ensures |out| == 4
    ensures forall i :: 0 <= i < 4 ==>
              out[i] == Saturate(Wrap32(Requantize(x[i], fixedpoints[i], exponents[i]) + p.dstZero),
                                 p.clampMin, p.clampMax)
  {
    hide RoundingDoublingHigh, RoundingShiftRight, ShiftLeft, Saturate, NarrowAndClamp, Wrap32, All8Bit;
    var shifted := seq(4, i requires 0 <= i < 4 => ShiftLeft(x[i], Max(exponents[i], 0)));
    var scaled := seq(4, i requires 0 <= i < 4 => RoundingDoublingHigh(shifted[i], fixedpoints[i]));
    var rounded := seq(4, i requires 0 <= i < 4 => RoundingShiftRight(scaled[i], -Min(exponents[i], 0)));
    var placed := seq(4, i requires 0 <= i < 4 => Wrap32(rounded[i] + p.dstZero));
    out := seq(4, i requires 0 <= i < 4 => NarrowAndClamp(placed[i], p.dstType, p.clampMin, p.clampMax));
    forall i | 0 <= i < 4
      ensures out[i] == Saturate(Wrap32(Requantize(x[i], fixedpoints[i], exponents[i]) + p.dstZero),
                                 p.clampMin, p.clampMax)
    {
      NarrowAndClampIsClamp(placed[i], p.dstType, p.clampMin, p.clampMax);
    }
  }

  /** One iteration: four results stored. */
  method RunGroup(p: Problem, dst: array<int>, row: nat)
    requires Supported(p) && row + 4 <= p.rows == dst.Length
    modifies dst
    ensures forall i :: 0 <= i < p.rows ==> dst[i] == if row <= i < row + 4 then Output(p, i) else old(dst[i])
  {
    hide Sums, Output, Wrap32, Reduce;
    var acc0, acc1, acc2, acc3 := Accumulate(p, row);
    GroupFour(p, row, acc0, acc1, acc2, acc3);
    var out := Finish(p, row, Reduce(acc0, acc1, acc2, acc3));
    dst[row], dst[row + 1], dst[row + 2], dst[row + 3] := out[0], out[1], out[2], out[3];
  }

  lemma GroupFour(p: Problem, row: nat, acc0: Lanes, acc1: Lanes, acc2: Lanes, acc3: Lanes)
    requires Supported(p) && row + 4 <= p.rows && GroupSums(p, row, p.cols, acc0, acc1, acc2, acc3)
    ensures |acc0| == |acc1| == |acc2| == |acc3| == 4
    ensures forall i :: 0 <= i < 4 ==> Reduce(acc0, acc1, acc2, acc3)[i] == Wrap32(Dot(p, row + i, p.cols))
  {
    hide Wrap32, Reduce, Dot;
    ReduceSums(acc0, acc1, acc2, acc3, Dot(p, row, p.cols), Dot(p, row + 1, p.cols), Dot(p, row + 2, p.cols),
               Dot(p, row + 3, p.cols));
  }

  /** The first row a range writes: the last group may reach back below its start. */
  function FirstWritten(rowStart: nat, rowEnd: nat): nat
    requires rowEnd >= 4
  {
    Min(rowStart, rowEnd - 4)
  }

  /** `CustomGemvImpl::Run`: correct for any range that leaves room for four rows below its end. */
  method Run(p: Problem, dst: array<int>, rowStart: nat, rowEnd: nat)
    requires Supported(p) && dst.Length == p.rows && rowStart <= rowEnd <= p.rows
    requires rowStart < rowEnd ==> rowEnd >= 4
    modifies dst
    ensures rowStart == rowEnd ==> dst[..] == old(dst[..])
    ensures rowStart < rowEnd ==> forall i :: 0 <= i < p.rows ==>
              dst[i] == if FirstWritten(rowStart, rowEnd) <= i < rowEnd then Output(p, i) else old(dst[i])
  {
    hide Supported, Output;
    var row := rowStart;
    while row < rowEnd
      invariant rowStart <= row <= rowEnd && (row > rowStart ==> row >= 4)
      invariant forall i :: 0 <= i < p.rows ==>
                  dst[i] == if row > rowStart && FirstWritten(rowStart, rowEnd) <= i < row then Output(p, i)
                            else old(dst[i])
      decreases rowEnd - row
    {
      row := Min(row, rowEnd - 4);
      RunGroup(p, dst, row);
      row := row + 4;
    }
  }

  // ---- The split over threads ----

  function CeilQuotient(a: nat, b: nat): nat
    requires b > 0
  {
    (a + b - 1) / b
  }

  function RoundUp4(n: nat): nat { n + 3 - (n + 3) % 4 }

  /** Rows given to every thread but the last ones. */
  function RowsPerThread(rows: nat, threads: nat): (n: nat)
    requires threads > 0 && rows >= 4
    ensures n >= 4 && n % 4 == 0
  {
    CeilQuotientPositive(rows, threads);
    RoundUp4(CeilQuotient(rows, threads))
  }

  /** A thread's share is the least multiple of four rows with which all rows are covered. */
  lemma LeastShare(rows: nat, threads: nat)
    requires threads > 0 && rows >= 4
    ensures var n := RowsPerThread(rows, threads); n % 4 == 0 && (n - 4) * threads < rows <= n * threads
  {
    var q, n := CeilQuotient(rows, threads), RowsPerThread(rows, threads);
    CeilQuotientPositive(rows, threads);
    CeilQuotientLeast(rows, threads);
    MulMono(q, threads, n, threads);
    if n >= 4 { MulMono(n - 4, threads, q - 1, threads); }
  }

  lemma CeilQuotientLeast(rows: nat, threads: nat)
    requires threads > 0 && rows > 0
    ensures (CeilQuotient(rows, threads) - 1) * threads < rows
  {
    var q := CeilQuotient(rows, threads);
    assert q * threads + (rows + threads - 1) % threads == rows + threads - 1;
    assert (q - 1) * threads == q * threads - threads;
  }

  lemma CeilQuotientPositive(rows: nat, threads: nat)
    requires threads > 0 && rows > 0
    ensures CeilQuotient(rows, threads) > 0 && CeilQuotient(rows, threads) * threads >= rows
  {
    var q := CeilQuotient(rows, threads);
    assert q * threads + (rows + threads - 1) % threads == rows + threads - 1;
  }

  /** Where the range of thread `i` begins, and the range of thread `i - 1` ends. */
  function Boundary(rows: nat, threads: nat, i: nat): nat
    requires threads > 0 && rows >= 4
  {
    Min(rows, i * RowsPerThread(rows, threads))
  }

  lemma LastBoundary(rows: nat, threads: nat)
    requires threads > 0 && rows >= 4
    ensures Boundary(rows, threads, threads) == rows
  {
    CeilQuotientPositive(rows, threads);
    var q, n := CeilQuotient(rows, threads), RowsPerThread(rows, threads);
    assert n >= q;
    hide CeilQuotient, RowsPerThread;
    MulMono(q, threads, n, threads);
    assert threads * n == n * threads;
  }

  lemma NextBoundary(rows: nat, threads: nat, i: nat)
    requires threads > 0 && rows >= 4
    ensures var b := Boundary(rows, threads, i);
            && Boundary(rows, threads, i + 1) == Min(rows, b + RowsPerThread(rows, threads))
            && (b < Boundary(rows, threads, i + 1) ==> Boundary(rows, threads, i + 1) >= 4)
  {
    var n := RowsPerThread(rows, threads);
    assert (i + 1) * n == i * n + n;
  }

  /** The rows of thread `i`. */
  predicate HasRow(rows: nat, threads: nat, i: nat, row: nat)
    requires threads > 0 && rows >= 4
  {
    Boundary(rows, threads, i) <= row < Boundary(rows, threads, i + 1)
  }

  /** The ranges handed out cover each row, whatever the number of threads. */
  lemma {:induction false} RangesCover(rows: nat, threads: nat, upTo: nat, row: nat)
    requires threads > 0 && rows >= 4 && upTo <= threads && row < Boundary(rows, threads, upTo)
    ensures exists i :: 0 <= i < upTo && HasRow(rows, threads, i, row)
  {
    hide Boundary;
    FirstBoundary(rows, threads);
    assert upTo > 0;
    if row < Boundary(rows, threads, upTo - 1) {
      RangesCover(rows, threads, upTo - 1, row);
    } else {
      assert HasRow(rows, threads, upTo - 1, row);
    }
  }

  lemma FirstBoundary(rows: nat, threads: nat)
    requires threads > 0 && rows >= 4
    ensures Boundary(rows, threads, 0) == 0
  {
  }

  /** And no row twice. */
  lemma RangesDisjoint(rows: nat, threads: nat, i: nat, j: nat, row: nat)
    requires threads > 0 && rows >= 4 && HasRow(rows, threads, i, row) && HasRow(rows, threads, j, row)
    ensures i == j
  {
    hide Boundary;
    if i < j {
      BoundaryMonotone(rows, threads, i + 1, j);
    } else if j < i {
      BoundaryMonotone(rows, threads, j + 1, i);
    }
  }

  lemma BoundaryMonotone(rows: nat, threads: nat, i: nat, j: nat)
    requires threads > 0 && rows >= 4 && i <= j
    ensures Boundary(rows, threads, i) <= Boundary(rows, threads, j)
  {
    var n := RowsPerThread(rows, threads);
    assert i * n <= j * n;
  }

  /**
   `TFLITE_DCHECK_GE(row_end - row_start, kKernelRows)` in `Run`: every thread passes it exactly when the
   ranges before the last leave at least four rows.
   */
  lemma RangesOfFour(rows: nat, threads: nat)
    requires threads > 0 && rows >= 4
    ensures (forall i :: 0 <= i < threads ==> Boundary(rows, threads, i + 1) - Boundary(rows, threads, i) >= 4)
            <==> (threads - 1) * RowsPerThread(rows, threads) + 4 <= rows
  {
    hide Boundary, RowsPerThread;
    LastBoundary(rows, threads);
    assert Boundary(rows, threads, threads - 1 + 1) == rows;
    BeforeLast(rows, threads);
    if (threads - 1) * RowsPerThread(rows, threads) + 4 <= rows {
      forall i | 0 <= i < threads - 1
        ensures Boundary(rows, threads, i + 1) - Boundary(rows, threads, i) >= 4
      {
        EarlyRange(rows, threads, i);
      }
    }
  }

  lemma BeforeLast(rows: nat, threads: nat)
    requires threads > 0 && rows >= 4
    ensures Boundary(rows, threads, threads - 1) == Min(rows, (threads - 1) * RowsPerThread(rows, threads))
  {
  }

  lemma EarlyRange(rows: nat, threads: nat, i: nat)
    requires rows >= 4 && i + 1 < threads && (threads - 1) * RowsPerThread(rows, threads) <= rows
    ensures Boundary(rows, threads, i + 1) - Boundary(rows, threads, i) >= 4
  {
    hide RowsPerThread;
    var n := RowsPerThread(rows, threads);
    MulMono(i + 1, n, threads - 1, n);
    assert (i + 1) * n == i * n + n;
  }

  /** It can fail: nine rows on two threads, which `HowManyThreads` does choose, leave one row for the second. */
  lemma NineRowsOnTwoThreads()
    ensures HowManyThreads(2, 9, 1, 20000) == 2
    ensures Boundary(9, 2, 1) == 8 && Boundary(9, 2, 2) == 9
  {
    assert CeilQuotient(9, 2) == 5 && RoundUp4(5) == 8;
    assert Boundary(9, 2, 1) == Min(9, 1 * 8) && Boundary(9, 2, 2) == Min(9, 2 * 8);
  }

  /** `LegacyHowManyThreads<4>`; the product of the sizes is taken in 64 bits and its quotient in 32. */
  function HowManyThreads(maxThreads: int, rows: nat, cols: nat, depth: nat): (n: int)
    ensures n >= 1
    ensures maxThreads >= 1 ==> n <= maxThreads
  {
    if maxThreads == 1 then 1
    else
      var n := Min(maxThreads, rows / 4);
      var n' := if n > 1 then Min(n, Wrap32((rows * cols * depth) % 0x1_0000_0000_0000_0000 / 0x1_0000)) else n;
      if n' < 1 then 1 else n'
  }

  /**
   The most threads, up to the maximum, that leave each four rows and 65536 multiplications; one if there is no
   such number.
   */
  lemma MostThreads(maxThreads: int, rows: nat, cols: nat, depth: nat, m: nat)
    requires maxThreads >= 1 && rows * cols * depth < 0x8000_0000_0000
    ensures var n := HowManyThreads(maxThreads, rows, cols, depth);
            && (n > 1 ==> 4 * n <= rows && 0x1_0000 * n <= rows * cols * depth)
            && (1 < m <= maxThreads && 4 * m <= rows && 0x1_0000 * m <= rows * cols * depth ==> m <= n)
  {
    hide Wrap32;
    SmallQuotient(rows * cols * depth);
    LeastOfThree(maxThreads, rows, rows * cols * depth, m);
  }

  lemma LeastOfThree(maxThreads: int, rows: nat, size: nat, m: nat)
    requires maxThreads >= 1
    ensures var n := Min(maxThreads, rows / 4);
            var n' := if n > 1 then Min(n, size / 0x1_0000) else n;
            && (n' > 1 ==> 4 * n' <= rows && 0x1_0000 * n' <= size)
            && (1 < m <= maxThreads && 4 * m <= rows && 0x1_0000 * m <= size ==> m <= n')
  {
  }

  lemma SmallQuotient(size: nat)
    requires size < 0x8000_0000_0000
    ensures Wrap32(size % 0x1_0000_0000_0000_0000 / 0x1_0000) == size / 0x1_0000
  {
  }

  predicate IsSchedule(order: seq<nat>, n: nat) {
    (forall k :: 0 <= k < |order| ==> order[k] < n) && (forall t: nat :: t < n ==> t in order)
  }

  /** `CustomGemv`: every row gets its result, whatever the order in which the pool runs the tasks. */
  method CustomGemv(p: Problem, maxThreads: int, order: seq<nat>, dst: array<int>) returns (done: bool)
    requires |p.lhs| == p.rows * p.cols && |p.rhs| == p.cols && dst.Length == p.rows
    requires p.rows >= 4 && p.cols >= 8 ==> Supported(p)
    requires IsSchedule(order, HowManyThreads(maxThreads, p.rows, 1, p.cols))
    modifies dst
    ensures done == (p.rows >= 4 && p.cols >= 8)
    ensures done ==> forall i :: 0 <= i < p.rows ==> dst[i] == Output(p, i) && IsResult(p, i, dst[i])
    ensures !done ==> dst[..] == old(dst[..])
  {
    hide IsResult, Output;
    if p.rows < 4 || p.cols < 8 { return false; }
    var threads: nat := HowManyThreads(maxThreads, p.rows, 1, p.cols);
    if threads == 1 {
      Run(p, dst, 0, p.rows);
    } else {
      var tasks := SplitRows(p.rows, threads);
      Execute(p, tasks, order, dst);
    }
    forall i | 0 <= i < p.rows
      ensures IsResult(p, i, dst[i])
    {
      OutputIsNear(p, i);
    }
    return true;
  }

  /** The row ranges of the tasks. */
  method SplitRows(rows: nat, threads: nat) returns (tasks: seq<(nat, nat)>)
    requires rows >= 4 && threads > 0
    ensures |tasks| == threads
    ensures forall i :: 0 <= i < threads ==> tasks[i] == (Boundary(rows, threads, i), Boundary(rows, threads, i + 1))
  {
    hide Boundary, RowsPerThread;
    var rowsPerThread := RowsPerThread(rows, threads);
    var rowStart := 0;
    tasks := [];
    FirstBoundary(rows, threads);
    for i := 0 to threads
      invariant |tasks| == i && rowStart == Boundary(rows, threads, i)
      invariant forall k :: 0 <= k < i ==> tasks[k] == (Boundary(rows, threads, k), Boundary(rows, threads, k + 1))
    {
      NextBoundary(rows, threads, i);
      var rowEnd := Min(rows, rowStart + rowsPerThread);
      tasks := tasks + [(rowStart, rowEnd)];
      rowStart := rowEnd;
    }
  }

  /** The tasks in any order; a row that two of them write gets the same value from both. */
  method Execute(p: Problem, tasks: seq<(nat, nat)>, order: seq<nat>, dst: array<int>)
    requires Supported(p) && dst.Length == p.rows >= 4 && |tasks| > 0 && IsSchedule(order, |tasks|)
    requires forall i :: 0 <= i < |tasks| ==>
               tasks[i] == (Boundary(p.rows, |tasks|, i), Boundary(p.rows, |tasks|, i + 1))
    modifies dst
    ensures forall i :: 0 <= i < p.rows ==> dst[i] == Output(p, i)
  {
    hide Supported, Output, Boundary, FirstWritten;
    for k := 0 to |order|
      invariant forall t: nat, i: nat :: t in order[..k] && i < p.rows && HasRow(p.rows, |tasks|, t, i) ==>
                  dst[i] == Output(p, i)
    {
      var t := order[k];
      NextBoundary(p.rows, |tasks|, t);
      BoundaryMonotone(p.rows, |tasks|, t, t + 1);
      Run(p, dst, tasks[t].0, tasks[t].1);
      FirstIsEarly(tasks[t].0, tasks[t].1);
      assert order[..k + 1] == order[..k] + [t];
    }
    assert order[..|order|] == order;
    LastBoundary(p.rows, |tasks|);
    forall i | 0 <= i < p.rows
      ensures dst[i] == Output(p, i)
    {
      RangesCover(p.rows, |tasks|, |tasks|, i);
      var t: nat :| t < |tasks| && HasRow(p.rows, |tasks|, t, i);
      assert t in order;
    }
  }

  lemma FirstIsEarly(rowStart: nat, rowEnd: nat)
    ensures rowEnd >= 4 ==> FirstWritten(rowStart, rowEnd) <= rowStart
  {
  }
}
