/**
 The bytes of a WAV file: header, chunks, samples, and the walk over the chunks.
 */
module WavFormat {
  import opened Bits
  import opened Bytes

  const RIFF: Str := [82, 73, 70, 70]
  const WAVE: Str := [87, 65, 86, 69]
  const FMT: Str := [102, 109, 116, 32]
  const DATA: Str := [100, 97, 116, 97]
  const IXML: Str := [105, 88, 77, 76]

  function Codes(text: string): (s: Str)
    requires forall i :: 0 <= i < |text| ==> text[i] < 128 as char
    ensures |s| == |text| && forall i :: 0 <= i < |s| ==> s[i] == text[i] as int
  {
    seq(|text|, i requires 0 <= i < |text| => text[i] as int)
  }

  lemma ChunkIds()
    ensures RIFF == Codes("RIFF") && WAVE == Codes("WAVE") && FMT == Codes("fmt ") && DATA == Codes("data")
    ensures IXML == Codes("iXML")
  {
  }

  const PCM: nat := 1
  const IEEE_FLOAT: nat := 3

  // ---- Samples ----

  /**
   32-bit floats as bit patterns. Their arithmetic is done in the reals: `value` is the number a pattern
   stands for, `nearest` the pattern a number is rounded to.
   */
  datatype Floats = Floats(value: nat -> real, nearest: real -> nat)

  /** Multiples of 2^-23 up to one in size are floats. */
  function Grid(k: int): real { k as real / 8388608.0 }

  ghost predicate FloatsOk(fl: Floats) {
    forall k: int :: -8388608 <= k <= 8388608 ==>
      fl.nearest(Grid(k)) < 0x1_0000_0000 && fl.value(fl.nearest(Grid(k))) == Grid(k)
  }

  /** Conversion to an integer type: towards zero. */
  function Trunc(x: real): int { if x >= 0.0 then x.Floor else -((-x).Floor) }

  /** `clamp (sample, -1., 1.)` */
  function Clamp(x: real): (y: real)
    ensures -1.0 <= y <= 1.0
  {
    var v := if 1.0 < x then 1.0 else x;
    if v < -1.0 then -1.0 else v
  }

  /** `sampleToSingleByte` */
  function Quantize8(x: real): (code: int)
    ensures 0 <= code < 256
  {
    Trunc((Clamp(x) + 1.0) / 2.0 * 255.0)
  }

  /** `sampleToSixteenBitInt` */
  function Quantize16(x: real): (code: int)
    ensures -32767 <= code <= 32767
  {
    Trunc(Clamp(x) * 32767.0)
  }

  /** The 24-bit conversion, which does not clamp. */
  function Quantize24(x: real): int { Trunc(x * 8388608.0) }

  predicate Depth(d: int) { d == 8 || d == 16 || d == 24 || d == 32 }

  /** The bytes of one sample, given as a bit pattern. */
  function SampleBytes(depth: int, bits: nat, fl: Floats): (s: Str)
    requires Depth(depth)
    ensures |s| == depth / 8
  {
    if depth == 8 then [Quantize8(fl.value(bits))]
    else if depth == 16 then LE(Quantize16(fl.value(bits)) % 0x1_0000, 2)
    else if depth == 24 then LE(Quantize24(fl.value(bits)) % 0x100_0000, 3)
    else LE(bits % 0x1_0000_0000, 4)
  }

  /** One sample read back; 32-bit PCM is not written by this library. */
  function SampleAt(data: Str, pos: nat, depth: int, audioFormat: int, fl: Floats): nat
    requires Depth(depth) && pos + depth / 8 <= |data|
  {
    if depth == 8 then fl.nearest((ReadU(data, pos, 1) - 128) as real / 128.0)
    else if depth == 16 then fl.nearest(ReadI(data, pos, 2) as real / 32768.0)
    else if depth == 24 then fl.nearest(ReadI(data, pos, 3) as real / 8388608.0)
    else if audioFormat == IEEE_FLOAT then ReadU(data, pos, 4)
    else fl.nearest(ReadI(data, pos, 4) as real / 2147483647.0)
  }

  /** `fourBytesToInt`, `twoBytesToInt` and the 24-bit case join shifted bytes, which share no bit. */
  lemma JoinedBytes(a: Byte, b: Byte, c: Byte, d: Byte)
    ensures Or(b * 0x100, a) == FromLE([a, b])
    ensures Or(Or(c * 0x1_0000, b * 0x100), a) == FromLE([a, b, c])
    ensures Or(Or(Or(d * 0x100_0000, c * 0x1_0000), b * 0x100), a) == FromLE([a, b, c, d])
  {
    hide Or, Pow2, FromLE;
    LittleEndian(a, b, c, d);
    Join8(b, a);
    Join16(c, b * 0x100);
    Join8(c * 0x100 + b, a);
    Join24(d, c * 0x1_0000);
    Join16(d * 0x100 + c, b * 0x100);
    Join8(d * 0x1_0000 + c * 0x100 + b, a);
  }

  lemma Join8(hi: nat, lo: nat)
    requires lo < 0x100
    ensures Or(hi * 0x100, lo) == hi * 0x100 + lo
  {
    hide Or, Pow2;
    Pow2Adds(4, 4);
    Pow2Values();
    OrDisjoint(hi, lo, 8);
  }

  lemma Join16(hi: nat, lo: nat)
    requires lo < 0x1_0000
    ensures Or(hi * 0x1_0000, lo) == hi * 0x1_0000 + lo
  {
    hide Or, Pow2;
    Pow2Values();
    OrDisjoint(hi, lo, 16);
  }

  lemma Join24(hi: nat, lo: nat)
    requires lo < 0x100_0000
    ensures Or(hi * 0x100_0000, lo) == hi * 0x100_0000 + lo
  {
    hide Or, Pow2;
    Pow2Values();
    OrDisjoint(hi, lo, 24);
  }

  lemma LittleEndian(a: Byte, b: Byte, c: Byte, d: Byte)
    ensures FromLE([a, b]) == a + 0x100 * b && FromLE([a, b, c]) == a + 0x100 * b + 0x1_0000 * c
    ensures FromLE([a, b, c, d]) == a + 0x100 * b + 0x1_0000 * c + 0x100_0000 * d
  {
    hide FromLE;
    var none: Str := [];
    assert [b] + none == [b] && [c] + none == [c] && [d] + none == [d];
    LowestByte(b, none);
    LowestByte(c, none);
    LowestByte(d, none);
    assert [a] + [b] == [a, b] && [b] + [c] == [b, c] && [c] + [d] == [c, d];
    LowestByte(a, [b]);
    LowestByte(b, [c]);
    LowestByte(c, [d]);
    assert [a] + [b, c] == [a, b, c] && [b] + [c, d] == [b, c, d];
    LowestByte(a, [b, c]);
    LowestByte(b, [c, d]);
    assert [a] + [b, c, d] == [a, b, c, d];
    LowestByte(a, [b, c, d]);
  }

  lemma LowestByte(b: Byte, rest: Str)
    ensures FromLE([b] + rest) == b + 0x100 * FromLE(rest) && (rest == [] ==> FromLE(rest) == 0)
  {
    assert ([b] + rest)[1..] == rest;
  }

  /** The pattern a stored sample reads back as. */
  function Reread(depth: int, bits: nat, fl: Floats): nat
    requires Depth(depth)
  {
    if depth == 8 then fl.nearest((Quantize8(fl.value(bits)) - 128) as real / 128.0)
    else if depth == 16 then fl.nearest(Quantize16(fl.value(bits)) as real / 32768.0)
    else if depth == 24 then fl.nearest(Wrap24(Quantize24(fl.value(bits))) as real / 8388608.0)
    else bits % 0x1_0000_0000
  }

  /** Sign extension of the low 24 bits. */
  function Wrap24(x: int): (r: int)
    ensures -0x80_0000 <= r < 0x80_0000
  {
    ToSigned24(x % 0x100_0000)
  }

  function ToSigned24(u: int): (r: int)
    requires 0 <= u < 0x100_0000
    ensures -0x80_0000 <= r < 0x80_0000
  {
    if u >= 0x80_0000 then u - 0x100_0000 else u
  }

  lemma Pow256Three()
    ensures Pow256(3) == 0x100_0000
  {
    assert Pow256(2) == 256 * Pow256(1);
  }

  /** Reading a sample where it was written gives exactly the code, or bit pattern, that was written. */
  lemma SampleReads(data: Str, pos: nat, depth: int, bits: nat, audioFormat: int, fl: Floats)
    requires Depth(depth) && pos + depth / 8 <= |data| && (depth == 32 ==> audioFormat == IEEE_FLOAT)
    requires data[pos..pos + depth / 8] == SampleBytes(depth, bits, fl)
    ensures SampleAt(data, pos, depth, audioFormat, fl) == Reread(depth, bits, fl)
  {
    hide Quantize8, Quantize16, Quantize24, FromLE, LE, Pow256;
    Pow256Values();
    Pow256Three();
    var x := fl.value(bits);
    if depth == 8 {
      assert data[pos..pos + 1] == [Quantize8(x)] + [];
      LowestByte(Quantize8(x), []);
      assert [Quantize8(x)] + [] == [Quantize8(x)];
    } else if depth == 16 {
      FromLEInvertsLE(Quantize16(x) % 0x1_0000, 2);
    } else if depth == 24 {
      FromLEInvertsLE(Quantize24(x) % 0x100_0000, 3);
    } else {
      FromLEInvertsLE(bits % 0x1_0000_0000, 4);
    }
  }

  // ---- Samples of files written by others ----

  /** A code of a sample, one of the `2^depth` integers around zero. */
  predicate IsCode(depth: int, k: int)
    requires Depth(depth)
  {
    FitsSigned(k, depth / 8)
  }

  /** How a WAV file stores it: plus 128 at 8 bits, in two's complement otherwise. */
  function CodeBytes(depth: int, k: int): (s: Str)
    requires Depth(depth) && IsCode(depth, k)
    ensures |s| == depth / 8
  {
    Pow256Values();
    Pow256Three();
    if depth == 8 then [k + 128] else LE(if k < 0 then k + Pow256(depth / 8) else k, depth / 8)
  }

  /** The code that stands for 1. */
  function FullScale(depth: int): real
    requires Depth(depth)
  {
    if depth == 8 then 128.0 else if depth == 16 then 32768.0 else if depth == 24 then 8388608.0 else 2147483647.0
  }

  /** Whoever wrote a code, it is read as its fraction of full scale. */
  lemma CodeReads(data: Str, pos: nat, depth: int, k: int, audioFormat: int, fl: Floats)
    requires Depth(depth) && IsCode(depth, k) && pos + depth / 8 <= |data|
    requires data[pos..pos + depth / 8] == CodeBytes(depth, k) && (depth == 32 ==> audioFormat != IEEE_FLOAT)
    ensures SampleAt(data, pos, depth, audioFormat, fl) == fl.nearest(k as real / FullScale(depth))
  {
    hide FromLE, LE, Pow256;
    Pow256Values();
    Pow256Three();
    if depth == 8 {
      LowestByte(k + 128, []);
      assert [(k + 128) as Byte] + [] == data[pos..pos + 1];
    } else {
      FromLEInvertsLE(if k < 0 then k + Pow256(depth / 8) else k, depth / 8);
    }
  }

  /** The conversions cut off towards zero what full scale, 32767 or 8388608, leaves behind the point. */
  lemma QuantizedTowardsZero(x: real)
    requires -1.0 <= x <= 1.0
    ensures var y := x * 32767.0; -1.0 < Quantize16(x) as real - y < 1.0
    ensures x >= 0.0 ==> 0.0 <= Quantize16(x) as real <= x * 32767.0
    ensures x <= 0.0 ==> x * 32767.0 <= Quantize16(x) as real <= 0.0
    ensures var y := x * 8388608.0; -1.0 < Quantize24(x) as real - y < 1.0
    ensures x >= 0.0 ==> 0.0 <= Quantize24(x) as real <= x * 8388608.0
    ensures x <= 0.0 ==> x * 8388608.0 <= Quantize24(x) as real <= 0.0
    ensures var y := (x + 1.0) / 2.0 * 255.0; Quantize8(x) as real <= y < Quantize8(x) as real + 1.0
  {
    TruncBound(x * 32767.0);
    TruncBound(x * 8388608.0);
    TruncBound((x + 1.0) / 2.0 * 255.0);
  }

  /** Out of range, 8 and 16 bits saturate. */
  lemma OutOfRangeSaturates(x: real)
    ensures x > 1.0 ==> Quantize16(x) == 32767 && Quantize8(x) == 255
    ensures x < -1.0 ==> Quantize16(x) == -32767 && Quantize8(x) == 0
  {
  }

  // ---- How far a sample moves ----

  lemma TruncBound(x: real)
    ensures -1.0 < Trunc(x) as real - x < 1.0
    ensures x >= 0.0 ==> Trunc(x) as real <= x
    ensures x <= 0.0 ==> Trunc(x) as real >= x
  {
  }

  lemma Bound8(x: real)
    requires -1.0 <= x <= 1.0
    ensures -2.0 / 128.0 < (Quantize8(x) - 128) as real / 128.0 - x < 2.0 / 128.0
  {
    TruncBound((x + 1.0) / 2.0 * 255.0);
  }

  lemma Bound16(x: real)
    requires -1.0 <= x <= 1.0
    ensures -2.0 / 32768.0 < Quantize16(x) as real / 32768.0 - x < 2.0 / 32768.0
  {
    TruncBound(x * 32767.0);
  }

  lemma Bound24(x: real)
    requires -1.0 <= x < 1.0
    ensures -0x80_0000 <= Quantize24(x) < 0x80_0000
    ensures -1.0 / 8388608.0 < Quantize24(x) as real / 8388608.0 - x < 1.0 / 8388608.0
  {
    TruncBound(x * 8388608.0);
  }

  /** The largest distance between a sample and what is read back. */
  function Tolerance(depth: int): real
    requires Depth(depth)
  {
    if depth == 8 then 2.0 / 128.0 else if depth == 16 then 2.0 / 32768.0 else 1.0 / 8388608.0
  }

  predicate Near(x: real, y: real, tolerance: real) { -tolerance < y - x < tolerance }

  /** Samples in range move by less than the tolerance; 32-bit patterns do not change at all. */
  lemma RereadIsNear(depth: int, bits: nat, fl: Floats)
    requires Depth(depth) && FloatsOk(fl) && bits < 0x1_0000_0000
    requires -1.0 <= fl.value(bits) <= 1.0 && (depth == 24 ==> fl.value(bits) < 1.0)
    ensures Near(fl.value(bits), fl.value(Reread(depth, bits, fl)), Tolerance(depth))
    ensures depth == 32 ==> Reread(depth, bits, fl) == bits
  {
    hide Quantize8, Quantize16, Quantize24;
    var x := fl.value(bits);
    if depth == 8 {
      Bound8(x);
      var k := (Quantize8(x) - 128) * 65536;
      assert Grid(k) == (Quantize8(x) - 128) as real / 128.0;
    } else if depth == 16 {
      Bound16(x);
      var k := Quantize16(x) * 256;
      assert Grid(k) == Quantize16(x) as real / 32768.0;
    } else if depth == 24 {
      Bound24(x);
      assert Grid(Quantize24(x)) == Quantize24(x) as real / 8388608.0;
    }
  }

  /**
   At 24 bits nothing is clamped, so the bound holds exactly for the samples whose code fits: 1.0 itself
   comes back as -1.0.
   */
  lemma Near24Iff(bits: nat, fl: Floats)
    requires FloatsOk(fl)
    ensures Near(fl.value(bits), fl.value(Reread(24, bits, fl)), Tolerance(24))
            <==> -1.0 - 1.0 / 8388608.0 < fl.value(bits) < 1.0
  {
    hide Quantize24;
    var x := fl.value(bits);
    var q := Quantize24(x);
    QuantizeOne(x);
    assert Grid(Wrap24(q)) == Wrap24(q) as real / 8388608.0;
    assert q as real / 8388608.0 - x < 1.0 / 8388608.0 && q as real / 8388608.0 - x > -1.0 / 8388608.0;
    if -0x80_0000 <= q < 0x80_0000 {
      assert Wrap24(q) == q;
    } else {
      assert Wrap24(q) - q <= -0x100_0000 || Wrap24(q) - q >= 0x100_0000;
    }
  }

  lemma QuantizeOne(x: real)
    ensures -1.0 / 8388608.0 < Quantize24(x) as real / 8388608.0 - x < 1.0 / 8388608.0
    ensures -0x80_0000 <= Quantize24(x) < 0x80_0000 <==> -1.0 - 1.0 / 8388608.0 < x < 1.0
  {
    TruncBound(x * 8388608.0);
  }
}
