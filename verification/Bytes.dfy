/**
 Bytes and little-endian integers, as both serializers store them.
 */
module Bytes {
  import opened Bits

  type Byte = b: int | 0 <= b < 256

  type Str = seq<Byte>

  const TWO_64: int := 0x1_0000_0000_0000_0000

  /** The number of values that fit in `w` bytes. */
  function Pow256(w: nat): (p: int)
    ensures p >= 1
  {
    if w == 0 then 1 else 256 * Pow256(w - 1)
  }

  lemma Pow256Values()
    ensures Pow256(1) == 0x100
    ensures Pow256(2) == 0x1_0000
    ensures Pow256(4) == 0x1_0000_0000
    ensures Pow256(8) == TWO_64
  {
    assert Pow256(2) == 256 * Pow256(1);
    assert Pow256(4) == 256 * Pow256(3) == 256 * 256 * Pow256(2);
    assert Pow256(6) == 256 * Pow256(5) == 256 * 256 * Pow256(4);
    assert Pow256(8) == 256 * Pow256(7) == 256 * 256 * Pow256(6);
  }

  /** The low `w` bytes of `n`, least significant first. */
  function LE(n: nat, w: nat): (s: seq<Byte>)
    ensures |s| == w
  {
    if w == 0 then [] else [n % 256] + LE(n / 256, w - 1)
  }

  function FromLE(s: seq<Byte>): (n: int)
    ensures 0 <= n < Pow256(|s|)
  {
    if s == [] then 0 else s[0] + 256 * FromLE(s[1..])
  }

  lemma {:induction false} FromLEInvertsLE(n: nat, w: nat)
    requires n < Pow256(w)
    ensures FromLE(LE(n, w)) == n
  {
    if w > 0 {
      FromLEInvertsLE(n / 256, w - 1);
      assert LE(n, w)[1..] == LE(n / 256, w - 1);
    }
  }

  /** Storing a wider two's complement integer in `w` bytes keeps only its low bytes. */
  lemma {:induction false} LEDropsHighBytes(n: nat, w: nat, k: nat)
    ensures LE(n + k * Pow256(w), w) == LE(n, w)
  {
    if w > 0 {
      var high := k * Pow256(w - 1);
      assert k * Pow256(w) == 256 * high;
      LEDropsHighBytes(n / 256, w - 1, k);
      assert (n + 256 * high) / 256 == n / 256 + high;
    }
  }

  /** Two's complement reading of a stored integer of `w` bytes. */
  function ToSigned(n: int, w: nat): (i: int) {
    if 2 * n >= Pow256(w) then n - Pow256(w) else n
  }

  predicate FitsSigned(i: int, w: nat) {
    -Pow256(w) <= 2 * i < Pow256(w)
  }

  /** The 64-bit pattern of a signed integer. */
  function U64(i: int): (u: nat)
    requires FitsSigned(i, 8)
    ensures u < TWO_64
  {
    Pow256Values();
    if i < 0 then i + TWO_64 else i
  }

  predicate IsWidth(w: int) {
    w == 1 || w == 2 || w == 4 || w == 8
  }

  /** A signed integer that fits in `w` bytes survives truncation to `w` bytes and sign extension. */
  lemma SignedRoundTrip(i: int, w: nat)
    requires IsWidth(w)
    requires FitsSigned(i, w) && FitsSigned(i, 8)
    ensures ToSigned(FromLE(LE(U64(i), w)), w) == i
  {
    Pow256Values();
    var p := Pow256(w);
    var low := if i < 0 then i + p else i;
    if i < 0 {
      var k := TWO_64 / p - 1;
      assert i + TWO_64 == low + k * p;
      LEDropsHighBytes(low, w, k);
    }
    FromLEInvertsLE(low, w);
  }

  /** The integer stored at `pos` in `w` bytes. */
  function ReadU(buf: seq<Byte>, pos: int, w: nat): (n: int)
    requires 0 <= pos && pos + w <= |buf|
    ensures 0 <= n < Pow256(w)
  {
    FromLE(buf[pos..pos + w])
  }

  function ReadI(buf: seq<Byte>, pos: int, w: nat): (n: int)
    requires 0 <= pos && pos + w <= |buf|
  {
    ToSigned(ReadU(buf, pos, w), w)
  }

  function Zeros(n: nat): (s: seq<Byte>)
    ensures |s| == n
    ensures forall i :: 0 <= i < n ==> s[i] == 0
  {
    seq(n, i => 0)
  }

  /** Bytes needed before a scalar of `size` bytes when `bufSize` bytes are written. */
  function PaddingBytes(bufSize: nat, size: nat): (p: nat)
    requires size > 0
    ensures p < size
    ensures (bufSize + p) % size == 0
  {
    PaddingCompletes(bufSize, size);
    (-(bufSize as int)) % size
  }

  /** As the source computes it: negation in 64 bits, masked. */
  lemma PaddingBits(bufSize: nat, k: nat)
    requires bufSize < TWO_64 && k <= 3
    ensures var negated := (TWO_64 - bufSize) % TWO_64;
            And(negated, Pow2(k) - 1) == PaddingBytes(bufSize, Pow2(k))
  {
    hide And, Pow2, PaddingBytes;
    var negated := (TWO_64 - bufSize) % TWO_64;
    AndOnes(negated, k);
    Pow2Values();
    Pow2Zero();
    PaddingIs(bufSize, Pow2(k));
  }

  lemma PaddingIs(bufSize: nat, size: nat)
    requires bufSize < TWO_64 && IsWidth(size)
    ensures ((TWO_64 - bufSize) % TWO_64) % size == PaddingBytes(bufSize, size)
  {
    if bufSize > 0 {
      SizeDivides(size);
      MultiplesDrop(-(bufSize as int), TWO_64 / size, size);
    }
  }

  lemma SizeDivides(size: nat)
    requires IsWidth(size)
    ensures TWO_64 / size * size == TWO_64
  {
  }

  lemma PaddingCompletes(n: int, size: int)
    requires size > 0
    ensures 0 <= (-n) % size < size
    ensures (n + (-n) % size) % size == 0
  {
    var q := (-n) / size;
    assert -n == size * q + (-n) % size;
    assert n + (-n) % size == size * (-q);
    MultipleMod(-q, size);
  }

  lemma MultipleMod(k: int, d: int)
    requires d > 0
    ensures (d * k) % d == 0
  {
    var q, r := (d * k) / d, (d * k) % d;
    assert d * (k - q) == r;
    assert k - q >= 1 ==> d * (k - q) >= d;
    assert k - q <= -1 ==> d * (k - q) <= -d;
  }

  /** Whole multiples of a width do not matter modulo that width. */
  lemma MultiplesDrop(a: int, n: int, size: nat)
    requires IsWidth(size)
    ensures (a + n * size) % size == a % size
  {
    if size == 1 {
    } else if size == 2 {
      DropTwos(a, n);
    } else if size == 4 {
      DropFours(a, n);
    } else {
      DropEights(a, n);
    }
  }

  lemma DropTwos(a: int, n: int)
    ensures (a + n * 2) % 2 == a % 2
  {
  }

  lemma DropFours(a: int, n: int)
    ensures (a + n * 4) % 4 == a % 4
  {
  }

  lemma DropEights(a: int, n: int)
    ensures (a + n * 8) % 8 == a % 8
  {
  }

  lemma Divides(n: nat, size: nat, m: nat)
    requires IsWidth(size) && IsWidth(m) && size <= m && n % m == 0
    ensures n % size == 0
  {
    if m == 8 {
      var q := n / 8;
      assert n == 8 * q == 4 * (2 * q) == 2 * (4 * q);
      MultipleMod(4 * q, 2);
      MultipleMod(2 * q, 4);
    } else if m == 4 {
      var q := n / 4;
      assert n == 4 * q == 2 * (2 * q);
      MultipleMod(2 * q, 2);
    }
  }

  /** The difference of two multiples is one. */
  lemma DifferenceDivides(n: int, pos: int, size: nat)
    requires IsWidth(size) && n % size == 0 && pos % size == 0
    ensures (n - pos) % size == 0
  {
    var a, b := n / size, pos / size;
    assert n == size * a && pos == size * b;
    assert n - pos == size * (a - b);
    MultipleMod(a - b, size);
  }

  /** A multiple needs no padding. */
  lemma NoPadding(n: nat, size: nat)
    requires IsWidth(size) && n % size == 0
    ensures PaddingBytes(n, size) == 0
  {
    var q := n / size;
    assert n == size * q && -(n as int) == size * (-q);
    MultipleMod(-q, size);
  }

  // ---- Writing in place ----

  function Overwrite(s: seq<Byte>, pos: nat, bytes: seq<Byte>): (r: seq<Byte>)
    requires pos + |bytes| <= |s|
    ensures |r| == |s|
  {
    s[..pos] + bytes + s[pos + |bytes|..]
  }

  /** `memcpy` into an array. */
  method CopyInto(dst: array<Byte>, at: nat, bytes: seq<Byte>)
    requires at + |bytes| <= dst.Length
    modifies dst
    ensures dst[..] == Overwrite(old(dst[..]), at, bytes)
  {
    forall i | 0 <= i < |bytes| { dst[at + i] := bytes[i]; }
    assert dst[..] == Overwrite(old(dst[..]), at, bytes);
  }
}
