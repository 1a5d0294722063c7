/**
 Encoding and decoding single code points in UTF-8.

 Encodings and code points are stated with quotients and remainders; the code works with shifts, `&` and `|`,
 and each such step is proved to be the arithmetic one.
 */
module Utf8 {
  import opened Bytes
  import opened Bits

  // ---- Section 3 and 4 of RFC 3629 ----

  /** Unicode scalar values: everything but the surrogates. */
  predicate Scalar(c: int) {
    0 <= c <= 0x10_FFFF && !(0xD800 <= c <= 0xDFFF)
  }

  predicate Tail(b: Byte) { 0x80 <= b <= 0xBF }

  /** The grammar of section 4: the length of the character at `i`, or 0 if there is none. */
  function CharLen(s: Str, i: nat): (n: nat)
    ensures n == 0 || (n <= 4 && i + n <= |s|)
  {
    if i >= |s| then 0
    else if s[i] < 0x80 then 1
    else if i + 1 < |s| && 0xC2 <= s[i] <= 0xDF && Tail(s[i + 1]) then 2
    else if i + 2 < |s| && Second3(s[i], s[i + 1]) && Tail(s[i + 2]) then 3
    else if i + 3 < |s| && Second4(s[i], s[i + 1]) && Tail(s[i + 2]) && Tail(s[i + 3]) then 4
    else 0
  }

  predicate Second3(a: Byte, b: Byte) {
    || (a == 0xE0 && 0xA0 <= b <= 0xBF)
    || (0xE1 <= a <= 0xEC && Tail(b))
    || (a == 0xED && 0x80 <= b <= 0x9F)
    || (0xEE <= a <= 0xEF && Tail(b))
  }

  predicate Second4(a: Byte, b: Byte) {
    || (a == 0xF0 && 0x90 <= b <= 0xBF)
    || (0xF1 <= a <= 0xF3 && Tail(b))
    || (a == 0xF4 && 0x80 <= b <= 0x8F)
  }

  /** The character number of the character at `i`. */
  function CodePoint(s: Str, i: nat): (c: nat)
    requires CharLen(s, i) > 0
  {
    match CharLen(s, i)
    case 1 => s[i]
    case 2 => (s[i] as int - 0xC0) * 64 + (s[i + 1] as int - 0x80)
    case 3 => (s[i] as int - 0xE0) * 4096 + (s[i + 1] as int - 0x80) * 64 + (s[i + 2] as int - 0x80)
    case _ =>
      (s[i] as int - 0xF0) * 262144 + (s[i + 1] as int - 0x80) * 4096 + (s[i + 2] as int - 0x80) * 64
      + (s[i + 3] as int - 0x80)
  }

  /** The table of section 3, with the two longer forms of its predecessor RFC 2279. */
  function Encode(c: nat): (s: Str)
    requires c < 0x8000_0000
    ensures 1 <= |s| <= 6
  {
    if c < 0x80 then [c]
    else if c < 0x800 then [0xC0 + c / 64, Low6(c)]
    else if c < 0x1_0000 then [0xE0 + c / 4096, Low6(c / 64), Low6(c)]
    else if c < 0x20_0000 then [0xF0 + c / 262144, Low6(c / 4096), Low6(c / 64), Low6(c)]
    else if c < 0x400_0000 then
      [0xF8 + c / 0x100_0000, Low6(c / 262144), Low6(c / 4096), Low6(c / 64), Low6(c)]
    else
      [0xFC + c / 0x4000_0000, Low6(c / 0x100_0000), Low6(c / 262144), Low6(c / 4096), Low6(c / 64), Low6(c)]
  }

  function Low6(c: nat): (b: Byte)
    ensures Tail(b)
  {
    0x80 + c % 64
  }

  /** Decoding undoes encoding, for every scalar value, whatever follows it. */
  lemma EncodedIsRead(c: nat, rest: Str)
    requires Scalar(c)
    ensures CharLen(Encode(c) + rest, 0) == |Encode(c)| && CodePoint(Encode(c) + rest, 0) == c
  {
    var s := Encode(c) + rest;
    if c < 0x80 {
    } else if c < 0x800 {
      assert c == c / 64 * 64 + c % 64;
    } else if c < 0x1_0000 {
      var hi := c / 64;
      assert c == hi * 64 + c % 64 && hi == hi / 64 * 64 + hi % 64 && c / 4096 == hi / 64;
      assert s[0] == 0xE0 + hi / 64 && s[1] == 0x80 + hi % 64;
    } else {
      var mid := c / 64;
      var hi := mid / 64;
      assert c == mid * 64 + c % 64 && mid == hi * 64 + mid % 64 && hi == hi / 64 * 64 + hi % 64;
      assert c / 4096 == hi && c / 262144 == hi / 64;
      assert s[0] == 0xF0 + hi / 64 && s[1] == 0x80 + hi % 64;
    }
  }

  lemma Split64(a: nat, b: nat)
    requires b < 64
    ensures (a * 64 + b) / 64 == a && (a * 64 + b) % 64 == b
  {
  }

  lemma Read2(a: Byte, b: Byte)
    requires 0xC2 <= a <= 0xDF && Tail(b)
    ensures var c := (a as int - 0xC0) * 64 + (b as int - 0x80); 0x80 <= c < 0x800 && Encode(c) == [a, b]
  {
    Split64(a as int - 0xC0, b as int - 0x80);
  }

  lemma Read3(a: Byte, b: Byte, d: Byte)
    requires Second3(a, b) && Tail(d)
    ensures var c := (a as int - 0xE0) * 4096 + (b as int - 0x80) * 64 + (d as int - 0x80);
            0x800 <= c < 0x1_0000 && Scalar(c) && Encode(c) == [a, b, d]
  {
    var mid := (a as int - 0xE0) * 64 + (b as int - 0x80);
    Split64(a as int - 0xE0, b as int - 0x80);
    Split64(mid, d as int - 0x80);
    var c := mid * 64 + (d as int - 0x80);
    assert c / 4096 == mid / 64;
  }

  lemma Read4(a: Byte, b: Byte, d: Byte, e: Byte)
    requires Second4(a, b) && Tail(d) && Tail(e)
    ensures var c := (a as int - 0xF0) * 262144 + (b as int - 0x80) * 4096 + (d as int - 0x80) * 64 + (e as int - 0x80);
            0x1_0000 <= c <= 0x10_FFFF && Encode(c) == [a, b, d, e]
  {
    var hi := (a as int - 0xF0) * 64 + (b as int - 0x80);
    var mid := hi * 64 + (d as int - 0x80);
    Split64(a as int - 0xF0, b as int - 0x80);
    Split64(hi, d as int - 0x80);
    Split64(mid, e as int - 0x80);
    var c := mid * 64 + (e as int - 0x80);
    assert c / 4096 == mid / 64 && c / 262144 == hi / 64;
  }

  /** What the grammar accepts is the encoding of the scalar value read, and nothing else encodes it. */
  lemma ReadIsEncoded(s: Str, i: nat)
    requires CharLen(s, i) > 0
    ensures Scalar(CodePoint(s, i)) && Encode(CodePoint(s, i)) == s[i..i + CharLen(s, i)]
  {
    hide Encode, Second3, Second4, Tail;
    match CharLen(s, i)
    case 1 => EncodeAscii(s[i]);
    case 2 => Read2(s[i], s[i + 1]);
    case 3 => Read3(s[i], s[i + 1], s[i + 2]);
    case _ => Read4(s[i], s[i + 1], s[i + 2], s[i + 3]);
  }

  lemma EncodeAscii(b: Byte)
    requires b < 0x80
    ensures Encode(b) == [b]
  {
  }

  lemma EncodeInjective(c: nat, d: nat)
    requires Scalar(c) && Scalar(d) && Encode(c) == Encode(d)
    ensures c == d
  {
    EncodedIsRead(c, []);
    EncodedIsRead(d, []);
  }

  // ---- `ToUTF8` ----

  /** The continuation bytes for the low `6 * n` bits, highest first. */
  function Tails(c: nat, n: nat): (s: Str)
    ensures |s| == n
  {
    if n == 0 then [] else [Low6(Shr(c, 6 * (n - 1)))] + Tails(c, n - 1)
  }

  function MaxBits(i: nat): nat { 6 + i * 5 + if i == 0 then 1 else 0 }

  /** The first byte: a run of ones, a zero, and the highest bits. */
  function Lead(c: nat, i: nat): nat
    requires i < 6
  {
    (0xFE * Pow2(MaxBits(i) - i * 6)) % 256 + Shr(c, i * 6)
  }

  lemma EncodeShort(c: nat, i: nat)
    requires i < 3 && c < Pow2(MaxBits(i)) && (i > 0 ==> c >= Pow2(MaxBits(i - 1)))
    ensures c < 0x8000_0000 && Lead(c, i) < 256 && Encode(c) == [Lead(c, i)] + Tails(c, i)
  {
    hide Pow2, Shr, Tails, Low6;
    Pow2Values();
    ShrValues(c);
    TailsUnfold(c);
  }

  lemma EncodeLong(c: nat, i: nat)
    requires 3 <= i < 6 && c < Pow2(MaxBits(i)) && c >= Pow2(MaxBits(i - 1))
    ensures c < 0x8000_0000 && Lead(c, i) < 256 && Encode(c) == [Lead(c, i)] + Tails(c, i)
  {
    hide Pow2, Shr, Tails, Low6;
    Pow2Values();
    ShrValues(c);
    TailsUnfold(c);
  }

  lemma EncodeByLength(c: nat, i: nat)
    requires i < 6 && c < Pow2(MaxBits(i)) && (i > 0 ==> c >= Pow2(MaxBits(i - 1)))
    ensures c < 0x8000_0000 && Lead(c, i) < 256 && Encode(c) == [Lead(c, i)] + Tails(c, i)
  {
    hide Pow2, Shr, Tails, Low6, Lead, Encode;
    if i < 3 { EncodeShort(c, i); } else { EncodeLong(c, i); }
  }

  lemma TailsUnfold(c: nat)
    ensures Tails(c, 0) == [] && Tails(c, 1) == [Low6(Shr(c, 0))]
    ensures Tails(c, 2) == [Low6(Shr(c, 6)), Low6(Shr(c, 0))]
    ensures Tails(c, 3) == [Low6(Shr(c, 12)), Low6(Shr(c, 6)), Low6(Shr(c, 0))]
    ensures Tails(c, 4) == [Low6(Shr(c, 18)), Low6(Shr(c, 12)), Low6(Shr(c, 6)), Low6(Shr(c, 0))]
    ensures Tails(c, 5) == [Low6(Shr(c, 24)), Low6(Shr(c, 18)), Low6(Shr(c, 12)), Low6(Shr(c, 6)), Low6(Shr(c, 0))]
  {
    hide Low6, Shr, Pow2, Tails;
    TailsStep(c, 0);
    TailsStep(c, 1);
    TailsStep(c, 2);
    TailsStep(c, 3);
    TailsStep(c, 4);
  }

  lemma TailsStep(c: nat, n: nat)
    ensures Tails(c, n + 1) == [Low6(Shr(c, 6 * n))] + Tails(c, n) && (n == 0 ==> Tails(c, n) == [])
  {
  }

  /** The two operands share no bit, and the cast to a byte drops only leading ones. */
  lemma LeadBits(c: nat, i: nat)
    requires i < 6 && c < Pow2(MaxBits(i))
    ensures Or(0xFE * Pow2(MaxBits(i) - i * 6), Shr(c, i * 6)) % 256 == Lead(c, i)
  {
    hide Pow2, Or;
    Pow2Values();
    Pow2Zero();
    ShrValues(c);
    OrDisjoint(0xFE, Shr(c, i * 6), MaxBits(i) - i * 6);
  }

  lemma Low6Bits(c: nat)
    ensures Or(And(c, 0x3F), 0x80) == Low6(c)
  {
    hide Pow2, Or, And;
    Pow2Values();
    AndOnes(c, 6);
    OrDisjoint(1, c % 64, 7);
    OrSymmetric(c % 64, 0x80);
  }

  /** Appends the encoding of `ucc` and returns its length. */
  method ToUTF8(ucc: nat, out: Str) returns (text: Str, n: nat)
    requires ucc < 0x8000_0000
    ensures text == out + Encode(ucc) && n == |Encode(ucc)|
  {
    hide Encode, Low6, Pow2, Shr, Lead;
    Pow2Values();
    for i := 0 to 6
      invariant i > 0 ==> ucc >= Pow2(MaxBits(i - 1))
    {
      if ucc < Pow2(MaxBits(i)) {
        EncodeByLength(ucc, i);
        LeadBits(ucc, i);
        text := out + [Or(0xFE * Pow2(MaxBits(i) - i * 6), Shr(ucc, i * 6)) % 256];
        var j := i;
        while j > 0
          invariant 0 <= j <= i
          invariant text + Tails(ucc, j) == out + ([Lead(ucc, i)] + Tails(ucc, i))
        {
          j := j - 1;
          Low6Bits(Shr(ucc, 6 * j));
          text := text + [Or(And(Shr(ucc, 6 * j), 0x3F), 0x80)];
        }
        return text, i + 1;
      }
    }
  }

  // ---- `FromUTF8` ----

  /** The leading one bits of a byte, counted up to six. */
  function LeadingOnes(b: Byte): nat {
    if b < 0x80 then 0 else if b < 0xC0 then 1 else if b < 0xE0 then 2 else if b < 0xF0 then 3
    else if b < 0xF8 then 4 else if b < 0xFC then 5 else 6
  }

  method CountLeadingOnes(b: Byte) returns (len: nat)
    ensures len == LeadingOnes(b)
  {
    hide Pow2, And;
    len := 0;
    var mask := 0x80;
    while mask >= 0x04
      invariant len <= 6 && mask in [0x80, 0x40, 0x20, 0x10, 0x08, 0x04, 0x02]
      invariant mask == [0x80, 0x40, 0x20, 0x10, 0x08, 0x04, 0x02][len]
      invariant b >= 256 - 2 * mask
    {
      MaskBit(b, mask);
      if And(b, mask) == 0 { break; }
      len := len + 1;
      mask := mask / 2;
    }
  }

  lemma MaskBit(b: Byte, mask: nat)
    requires mask in [0x80, 0x40, 0x20, 0x10, 0x08, 0x04]
    ensures And(b, mask) != 0 <==> (b / mask) % 2 == 1
  {
    hide Pow2, And;
    Pow2Values();
    AndBit(b, if mask == 0x80 then 7 else if mask == 0x40 then 6 else if mask == 0x20 then 5
              else if mask == 0x10 then 4 else if mask == 0x08 then 3 else 2);
  }

  /** The bits gathered after `k` continuation bytes. */
  function Gather(s: Str, i: nat, len: nat, k: nat): nat
    requires 2 <= len <= 4 && i + k < |s|
  {
    if k == 0 then s[i] % Pow2(7 - len) else Gather(s, i, len, k - 1) * 64 + s[i + k] % 64
  }

  /** The checks after gathering: not a surrogate, and the shortest form. */
  predicate Shortest(len: nat, ucc: nat) {
    && !(0xD800 <= ucc <= 0xDFFF)
    && (len == 2 ==> 0x80 <= ucc <= 0x7FF)
    && (len == 3 ==> 0x800 <= ucc <= 0xFFFF)
    && (len == 4 ==> 0x1_0000 <= ucc <= 0x10_FFFF)
  }

  /** A lead byte and its continuation bytes pass those checks exactly when the grammar accepts them. */
  lemma GatherMeans(s: Str, i: nat, len: nat)
    requires 2 <= len <= 4 && i + len <= |s| && LeadingOnes(s[i]) == len && s[i] < 0xF8
    requires forall j :: i < j < i + len ==> Tail(s[j])
    ensures Shortest(len, Gather(s, i, len, len - 1)) <==> CharLen(s, i) > 0
    ensures CharLen(s, i) > 0 ==> CharLen(s, i) == len && CodePoint(s, i) == Gather(s, i, len, len - 1)
  {
    hide Pow2, Shortest;
    Pow2Values();
    assert Tail(s[i + 1]);
    assert Gather(s, i, len, 1) == Gather(s, i, len, 0) * 64 + s[i + 1] % 64;
    if len == 2 {
      Gather2(s[i], s[i + 1]);
    } else if len == 3 {
      assert Tail(s[i + 2]);
      assert Gather(s, i, len, 2) == Gather(s, i, len, 1) * 64 + s[i + 2] % 64;
      Gather3(s[i], s[i + 1], s[i + 2]);
    } else {
      assert Tail(s[i + 2]) && Tail(s[i + 3]);
      assert Gather(s, i, len, 2) == Gather(s, i, len, 1) * 64 + s[i + 2] % 64;
      assert Gather(s, i, len, 3) == Gather(s, i, len, 2) * 64 + s[i + 3] % 64;
      Gather4(s[i], s[i + 1], s[i + 2], s[i + 3]);
    }
  }

  lemma Gather2(a: Byte, b: Byte)
    requires 0xC0 <= a < 0xE0 && Tail(b)
    ensures var c := a % 32 * 64 + b % 64;
            c == (a as int - 0xC0) * 64 + (b as int - 0x80) && (Shortest(2, c) <==> a >= 0xC2)
  {
  }

  lemma Gather3(a: Byte, b: Byte, d: Byte)
    requires 0xE0 <= a < 0xF0 && Tail(b) && Tail(d)
    ensures var c := (a % 16 * 64 + b % 64) * 64 + d % 64;
            c == (a as int - 0xE0) * 4096 + (b as int - 0x80) * 64 + (d as int - 0x80)
            && (Shortest(3, c) <==> Second3(a, b))
  {
  }

  lemma Gather4(a: Byte, b: Byte, d: Byte, e: Byte)
    requires 0xF0 <= a < 0xF8 && Tail(b) && Tail(d) && Tail(e)
    ensures var c := ((a % 8 * 64 + b % 64) * 64 + d % 64) * 64 + e % 64;
            c == (a as int - 0xF0) * 262144 + (b as int - 0x80) * 4096 + (d as int - 0x80) * 64 + (e as int - 0x80)
            && (Shortest(4, c) <==> Second4(a, b))
  {
    hide Shortest, Second4;
    TailDigit(b);
    TailDigit(d);
    TailDigit(e);
    assert a % 8 == a as int - 0xF0;
    Shortest4(a as int - 0xF0, b as int - 0x80, (d as int - 0x80) * 64 + (e as int - 0x80));
  }

  lemma TailDigit(b: Byte)
    requires Tail(b)
    ensures b % 64 == b as int - 0x80
  {
  }

  lemma Shortest4(a: nat, b: nat, low: nat)
    requires a < 8 && b < 64 && low < 4096
    ensures Shortest(4, a * 262144 + b * 4096 + low) <==> Second4(a + 0xF0, b + 0x80)
  {
  }

  lemma GatherStart(s: Str, i: nat, len: nat)
    requires 2 <= len <= 4 && i < |s|
    ensures Gather(s, i, len, 0) == s[i] % Pow2(7 - len)
  {
  }

  lemma GatherStep(s: Str, i: nat, len: nat, k: nat)
    requires 2 <= len <= 4 && i + k < |s| && k > 0
    ensures Gather(s, i, len, k) == Gather(s, i, len, k - 1) * 64 + s[i + k] % 64
  {
  }

  /** What the number of leading ones says about the first byte, and about a character of one byte. */
  lemma LeadByte(s: Str, i: nat)
    requires i < |s|
    ensures LeadingOnes(s[i]) == 0 <==> s[i] < 0x80
    ensures LeadingOnes(s[i]) <= 4 <==> s[i] < 0xF8
    ensures s[i] < 0x80 ==> CharLen(s, i) == 1 && CodePoint(s, i) == s[i]
  {
  }

  lemma NoChar(s: Str, i: nat)
    requires i < |s| && s[i] >= 0x80
    requires LeadingOnes(s[i]) < 2 || LeadingOnes(s[i]) > 4
             || exists j :: i < j < i + LeadingOnes(s[i]) && j < |s| && !Tail(s[j])
    ensures CharLen(s, i) == 0
  {
  }

  /** Reads one character of a NUL-terminated buffer: its code point, or -1 where the grammar has no character. */
  method FromUTF8(s: Str, at: nat) returns (ucc: int, next: nat)
    requires at < |s| && s[|s| - 1] == 0
    ensures ucc == -1 <==> CharLen(s, at) == 0
    ensures CharLen(s, at) > 0 ==> ucc == CodePoint(s, at) && next == at + CharLen(s, at)
  {
    hide And, Or, Pow2, CharLen, CodePoint, LeadingOnes, Gather, Shortest;
    next := at;
    var len := CountLeadingOnes(s[at]);
    LeadByte(s, at);
    BitAfterOnes(s[at]);
    if And(s[at] * Pow2(len), 0x80) != 0 {
      AllOnes(s[at]);
      NoChar(s, at);
      return -1, next;
    }
    if len == 0 { return s[at], at + 1; }
    if len < 2 || len > 4 {
      NoChar(s, at);
      return -1, next;
    }
    AndOnes(s[at], 7 - len);
    GatherStart(s, at, len);
    ucc := And(s[at], Pow2(7 - len) - 1);
    next := at + 1;
    for i := 0 to len - 1
      invariant next == at + i + 1 < |s| && ucc == Gather(s, at, len, i)
      invariant forall j :: at < j <= at + i ==> Tail(s[j])
    {
      TailBits(s[next]);
      if And(s[next], 0xC0) != 0x80 {
        assert !Tail(s[next]);
        NoChar(s, at);
        return -1, next;
      }
      SixMoreBits(ucc, s[next]);
      GatherStep(s, at, len, i + 1);
      ucc := Or(ucc * 0x40, And(s[next], 0x3F));
      next := next + 1;
    }
    GatherMeans(s, at, len);
    if !Shortest(len, ucc) { return -1, next; }
  }

  lemma BitAfterOnes(b: Byte)
    ensures And(b * Pow2(LeadingOnes(b)), 0x80) != 0 <==> (b * Pow2(LeadingOnes(b)) / 0x80) % 2 == 1
  {
    hide Pow2, And;
    Pow2Values();
    AndBit(b * Pow2(LeadingOnes(b)), 7);
  }

  lemma TailBits(b: Byte)
    ensures And(b, 0xC0) == 0x80 <==> Tail(b)
  {
    hide Pow2, And;
    Pow2Values();
    AndShifted(b, 3, 6);
    AndOnes(b / 64, 2);
  }

  lemma SixMoreBits(ucc: nat, b: Byte)
    ensures Or(ucc * 0x40, And(b, 0x3F)) == ucc * 64 + b % 64
  {
    hide Pow2, And, Or;
    Pow2Values();
    AndOnes(b, 6);
    OrDisjoint(ucc, b % 64, 6);
  }

  lemma AllOnes(b: Byte)
    requires (b * Pow2(LeadingOnes(b)) / 0x80) % 2 == 1
    ensures b >= 0xFE
  {
    Pow2Values();
  }
}
