/**
 `EscapeString`: JSON string literals for byte strings, and what reading them back gives.
 */
module Escape {
  import opened Bytes
  import opened Bits
  import opened Options
  import opened Utf8

  // ---- Taking a byte string apart ----

  /** A character with the bytes it was read from, or a byte that starts none. */
  datatype Piece = Char(c: nat, raw: Str) | Junk(b: Byte)

  function PieceLen(s: Str, i: nat): (n: nat)
    requires i < |s|
    ensures 1 <= n && i + n <= |s|
  {
    if CharLen(s, i) == 0 then 1 else CharLen(s, i)
  }

  function PieceAt(s: Str, i: nat): (p: Piece)
    requires i < |s|
    ensures p.Char? ==> Scalar(p.c) && p.raw == Encode(p.c)
  {
    if CharLen(s, i) == 0 then Junk(s[i])
    else
      ReadIsEncoded(s, i);
      Char(CodePoint(s, i), s[i..i + CharLen(s, i)])
  }

  /** UTF-8 through and through, by the grammar of section 4 of RFC 3629. */
  predicate WellFormed(s: Str, i: nat)
    requires i <= |s|
    decreases |s| - i
  {
    i == |s| || (CharLen(s, i) > 0 && WellFormed(s, i + CharLen(s, i)))
  }

  /** The code points of a well-formed string. */
  function CodePoints(s: Str, i: nat): (cs: seq<nat>)
    requires i <= |s| && WellFormed(s, i)
    ensures forall k :: 0 <= k < |cs| ==> Scalar(cs[k])
    decreases |s| - i
  {
    if i == |s| then []
    else
      ReadIsEncoded(s, i);
      [CodePoint(s, i)] + CodePoints(s, i + CharLen(s, i))
  }

  // ---- Writing ----

  function HexDigit(n: nat): (c: char)
    requires n < 16
  {
    "0123456789ABCDEF"[n]
  }

  /** `IntToStringHex`: upper-case digits, zero-padded; the numbers here have at most that many digits. */
  function Hex(n: nat, digits: nat): (t: string)
    ensures |t| == digits
  {
    if digits == 0 then "" else Hex(n / 16, digits - 1) + [HexDigit(n % 16)]
  }

  function AsText(s: Str): (t: string)
    ensures |t| == |s|
  {
    seq(|s|, i requires 0 <= i < |s| => s[i] as char)
  }

  /** What one character becomes when no raw UTF-8 is wanted. */
  function EscapeChar(c: nat): (t: string)
    requires Scalar(c)
  {
    if c == 10 then "\\n"
    else if c == 9 then "\\t"
    else if c == 13 then "\\r"
    else if c == 8 then "\\b"
    else if c == 12 then "\\f"
    else if c == 34 then "\\\""
    else if c == 92 then "\\\\"
    else if 32 <= c <= 126 then [c as char]
    else if c <= 0xFFFF then "\\u" + Hex(c, 4)
    else "\\u" + Hex((c - 0x1_0000) / 0x400 + 0xD800, 4) + "\\u" + Hex((c - 0x1_0000) % 0x400 + 0xDC00, 4)
  }

  /** Characters with an escape of their own, and printable ASCII. */
  predicate Plain(c: nat) {
    c == 8 || c == 9 || c == 10 || c == 12 || c == 13 || 32 <= c <= 126
  }

  /** With `naturalUtf8`, all that is not plain stays as it is; a byte that starts no character becomes `\\x`. */
  function PieceText(p: Piece, naturalUtf8: bool): (t: string)
    requires p.Char? ==> Scalar(p.c)
  {
    match p
    case Junk(b) => "\\x" + Hex(b, 2)
    case Char(c, raw) => if naturalUtf8 && !Plain(c) then AsText(raw) else EscapeChar(c)
  }

  /** The text for everything from `i` on. */
  function TextFrom(s: Str, i: nat, naturalUtf8: bool): (t: string)
    requires i <= |s|
    decreases |s| - i
  {
    if i == |s| then "" else PieceText(PieceAt(s, i), naturalUtf8) + TextFrom(s, i + PieceLen(s, i), naturalUtf8)
  }

  /** The terminator after the string ends no character and starts none inside it. */
  lemma NulEnds(s: Str, i: nat)
    requires i < |s|
    ensures CharLen(s + [0], i) == CharLen(s, i)
    ensures CharLen(s, i) > 0 ==> CodePoint(s + [0], i) == CodePoint(s, i)
  {
  }

  lemma PlainPiece(s: Str, i: nat)
    requires i < |s| && Plain(s[i])
    ensures CharLen(s, i) == 1 && CodePoint(s, i) == s[i]
  {
  }

  lemma NotPlainPiece(s: Str, i: nat)
    requires i < |s| && !Plain(s[i]) && CharLen(s, i) > 0
    ensures !Plain(CodePoint(s, i))
  {
    if CharLen(s, i) == 2 {
      Read2(s[i], s[i + 1]);
    } else if CharLen(s, i) == 3 {
      Read3(s[i], s[i + 1], s[i + 2]);
    }
  }

  /** One turn of the loop: the text for what starts at `i`, and where it ends. */
  method EscapeOne(s: Str, i: nat, allowNonUtf8: bool, naturalUtf8: bool) returns (ok: bool, t: string, next: nat)
    requires i < |s|
    ensures ok == (allowNonUtf8 || CharLen(s, i) > 0)
    ensures ok ==> t == PieceText(PieceAt(s, i), naturalUtf8) && next == i + PieceLen(s, i)
  {
    hide Hex, AsText, Encode, CodePoint, CharLen, And, Shr;
    var c := s[i];
    if Plain(c) {
      PlainPiece(s, i);
      t := if c == 10 then "\\n" else if c == 9 then "\\t" else if c == 13 then "\\r" else if c == 8 then "\\b"
           else if c == 12 then "\\f" else if c == 34 then "\\\"" else if c == 92 then "\\\\" else [c as char];
      return true, t, i + 1;
    }
    NulEnds(s, i);
    var ucc, end := FromUTF8(s + [0], i);
    if ucc < 0 {
      return allowNonUtf8, "\\x" + Hex(c, 2), i + 1;
    }
    ReadIsEncoded(s, i);
    NotPlainPiece(s, i);
    if naturalUtf8 {
      t := AsText(s[i..end]);
    } else if ucc <= 0xFFFF {
      t := "\\u" + Hex(ucc, 4);
    } else {
      var base := ucc - 0x1_0000;
      SurrogateBits(base);
      t := "\\u" + Hex(Shr(base, 10) + 0xD800, 4) + "\\u" + Hex(And(base, 0x3FF) + 0xDC00, 4);
    }
    return true, t, end;
  }

  lemma SurrogateBits(base: nat)
    ensures Shr(base, 10) == base / 0x400 && And(base, 0x3FF) == base % 0x400
  {
    hide Pow2, And;
    Pow2Adds(5, 5);
    Pow2Values();
    AndOnes(base, 10);
  }

  /** The quoted string, or failure at the first byte that starts no character if such bytes are not allowed. */
  method EscapeString(s: Str, before: string, allowNonUtf8: bool, naturalUtf8: bool) returns (ok: bool, text: string)
    ensures ok == (allowNonUtf8 || WellFormed(s, 0))
    ensures ok ==> text == before + "\"" + TextFrom(s, 0, naturalUtf8) + "\""
  {
    hide PieceText, PieceAt, CharLen;
    text := before + "\"";
    var i := 0;
    while i < |s|
      invariant i <= |s| && (allowNonUtf8 || (WellFormed(s, 0) <==> WellFormed(s, i)))
      invariant text + TextFrom(s, i, naturalUtf8) == before + "\"" + TextFrom(s, 0, naturalUtf8)
    {
      var t, next;
      ok, t, next := EscapeOne(s, i, allowNonUtf8, naturalUtf8);
      if !ok { return; }
      assert text + TextFrom(s, i, naturalUtf8) == (text + t) + TextFrom(s, next, naturalUtf8);
      text, i := text + t, next;
    }
    ok, text := true, text + "\"";
  }

  // ---- Reading back: section 7 of RFC 8259 ----

  predicate IsHexDigit(c: char) { '0' <= c <= '9' || 'A' <= c <= 'F' || 'a' <= c <= 'f' }

  function HexDigitValue(c: char): (n: nat)
    requires IsHexDigit(c)
    ensures n < 16
  {
    if c <= '9' then c as int - '0' as int
    else if c <= 'F' then c as int - 'A' as int + 10
    else c as int - 'a' as int + 10
  }

  predicate IsHex(t: string) { forall k :: 0 <= k < |t| ==> IsHexDigit(t[k]) }

  function HexValue(t: string): (n: nat)
    requires IsHex(t)
  {
    if t == "" then 0 else HexValue(t[..|t| - 1]) * 16 + HexDigitValue(t[|t| - 1])
  }

  predicate IsUnit(t: string) { |t| >= 6 && t[..2] == "\\u" && IsHex(t[2..6]) }

  function Unit(t: string): nat
    requires IsUnit(t)
  {
    HexValue(t[2..6])
  }

  function Cons(c: nat, rest: Option<seq<nat>>): Option<seq<nat>> {
    match rest case None => None case Some(cs) => Some([c] + cs)
  }

  /** The characters of a JSON string's contents; two `\u` escapes that form a surrogate pair are one character. */
  function Unescape(t: string): (r: Option<seq<nat>>)
    decreases |t|
  {
    if t == "" then Some([])
    else if t[0] != '\\' then if t[0] < ' ' || t[0] == '"' then None else Cons(t[0] as nat, Unescape(t[1..]))
    else if |t| == 1 then None
    else if t[1] == 'u' then
      if !IsUnit(t) then None
      else if 0xD800 <= Unit(t) <= 0xDBFF && IsUnit(t[6..]) && 0xDC00 <= Unit(t[6..]) <= 0xDFFF
      then Cons(0x1_0000 + (Unit(t) - 0xD800) * 0x400 + (Unit(t[6..]) - 0xDC00), Unescape(t[12..]))
      else Cons(Unit(t), Unescape(t[6..]))
    else
      match ShortEscape(t[1])
      case None => None
      case Some(c) => Cons(c, Unescape(t[2..]))
  }

  function ShortEscape(c: char): Option<nat> {
    if c == '"' || c == '\\' || c == '/' then Some(c as nat)
    else if c == 'b' then Some(8)
    else if c == 'f' then Some(12)
    else if c == 'n' then Some(10)
    else if c == 'r' then Some(13)
    else if c == 't' then Some(9)
    else None
  }

  lemma {:induction false} HexReads(n: nat, digits: nat)
    requires n < Pow2(4 * digits)
    ensures IsHex(Hex(n, digits)) && HexValue(Hex(n, digits)) == n
  {
    if digits > 0 {
      hide Pow2, HexDigit, HexDigitValue;
      Sixteen(4 * (digits - 1));
      HexReads(n / 16, digits - 1);
      HexDigitReads(n % 16);
      var t := Hex(n, digits);
      assert t[..digits - 1] == Hex(n / 16, digits - 1);
    }
  }

  lemma HexDigitReads(n: nat)
    requires n < 16
    ensures IsHexDigit(HexDigit(n)) && HexDigitValue(HexDigit(n)) == n
  {
  }

  lemma Sixteen(k: nat)
    ensures Pow2(k + 4) == 16 * Pow2(k)
  {
    assert Pow2(k + 4) == 2 * Pow2(k + 3) && Pow2(k + 3) == 2 * Pow2(k + 2) && Pow2(k + 2) == 2 * Pow2(k + 1);
  }

  lemma UnitReads(n: nat, rest: string)
    requires n < 0x1_0000
    ensures var t := "\\u" + Hex(n, 4) + rest; IsUnit(t) && Unit(t) == n && t[6..] == rest
  {
    hide HexValue, Pow2, Hex;
    Pow2Values();
    HexReads(n, 4);
    var t := "\\u" + Hex(n, 4) + rest;
    assert t[2..6] == Hex(n, 4);
    assert t[..2] == "\\u";
  }

  lemma ShortReads(e: char, rest: string)
    requires ShortEscape(e).Some?
    ensures Unescape(['\\', e] + rest) == Cons(ShortEscape(e).value, Unescape(rest))
  {
    var t := ['\\', e] + rest;
    assert t[2..] == rest;
  }

  lemma SelfReads(c: char, rest: string)
    requires ' ' <= c <= '~' && c != '"' && c != '\\'
    ensures Unescape([c] + rest) == Cons(c as nat, Unescape(rest))
  {
    var t := [c] + rest;
    assert t[1..] == rest;
  }

  lemma PlainReads(c: nat, rest: string)
    requires Plain(c)
    ensures Unescape(EscapeChar(c) + rest) == Cons(c, Unescape(rest))
  {
    hide Unescape, Hex;
    if c >= 32 && c != 34 && c != 92 {
      SelfReads(c as char, rest);
    } else {
      var t := EscapeChar(c);
      assert |t| == 2 && t[0] == '\\' && ShortEscape(t[1]) == Some(c);
      assert t == ['\\', t[1]];
      ShortReads(t[1], rest);
    }
  }

  lemma UnitCharReads(c: nat, rest: string)
    requires c <= 0xFFFF && Scalar(c)
    ensures Unescape("\\u" + Hex(c, 4) + rest) == Cons(c, Unescape(rest))
  {
    hide Hex, IsUnit, Unit;
    UnitReads(c, rest);
  }

  lemma PairReads(c: nat, rest: string)
    requires 0x1_0000 <= c <= 0x10_FFFF
    ensures var hi, lo := (c - 0x1_0000) / 0x400 + 0xD800, (c - 0x1_0000) % 0x400 + 0xDC00;
            Unescape("\\u" + Hex(hi, 4) + ("\\u" + Hex(lo, 4) + rest)) == Cons(c, Unescape(rest))
  {
    hide Hex, IsUnit, Unit;
    var hi, lo := (c - 0x1_0000) / 0x400 + 0xD800, (c - 0x1_0000) % 0x400 + 0xDC00;
    var tail := "\\u" + Hex(lo, 4) + rest;
    var t := "\\u" + Hex(hi, 4) + tail;
    UnitReads(hi, tail);
    UnitReads(lo, rest);
    assert t[12..] == t[6..][6..] == rest;
  }

  /** Whatever follows, one escaped character reads back as that character. */
  lemma EscapedCharReads(c: nat, rest: string)
    requires Scalar(c)
    ensures Unescape(EscapeChar(c) + rest) == Cons(c, Unescape(rest))
  {
    hide Hex, Unescape;
    var t := EscapeChar(c) + rest;
    if Plain(c) {
      PlainReads(c, rest);
    } else if c <= 0xFFFF {
      UnitCharReads(c, rest);
    } else {
      var hi, lo := (c - 0x1_0000) / 0x400 + 0xD800, (c - 0x1_0000) % 0x400 + 0xDC00;
      PairReads(c, rest);
      assert t == "\\u" + Hex(hi, 4) + ("\\u" + Hex(lo, 4) + rest);
    }
  }

  /** Escaping is reversible: the text of a well-formed string unescapes to its code points. */
  lemma {:induction false} EscapedReads(s: Str, i: nat)
    requires i <= |s| && WellFormed(s, i)
    ensures Unescape(TextFrom(s, i, false)) == Some(CodePoints(s, i))
    decreases |s| - i
  {
    hide Unescape, EscapeChar, CharLen, CodePoint, Encode, Scalar;
    if i == |s| {
      UnescapeEmpty();
    } else {
      ReadIsEncoded(s, i);
      EscapedReads(s, i + CharLen(s, i));
      EscapedCharReads(CodePoint(s, i), TextFrom(s, i + CharLen(s, i), false));
    }
  }

  lemma UnescapeEmpty()
    ensures Unescape("") == Some([])
  {
  }

  /** The short escapes are used where there are any, and `\\u` escapes only where they are needed. */
  lemma EscapeLength(c: nat)
    requires Scalar(c)
    ensures |EscapeChar(c)|
            == if c == 8 || c == 9 || c == 10 || c == 12 || c == 13 || c == 34 || c == 92 then 2
               else if 32 <= c <= 126 then 1 else if c <= 0xFFFF then 6 else 12
  {
  }

  /** Digits above nine are written in upper case. */
  lemma {:induction false} HexUpperCase(n: nat, digits: nat)
    ensures forall k :: 0 <= k < digits ==> '0' <= Hex(n, digits)[k] <= '9' || 'A' <= Hex(n, digits)[k] <= 'F'
  {
    if digits > 0 { HexUpperCase(n / 16, digits - 1); }
  }

  /** Only printable ASCII is written. */
  predicate Printable(t: string) { forall k :: 0 <= k < |t| ==> ' ' <= t[k] <= '~' }

  lemma {:induction false} HexPrintable(n: nat, digits: nat)
    ensures Printable(Hex(n, digits))
  {
    if digits > 0 { HexPrintable(n / 16, digits - 1); }
  }

  lemma {:induction false} TextPrintable(s: Str, i: nat)
    requires i <= |s|
    ensures Printable(TextFrom(s, i, false))
    decreases |s| - i
  {
    hide Hex, CharLen, PieceAt;
    if i < |s| {
      TextPrintable(s, i + PieceLen(s, i));
      PiecePrintable(PieceAt(s, i));
    }
  }

  lemma PiecePrintable(p: Piece)
    requires p.Char? ==> Scalar(p.c)
    ensures Printable(PieceText(p, false))
  {
    hide Hex;
    match p
    case Junk(b) => HexPrintable(b, 2);
    case Char(c, _) =>
      if !Plain(c) {
        if c <= 0xFFFF {
          HexPrintable(c, 4);
        } else {
          HexPrintable((c - 0x1_0000) / 0x400 + 0xD800, 4);
          HexPrintable((c - 0x1_0000) % 0x400 + 0xDC00, 4);
        }
      }
  }

  /** A well-formed string is the encoding of its code points, so they determine it. */
  lemma {:induction false} CodePointsEncode(s: Str, i: nat)
    requires i <= |s| && WellFormed(s, i)
    ensures EncodeAll(CodePoints(s, i)) == s[i..]
    decreases |s| - i
  {
    hide Encode, CharLen, CodePoint;
    if i < |s| {
      ReadIsEncoded(s, i);
      CodePointsEncode(s, i + CharLen(s, i));
      assert s[i..] == s[i..i + CharLen(s, i)] + s[i + CharLen(s, i)..];
    }
  }

  function EncodeAll(cs: seq<nat>): (s: Str)
    requires forall k :: 0 <= k < |cs| ==> Scalar(cs[k])
  {
    if cs == [] then [] else assert Scalar(cs[0]); Encode(cs[0]) + EncodeAll(cs[1..])
  }

  // ---- Reading back bytes, whatever the flags ----

  function Before(s: Str, rest: Option<Str>): Option<Str> {
    match rest case None => None case Some(t) => Some(s + t)
  }

  /**
   The bytes a text stands for: as `Unescape`, with the characters encoded, raw bytes as they are, and the
   escape `\x` for a single byte.
   */
  function UnescapeBytes(t: string): (r: Option<Str>)
    decreases |t|
  {
    if t == "" then Some([])
    else if t[0] != '\\' then
      if t[0] == '"' || t[0] as nat >= 256 then None else Before([t[0] as nat], UnescapeBytes(t[1..]))
    else if |t| == 1 then None
    else if t[1] == 'x' then
      if |t| >= 4 && IsHex(t[2..4]) && HexValue(t[2..4]) < 256
      then Before([HexValue(t[2..4])], UnescapeBytes(t[4..])) else None
    else if t[1] == 'u' then
      if !IsUnit(t) then None
      else if 0xD800 <= Unit(t) <= 0xDBFF && IsUnit(t[6..]) && 0xDC00 <= Unit(t[6..]) <= 0xDFFF
      then Before(Encode(0x1_0000 + (Unit(t) - 0xD800) * 0x400 + (Unit(t[6..]) - 0xDC00)), UnescapeBytes(t[12..]))
      else if Unit(t) < 0x1_0000 then Before(Encode(Unit(t)), UnescapeBytes(t[6..])) else None
    else
      match ShortEscape(t[1])
      case None => None
      case Some(c) => if c < 256 then Before([c], UnescapeBytes(t[2..])) else None
  }

  function PieceBytes(p: Piece): Str {
    match p case Junk(b) => [b] case Char(_, raw) => raw
  }

  /** Raw bytes other than quote and backslash stand for themselves. */
  lemma {:induction false} RawReads(raw: Str, rest: string)
    requires forall k :: 0 <= k < |raw| ==> raw[k] != 34 && raw[k] != 92
    ensures UnescapeBytes(AsText(raw) + rest) == Before(raw, UnescapeBytes(rest))
  {
    if raw == [] {
      assert AsText(raw) + rest == rest;
      NothingBefore(UnescapeBytes(rest));
    } else {
      var t := AsText(raw) + rest;
      assert t[0] == raw[0] as char && t[1..] == AsText(raw[1..]) + rest;
      RawReads(raw[1..], rest);
      OneBefore(raw[0], raw[1..], UnescapeBytes(rest));
      assert raw == [raw[0]] + raw[1..];
    }
  }

  lemma NothingBefore(rest: Option<Str>)
    ensures Before([], rest) == rest
  {
    if rest.Some? { assert [] + rest.value == rest.value; }
  }

  lemma OneBefore(b: Byte, s: Str, rest: Option<Str>)
    ensures Before([b], Before(s, rest)) == Before([b] + s, rest)
  {
    if rest.Some? { assert [b] + (s + rest.value) == [b] + s + rest.value; }
  }

  lemma JunkReads(b: Byte, rest: string)
    ensures UnescapeBytes("\\x" + Hex(b, 2) + rest) == Before([b], UnescapeBytes(rest))
  {
    hide Pow2, Hex, HexValue;
    Pow2Adds(4, 4);
    Pow2Values();
    HexReads(b, 2);
    var t := "\\x" + Hex(b, 2) + rest;
    assert t[0] == '\\' && t[1] == 'x' && t[2..4] == Hex(b, 2) && t[4..] == rest;
  }

  lemma PlainBytesRead(c: nat, rest: string)
    requires Plain(c)
    ensures UnescapeBytes(EscapeChar(c) + rest) == Before([c], UnescapeBytes(rest))
  {
    hide UnescapeBytes, Hex;
    if c >= 32 && c != 34 && c != 92 {
      assert AsText([c]) == [c as char];
      RawReads([c], rest);
    } else {
      var t := EscapeChar(c);
      assert |t| == 2 && t[0] == '\\' && ShortEscape(t[1]) == Some(c);
      assert t == ['\\', t[1]];
      ShortBytesRead(t[1], rest);
    }
  }

  lemma ShortBytesRead(e: char, rest: string)
    requires ShortEscape(e).Some? && e < 128 as char
    ensures ShortEscape(e).value < 256
    ensures UnescapeBytes(['\\', e] + rest) == Before([ShortEscape(e).value], UnescapeBytes(rest))
  {
    hide IsUnit, HexValue, IsHex;
    var t := ['\\', e] + rest;
    assert t[0] == '\\' && t[1] == e && t[2..] == rest;
  }

  lemma UnitBytesRead(c: nat, rest: string)
    requires c <= 0xFFFF && Scalar(c)
    ensures UnescapeBytes("\\u" + Hex(c, 4) + rest) == Before(Encode(c), UnescapeBytes(rest))
  {
    hide Hex, IsUnit, Unit, Encode, HexValue, IsHex;
    UnitReads(c, rest);
    var t := "\\u" + Hex(c, 4) + rest;
    assert t[0] == '\\' && t[1] == 'u';
  }

  lemma PairBytesRead(c: nat, rest: string)
    requires 0x1_0000 <= c <= 0x10_FFFF
    ensures var hi, lo := (c - 0x1_0000) / 0x400 + 0xD800, (c - 0x1_0000) % 0x400 + 0xDC00;
            UnescapeBytes("\\u" + Hex(hi, 4) + ("\\u" + Hex(lo, 4) + rest)) == Before(Encode(c), UnescapeBytes(rest))
  {
    hide Hex, IsUnit, Unit, Encode, HexValue, IsHex;
    var hi, lo := (c - 0x1_0000) / 0x400 + 0xD800, (c - 0x1_0000) % 0x400 + 0xDC00;
    var tail := "\\u" + Hex(lo, 4) + rest;
    var t := "\\u" + Hex(hi, 4) + tail;
    UnitReads(hi, tail);
    UnitReads(lo, rest);
    assert t[0] == '\\' && t[1] == 'u' && t[12..] == t[6..][6..] == rest;
  }

  /** Whatever the piece and the flag, its text stands for its bytes. */
  lemma PieceReads(p: Piece, naturalUtf8: bool, rest: string)
    requires p.Char? ==> Scalar(p.c) && p.raw == Encode(p.c)
    ensures UnescapeBytes(PieceText(p, naturalUtf8) + rest) == Before(PieceBytes(p), UnescapeBytes(rest))
  {
    hide UnescapeBytes, Hex, Encode, AsText;
    match p
    case Junk(b) => JunkReads(b, rest);
    case Char(c, raw) =>
      if Plain(c) {
        EncodeAscii(c);
        PlainBytesRead(c, rest);
      } else if naturalUtf8 {
        NoQuotes(c);
        RawReads(raw, rest);
      } else if c <= 0xFFFF {
        UnitBytesRead(c, rest);
      } else {
        var hi, lo := (c - 0x1_0000) / 0x400 + 0xD800, (c - 0x1_0000) % 0x400 + 0xDC00;
        PairBytesRead(c, rest);
        assert EscapeChar(c) + rest == "\\u" + Hex(hi, 4) + ("\\u" + Hex(lo, 4) + rest);
      }
  }

  lemma NoQuotes(c: nat)
    requires Scalar(c) && !Plain(c)
    ensures forall k :: 0 <= k < |Encode(c)| ==> Encode(c)[k] != 34 && Encode(c)[k] != 92
  {
  }

  /** Escaping loses no byte: well-formed or not, raw UTF-8 wanted or not, the text stands for exactly the string. */
  lemma {:induction false} EscapedBytesRead(s: Str, i: nat, naturalUtf8: bool)
    requires i <= |s|
    ensures UnescapeBytes(TextFrom(s, i, naturalUtf8)) == Some(s[i..])
    decreases |s| - i
  {
    hide UnescapeBytes, PieceText, CharLen, Encode, CodePoint;
    if i == |s| {
      NoBytes();
    } else {
      var n := PieceLen(s, i);
      EscapedBytesRead(s, i + n, naturalUtf8);
      PieceReads(PieceAt(s, i), naturalUtf8, TextFrom(s, i + n, naturalUtf8));
      assert PieceBytes(PieceAt(s, i)) == s[i..i + n];
      assert s[i..] == s[i..i + n] + s[i + n..];
    }
  }

  lemma NoBytes()
    ensures UnescapeBytes("") == Some([])
  {
  }

  /** With raw UTF-8 wanted, whatever has no escape of its own comes out byte for byte. */
  lemma {:induction false} NaturalTextIsRaw(s: Str, i: nat)
    requires i <= |s| && WellFormed(s, i) && forall k :: i <= k < |s| ==> !Plain(s[k])
    ensures TextFrom(s, i, true) == AsText(s[i..])
    decreases |s| - i
  {
    hide CharLen, Encode, CodePoint, AsText, Plain;
    if i == |s| {
      NoText();
    } else {
      var n := CharLen(s, i);
      NaturalTextIsRaw(s, i + n);
      NotPlainPiece(s, i);
      assert s[i..] == s[i..i + n] + s[i + n..];
      TextJoins(s[i..i + n], s[i + n..]);
    }
  }

  lemma NoText()
    ensures AsText([]) == ""
  {
  }

  lemma TextJoins(a: Str, b: Str)
    ensures AsText(a + b) == AsText(a) + AsText(b)
  {
  }
}
