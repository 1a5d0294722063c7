/**
 `Reference::MutateInt`, `MutateUInt` and `MutateString`: changing a finished buffer in place.
 */
module FlexMutate {
  import opened Bytes
  import opened Strings
  import opened FlexFormat

  predicate IsSignedInt(typ: int) { typ == FBT_INT || typ == FBT_INDIRECT_INT }

  predicate IsUnsignedInt(typ: int) { typ == FBT_UINT || typ == FBT_INDIRECT_UINT }

  predicate IsInteger(typ: int) { IsSignedInt(typ) || IsUnsignedInt(typ) }

  /** Where the integer a reference leads to is stored. */
  function Place(buf: Str, r: Ref): int
    requires CanRead(buf, r.pos, r.parentWidth)
  {
    if IsInline(r.typ) then r.pos else Indirect(buf, r.pos, r.parentWidth)
  }

  function SlotWidth(r: Ref): nat { if IsInline(r.typ) then r.parentWidth else r.byteWidth }

  /** The integer is in the buffer, in front of the slot that points at it, as the builder lays it out. */
  predicate IntegerInPlace(buf: Str, r: Ref) {
    && CanRead(buf, r.pos, r.parentWidth) && IsWidth(SlotWidth(r))
    && CanRead(buf, Place(buf, r), SlotWidth(r))
    && (!IsInline(r.typ) ==> Place(buf, r) + SlotWidth(r) <= r.pos)
  }

  /** A 64-bit pattern as the tree a slot of this type reads. */
  function PatternTree(typ: int, bits: nat): Tree {
    if typ == FBT_INT then TInt(ToSigned(bits, 8))
    else if typ == FBT_INDIRECT_INT then TIndirectInt(ToSigned(bits, 8))
    else if typ == FBT_UINT then TUInt(bits) else TIndirectUInt(bits)
  }

  /** The pattern's value is in the range of a slot of `w` bytes of this type. */
  predicate PatternFits(typ: int, bits: nat, w: nat) {
    if IsSignedInt(typ) then FitsSigned(ToSigned(bits, 8), w) else bits < Pow256(w)
  }

  function PatternWidth(typ: int, bits: nat): (w: nat)
    ensures w <= 3
  {
    if IsSignedInt(typ) then WidthI(ToSigned(bits, 8)) else WidthU(bits)
  }

  /** `Reference::Mutate`: the low bytes of a 64-bit value, if its width is at most the slot's. */
  method Mutate(buf: array<Byte>, dest: nat, bits: nat, byteWidth: nat, valueWidth: nat) returns (fits: bool)
    requires dest + byteWidth <= buf.Length && valueWidth <= 3
    modifies buf
    ensures fits == (WidthBytes(valueWidth) <= byteWidth)
    ensures buf[..] == if fits then Overwrite(old(buf[..]), dest, LE(bits, byteWidth)) else old(buf[..])
  {
    fits := WidthBytes(valueWidth) <= byteWidth;
    if fits { CopyInto(buf, dest, LE(bits, byteWidth)); }
  }

  /** The width test accepts exactly the values in range, and the stored bytes read back as the value. */
  lemma StoredPatternReads(typ: int, bits: nat, w: nat)
    requires IsInteger(typ) && bits < TWO_64 && IsWidth(w)
    ensures WidthBytes(PatternWidth(typ, bits)) <= w <==> PatternFits(typ, bits, w)
    ensures PatternFits(typ, bits, w) ==>
              if IsSignedInt(typ) then ToSigned(FromLE(LE(bits, w)), w) == ToSigned(bits, 8)
              else FromLE(LE(bits, w)) == bits
  {
    Pow256Values();
    var code := if w == 1 then 0 else if w == 2 then 1 else if w == 4 then 2 else 3;
    var i := ToSigned(bits, 8);
    WidthUIsLeast(bits, code);
    WidthIIsLeast(i, code);
    if PatternFits(typ, bits, w) {
      if IsSignedInt(typ) {
        assert U64(i) == bits;
        SignedRoundTrip(i, w);
      } else {
        FromLEInvertsLE(bits, w);
      }
    }
  }

  lemma OverwriteReads(s: Str, dest: nat, bytes: Str)
    requires dest + |bytes| <= |s|
    ensures Overwrite(s, dest, bytes)[dest..dest + |bytes|] == bytes
    ensures forall a, b :: 0 <= a <= b <= |s| && (b <= dest || dest + |bytes| <= a) ==>
              Overwrite(s, dest, bytes)[a..b] == s[a..b]
  {
  }

  /** After the write the reference denotes the new value. */
  lemma OverwrittenDenotes(buf: Str, r: Ref, bits: nat)
    requires IntegerInPlace(buf, r) && IsInteger(r.typ) && bits < TWO_64 && PatternFits(r.typ, bits, SlotWidth(r))
    ensures Denotes(Overwrite(buf, Place(buf, r), LE(bits, SlotWidth(r))), r, PatternTree(r.typ, bits))
  {
    hide Overwrite, ToSigned, FromLE, LE;
    var w, p := SlotWidth(r), Place(buf, r);
    var buf' := Overwrite(buf, p, LE(bits, w));
    OverwriteReads(buf, p, LE(bits, w));
    StoredPatternReads(r.typ, bits, w);
    assert buf'[p..p + w] == LE(bits, w);
    if !IsInline(r.typ) {
      assert buf'[r.pos..r.pos + r.parentWidth] == buf[r.pos..r.pos + r.parentWidth];
    }
  }

  /** All four integer branches; `bits` is the argument's 64-bit pattern. */
  method MutatePattern(buf: array<Byte>, r: Ref, bits: nat) returns (ok: bool)
    requires bits < TWO_64 && (IsInteger(r.typ) ==> IntegerInPlace(buf[..], r))
    modifies buf
    ensures ok == (IsInteger(r.typ) && PatternFits(r.typ, bits, SlotWidth(r)))
    ensures ok ==> buf[..] == Overwrite(old(buf[..]), Place(old(buf[..]), r), LE(bits, SlotWidth(r)))
                   && Denotes(buf[..], r, PatternTree(r.typ, bits))
    ensures !ok ==> buf[..] == old(buf[..])
  {
    hide Overwrite, Denotes, PatternFits, FromLE, LE, PatternWidth;
    if !IsInteger(r.typ) { return false; }
    ghost var before := buf[..];
    StoredPatternReads(r.typ, bits, SlotWidth(r));
    if PatternFits(r.typ, bits, SlotWidth(r)) { OverwrittenDenotes(before, r, bits); }
    var s := buf[..];
    ok := Mutate(buf, Place(s, r), bits, SlotWidth(r), PatternWidth(r.typ, bits));
  }

  /** An integer too large for the slot changes nothing; one that fits replaces the value and nothing else. */
  method MutateInt(buf: array<Byte>, r: Ref, i: int) returns (ok: bool)
    requires FitsSigned(i, 8) && (IsInteger(r.typ) ==> IntegerInPlace(buf[..], r))
    modifies buf
    ensures ok == (IsInteger(r.typ) && PatternFits(r.typ, U64(i), SlotWidth(r)))
    ensures ok && r.typ == FBT_INT ==> Denotes(buf[..], r, TInt(i))
    ensures ok && r.typ == FBT_INDIRECT_INT ==> Denotes(buf[..], r, TIndirectInt(i))
    ensures ok ==> buf[..] == Overwrite(old(buf[..]), Place(old(buf[..]), r), LE(U64(i), SlotWidth(r)))
                   && Denotes(buf[..], r, PatternTree(r.typ, U64(i)))
    ensures !ok ==> buf[..] == old(buf[..])
  {
    hide Overwrite, Denotes, PatternFits, LE;
    Pow256Values();
    assert ToSigned(U64(i), 8) == i;
    ok := MutatePattern(buf, r, U64(i));
  }

  method MutateUInt(buf: array<Byte>, r: Ref, u: nat) returns (ok: bool)
    requires u < TWO_64 && (IsInteger(r.typ) ==> IntegerInPlace(buf[..], r))
    modifies buf
    ensures ok == (IsInteger(r.typ) && PatternFits(r.typ, u, SlotWidth(r)))
    ensures ok ==> buf[..] == Overwrite(old(buf[..]), Place(old(buf[..]), r), LE(u, SlotWidth(r)))
                   && Denotes(buf[..], r, PatternTree(r.typ, u))
    ensures !ok ==> buf[..] == old(buf[..])
  {
    ok := MutatePattern(buf, r, u);
  }

  /** A reference to a string, spelled out: its offset, the size field, the bytes, the terminator. */
  predicate StringInPlace(buf: Str, r: Ref, p: int, s: Str) {
    && r.typ == FBT_STRING && CanRead(buf, r.pos, r.parentWidth) && Indirect(buf, r.pos, r.parentWidth) == p
    && 0 <= p && HasSize(buf, p, r.byteWidth, |s|)
    && p + |s| < |buf| && buf[p..p + |s|] == s && buf[p + |s|] == 0
  }

  lemma StringReads(buf: Str, r: Ref, s: Str)
    ensures Denotes(buf, r, TString(s)) <==>
            CanRead(buf, r.pos, r.parentWidth) && StringInPlace(buf, r, Indirect(buf, r.pos, r.parentWidth), s)
  {
    hide FromLE, ReadU;
  }

  lemma OverwrittenString(buf: Str, r: Ref, p: nat, str: Str, s: Str)
    requires StringInPlace(buf, r, p, s) && p < r.pos - |s| && |str| == |s|
    ensures StringInPlace(Overwrite(buf, p, str), r, p, str)
  {
    hide FromLE, Overwrite;
    var w, buf' := r.byteWidth, Overwrite(buf, p, str);
    OverwriteReads(buf, p, str);
    assert buf'[p - w..p] == buf[p - w..p];
    assert buf'[r.pos..r.pos + r.parentWidth] == buf[r.pos..r.pos + r.parentWidth];
    assert buf'[p + |s|..p + |s| + 1][0] == buf[p + |s|..p + |s| + 1][0];
  }

  /**
   `MutateString`: a string can only be replaced by one of the same length, and so can a key, which is then
   read up to the first NUL of its replacement; everything else is refused. `s` is the text referred to.
   */
  method MutateString(buf: array<Byte>, r: Ref, str: Str, ghost s: Str) returns (ok: bool)
    requires r.typ == FBT_STRING ==> Denotes(buf[..], r, TString(s))
    requires r.typ == FBT_KEY ==> Denotes(buf[..], r, TKey(s))
    requires r.typ == FBT_STRING || r.typ == FBT_KEY ==> 0 <= Indirect(buf[..], r.pos, r.parentWidth) < r.pos - |s|
    modifies buf
    ensures ok == ((r.typ == FBT_STRING || r.typ == FBT_KEY) && |str| == |s|)
    ensures ok ==> Denotes(buf[..], r, if r.typ == FBT_STRING then TString(str) else TKey(UpToNul(str)))
                   && buf[..] == Overwrite(old(buf[..]), Indirect(old(buf[..]), r.pos, r.parentWidth), str)
    ensures !ok ==> buf[..] == old(buf[..])
  {
    if r.typ == FBT_STRING {
      ok := MutateStringRef(buf, r, str, s);
    } else if r.typ == FBT_KEY {
      ok := MutateKeyRef(buf, r, str, s);
    } else {
      ok := false;
    }
  }

  method MutateKeyRef(buf: array<Byte>, r: Ref, str: Str, ghost s: Str) returns (ok: bool)
    requires Denotes(buf[..], r, TKey(s)) && 0 <= Indirect(buf[..], r.pos, r.parentWidth) < r.pos - |s|
    modifies buf
    ensures ok == (|str| == |s|)
    ensures ok ==> Denotes(buf[..], r, TKey(UpToNul(str)))
                   && buf[..] == Overwrite(old(buf[..]), Indirect(old(buf[..]), r.pos, r.parentWidth), str)
    ensures !ok ==> buf[..] == old(buf[..])
  {
    hide FromLE, Overwrite, UpToNul, CStr;
    var now := buf[..];
    var p := Indirect(now, r.pos, r.parentWidth);
    if |CStr(now, p)| != |str| { return false; }
    OverwrittenKey(now, r, p, str);
    CopyInto(buf, p, str);
    return true;
  }

  lemma OverwrittenKey(buf: Str, r: Ref, p: nat, str: Str)
    requires CanRead(buf, r.pos, r.parentWidth) && Indirect(buf, r.pos, r.parentWidth) == p
    requires Terminated(buf, p) && |CStr(buf, p)| == |str| && p < r.pos - |str|
    ensures var buf' := Overwrite(buf, p, str);
            CanRead(buf', r.pos, r.parentWidth) && Indirect(buf', r.pos, r.parentWidth) == p
            && Terminated(buf', p) && CStr(buf', p) == UpToNul(str)
  {
    hide FromLE, Overwrite, UpToNul, CStr;
    var buf', n := Overwrite(buf, p, str), |str|;
    OverwriteReads(buf, p, str);
    assert buf'[r.pos..r.pos + r.parentWidth] == buf[r.pos..r.pos + r.parentWidth];
    assert buf'[p + n..p + n + 1][0] == buf[p + n..p + n + 1][0];
    StoredUpToNul(buf', p, str);
  }

  method MutateStringRef(buf: array<Byte>, r: Ref, str: Str, ghost s: Str) returns (ok: bool)
    requires Denotes(buf[..], r, TString(s)) && 0 <= Indirect(buf[..], r.pos, r.parentWidth) < r.pos - |s|
    modifies buf
    ensures ok == (|str| == |s|)
    ensures ok ==> Denotes(buf[..], r, TString(str))
                   && buf[..] == Overwrite(old(buf[..]), Indirect(old(buf[..]), r.pos, r.parentWidth), str)
    ensures !ok ==> buf[..] == old(buf[..])
  {
    hide FromLE, Overwrite, Denotes;
    var now := buf[..];
    StringReads(now, r, s);
    var p := Indirect(now, r.pos, r.parentWidth);
    if ReadU(now, p - r.byteWidth, r.byteWidth) != |str| { return false; }
    OverwrittenString(now, r, p, str, s);
    CopyInto(buf, p, str);
    StringReads(buf[..], r, str);
    return true;
  }
}
