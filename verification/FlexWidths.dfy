/**
 Builder values and the widths of the slots they need.

 A vector's slot width is chosen before the buffer is aligned and before any prefix is written, from
 an estimate of each element's position. The lemmas here show the estimate is never too small.
 */
module FlexWidths {
  import opened Bytes
  import opened FlexFormat

  /** A `Builder::Value`: 64 bits of payload (a scalar or an absolute offset), a type, a width code. */
  datatype Value = Value(u: nat, typ: int, width: nat)

  /** The offset an element would store, were it slot number `index` of `b`-byte slots after `bufSize` bytes. */
  function OffsetAt(u: nat, bufSize: nat, index: nat, b: nat): (offset: int)
    requires b > 0
    ensures u <= bufSize ==> offset >= 0
  {
    assert index * b >= 0;
    bufSize + PaddingBytes(bufSize, b) + index * b - u
  }

  /** Slots of width `w` can hold `v` as slot number `index`. */
  predicate Fits(v: Value, bufSize: nat, index: nat, w: nat)
    requires w <= 3
  {
    if IsInline(v.typ) then v.width <= w
    else OffsetFits(v.u, bufSize, index, w)
  }

  lemma FitsWider(v: Value, bufSize: nat, index: nat, w: nat, w': nat)
    requires w <= w' <= 3 && (IsInline(v.typ) || v.u <= bufSize)
    requires Fits(v, bufSize, index, w)
    ensures Fits(v, bufSize, index, w')
  {
    Pow256Values();
  }

  lemma FitsNearer(v: Value, bufSize: nat, index: nat, index': nat, w: nat)
    requires index' <= index && w <= 3
    requires Fits(v, bufSize, index, w)
    ensures Fits(v, bufSize, index', w)
  {
    assert index' * WidthBytes(w) <= index * WidthBytes(w);
  }

  lemma OffsetGrows(u: nat, bufSize: nat, index: nat, w: nat)
    requires w < 3
    ensures OffsetAt(u, bufSize, index, WidthBytes(w)) <= OffsetAt(u, bufSize, index, WidthBytes(w + 1))
  {
    PaddingGrows(bufSize);
    if w == 0 {
      assert index * 1 <= index * 2;
    } else if w == 1 {
      assert index * 2 <= index * 4;
    } else {
      assert index * 4 <= index * 8;
    }
  }

  lemma PaddingGrows(n: nat)
    ensures PaddingBytes(n, 1) <= PaddingBytes(n, 2) <= PaddingBytes(n, 4) <= PaddingBytes(n, 8)
  {
    var m: int := -(n as int);
    var q, r := m / 8, m % 8;
    assert m == r + (2 * q) * 4 == r + (4 * q) * 2;
    DropFours(r, 2 * q);
    DropTwos(r, 4 * q);
  }

  predicate OffsetFits(u: nat, bufSize: nat, index: nat, w: nat)
    requires w <= 3
  {
    OffsetAt(u, bufSize, index, WidthBytes(w)) < Pow256(WidthBytes(w))
  }

  /** When no smaller width fits, the width the offset needs is exactly the one being tried, if that fits. */
  lemma ExactWidth(u: nat, bufSize: nat, index: nat, w: nat)
    requires w <= 3 && u <= bufSize && OffsetAt(u, bufSize, index, 8) < TWO_64
    requires w > 0 ==> !OffsetFits(u, bufSize, index, w - 1)
    ensures WidthU(OffsetAt(u, bufSize, index, WidthBytes(w))) == w <==> OffsetFits(u, bufSize, index, w)
    ensures w == 3 ==> OffsetFits(u, bufSize, index, w)
  {
    Pow256Values();
    if w > 0 {
      OffsetGrows(u, bufSize, index, w - 1);
    }
  }

  /**
   `Value::ElemWidth`: try each width in turn. The loop always returns, with the least width that fits,
   although it only accepts a width that is exactly the one the offset needs.
   */
  method ElemWidth(v: Value, bufSize: nat, elemIndex: nat) returns (w: nat)
    requires v.width <= 3
    requires !IsInline(v.typ) ==> v.u <= bufSize && OffsetAt(v.u, bufSize, elemIndex, 8) < TWO_64
    ensures w <= 3 && Fits(v, bufSize, elemIndex, w)
    ensures IsInline(v.typ) ==> w == v.width
    ensures !IsInline(v.typ) ==> forall w' :: 0 <= w' < w ==> !OffsetFits(v.u, bufSize, elemIndex, w')
  {
    if IsInline(v.typ) {
      return v.width;
    }
    var byteWidth := 1;
    w := 3;
    ghost var tried := 0;
    while byteWidth <= 8
      invariant 0 <= tried <= 4
      invariant byteWidth == if tried == 4 then 16 else WidthBytes(tried)
      invariant forall w' :: 0 <= w' < tried ==> !OffsetFits(v.u, bufSize, elemIndex, w')
    {
      var offsetLoc := bufSize + PaddingBytes(bufSize, byteWidth) + elemIndex * byteWidth;
      var offset := offsetLoc - v.u;
      ExactWidth(v.u, bufSize, elemIndex, tried);
      var bitWidth := WidthU(offset);
      if WidthBytes(bitWidth) == byteWidth {
        return bitWidth;
      }
      byteWidth := byteWidth * 2;
      tried := tried + 1;
    }
    ExactWidth(v.u, bufSize, elemIndex, 3);
    assert false;
  }
}
