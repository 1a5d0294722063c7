/**
 Offsets from the end are aligned while building; once the size of the buffer is a multiple of the largest
 alignment used, so are the addresses.
 */
module FlatAlignment {
  import opened Bytes
  import opened FlatFormat

  predicate AddressAligned(data: Str, off: int, size: nat) {
    size > 0 && (|data| - off) % size == 0
  }

  /** Every scalar, offset and length of the object is at an address its own size divides. */
  ghost predicate AlignedAt(data: Str, off: int, obj: Obj)
    requires ObjAt(data, off, obj)
    decreases obj, 0
  {
    AddressAligned(data, off, 4) &&
    match obj
    case StringObj(_) => true
    case ScalarVector(size, elems) =>
      forall k :: 0 <= k < |elems| ==> AddressAligned(data, off - 4 - k * size, size)
    case OffsetVector(objs) => RefsAligned(data, off - 4, objs)
    case TableObj(fields) => FieldsAligned(data, off, fields)
  }

  ghost predicate RefAligned(data: Str, pos: int, obj: Obj)
    requires RefAt(data, pos, obj)
    decreases obj, 1
  {
    AddressAligned(data, pos, 4) && AlignedAt(data, pos - ReadAt(data, pos, 4), obj)
  }

  ghost predicate RefsAligned(data: Str, pos: int, objs: seq<Obj>)
    requires RefsAt(data, pos, objs)
    decreases objs, 3
  {
    forall k :: 0 <= k < |objs| ==> RefAligned(data, pos - 4 * k, objs[k])
  }

  ghost predicate FieldsAligned(data: Str, off: int, fields: seq<Field>)
    requires TableAt(data, off) && FieldsAt(data, off, fields)
    decreases fields, 3
  {
    forall i :: 0 <= i < |fields| ==> FieldAligned(data, off, fields[i])
  }

  ghost predicate FieldAligned(data: Str, off: int, f: Field)
    requires TableAt(data, off) && FieldAt(data, off, f)
    decreases f, 2
  {
    ValueAligned(data, off - FieldOffset(data, off, f.id), f)
  }

  ghost predicate ValueAligned(data: Str, pos: int, f: Field)
    requires ValueAt(data, pos, f)
    decreases f, 1
  {
    match f
    case ScalarField(_, size, _) => AddressAligned(data, pos, size)
    case RefField(_, obj) => RefAligned(data, pos, obj)
  }

  lemma OffsetToAddress(data: Str, pos: int, size: nat, m: nat)
    requires IsWidth(size) && IsWidth(m) && size <= m && |data| % m == 0 && pos % size == 0
    ensures AddressAligned(data, pos, size)
  {
    Divides(|data|, size, m);
    DifferenceDivides(|data|, pos, size);
  }

  lemma {:induction false} ObjectAligned(data: Str, off: int, obj: Obj, m: nat)
    requires ObjAt(data, off, obj) && Within(obj, m) && IsWidth(m) && |data| % m == 0
    ensures AlignedAt(data, off, obj)
    decreases obj, 0
  {
    hide AddressAligned, TableAt, ReadAt, FieldOffset;
    OffsetToAddress(data, off, 4, m);
    match obj
    case StringObj(_) =>
    case ScalarVector(size, elems) =>
      forall k | 0 <= k < |elems|
        ensures AddressAligned(data, off - 4 - k * size, size)
      {
        assert ScalarAt(data, off - 4 - k * size, size, elems[k]);
        OffsetToAddress(data, off - 4 - k * size, size, m);
      }
    case OffsetVector(objs) =>
      forall k | 0 <= k < |objs|
        ensures RefAligned(data, off - 4 - 4 * k, objs[k])
      {
        RefIsAligned(data, off - 4 - 4 * k, objs[k], m);
      }
    case TableObj(fields) =>
      forall i | 0 <= i < |fields|
        ensures FieldAligned(data, off, fields[i])
      {
        assert FieldAt(data, off, fields[i]) && FieldWithin(fields[i], m);
        ValueIsAligned(data, off - FieldOffset(data, off, fields[i].id), fields[i], m);
      }
  }

  lemma {:induction false} RefIsAligned(data: Str, pos: int, obj: Obj, m: nat)
    requires RefAt(data, pos, obj) && Within(obj, m) && IsWidth(m) && |data| % m == 0
    ensures RefAligned(data, pos, obj)
    decreases obj, 1
  {
    hide AddressAligned;
    assert 4 <= m;
    OffsetToAddress(data, pos, 4, m);
    ObjectAligned(data, pos - ReadAt(data, pos, 4), obj, m);
  }

  lemma {:induction false} ValueIsAligned(data: Str, pos: int, f: Field, m: nat)
    requires ValueAt(data, pos, f) && FieldWithin(f, m) && IsWidth(m) && |data| % m == 0
    ensures ValueAligned(data, pos, f)
    decreases f, 1
  {
    match f
    case ScalarField(_, size, _) => OffsetToAddress(data, pos, size, m);
    case RefField(_, obj) => RefIsAligned(data, pos, obj, m);
  }
}
