/**
 FlatBuffers objects inside a buffer under construction.

 The buffer grows downwards, so an object is named by its offset from the end: the number of bytes from
 its first byte to the end of the buffer. Such offsets, and everything at them, survive later growth.
 */
module FlatFormat {
  import opened Bytes

  /** Past this size 32-bit signed offsets do not reach. */
  const MAX_BUFFER_SIZE: nat := 0x7FFF_FFFF

  // ---- Reading by offset from the end ----

  predicate InUse(data: Str, off: int, n: nat) { n <= off <= |data| }

  function At(data: Str, off: nat, n: nat): (s: Str)
    requires InUse(data, off, n)
    ensures |s| == n
  {
    data[|data| - off..|data| - off + n]
  }

  function ReadAt(data: Str, off: nat, n: nat): (u: int)
    requires InUse(data, off, n)
    ensures 0 <= u < Pow256(n)
  {
    FromLE(At(data, off, n))
  }

  /** `data` is the older, lower part of what is now `data'`. */
  predicate Grown(data: Str, data': Str) {
    |data| <= |data'| && data'[|data'| - |data|..] == data
  }

  lemma GrownTransitive(a: Str, b: Str, c: Str)
    requires Grown(a, b) && Grown(b, c)
    ensures Grown(a, c)
  {
    assert c[|c| - |a|..] == c[|c| - |b|..][|b| - |a|..];
  }

  lemma AtStable(data: Str, data': Str, off: nat, n: nat)
    requires Grown(data, data') && InUse(data, off, n)
    ensures InUse(data', off, n) && At(data', off, n) == At(data, off, n)
  {
    var d, lo := |data'| - |data|, |data| - off;
    var now, was := At(data', off, n), At(data, off, n);
    forall j | 0 <= j < n
      ensures now[j] == was[j]
    {
      assert now[j] == data'[d + lo + j] == data'[d..][lo + j] == was[j];
    }
  }

  // ---- Objects ----

  /** What a caller stores: strings, vectors and tables. Scalars are bit patterns of `size` bytes. */
  datatype Obj =
    | StringObj(s: Str)
    | ScalarVector(size: nat, elems: seq<nat>)
    | OffsetVector(objs: seq<Obj>)
    | TableObj(fields: seq<Field>)

  /** A field that is present, by its vtable offset `id`. */
  datatype Field =
    | ScalarField(id: nat, size: nat, bits: nat)
    | RefField(id: nat, obj: Obj)

  function Locate(fields: seq<Field>, id: nat): (i: nat)
    ensures i <= |fields|
    ensures i < |fields| ==> fields[i].id == id
    ensures i == |fields| ==> forall j :: 0 <= j < |fields| ==> fields[j].id != id
  {
    if fields == [] then 0 else if fields[0].id == id then 0 else 1 + Locate(fields[1..], id)
  }

  lemma {:induction false} LocateAppend(fs: seq<Field>, gs: seq<Field>, id: nat)
    ensures Locate(fs + gs, id) == if Locate(fs, id) < |fs| then Locate(fs, id) else |fs| + Locate(gs, id)
  {
    if fs == [] {
      assert fs + gs == gs;
    } else {
      assert (fs + gs)[1..] == fs[1..] + gs;
      LocateAppend(fs[1..], gs, id);
    }
  }

  lemma LocateOne(gs: seq<Field>, id: nat)
    requires |gs| <= 1 && forall k :: 0 <= k < |gs| ==> gs[k].id == id
    ensures Locate(gs, id) == 0
    ensures forall other :: other != id ==> Locate(gs, other) == |gs|
  {
  }

  predicate DistinctIds(fields: seq<Field>) {
    forall i, j :: 0 <= i < j < |fields| ==> fields[i].id != fields[j].id
  }

  /** Vtable offsets of fields start at 4 and are even. */
  predicate FieldId(id: nat) { 4 <= id <= 0xFFFC && id % 2 == 0 }

  // ---- Vtables ----

  function VTableOf(data: Str, off: nat): int
    requires InUse(data, off, 4)
  {
    off + ToSigned(ReadAt(data, off, 4), 4)
  }

  /** A vtable with even size, all of it in the buffer. */
  predicate VTableAt(data: Str, vt: int) {
    InUse(data, vt, 4) && vt % 2 == 0
    && var size := ReadAt(data, vt, 2); size % 2 == 0 && 4 <= size <= vt
  }

  function VTableBytes(data: Str, vt: nat): Str
    requires VTableAt(data, vt)
  {
    At(data, vt, ReadAt(data, vt, 2))
  }

  predicate TableAt(data: Str, off: int) {
    InUse(data, off, 4) && off % 4 == 0 && VTableAt(data, VTableOf(data, off))
  }

  /** `Table::GetOptionalFieldOffset` */
  function FieldOffset(data: Str, off: nat, id: nat): (fo: int)
    requires TableAt(data, off) && id % 2 == 0
    ensures 0 <= fo < 0x1_0000
  {
    Pow256Values();
    var vt := VTableOf(data, off);
    if id < ReadAt(data, vt, 2) then ReadAt(data, vt - id, 2) else 0
  }

  /** `Table::GetField` for a scalar of `size` bytes. */
  function GetField(data: Str, off: nat, id: nat, size: nat, default: int): int
    requires TableAt(data, off) && id % 2 == 0
    requires FieldOffset(data, off, id) != 0 ==> InUse(data, off - FieldOffset(data, off, id), size)
  {
    var fo := FieldOffset(data, off, id);
    if fo != 0 then ReadAt(data, off - fo, size) else default
  }

  // ---- What is stored where ----

  /** The 32-bit relative offset at `pos` leads to `obj`. */
  ghost predicate RefAt(data: Str, pos: int, obj: Obj)
    decreases obj, 1
  {
    InUse(data, pos, 4) && pos % 4 == 0
    && 0 < ReadAt(data, pos, 4) < 0x8000_0000
    && ObjAt(data, pos - ReadAt(data, pos, 4), obj)
  }

  ghost predicate ObjAt(data: Str, off: int, obj: Obj)
    decreases obj, 0
  {
    InUse(data, off, 4) && off % 4 == 0 &&
    match obj
    case StringObj(s) =>
      ReadAt(data, off, 4) == |s| && InUse(data, off - 4, |s| + 1)
      && At(data, off - 4, |s|) == s && At(data, off - 4 - |s|, 1) == [0]
    case ScalarVector(size, elems) =>
      ReadAt(data, off, 4) == |elems| && ScalarsAt(data, off - 4, size, elems)
    case OffsetVector(objs) =>
      ReadAt(data, off, 4) == |objs| && RefsAt(data, off - 4, objs)
    case TableObj(fields) =>
      TableAt(data, off) && DistinctIds(fields) && FieldsAt(data, off, fields) && OthersAbsent(data, off, fields)
  }

  ghost predicate ScalarsAt(data: Str, pos: int, size: nat, elems: seq<nat>) {
    && IsWidth(size) && pos % size == 0 && InUse(data, pos, |elems| * size)
    && forall k :: 0 <= k < |elems| ==> ScalarAt(data, pos - k * size, size, elems[k])
  }

  predicate ScalarAt(data: Str, pos: int, size: nat, bits: nat) {
    InUse(data, pos, size) && IsWidth(size) && pos % size == 0 && ReadAt(data, pos, size) == bits
  }

  ghost predicate RefsAt(data: Str, pos: int, objs: seq<Obj>)
    decreases objs, 3
  {
    4 * |objs| <= pos && forall k :: 0 <= k < |objs| ==> RefAt(data, pos - 4 * k, objs[k])
  }

  ghost predicate FieldsAt(data: Str, off: int, fields: seq<Field>)
    requires TableAt(data, off)
    decreases fields, 3
  {
    forall i :: 0 <= i < |fields| ==> FieldAt(data, off, fields[i])
  }

  ghost predicate FieldAt(data: Str, off: int, f: Field)
    requires TableAt(data, off)
    decreases f, 2
  {
    FieldId(f.id) && FieldOffset(data, off, f.id) > 0 && ValueAt(data, off - FieldOffset(data, off, f.id), f)
  }

  ghost predicate ValueAt(data: Str, pos: int, f: Field)
    decreases f, 1
  {
    match f
    case ScalarField(_, size, bits) => ScalarAt(data, pos, size, bits)
    case RefField(_, obj) => RefAt(data, pos, obj)
  }

  ghost predicate OthersAbsent(data: Str, off: int, fields: seq<Field>)
    requires TableAt(data, off)
  {
    forall id: nat :: FieldId(id) && Locate(fields, id) == |fields| ==> FieldOffset(data, off, id) == 0
  }

  // ---- What is stored is inside the buffer ----

  lemma ObjInUse(data: Str, off: int, obj: Obj)
    requires ObjAt(data, off, obj)
    ensures InUse(data, off, 4) && off % 4 == 0
  {
  }

  lemma ValueInUse(data: Str, pos: int, f: Field)
    requires ValueAt(data, pos, f)
    ensures 0 <= pos <= |data|
  {
  }

  lemma RefInUse(data: Str, pos: int, obj: Obj)
    requires RefAt(data, pos, obj)
    ensures InUse(data, pos, 4)
  {
  }

  // ---- Growing keeps every object ----

  lemma VTableStable(data: Str, data': Str, vt: int)
    requires Grown(data, data') && VTableAt(data, vt)
    ensures VTableAt(data', vt) && VTableBytes(data', vt) == VTableBytes(data, vt)
  {
    AtStable(data, data', vt, 2);
    AtStable(data, data', vt, ReadAt(data, vt, 2));
  }

  lemma TableStable(data: Str, data': Str, off: int)
    requires Grown(data, data') && TableAt(data, off)
    ensures TableAt(data', off)
    ensures forall id :: id % 2 == 0 && id >= 0 ==> FieldOffset(data', off, id) == FieldOffset(data, off, id)
  {
    AtStable(data, data', off, 4);
    var vt := VTableOf(data, off);
    VTableStable(data, data', vt);
    AtStable(data, data', vt, 2);
    var size := ReadAt(data, vt, 2);
    forall id | id % 2 == 0 && 0 <= id
      ensures FieldOffset(data', off, id) == FieldOffset(data, off, id)
    {
      if id < size { AtStable(data, data', vt - id, 2); }
    }
  }

  lemma {:induction false} ObjStable(data: Str, data': Str, off: int, obj: Obj)
    requires Grown(data, data') && ObjAt(data, off, obj)
    ensures ObjAt(data', off, obj)
    decreases obj, 0
  {
    hide TableAt, FromLE, Pow256;
    AtStable(data, data', off, 4);
    match obj
    case StringObj(s) =>
      AtStable(data, data', off - 4, |s|);
      AtStable(data, data', off - 4 - |s|, 1);
    case ScalarVector(size, elems) =>
      ScalarsStable(data, data', off - 4, size, elems);
    case OffsetVector(objs) =>
      RefsStable(data, data', off - 4, objs);
    case TableObj(fields) =>
      TableStable(data, data', off);
      FieldsStable(data, data', off, fields);
  }

  lemma {:induction false} RefStable(data: Str, data': Str, pos: int, obj: Obj)
    requires Grown(data, data') && RefAt(data, pos, obj)
    ensures RefAt(data', pos, obj)
    decreases obj, 1
  {
    AtStable(data, data', pos, 4);
    ObjStable(data, data', pos - ReadAt(data, pos, 4), obj);
  }

  lemma ScalarsStable(data: Str, data': Str, pos: int, size: nat, elems: seq<nat>)
    requires Grown(data, data') && ScalarsAt(data, pos, size, elems)
    ensures ScalarsAt(data', pos, size, elems)
  {
    forall k | 0 <= k < |elems|
      ensures ScalarAt(data', pos - k * size, size, elems[k])
    {
      assert ScalarAt(data, pos - k * size, size, elems[k]);
      AtStable(data, data', pos - k * size, size);
    }
  }

  lemma {:induction false} RefsStable(data: Str, data': Str, pos: int, objs: seq<Obj>)
    requires Grown(data, data') && RefsAt(data, pos, objs)
    ensures RefsAt(data', pos, objs)
    decreases objs, 3
  {
    forall k | 0 <= k < |objs|
      ensures RefAt(data', pos - 4 * k, objs[k])
    {
      RefStable(data, data', pos - 4 * k, objs[k]);
    }
  }

  lemma {:induction false} ValueStable(data: Str, data': Str, pos: int, f: Field)
    requires Grown(data, data') && ValueAt(data, pos, f)
    ensures ValueAt(data', pos, f)
    decreases f, 1
  {
    match f
    case ScalarField(_, size, _) => AtStable(data, data', pos, size);
    case RefField(_, obj) => RefStable(data, data', pos, obj);
  }

  lemma {:induction false} FieldsStable(data: Str, data': Str, off: nat, fields: seq<Field>)
    requires Grown(data, data') && TableAt(data, off) && TableAt(data', off) && FieldsAt(data, off, fields)
    requires forall id :: id % 2 == 0 && id >= 0 ==> FieldOffset(data', off, id) == FieldOffset(data, off, id)
    ensures FieldsAt(data', off, fields)
    decreases fields, 3
  {
    hide TableAt;
    forall i | 0 <= i < |fields|
      ensures FieldAt(data', off, fields[i])
    {
      var f := fields[i];
      assert FieldAt(data, off, f);
      ValueStable(data, data', off - FieldOffset(data, off, f.id), f);
    }
  }

  // ---- Alignment ----

  /** Every scalar of the object is at most `m` bytes wide. */
  predicate Within(obj: Obj, m: nat) {
    4 <= m &&
    match obj
    case StringObj(_) => true
    case ScalarVector(size, _) => size <= m
    case OffsetVector(objs) => forall k :: 0 <= k < |objs| ==> Within(objs[k], m)
    case TableObj(fields) => forall i :: 0 <= i < |fields| ==> FieldWithin(fields[i], m)
  }

  predicate FieldWithin(f: Field, m: nat) {
    match f
    case ScalarField(_, size, _) => size <= m
    case RefField(_, obj) => Within(obj, m)
  }

  lemma {:induction false} WithinMore(obj: Obj, m: nat, m': nat)
    requires Within(obj, m) && m <= m'
    ensures Within(obj, m')
    decreases obj
  {
    match obj
    case StringObj(_) =>
    case ScalarVector(_, _) =>
    case OffsetVector(objs) =>
      forall k | 0 <= k < |objs|
        ensures Within(objs[k], m')
      {
        WithinMore(objs[k], m, m');
      }
    case TableObj(fields) =>
      forall i | 0 <= i < |fields|
        ensures FieldWithin(fields[i], m')
      {
        assert FieldWithin(fields[i], m);
        if fields[i].RefField? { WithinMore(fields[i].obj, m, m'); }
      }
  }
}
