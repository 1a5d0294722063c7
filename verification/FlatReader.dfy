/**
 The generated accessors, run over a buffer that nobody has checked: every single read is bounds-checked,
 and the whole traversal gives up at the first one outside the buffer, or at the first offset, length or
 vtable entry that is not on its boundary.
 */
module FlatReader {
  import opened Bytes
  import opened Options
  import opened FlatFormat
  import opened FlatSchema

  predicate Readable(buf: Str, pos: int, n: nat) {
    0 <= pos && pos + n <= |buf|
  }

  /** An offset, a length or a vtable entry. */
  predicate ReadableAligned(buf: Str, pos: int, n: nat) {
    n > 0 && Readable(buf, pos, n) && pos % n == 0
  }

  /** `GetOptionalFieldOffset`, through `GetVTable`. */
  function FieldOffsetOf(buf: Str, pos: nat, id: nat): Option<nat> {
    if !ReadableAligned(buf, pos, 4) then None
    else
      var vt := pos - ReadI(buf, pos, 4);
      if !ReadableAligned(buf, vt, 2) then None
      else if id >= ReadU(buf, vt, 2) then Some(0)
      else if !ReadableAligned(buf, vt + id, 2) then None
      else Some(ReadU(buf, vt + id, 2))
  }

  /** `GetPointer` at a field or vector element. */
  function PointerAt(buf: Str, pos: nat): Option<nat> {
    if ReadableAligned(buf, pos, 4) then Some(pos + ReadU(buf, pos, 4)) else None
  }

  /** Everything the accessors of table `t` lead to, as the table's fields in schema order. */
  function Unpack(schema: Schema, t: nat, buf: Str, pos: nat, fuel: nat): (r: Option<Obj>)
    decreases fuel, 4, 0
  {
    if fuel == 0 || t >= |schema| then None
    else
      match UnpackFields(schema, buf, pos, schema[t], |schema[t]|, fuel)
      case None => None
      case Some(fields) => Some(TableObj(fields))
  }

  function UnpackFields(schema: Schema, buf: Str, pos: nat, defs: seq<FieldDef>, n: nat, fuel: nat)
    : (r: Option<seq<Field>>)
    requires fuel > 0 && n <= |defs|
    decreases fuel, 3, n
  {
    if n == 0 then Some([])
    else
      match (UnpackFields(schema, buf, pos, defs, n - 1, fuel), UnpackField(schema, buf, pos, defs[n - 1], fuel))
      case (Some(fs), Some(f)) => Some(fs + f)
      case _ => None
  }

  /** No field, if absent; else the one field. */
  function UnpackField(schema: Schema, buf: Str, pos: nat, f: FieldDef, fuel: nat): (r: Option<seq<Field>>)
    requires fuel > 0
    decreases fuel, 2, 0
  {
    match FieldOffsetOf(buf, pos, f.id)
    case None => None
    case Some(fo) =>
      if fo == 0 then Some([])
      else if f.kind.ScalarKind? then
        if Readable(buf, pos + fo, f.kind.size)
        then Some([ScalarField(f.id, f.kind.size, ReadU(buf, pos + fo, f.kind.size))])
        else None
      else
        match PointerAt(buf, pos + fo)
        case None => None
        case Some(v) =>
          match UnpackTarget(schema, buf, v, f.kind, fuel)
          case None => None
          case Some(obj) => Some([RefField(f.id, obj)])
  }

  function UnpackTarget(schema: Schema, buf: Str, v: nat, k: Kind, fuel: nat): (r: Option<Obj>)
    requires fuel > 0
    decreases fuel, 1, 0
  {
    match k
    case ScalarKind(_) => None
    case StringKind => UnpackString(buf, v)
    case TableKind(t) => Unpack(schema, t, buf, v, fuel - 1)
    case ScalarVectorKind(size) =>
      if !ReadableAligned(buf, v, 4) || !Readable(buf, v + 4, size * ReadU(buf, v, 4)) then None
      else Some(ScalarVector(size, ScalarsFrom(buf, v + 4, size, ReadU(buf, v, 4))))
    case _ =>
      if !ReadableAligned(buf, v, 4) then None
      else
        match UnpackElems(schema, buf, v, k, ReadU(buf, v, 4), fuel)
        case None => None
        case Some(objs) => Some(OffsetVector(objs))
  }

  /** The bytes of a string, which `c_str` needs terminated. */
  function UnpackString(buf: Str, v: nat): Option<Obj> {
    if !ReadableAligned(buf, v, 4) then None
    else
      var n := ReadU(buf, v, 4);
      if Readable(buf, v + 4, n + 1) && buf[v + 4 + n] == 0 then Some(StringObj(buf[v + 4..v + 4 + n])) else None
  }

  function ScalarsFrom(buf: Str, pos: nat, size: nat, n: nat): (es: seq<nat>)
    requires Readable(buf, pos, size * n)
    ensures |es| == n
  {
    if n == 0 then []
    else
      OneLess(size, n);
      ScalarsFrom(buf, pos, size, n - 1) + [ReadU(buf, pos + size * (n - 1), size)]
  }

  lemma OneLess(size: nat, n: nat)
    requires n > 0
    ensures 0 <= size * (n - 1) && size * (n - 1) + size == size * n
  {
  }

  function UnpackElems(schema: Schema, buf: Str, v: nat, k: Kind, n: nat, fuel: nat): (r: Option<seq<Obj>>)
    requires fuel > 0 && (k.StringVectorKind? || k.TableVectorKind?)
    decreases fuel, 0, n
  {
    if n == 0 then Some([])
    else
      match (UnpackElems(schema, buf, v, k, n - 1, fuel), UnpackElem(schema, buf, v, k, n - 1, fuel))
      case (Some(objs), Some(obj)) => Some(objs + [obj])
      case _ => None
  }

  function UnpackElem(schema: Schema, buf: Str, v: nat, k: Kind, i: nat, fuel: nat): (r: Option<Obj>)
    requires fuel > 0 && (k.StringVectorKind? || k.TableVectorKind?)
    decreases fuel, 0, 0
  {
    match PointerAt(buf, v + 4 + 4 * i)
    case None => None
    case Some(e) => if k.StringVectorKind? then UnpackString(buf, e) else Unpack(schema, k.table, buf, e, fuel - 1)
  }

  // ---- A buffer spelled out ----

  lemma TwoBytes(buf: Str, pos: nat)
    requires pos + 2 <= |buf|
    ensures ReadU(buf, pos, 2) == buf[pos] as int + 0x100 * (buf[pos + 1] as int)
  {
    assert buf[pos..pos + 2] == [buf[pos], buf[pos + 1]];
    assert [buf[pos], buf[pos + 1]][1..] == [buf[pos + 1]];
    assert FromLE([buf[pos + 1]]) == buf[pos + 1];
  }

  lemma FourBytes(buf: Str, pos: nat)
    requires pos + 4 <= |buf| && buf[pos + 1] == buf[pos + 2] == buf[pos + 3] == 0
    ensures ReadU(buf, pos, 4) == ReadI(buf, pos, 4) == buf[pos]
  {
    Pow256Values();
    var s := buf[pos..pos + 4];
    assert s == [buf[pos], 0, 0, 0] && s[1..] == [0, 0, 0] && [0, 0, 0][1..] == [0, 0] && [0, 0][1..] == [0];
    assert FromLE([0]) == 0 && FromLE([0, 0]) == 0 && FromLE([0, 0, 0]) == 0;
  }

  const ONE_FIELD: Str := [12, 0, 0, 0, 0, 0, 6, 0, 8, 0, 4, 0, 6, 0, 0, 0, 7, 0, 0, 0]

  lemma OneFieldOffset()
    ensures PointerAt(ONE_FIELD, 0) == Some(12) && FieldOffsetOf(ONE_FIELD, 12, 4) == Some(4)
  {
    hide ReadU, ReadI;
    FourBytes(ONE_FIELD, 0);
    FourBytes(ONE_FIELD, 12);
    TwoBytes(ONE_FIELD, 6);
    TwoBytes(ONE_FIELD, 10);
    assert ReadU(ONE_FIELD, 6, 2) == 6 && ReadU(ONE_FIELD, 10, 2) == 4 && ReadI(ONE_FIELD, 12, 4) == 6;
  }

  /** A table with one 32-bit field, 7, behind its vtable of sizes 6 and 8 and field offset 4. */
  lemma OneField()
    ensures PointerAt(ONE_FIELD, 0) == Some(12)
    ensures Unpack([[FieldDef(4, ScalarKind(4), false)]], 0, ONE_FIELD, 12, 1) == Some(TableObj([ScalarField(4, 4, 7)]))
  {
    hide ReadU, ReadI, FromLE, FieldOffsetOf, PointerAt;
    var def := FieldDef(4, ScalarKind(4), false);
    OneFieldOffset();
    FourBytes(ONE_FIELD, 16);
    assert UnpackField([[def]], ONE_FIELD, 12, def, 1) == Some([ScalarField(4, 4, 7)]);
    assert UnpackFields([[def]], ONE_FIELD, 12, [def], 0, 1) == Some([]);
    assert UnpackFields([[def]], ONE_FIELD, 12, [def], 1, 1) == Some([ScalarField(4, 4, 7)]) by {
      assert [] + [ScalarField(4, 4, 7)] == [ScalarField(4, 4, 7)];
    }
    assert [[def]][0] == [def];
  }
}
