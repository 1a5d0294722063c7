/**
 What a builder finished is accepted by the verifier and read back by the accessors.
 */
module FlatRoundTrip {
  import opened Bytes
  import opened Options
  import opened FlatFormat
  import opened FlatWriter
  import opened FlatSchema
  import opened FlatVerifier
  import opened FlatReader
  import opened FlatSoundness
  import opened FlatBuilder
  import opened FlatAlignment

  /** What a reader with this schema sees: the schema's fields, in its order. */
  function Project(schema: Schema, t: nat, obj: Obj): (r: Obj)
    requires Conforms(schema, t, obj)
    decreases obj, 1, 0
  {
    TableObj(ProjectFields(schema, obj.fields, schema[t], |schema[t]|))
  }

  function ProjectFields(schema: Schema, fields: seq<Field>, defs: seq<FieldDef>, n: nat): (r: seq<Field>)
    requires n <= |defs| && forall i :: 0 <= i < n ==> FieldConforms(schema, fields, defs[i])
    decreases fields, 1, n
  {
    if n == 0 then []
    else ProjectFields(schema, fields, defs, n - 1) + ProjectField(schema, fields, defs[n - 1])
  }

  function ProjectField(schema: Schema, fields: seq<Field>, f: FieldDef): (r: seq<Field>)
    requires FieldConforms(schema, fields, f)
    decreases fields, 0, 0
  {
    var k := Locate(fields, f.id);
    if k == |fields| then [] else [ProjectValue(schema, f.kind, fields[k])]
  }

  function ProjectValue(schema: Schema, k: Kind, value: Field): (r: Field)
    requires ValueConforms(schema, k, value)
    decreases value, 3, 0
  {
    match value
    case ScalarField(_, _, _) => value
    case RefField(id, obj) => RefField(id, ProjectTarget(schema, k, obj))
  }

  function ProjectTarget(schema: Schema, k: Kind, obj: Obj): (r: Obj)
    requires TargetConforms(schema, k, obj)
    decreases obj, 2, 0
  {
    match k
    case TableKind(t) => Project(schema, t, obj)
    case TableVectorKind(t) => OffsetVector(ProjectAll(schema, t, obj.objs, |obj.objs|))
    case _ => obj
  }

  function ProjectAll(schema: Schema, t: nat, objs: seq<Obj>, n: nat): (r: seq<Obj>)
    requires n <= |objs| && forall i :: 0 <= i < n ==> Conforms(schema, t, objs[i])
    ensures |r| == n
    decreases objs, 1, n
  {
    if n == 0 then [] else ProjectAll(schema, t, objs, n - 1) + [Project(schema, t, objs[n - 1])]
  }

  /** How deep tables nest in an object, and how many the verifier will visit. */
  function ObjLoad(schema: Schema, t: nat, obj: Obj): Load
    requires Conforms(schema, t, obj)
    decreases obj, 1, 0
  {
    var inner := ObjFieldsLoad(schema, obj.fields, schema[t], |schema[t]|);
    Load(inner.height + 1, inner.visits + 1)
  }

  function ObjFieldsLoad(schema: Schema, fields: seq<Field>, defs: seq<FieldDef>, n: nat): Load
    requires n <= |defs| && forall i :: 0 <= i < n ==> FieldConforms(schema, fields, defs[i])
    decreases fields, 1, n
  {
    if n == 0 then NO_LOAD
    else Beside(ObjFieldsLoad(schema, fields, defs, n - 1), ObjFieldLoad(schema, fields, defs[n - 1]))
  }

  function ObjFieldLoad(schema: Schema, fields: seq<Field>, f: FieldDef): Load
    requires FieldConforms(schema, fields, f)
    decreases fields, 0, 0
  {
    var k := Locate(fields, f.id);
    if k == |fields| then NO_LOAD else ValueLoad(schema, f.kind, fields[k])
  }

  function ValueLoad(schema: Schema, k: Kind, value: Field): Load
    requires ValueConforms(schema, k, value)
    decreases value, 3, 0
  {
    if value.ScalarField? then NO_LOAD else ObjTargetLoad(schema, k, value.obj)
  }

  function ObjTargetLoad(schema: Schema, k: Kind, obj: Obj): Load
    requires TargetConforms(schema, k, obj)
    decreases obj, 2, 0
  {
    match k
    case TableKind(t) => ObjLoad(schema, t, obj)
    case TableVectorKind(t) => ObjElemsLoad(schema, t, obj.objs, |obj.objs|)
    case _ => NO_LOAD
  }

  function ObjElemsLoad(schema: Schema, t: nat, objs: seq<Obj>, n: nat): Load
    requires n <= |objs| && forall i :: 0 <= i < n ==> Conforms(schema, t, objs[i])
    decreases objs, 1, n
  {
    if n == 0 then NO_LOAD
    else Beside(ObjElemsLoad(schema, t, objs, n - 1), ObjLoad(schema, t, objs[n - 1]))
  }

  /** A table that leads to no other table is one level deep and one visit. */
  lemma LeafLoad(schema: Schema, t: nat, obj: Obj)
    requires Conforms(schema, t, obj)
    requires forall i :: 0 <= i < |schema[t]| ==> !schema[t][i].kind.TableKind? && !schema[t][i].kind.TableVectorKind?
    ensures ObjLoad(schema, t, obj) == Load(1, 1)
  {
    hide FieldConforms, ObjFieldsLoad;
    LeafFieldsLoad(schema, obj.fields, schema[t], |schema[t]|);
  }

  lemma {:induction false} LeafFieldsLoad(schema: Schema, fields: seq<Field>, defs: seq<FieldDef>, n: nat)
    requires n <= |defs| && forall i :: 0 <= i < n ==> FieldConforms(schema, fields, defs[i])
    requires forall i :: 0 <= i < n ==> !defs[i].kind.TableKind? && !defs[i].kind.TableVectorKind?
    ensures ObjFieldsLoad(schema, fields, defs, n) == Load(0, 0)
  {
    hide FieldConforms, ObjFieldLoad;
    if n > 0 {
      LeafFieldsLoad(schema, fields, defs, n - 1);
      LeafFieldLoad(schema, fields, defs[n - 1]);
    }
  }

  lemma LeafFieldLoad(schema: Schema, fields: seq<Field>, f: FieldDef)
    requires FieldConforms(schema, fields, f) && !f.kind.TableKind? && !f.kind.TableVectorKind?
    ensures ObjFieldLoad(schema, fields, f) == Load(0, 0)
  {
    hide Conforms, ObjLoad, Locate;
    var k := Locate(fields, f.id);
    if k < |fields| {
      assert ValueConforms(schema, f.kind, fields[k]);
      assert ObjFieldLoad(schema, fields, f) == ValueLoad(schema, f.kind, fields[k]);
      if fields[k].RefField? { NoTableNoLoad(schema, f.kind, fields[k].obj); }
    }
  }

  lemma NoTableNoLoad(schema: Schema, k: Kind, obj: Obj)
    requires TargetConforms(schema, k, obj) && !k.TableKind? && !k.TableVectorKind?
    ensures ObjTargetLoad(schema, k, obj) == Load(0, 0)
  {
  }

  /** A table in a field makes its parent one level deeper and one visit more than itself, at least. */
  lemma ChildAdds(schema: Schema, t: nat, obj: Obj, i: nat, t': nat)
    requires Conforms(schema, t, obj) && i < |schema[t]| && schema[t][i].kind == TableKind(t')
    requires Locate(obj.fields, schema[t][i].id) < |obj.fields|
    ensures var f := obj.fields[Locate(obj.fields, schema[t][i].id)];
            && f.RefField? && Conforms(schema, t', f.obj)
            && ObjLoad(schema, t, obj).height > ObjLoad(schema, t', f.obj).height
            && ObjLoad(schema, t, obj).visits > ObjLoad(schema, t', f.obj).visits
  {
    hide FieldConforms, ObjFieldsLoad, ObjFieldLoad;
    assert FieldConforms(schema, obj.fields, schema[t][i]);
    FieldsAddUp(schema, obj.fields, schema[t], i, |schema[t]|);
    TableFieldLoad(schema, obj.fields, schema[t][i], t');
  }

  lemma TableFieldLoad(schema: Schema, fields: seq<Field>, f: FieldDef, t': nat)
    requires FieldConforms(schema, fields, f) && f.kind == TableKind(t') && Locate(fields, f.id) < |fields|
    ensures var g := fields[Locate(fields, f.id)];
            g.RefField? && Conforms(schema, t', g.obj) && ObjFieldLoad(schema, fields, f) == ObjLoad(schema, t', g.obj)
  {
    hide Locate, Conforms, ObjLoad;
    var g := fields[Locate(fields, f.id)];
    assert ValueConforms(schema, f.kind, g);
    assert TargetConforms(schema, f.kind, g.obj);
    assert ObjFieldLoad(schema, fields, f) == ValueLoad(schema, f.kind, g);
    assert ObjTargetLoad(schema, f.kind, g.obj) == ObjLoad(schema, t', g.obj);
  }

  lemma {:induction false} FieldsAddUp(schema: Schema, fields: seq<Field>, defs: seq<FieldDef>, i: nat, n: nat)
    requires i < n <= |defs| && forall j :: 0 <= j < n ==> FieldConforms(schema, fields, defs[j])
    ensures ObjFieldsLoad(schema, fields, defs, n).height >= ObjFieldLoad(schema, fields, defs[i]).height
    ensures ObjFieldsLoad(schema, fields, defs, n).visits >= ObjFieldLoad(schema, fields, defs[i]).visits
  {
    hide FieldConforms, ObjFieldLoad;
    if i < n - 1 { FieldsAddUp(schema, fields, defs, i, n - 1); }
  }

  // ---- From offsets to addresses ----

  /** `buf` is the finished form of `data`: a header in front, and a size that keeps 4-byte alignment. */
  predicate Final(data: Str, buf: Str) {
    Grown(data, buf) && |data| + 4 <= |buf| < MAX_BUFFER_SIZE && |buf| % 4 == 0
  }

  lemma Address(data: Str, buf: Str, off: nat, n: nat)
    requires Final(data, buf) && InUse(data, off, n) && n > 0
    ensures InRange(buf, |buf| - off, n)
    ensures ReadU(buf, |buf| - off, n) == ReadAt(data, off, n)
    ensures buf[|buf| - off..|buf| - off + n] == At(data, off, n)
  {
    AtStable(data, buf, off, n);
  }

  lemma VTableAddrStored(data: Str, buf: Str, off: nat)
    requires Final(data, buf) && TableAt(data, off)
    ensures InRange(buf, |buf| - off, 4)
    ensures VTableAddr(buf, |buf| - off) == |buf| - VTableOf(data, off)
  {
    hide ReadU, ReadAt, Grown;
    Address(data, buf, off, 4);
    assert ReadI(buf, |buf| - off, 4) == ToSigned(ReadAt(data, off, 4), 4);
    ModIdentity(|buf| - VTableOf(data, off));
  }

  lemma VTableStored(data: Str, buf: Str, off: nat)
    requires Final(data, buf) && TableAt(data, off)
    ensures GoodStart(buf, |buf| - off)
  {
    hide ReadU, ReadAt, Final, VTableAddr, VTableOf, TableAt;
    VTableParts(data, off);
    VTableAddrStored(data, buf, off);
    GrownLonger(data, buf);
    var vt := VTableOf(data, off);
    Address(data, buf, vt, 2);
    Address(data, buf, vt, ReadAt(data, vt, 2));
    EvenAddress(|buf|, vt);
    DifferenceDivides(|buf|, off, 4);
  }

  lemma VTableParts(data: Str, off: int)
    requires TableAt(data, off)
    ensures InUse(data, off, 4) && off % 4 == 0
    ensures var vt := VTableOf(data, off);
            InUse(data, vt, 2) && vt % 2 == 0 && ReadAt(data, vt, 2) % 2 == 0 && 4 <= ReadAt(data, vt, 2) <= vt
  {
  }

  lemma TableStartStored(data: Str, buf: Str, off: nat)
    requires Final(data, buf) && TableAt(data, off)
    ensures GoodStart(buf, |buf| - off)
    ensures forall id: nat :: FieldId(id) ==> FieldOffsetAt(buf, |buf| - off, id) == FieldOffset(data, off, id)
  {
    hide ReadU, ReadAt, Grown, GoodStart, VTableAddr;
    VTableStored(data, buf, off);
    VTableAddrStored(data, buf, off);
    var vt := VTableOf(data, off);
    Address(data, buf, vt, 2);
    var size := ReadAt(data, vt, 2);
    forall id: nat | FieldId(id)
      ensures FieldOffsetAt(buf, |buf| - off, id) == FieldOffset(data, off, id)
    {
      if id < size {
        assert InUse(data, vt - id, 2);
        Address(data, buf, vt - id, 2);
      }
    }
  }

  lemma ModIdentity(x: int)
    requires 0 <= x < TWO_64
    ensures x % TWO_64 == x
  {
  }

  lemma EvenAddress(n: nat, vt: nat)
    requires n % 4 == 0 && vt % 2 == 0
    ensures (n - vt) % 2 == 0
  {
    assert n == 4 * (n / 4) && vt == 2 * (vt / 2);
    assert n - vt == 2 * (2 * (n / 4) - vt / 2);
  }

  lemma RefStored(data: Str, buf: Str, p: nat, obj: Obj)
    requires Final(data, buf) && RefAt(data, p, obj)
    ensures GoodRef(buf, |buf| - p)
    ensures Follow(buf, |buf| - p) == |buf| - (p - ReadAt(data, p, 4)) && ObjAt(data, p - ReadAt(data, p, 4), obj)
  {
    hide ObjAt, ReadAt, ReadU, Grown;
    Address(data, buf, p, 4);
    ObjInUse(data, p - ReadAt(data, p, 4), obj);
  }

  lemma StringStored(data: Str, buf: Str, off: nat, s: Str)
    requires Final(data, buf) && ObjAt(data, off, StringObj(s))
    ensures GoodString(buf, |buf| - off) && UnpackString(buf, |buf| - off) == Some(StringObj(s))
  {
    hide ReadU, Final, ObjAt, At;
    StringBytes(data, buf, off, s);
  }

  lemma StringBytes(data: Str, buf: Str, off: nat, s: Str)
    requires Final(data, buf) && ObjAt(data, off, StringObj(s))
    ensures var v := |buf| - off;
            && v >= 0 && v % 4 == 0 && |s| + 5 < |buf| < MAX_BUFFER_SIZE && v + |s| + 5 <= |buf|
            && ReadU(buf, v, 4) == |s| && buf[v + 4..v + 4 + |s|] == s && buf[v + 4 + |s|] == 0
  {
    hide ReadAt, ReadU, Final, At, ObjAt;
    GrownLonger(data, buf);
    StringParts(data, off, s);
    Address(data, buf, off, 4);
    DifferenceDivides(|buf|, off, 4);
    if s != [] { Address(data, buf, off - 4, |s|); }
    Address(data, buf, off - 4 - |s|, 1);
    var v := |buf| - off;
    assert buf[v + 4..v + 4 + |s|] == s;
    assert buf[v + 4 + |s|..v + 4 + |s| + 1] == [0];
    assert buf[v + 4 + |s|] == buf[v + 4 + |s|..v + 4 + |s| + 1][0];
  }

  lemma StringParts(data: Str, off: int, s: Str)
    requires ObjAt(data, off, StringObj(s))
    ensures InUse(data, off, 4) && off % 4 == 0 && ReadAt(data, off, 4) == |s|
    ensures InUse(data, off - 4, |s|) && At(data, off - 4, |s|) == s
    ensures InUse(data, off - 4 - |s|, 1) && At(data, off - 4 - |s|, 1) == [0]
  {
  }

  lemma ScalarVectorStored(data: Str, buf: Str, off: nat, size: nat, elems: seq<nat>)
    requires Final(data, buf) && ObjAt(data, off, ScalarVector(size, elems))
    ensures GoodVector(buf, |buf| - off, size) && ReadU(buf, |buf| - off, 4) == |elems|
    ensures Readable(buf, |buf| - off + 4, size * |elems|) && ScalarsFrom(buf, |buf| - off + 4, size, |elems|) == elems
  {
    hide ReadAt, ReadU, Final, ScalarAt, ScalarsFrom, ObjAt, IsWidth;
    GrownLonger(data, buf);
    ScalarParts(data, off, size, elems);
    Address(data, buf, off, 4);
    DifferenceDivides(|buf|, off, 4);
    LengthBelowLimit(|elems|, size);
    ScalarsStored(data, buf, off - 4, size, elems, |elems|);
    assert elems[..|elems|] == elems;
    assert InRangeAligned(buf, |buf| - off, 4);
  }

  lemma ScalarParts(data: Str, off: int, size: nat, elems: seq<nat>)
    requires ObjAt(data, off, ScalarVector(size, elems))
    ensures InUse(data, off, 4) && off % 4 == 0 && ReadAt(data, off, 4) == |elems|
    ensures ScalarsAt(data, off - 4, size, elems) && IsWidth(size) && size > 0
    ensures 4 + |elems| * size <= off <= |data|
  {
    hide ReadAt, ScalarAt;
  }

  lemma LengthBelowLimit(n: nat, size: nat)
    requires IsWidth(size) && 4 + n * size < MAX_BUFFER_SIZE - 4
    ensures n < MAX_BUFFER_SIZE / size && n * size == size * n
  {
  }

  lemma {:induction false} ScalarsStored(data: Str, buf: Str, pos: nat, size: nat, elems: seq<nat>, n: nat)
    requires Final(data, buf) && ScalarsAt(data, pos, size, elems) && n <= |elems|
    requires Readable(buf, |buf| - pos, size * n)
    ensures ScalarsFrom(buf, |buf| - pos, size, n) == elems[..n]
  {
    hide ReadAt, ReadU, Final;
    if n > 0 {
      assert size * n == size * (n - 1) + size && (n - 1) * size == size * (n - 1);
      ScalarsStored(data, buf, pos, size, elems, n - 1);
      assert ScalarAt(data, pos - (n - 1) * size, size, elems[n - 1]);
      Address(data, buf, pos - (n - 1) * size, size);
    }
  }

  function Predecessor(n: nat): nat { if n > 0 then n - 1 else 0 }

  // ---- Acceptance and reading back ----

  /** A stored object is a good table, costs what the object costs, and reads back as its projection. */
  lemma {:induction false} TableStored(schema: Schema, t: nat, data: Str, buf: Str, off: nat, obj: Obj, fuel: nat)
    requires Final(data, buf) && SchemaOk(schema) && Conforms(schema, t, obj) && ObjAt(data, off, obj)
    ensures GoodTable(schema, t, buf, |buf| - off)
    ensures TableLoad(schema, t, buf, |buf| - off) == ObjLoad(schema, t, obj)
    ensures fuel >= ObjLoad(schema, t, obj).height ==>
              Unpack(schema, t, buf, |buf| - off, fuel) == Some(Project(schema, t, obj))
    decreases obj, 1, 0
  {
    hide TableAt, GoodStart, GoodField, FieldConforms, FieldLoad, ObjFieldLoad, Final;
    assert DefsOk(schema, schema[t]);
    GrownLonger(data, buf);
    TableStartStored(data, buf, off);
    FieldsStored(schema, data, buf, off, obj.fields, schema[t], |schema[t]|, fuel);
  }

  lemma {:induction false} FieldsStored(schema: Schema, data: Str, buf: Str, off: nat, fields: seq<Field>,
                                        defs: seq<FieldDef>, n: nat, fuel: nat)
    requires Final(data, buf) && SchemaOk(schema) && n <= |defs|
    requires TableAt(data, off) && FieldsAt(data, off, fields) && OthersAbsent(data, off, fields)
    requires off <= |buf| && GoodStart(buf, |buf| - off)
    requires forall i :: 0 <= i < n ==> DefOk(schema, defs[i]) && FieldConforms(schema, fields, defs[i])
    ensures forall i :: 0 <= i < n ==> GoodField(schema, buf, |buf| - off, defs[i])
    ensures FieldsLoad(schema, buf, |buf| - off, defs, n) == ObjFieldsLoad(schema, fields, defs, n)
    ensures fuel > ObjFieldsLoad(schema, fields, defs, n).height ==>
              UnpackFields(schema, buf, |buf| - off, defs, n, fuel) == Some(ProjectFields(schema, fields, defs, n))
    decreases fields, 1, n
  {
    hide TableAt, FieldsAt, OthersAbsent, GoodStart, GoodField, FieldConforms, FieldLoad, ObjFieldLoad, Final;
    if n > 0 {
      FieldsStored(schema, data, buf, off, fields, defs, n - 1, fuel);
      FieldStored(schema, data, buf, off, fields, defs[n - 1], fuel);
    }
  }

  lemma {:induction false} FieldStored(schema: Schema, data: Str, buf: Str, off: nat, fields: seq<Field>, f: FieldDef,
                                       fuel: nat)
    requires Final(data, buf) && SchemaOk(schema) && DefOk(schema, f) && FieldConforms(schema, fields, f)
    requires TableAt(data, off) && FieldsAt(data, off, fields) && OthersAbsent(data, off, fields)
    requires off <= |buf| && GoodStart(buf, |buf| - off)
    ensures GoodField(schema, buf, |buf| - off, f)
    ensures FieldLoad(schema, buf, |buf| - off, f) == ObjFieldLoad(schema, fields, f)
    ensures fuel > ObjFieldLoad(schema, fields, f).height ==>
              UnpackField(schema, buf, |buf| - off, f, fuel) == Some(ProjectField(schema, fields, f))
    decreases fields, 0, 0
  {
    hide TableAt, GoodStart, Grown, ReadU, ReadAt, ObjAt, RefAt;
    TableStartStored(data, buf, off);
    GoodStartReads(buf, |buf| - off, f.id);
    var k := Locate(fields, f.id);
    if k < |fields| {
      assert FieldAt(data, off, fields[k]);
      ValueInUse(data, off - FieldOffset(data, off, f.id), fields[k]);
      ValueStored(schema, data, buf, off - FieldOffset(data, off, f.id), f.kind, fields[k], fuel);
    }
  }

  lemma {:induction false} ValueStored(schema: Schema, data: Str, buf: Str, pos: nat, k: Kind, value: Field, fuel: nat)
    requires Final(data, buf) && SchemaOk(schema) && KindOk(schema, k) && ValueConforms(schema, k, value)
    requires ValueAt(data, pos, value)
    ensures value.ScalarField? ==>
              InRange(buf, |buf| - pos, value.size) && ReadU(buf, |buf| - pos, value.size) == value.bits
    ensures value.RefField? ==>
              && GoodRef(buf, |buf| - pos) && GoodTarget(schema, buf, Follow(buf, |buf| - pos), k)
              && TargetLoad(schema, buf, Follow(buf, |buf| - pos), k) == ObjTargetLoad(schema, k, value.obj)
              && (fuel > ObjTargetLoad(schema, k, value.obj).height ==>
                    UnpackTarget(schema, buf, Follow(buf, |buf| - pos), k, fuel)
                    == Some(ProjectTarget(schema, k, value.obj)))
    decreases value, 3, 0
  {
    hide Grown, ReadU, ReadAt, ObjAt, RefAt, GoodTarget, Final, TargetConforms, TargetLoad, ObjTargetLoad;
    match value
    case ScalarField(_, size, bits) => Address(data, buf, pos, size);
    case RefField(_, obj) =>
      RefStored(data, buf, pos, obj);
      RefInUse(data, pos, obj);
      ObjInUse(data, pos - ReadAt(data, pos, 4), obj);
      TargetStored(schema, data, buf, pos - ReadAt(data, pos, 4), k, obj, fuel);
  }

  lemma {:induction false} TargetStored(schema: Schema, data: Str, buf: Str, off: nat, k: Kind, obj: Obj, fuel: nat)
    requires Final(data, buf) && SchemaOk(schema) && KindOk(schema, k) && TargetConforms(schema, k, obj)
    requires ObjAt(data, off, obj)
    ensures GoodTarget(schema, buf, |buf| - off, k)
    ensures TargetLoad(schema, buf, |buf| - off, k) == ObjTargetLoad(schema, k, obj)
    ensures fuel > ObjTargetLoad(schema, k, obj).height ==>
              UnpackTarget(schema, buf, |buf| - off, k, fuel) == Some(ProjectTarget(schema, k, obj))
    decreases obj, 2, 0
  {
    hide Grown, ReadU, ReadAt, RefAt, GoodTable, TableAt, Conforms, Final, GoodString, GoodVector, TableLoad, ObjLoad,
      UnpackString, Unpack, Project, ScalarsFrom;
    ObjInUse(data, off, obj);
    GrownLonger(data, buf);
    match k
    case StringKind => StringStored(data, buf, off, obj.s);
    case TableKind(t) => TableStored(schema, t, data, buf, off, obj, Predecessor(fuel));
    case ScalarVectorKind(size) => ScalarVectorStored(data, buf, off, size, obj.elems);
    case StringVectorKind =>
      VectorStored(data, buf, off, obj.objs);
      StringElemsStored(schema, data, buf, off, |buf| - off, obj.objs, |obj.objs|, fuel);
      assert obj.objs[..|obj.objs|] == obj.objs;
    case TableVectorKind(t) =>
      VectorStored(data, buf, off, obj.objs);
      TableElemsStored(schema, data, buf, off, |buf| - off, t, obj.objs, |obj.objs|, fuel);
  }

  lemma GrownLonger(data: Str, buf: Str)
    requires Final(data, buf)
    ensures |data| + 4 <= |buf| < MAX_BUFFER_SIZE && |buf| % 4 == 0
  {
  }

  lemma VectorStored(data: Str, buf: Str, off: nat, objs: seq<Obj>)
    requires Final(data, buf) && ObjAt(data, off, OffsetVector(objs))
    ensures GoodVector(buf, |buf| - off, 4) && ReadU(buf, |buf| - off, 4) == |objs| && RefsAt(data, off - 4, objs)
  {
    hide ReadAt, ReadU, Final, RefAt, ObjAt;
    GrownLonger(data, buf);
    VectorParts(data, off, objs);
    Address(data, buf, off, 4);
    DifferenceDivides(|buf|, off, 4);
  }

  lemma VectorParts(data: Str, off: int, objs: seq<Obj>)
    requires ObjAt(data, off, OffsetVector(objs))
    ensures InUse(data, off, 4) && off % 4 == 0 && ReadAt(data, off, 4) == |objs|
    ensures RefsAt(data, off - 4, objs) && 4 + 4 * |objs| <= off
  {
    hide ReadAt, RefAt;
  }

  lemma ElemStored(data: Str, buf: Str, off: nat, v: nat, objs: seq<Obj>, i: nat)
    requires Final(data, buf) && v + off == |buf| && RefsAt(data, off - 4, objs) && i < |objs| && 4 <= off <= |data|
    ensures v + 8 + 4 * i <= |buf| && Elem(buf, v, i) <= |buf|
    ensures ObjAt(data, |buf| - Elem(buf, v, i), objs[i])
    ensures PointerAt(buf, v + 4 + 4 * i) == Some(Elem(buf, v, i))
  {
    hide Grown, ReadAt, ReadU, ObjAt, RefAt;
    assert RefAt(data, off - 4 - 4 * i, objs[i]);
    RefInUse(data, off - 4 - 4 * i, objs[i]);
    RefStored(data, buf, off - 4 - 4 * i, objs[i]);
    ObjInUse(data, |buf| - Elem(buf, v, i), objs[i]);
  }

  lemma {:induction false} StringElemsStored(schema: Schema, data: Str, buf: Str, off: nat, v: nat, objs: seq<Obj>,
                                             n: nat, fuel: nat)
    requires Final(data, buf) && v + off == |buf| && 4 <= off <= |data| && RefsAt(data, off - 4, objs) && n <= |objs|
    requires GoodVector(buf, v, 4) && ReadU(buf, v, 4) == |objs|
    requires forall i :: 0 <= i < |objs| ==> objs[i].StringObj?
    ensures forall i :: 0 <= i < n ==> GoodString(buf, Elem(buf, v, i))
    ensures fuel > 0 ==> UnpackElems(schema, buf, v, StringVectorKind, n, fuel) == Some(objs[..n])
    decreases n
  {
    hide Final, ReadU, RefsAt, GoodString, UnpackString, ObjAt, Elem;
    if n > 0 {
      StringElemsStored(schema, data, buf, off, v, objs, n - 1, fuel);
      ElemStored(data, buf, off, v, objs, n - 1);
      StringStored(data, buf, |buf| - Elem(buf, v, n - 1), objs[n - 1].s);
      assert objs[..n] == objs[..n - 1] + [objs[n - 1]];
    }
  }

  lemma {:induction false} TableElemsStored(schema: Schema, data: Str, buf: Str, off: nat, v: nat, t: nat,
                                            objs: seq<Obj>, n: nat, fuel: nat)
    requires Final(data, buf) && v + off == |buf| && SchemaOk(schema)
    requires 4 <= off <= |data| && RefsAt(data, off - 4, objs) && n <= |objs|
    requires GoodVector(buf, v, 4) && ReadU(buf, v, 4) == |objs|
    requires forall i :: 0 <= i < n ==> Conforms(schema, t, objs[i])
    ensures forall i :: 0 <= i < n ==> GoodTable(schema, t, buf, Elem(buf, v, i))
    ensures ElemsLoad(schema, buf, v, t, n) == ObjElemsLoad(schema, t, objs, n)
    ensures fuel > ObjElemsLoad(schema, t, objs, n).height ==>
              UnpackElems(schema, buf, v, TableVectorKind(t), n, fuel)
              == Some(ProjectAll(schema, t, objs, n))
    decreases objs, 1, n
  {
    hide Final, ReadU, RefsAt, GoodTable, Unpack, ObjAt, Elem, Conforms, TableLoad, ObjLoad, Project;
    if n > 0 {
      TableElemsStored(schema, data, buf, off, v, t, objs, n - 1, fuel);
      ElemStored(data, buf, off, v, objs, n - 1);
      TableStored(schema, t, data, buf, |buf| - Elem(buf, v, n - 1), objs[n - 1], Predecessor(fuel));
    }
  }

  // ---- The whole way round ----

  /** The root of a finished buffer is where `VerifyBuffer` looks for it. */
  lemma RootStored(schema: Schema, t: nat, data: Str, buf: Str, start: nat, fileId: Option<Str>, root: nat, obj: Obj,
                   fuel: nat)
    requires Final(data, buf) && SchemaOk(schema) && Conforms(schema, t, obj) && ObjAt(data, root, obj)
    requires RootAt(buf, start, fileId, root, obj) && root <= |data|
    ensures GoodBuffer(schema, t, buf, start)
    ensures TableLoad(schema, t, buf, Follow(buf, start)) == ObjLoad(schema, t, obj)
    ensures fuel >= ObjLoad(schema, t, obj).height ==>
              Unpack(schema, t, buf, Follow(buf, start), fuel) == Some(Project(schema, t, obj))
  {
    hide ObjAt, GoodTable, Unpack, Project, TableLoad, ObjLoad, Conforms, SchemaOk;
    RefInUse(buf, |buf| - start, obj);
    TableStored(schema, t, data, buf, root, obj, fuel);
    HeaderAddress(buf, start, obj);
    assert Follow(buf, start) == |buf| - root;
  }

  lemma HeaderAddress(buf: Str, start: nat, obj: Obj)
    requires start <= |buf| && |buf| % 4 == 0 && RefAt(buf, |buf| - start, obj)
    ensures start + 4 <= |buf| && start % 4 == 0 && ReadU(buf, start, 4) == ReadAt(buf, |buf| - start, 4)
    ensures 0 < ReadU(buf, start, 4) < 0x8000_0000 && start + ReadU(buf, start, 4) + 4 <= |buf|
  {
    hide ObjAt, FromLE;
    ObjInUse(buf, |buf| - start - ReadAt(buf, |buf| - start, 4), obj);
    assert At(buf, |buf| - start, 4) == buf[start..start + 4];
  }

  /**
   Completeness: a finished buffer is accepted exactly when its tables stay within the verifier's limits and
   the identifier asked for, if any, is the one written. It reads back as what was stored, and has every
   scalar at an aligned address.
   */
  method FinishThenVerify(b: FlatBufferBuilder, root: nat, fileId: Option<Str>, sizePrefix: bool, schema: Schema,
                          t: nat, expected: Option<Str>, maxDepth: nat, maxTables: nat)
    returns (ok: bool, r: Option<Obj>)
    requires b.Valid() && !b.nested && root in b.objs
    requires fileId.Some? ==> |fileId.value| == 4 && 0 !in fileId.value
    requires expected.Some? ==> |expected.value| == 4
    requires RefFits(BeforeRoot(b.data, fileId, sizePrefix, b.minalign))
    requires sizePrefix ==> |FinishBytes(b.data, root, fileId, sizePrefix, b.minalign)| < MAX_BUFFER_SIZE
    requires SchemaOk(schema) && t < |schema| && Conforms(schema, t, b.objs[root])
    requires maxDepth < 0xFFFF_FFFF && maxTables < 0xFFFF_FFFF
    modifies b`data, b`vtables, b`finished
    ensures b.finished && b.objs == old(b.objs)
    ensures var l := ObjLoad(schema, t, b.objs[root]);
            ok == (l.height <= maxDepth && l.visits <= maxTables
                   && GoodId(b.data, if sizePrefix then 4 else 0, expected))
    ensures fileId.Some? && expected.Some? ==>
              (GoodId(b.data, if sizePrefix then 4 else 0, expected) <==> fileId == expected)
    ensures ok ==> r == Some(Project(schema, t, b.objs[root]))
    ensures ObjAt(b.data, root, b.objs[root]) && AlignedAt(b.data, root, b.objs[root])
  {
    hide FlatBufferBuilder.Valid, ObjAt, GoodTable, Unpack, Project, TableLoad, ObjLoad, Conforms, SchemaOk, RootAt,
      FinishBytes, BeforeRoot, Within, AlignedAt;
    ghost var before, obj := b.data, b.objs[root];
    b.KnownObject(root);
    WithinAtLeast4(obj, b.minalign);
    b.Finish(root, fileId, sizePrefix);
    b.KnownObject(root);
    b.MinAlignIsWidth();
    ObjectAligned(b.data, root, obj, b.minalign);
    var start := if sizePrefix then 4 else 0;
    FinalSize(before, b.data, b.minalign);
    RootStored(schema, t, before, b.data, start, fileId, root, obj, maxDepth);
    if fileId.Some? && expected.Some? { IdStored(b.data, start, fileId.value, expected.value, root, obj); }
    var v := new Verifier(b.data, maxDepth, maxTables);
    if sizePrefix {
      PrefixStored(b.data);
      ok := v.VerifySizePrefixedBuffer(schema, t, expected);
    } else {
      ok := v.VerifyBuffer(schema, t, expected);
    }
    r := if ok then Unpack(schema, t, b.data, Follow(b.data, start), maxDepth) else None;
  }

  lemma IdStored(buf: Str, start: nat, fileId: Str, expected: Str, root: nat, obj: Obj)
    requires RootAt(buf, start, Some(fileId), root, obj) && |fileId| == |expected| == 4 && 0 !in fileId
    ensures GoodId(buf, start, Some(expected)) <==> fileId == expected
  {
    hide ObjAt, RefAt, ReadAt;
    assert At(buf, |buf| - start - 4, 4) == buf[start + 4..start + 8];
    SameIdIsEquality(fileId, expected);
  }

  lemma FinalSize(data: Str, buf: Str, m: nat)
    requires Grown(data, buf) && |data| + 4 <= |buf| < MAX_BUFFER_SIZE
    requires IsWidth(m) && 4 <= m && |buf| % m == 0
    ensures Final(data, buf)
  {
    Divides(|buf|, 4, m);
  }

  lemma PrefixStored(buf: Str)
    requires SizePrefixed(buf) && |buf| % 4 == 0 && |buf| > 4
    ensures GoodPrefix(buf)
  {
    assert At(buf, |buf|, 4) == buf[0..4];
  }
}
