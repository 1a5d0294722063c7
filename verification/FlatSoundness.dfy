/**
 What the verifier accepts can be read: no accessor of the schema leaves the buffer, and the traversal
 ends within the accepted depth.
 */
module FlatSoundness {
  import opened Bytes
  import opened Options
  import opened FlatFormat
  import opened FlatSchema
  import opened FlatVerifier
  import opened FlatReader

  lemma GoodStartReads(buf: Str, pos: nat, id: nat)
    requires GoodStart(buf, pos) && FieldId(id) && |buf| < MAX_BUFFER_SIZE
    ensures FieldOffsetOf(buf, pos, id) == Some(FieldOffsetAt(buf, pos, id))
  {
    hide VTableAddr, ReadI, ReadU, FromLE;
    SignedVTableAddr(buf, pos);
    EvenBelow(id, ReadU(buf, VTableAddr(buf, pos), 2));
  }

  lemma SignedVTableAddr(buf: Str, pos: nat)
    requires GoodStart(buf, pos) && |buf| < MAX_BUFFER_SIZE
    ensures VTableAddr(buf, pos) == pos - ReadI(buf, pos, 4)
  {
    hide FromLE, ReadU;
    Pow256Values();
    var s := ReadI(buf, pos, 4);
    assert -0x8000_0000 <= s < 0x8000_0000;
    assert InRange(buf, VTableAddr(buf, pos), 2);
    SmallMod(pos - s);
  }

  lemma SmallMod(x: int)
    requires -0x1_0000_0000 < x < 0x1_0000_0000 && x % TWO_64 < 0x1_0000_0000
    ensures x % TWO_64 == x
  {
  }

  /** An accepted table can be read to the end, with as many levels of tables as the verifier counted. */
  lemma {:induction false} TableReads(schema: Schema, t: nat, buf: Str, pos: nat, fuel: nat)
    requires |buf| < MAX_BUFFER_SIZE && GoodTable(schema, t, buf, pos)
    requires fuel >= TableLoad(schema, t, buf, pos).height
    ensures Unpack(schema, t, buf, pos, fuel).Some?
    decreases Gap(buf, pos), 3, 0
  {
    hide GoodField, FieldLoad;
    FieldsRead(schema, buf, pos, schema[t], |schema[t]|, fuel);
  }

  lemma {:induction false} FieldsRead(schema: Schema, buf: Str, pos: nat, defs: seq<FieldDef>, n: nat, fuel: nat)
    requires |buf| < MAX_BUFFER_SIZE && GoodStart(buf, pos) && n <= |defs|
    requires forall i :: 0 <= i < n ==> GoodField(schema, buf, pos, defs[i])
    requires fuel > FieldsLoad(schema, buf, pos, defs, n).height
    ensures UnpackFields(schema, buf, pos, defs, n, fuel).Some?
    decreases Gap(buf, pos), 2, n
  {
    hide GoodField, GoodStart, FieldLoad;
    if n > 0 {
      FieldsRead(schema, buf, pos, defs, n - 1, fuel);
      FieldReadsOk(schema, buf, pos, defs[n - 1], fuel);
    }
  }

  lemma {:induction false} FieldReadsOk(schema: Schema, buf: Str, pos: nat, f: FieldDef, fuel: nat)
    requires |buf| < MAX_BUFFER_SIZE && GoodStart(buf, pos) && GoodField(schema, buf, pos, f)
    requires fuel > FieldLoad(schema, buf, pos, f).height
    ensures UnpackField(schema, buf, pos, f, fuel).Some?
    decreases Gap(buf, pos), 1, 0
  {
    hide GoodStart, GoodTarget, TargetLoad, UnpackTarget, FieldOffsetOf, FieldOffsetAt, FromLE;
    GoodStartReads(buf, pos, f.id);
    var fo := FieldOffsetAt(buf, pos, f.id);
    if !f.kind.ScalarKind? && fo != 0 {
      TargetReads(schema, buf, Follow(buf, pos + fo), f.kind, fuel);
    }
  }

  lemma {:induction false} TargetReads(schema: Schema, buf: Str, v: nat, k: Kind, fuel: nat)
    requires |buf| < MAX_BUFFER_SIZE && GoodTarget(schema, buf, v, k)
    requires fuel > TargetLoad(schema, buf, v, k).height
    ensures UnpackTarget(schema, buf, v, k, fuel).Some?
    decreases Gap(buf, v), 4, 0
  {
    match k
    case StringKind =>
    case TableKind(t) => TableReads(schema, t, buf, v, fuel - 1);
    case ScalarVectorKind(size) =>
    case StringVectorKind => StringsRead(schema, buf, v, ReadU(buf, v, 4), fuel);
    case TableVectorKind(t) => TablesRead(schema, buf, v, t, ReadU(buf, v, 4), fuel);
  }

  lemma {:induction false} StringsRead(schema: Schema, buf: Str, v: nat, n: nat, fuel: nat)
    requires fuel > 0 && GoodVector(buf, v, 4) && n <= ReadU(buf, v, 4)
    requires forall i :: 0 <= i < n ==> GoodString(buf, Elem(buf, v, i))
    ensures UnpackElems(schema, buf, v, StringVectorKind, n, fuel).Some?
    decreases n
  {
    hide GoodString, UnpackElem;
    if n > 0 {
      StringsRead(schema, buf, v, n - 1, fuel);
      StringElemReads(schema, buf, v, n - 1, fuel);
    }
  }

  lemma StringElemReads(schema: Schema, buf: Str, v: nat, i: nat, fuel: nat)
    requires fuel > 0 && GoodVector(buf, v, 4) && i < ReadU(buf, v, 4) && GoodString(buf, Elem(buf, v, i))
    ensures UnpackElem(schema, buf, v, StringVectorKind, i, fuel).Some?
  {
    hide ReadU, UnpackString, GoodString;
    StringReads(buf, Elem(buf, v, i));
    assert (v + 4 + 4 * i) % 4 == 0;
    assert PointerAt(buf, v + 4 + 4 * i) == Some(Elem(buf, v, i));
  }

  lemma StringReads(buf: Str, v: nat)
    requires GoodString(buf, v)
    ensures UnpackString(buf, v).Some?
  {
    hide ReadU;
  }

  lemma {:induction false} TablesRead(schema: Schema, buf: Str, v: nat, t: nat, n: nat, fuel: nat)
    requires |buf| < MAX_BUFFER_SIZE && GoodVector(buf, v, 4) && n <= ReadU(buf, v, 4)
    requires forall i :: 0 <= i < n ==> GoodTable(schema, t, buf, Elem(buf, v, i))
    requires fuel > ElemsLoad(schema, buf, v, t, n).height
    ensures UnpackElems(schema, buf, v, TableVectorKind(t), n, fuel).Some?
    decreases Gap(buf, v), 3, n
  {
    hide GoodTable, TableLoad;
    if n > 0 {
      TablesRead(schema, buf, v, t, n - 1, fuel);
      TableReads(schema, t, buf, Elem(buf, v, n - 1), fuel - 1);
    }
  }

  // ---- What is accepted is an object of the schema ----

  /** Every field of a good table is there if it is required, and is of its kind all the way down. */
  lemma {:induction false} UnpackedConforms(schema: Schema, t: nat, buf: Str, pos: nat, fuel: nat)
    requires GoodTable(schema, t, buf, pos) && Unpack(schema, t, buf, pos, fuel).Some?
    requires |buf| < MAX_BUFFER_SIZE
    ensures Conforms(schema, t, Unpack(schema, t, buf, pos, fuel).value)
    decreases fuel, 4, 0
  {
    hide GoodField, GoodStart, DefOk, FieldConforms;
    var n := |schema[t]|;
    FieldsConform(schema, buf, pos, schema[t], n, fuel);
  }

  ghost predicate IdsAmong(fields: seq<Field>, defs: seq<FieldDef>, n: nat)
    requires n <= |defs|
  {
    forall k :: 0 <= k < |fields| ==> exists i :: 0 <= i < n && fields[k].id == defs[i].id
  }

  lemma {:induction false} FieldsConform(schema: Schema, buf: Str, pos: nat, defs: seq<FieldDef>, n: nat, fuel: nat)
    requires fuel > 0 && n <= |defs| && DefsOk(schema, defs) && GoodStart(buf, pos) && |buf| < MAX_BUFFER_SIZE
    requires forall i :: 0 <= i < n ==> GoodField(schema, buf, pos, defs[i])
    requires UnpackFields(schema, buf, pos, defs, n, fuel).Some?
    ensures var fields := UnpackFields(schema, buf, pos, defs, n, fuel).value;
            IdsAmong(fields, defs, n) && forall i :: 0 <= i < n ==> FieldConforms(schema, fields, defs[i])
    decreases fuel, 3, n
  {
    hide GoodField, GoodStart, DefOk, FieldConforms, UnpackField, Locate;
    if n > 0 {
      var before := UnpackFields(schema, buf, pos, defs, n - 1, fuel).value;
      var last := UnpackField(schema, buf, pos, defs[n - 1], fuel).value;
      FieldsConform(schema, buf, pos, defs, n - 1, fuel);
      FieldConformsAlone(schema, buf, pos, defs[n - 1], fuel);
      LastIsNew(before, defs, n);
      forall i | 0 <= i < n
        ensures FieldConforms(schema, before + last, defs[i])
      {
        StillConforms(schema, before, last, defs, n, i);
      }
    }
  }

  lemma LastIsNew(before: seq<Field>, defs: seq<FieldDef>, n: nat)
    requires 0 < n <= |defs| && IdsAmong(before, defs, n - 1)
    requires forall i, j :: 0 <= i < j < |defs| ==> defs[i].id != defs[j].id
    ensures Locate(before, defs[n - 1].id) == |before|
  {
  }

  lemma StillConforms(schema: Schema, before: seq<Field>, last: seq<Field>, defs: seq<FieldDef>, n: nat, i: nat)
    requires i < n <= |defs| && |last| <= 1 && forall k :: 0 <= k < |last| ==> last[k].id == defs[n - 1].id
    requires forall i, j :: 0 <= i < j < |defs| ==> defs[i].id != defs[j].id
    requires Locate(before, defs[n - 1].id) == |before| && FieldConforms(schema, last, defs[n - 1])
    requires i < n - 1 ==> FieldConforms(schema, before, defs[i])
    ensures FieldConforms(schema, before + last, defs[i])
  {
    hide Locate, ValueConforms;
    LocateAppend(before, last, defs[i].id);
    LocateOne(last, defs[n - 1].id);
  }

  lemma {:induction false} FieldConformsAlone(schema: Schema, buf: Str, pos: nat, f: FieldDef, fuel: nat)
    requires fuel > 0 && GoodStart(buf, pos) && GoodField(schema, buf, pos, f) && |buf| < MAX_BUFFER_SIZE
    requires UnpackField(schema, buf, pos, f, fuel).Some?
    ensures var fields := UnpackField(schema, buf, pos, f, fuel).value;
            && |fields| <= 1 && (forall k :: 0 <= k < |fields| ==> fields[k].id == f.id)
            && FieldConforms(schema, fields, f)
    decreases fuel, 2, 0
  {
    hide GoodStart, GoodTarget, UnpackTarget, TargetConforms;
    GoodStartReads(buf, pos, f.id);
    var fo := FieldOffsetAt(buf, pos, f.id);
    if fo != 0 && !f.kind.ScalarKind? {
      TargetConformsAlone(schema, buf, Follow(buf, pos + fo), f.kind, fuel);
    }
  }

  lemma {:induction false} TargetConformsAlone(schema: Schema, buf: Str, v: nat, k: Kind, fuel: nat)
    requires fuel > 0 && GoodTarget(schema, buf, v, k) && |buf| < MAX_BUFFER_SIZE
    requires UnpackTarget(schema, buf, v, k, fuel).Some?
    ensures TargetConforms(schema, k, UnpackTarget(schema, buf, v, k, fuel).value)
    decreases fuel, 1, 0
  {
    hide GoodTable, GoodString, Unpack;
    match k
    case ScalarKind(_) =>
    case StringKind =>
    case ScalarVectorKind(_) =>
    case TableKind(t) => UnpackedConforms(schema, t, buf, v, fuel - 1);
    case StringVectorKind => StringElemsConform(schema, buf, v, ReadU(buf, v, 4), fuel);
    case TableVectorKind(t) => TableElemsConform(schema, buf, v, t, ReadU(buf, v, 4), fuel);
  }

  lemma {:induction false} StringElemsConform(schema: Schema, buf: Str, v: nat, n: nat, fuel: nat)
    requires fuel > 0 && UnpackElems(schema, buf, v, StringVectorKind, n, fuel).Some?
    ensures forall i :: 0 <= i < |UnpackElems(schema, buf, v, StringVectorKind, n, fuel).value| ==>
              UnpackElems(schema, buf, v, StringVectorKind, n, fuel).value[i].StringObj?
  {
    hide ReadU;
    if n > 0 { StringElemsConform(schema, buf, v, n - 1, fuel); }
  }

  lemma {:induction false} TableElemsConform(schema: Schema, buf: Str, v: nat, t: nat, n: nat, fuel: nat)
    requires fuel > 0 && GoodVector(buf, v, 4) && n <= ReadU(buf, v, 4) && |buf| < MAX_BUFFER_SIZE
    requires forall i :: 0 <= i < n ==> GoodTable(schema, t, buf, Elem(buf, v, i))
    requires UnpackElems(schema, buf, v, TableVectorKind(t), n, fuel).Some?
    ensures forall i :: 0 <= i < |UnpackElems(schema, buf, v, TableVectorKind(t), n, fuel).value| ==>
              Conforms(schema, t, UnpackElems(schema, buf, v, TableVectorKind(t), n, fuel).value[i])
    decreases fuel, 0, n
  {
    hide GoodTable, Unpack, Conforms;
    if n > 0 {
      TableElemsConform(schema, buf, v, t, n - 1, fuel);
      UnpackedConforms(schema, t, buf, Elem(buf, v, n - 1), fuel - 1);
    }
  }

  /** The same behind a size prefix: the root is four bytes further. */
  method CheckThenReadSizePrefixed(schema: Schema, t: nat, buf: Str, id: Option<Str>, maxDepth: nat, maxTables: nat)
    returns (r: Option<Obj>)
    requires SchemaOk(schema) && t < |schema| && (id.Some? ==> |id.value| == 4)
    requires |buf| < MAX_BUFFER_SIZE && maxDepth < 0xFFFF_FFFF && maxTables < 0xFFFF_FFFF
    ensures r.Some? <==> GoodPrefix(buf) && GoodId(buf, 4, id) && GoodBuffer(schema, t, buf, 4)
                         && TableLoad(schema, t, buf, Follow(buf, 4)).height <= maxDepth
                         && TableLoad(schema, t, buf, Follow(buf, 4)).visits <= maxTables
    ensures r.Some? ==> r == Unpack(schema, t, buf, Follow(buf, 4), maxDepth) && Conforms(schema, t, r.value)
  {
    var v := new Verifier(buf, maxDepth, maxTables);
    var ok := v.VerifySizePrefixedBuffer(schema, t, id);
    if !ok { return None; }
    TableReads(schema, t, buf, Follow(buf, 4), maxDepth);
    UnpackedConforms(schema, t, buf, Follow(buf, 4), maxDepth);
    r := Unpack(schema, t, buf, Follow(buf, 4), maxDepth);
  }

  /** Soundness: a buffer the verifier accepts is read without leaving it, whatever its bytes. */
  method CheckThenRead(schema: Schema, t: nat, buf: Str, id: Option<Str>, maxDepth: nat, maxTables: nat)
    returns (r: Option<Obj>)
    requires SchemaOk(schema) && t < |schema| && (id.Some? ==> |id.value| == 4)
    requires |buf| < MAX_BUFFER_SIZE && maxDepth < 0xFFFF_FFFF && maxTables < 0xFFFF_FFFF
    ensures r.Some? <==> GoodId(buf, 0, id) && GoodBuffer(schema, t, buf, 0)
                         && TableLoad(schema, t, buf, Follow(buf, 0)).height <= maxDepth
                         && TableLoad(schema, t, buf, Follow(buf, 0)).visits <= maxTables
    ensures r.Some? ==> r == Unpack(schema, t, buf, Follow(buf, 0), maxDepth) && Conforms(schema, t, r.value)
  {
    var v := new Verifier(buf, maxDepth, maxTables);
    var ok := v.VerifyBuffer(schema, t, id);
    if !ok { return None; }
    TableReads(schema, t, buf, Follow(buf, 0), maxDepth);
    UnpackedConforms(schema, t, buf, Follow(buf, 0), maxDepth);
    r := Unpack(schema, t, buf, Follow(buf, 0), maxDepth);
  }
}
