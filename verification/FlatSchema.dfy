/**
 Schemas, as the code generator sees them: what `Verify` functions and accessors are generated from.
 */
module FlatSchema {
  import opened Bytes
  import opened FlatFormat

  datatype Kind =
    | ScalarKind(size: nat)
    | StringKind
    | TableKind(table: nat)
    | ScalarVectorKind(size: nat)
    | StringVectorKind
    | TableVectorKind(table: nat)

  datatype FieldDef = FieldDef(id: nat, kind: Kind, required: bool)

  /** Tables by index, each a list of fields. */
  type Schema = seq<seq<FieldDef>>

  predicate KindOk(schema: Schema, k: Kind) {
    match k
    case ScalarKind(size) => IsWidth(size)
    case ScalarVectorKind(size) => IsWidth(size)
    case TableKind(t) => t < |schema|
    case TableVectorKind(t) => t < |schema|
    case _ => true
  }

  predicate DefOk(schema: Schema, f: FieldDef) {
    FieldId(f.id) && KindOk(schema, f.kind)
  }

  predicate DefsOk(schema: Schema, defs: seq<FieldDef>) {
    && (forall i :: 0 <= i < |defs| ==> DefOk(schema, defs[i]))
    && (forall i, j :: 0 <= i < j < |defs| ==> defs[i].id != defs[j].id)
  }

  ghost predicate SchemaOk(schema: Schema) {
    forall t :: 0 <= t < |schema| ==> DefsOk(schema, schema[t])
  }

  // ---- Objects of a schema ----

  /** The object has every required field, and its fields are of the kinds the schema gives them. */
  predicate Conforms(schema: Schema, t: nat, obj: Obj)
    decreases obj, 1
  {
    t < |schema| && obj.TableObj?
    && forall i :: 0 <= i < |schema[t]| ==> FieldConforms(schema, obj.fields, schema[t][i])
  }

  predicate FieldConforms(schema: Schema, fields: seq<Field>, f: FieldDef)
    decreases fields, 0
  {
    var k := Locate(fields, f.id);
    if k == |fields| then f.kind.ScalarKind? || !f.required
    else
      ValueConforms(schema, f.kind, fields[k])
  }

  predicate ValueConforms(schema: Schema, k: Kind, value: Field)
    decreases value, 3
  {
    match value
    case ScalarField(_, size, _) => k == ScalarKind(size)
    case RefField(_, obj) => TargetConforms(schema, k, obj)
  }

  predicate TargetConforms(schema: Schema, k: Kind, obj: Obj)
    decreases obj, 2
  {
    match k
    case ScalarKind(_) => false
    case StringKind => obj.StringObj?
    case TableKind(t) => Conforms(schema, t, obj)
    case ScalarVectorKind(size) => obj.ScalarVector? && obj.size == size
    case StringVectorKind => obj.OffsetVector? && forall i :: 0 <= i < |obj.objs| ==> obj.objs[i].StringObj?
    case TableVectorKind(t) => obj.OffsetVector? && forall i :: 0 <= i < |obj.objs| ==> Conforms(schema, t, obj.objs[i])
  }

  // ---- The schema of schemas: `reflection.fbs` ----

  const TYPE: nat := 0
  const KEY_VALUE: nat := 1
  const ENUM_VAL: nat := 2
  const ENUM: nat := 3
  const FIELD: nat := 4
  const OBJECT: nat := 5
  const RPC_CALL: nat := 6
  const SERVICE: nat := 7
  const SCHEMA: nat := 8

  const TYPE_FIELDS: seq<FieldDef> := [
    FieldDef(4, ScalarKind(1), false), FieldDef(6, ScalarKind(1), false), FieldDef(8, ScalarKind(4), false),
    FieldDef(10, ScalarKind(2), false)]

  const KEY_VALUE_FIELDS: seq<FieldDef> := [
    FieldDef(4, StringKind, true), FieldDef(6, StringKind, false)]

  const ENUM_VAL_FIELDS: seq<FieldDef> := [
    FieldDef(4, StringKind, true), FieldDef(6, ScalarKind(8), false), FieldDef(8, TableKind(OBJECT), false),
    FieldDef(10, TableKind(TYPE), false), FieldDef(12, StringVectorKind, false)]

  const ENUM_FIELDS: seq<FieldDef> := [
    FieldDef(4, StringKind, true), FieldDef(6, TableVectorKind(ENUM_VAL), true), FieldDef(8, ScalarKind(1), false),
    FieldDef(10, TableKind(TYPE), true), FieldDef(12, TableVectorKind(KEY_VALUE), false),
    FieldDef(14, StringVectorKind, false)]

  const FIELD_FIELDS: seq<FieldDef> := [
    FieldDef(4, StringKind, true), FieldDef(6, TableKind(TYPE), true), FieldDef(8, ScalarKind(2), false),
    FieldDef(10, ScalarKind(2), false), FieldDef(12, ScalarKind(8), false), FieldDef(14, ScalarKind(8), false),
    FieldDef(16, ScalarKind(1), false), FieldDef(18, ScalarKind(1), false), FieldDef(20, ScalarKind(1), false),
    FieldDef(22, TableVectorKind(KEY_VALUE), false), FieldDef(24, StringVectorKind, false)]

  const OBJECT_FIELDS: seq<FieldDef> := [
    FieldDef(4, StringKind, true), FieldDef(6, TableVectorKind(FIELD), true), FieldDef(8, ScalarKind(1), false),
    FieldDef(10, ScalarKind(4), false), FieldDef(12, ScalarKind(4), false),
    FieldDef(14, TableVectorKind(KEY_VALUE), false), FieldDef(16, StringVectorKind, false)]

  const RPC_CALL_FIELDS: seq<FieldDef> := [
    FieldDef(4, StringKind, true), FieldDef(6, TableKind(OBJECT), true), FieldDef(8, TableKind(OBJECT), true),
    FieldDef(10, TableVectorKind(KEY_VALUE), false), FieldDef(12, StringVectorKind, false)]

  const SERVICE_FIELDS: seq<FieldDef> := [
    FieldDef(4, StringKind, true), FieldDef(6, TableVectorKind(RPC_CALL), false),
    FieldDef(8, TableVectorKind(KEY_VALUE), false), FieldDef(10, StringVectorKind, false)]

  const SCHEMA_FIELDS: seq<FieldDef> := [
    FieldDef(4, TableVectorKind(OBJECT), true), FieldDef(6, TableVectorKind(ENUM), true),
    FieldDef(8, StringKind, false), FieldDef(10, StringKind, false), FieldDef(12, TableKind(OBJECT), false),
    FieldDef(14, TableVectorKind(SERVICE), false)]

  const REFLECTION: Schema := [
    TYPE_FIELDS, KEY_VALUE_FIELDS, ENUM_VAL_FIELDS, ENUM_FIELDS, FIELD_FIELDS, OBJECT_FIELDS, RPC_CALL_FIELDS,
    SERVICE_FIELDS, SCHEMA_FIELDS]

  lemma SmallTablesOk(schema: Schema)
    requires |schema| == SCHEMA + 1
    ensures DefsOk(schema, TYPE_FIELDS) && DefsOk(schema, KEY_VALUE_FIELDS) && DefsOk(schema, ENUM_VAL_FIELDS)
    ensures DefsOk(schema, RPC_CALL_FIELDS) && DefsOk(schema, SERVICE_FIELDS)
  {
  }

  lemma LargeTablesOk(schema: Schema)
    requires |schema| == SCHEMA + 1
    ensures DefsOk(schema, ENUM_FIELDS) && DefsOk(schema, OBJECT_FIELDS) && DefsOk(schema, SCHEMA_FIELDS)
  {
  }

  lemma FieldTableOk(schema: Schema)
    requires |schema| == SCHEMA + 1
    ensures DefsOk(schema, FIELD_FIELDS)
  {
  }

  lemma ReflectionIsASchema()
    ensures SchemaOk(REFLECTION) && |REFLECTION| == SCHEMA + 1
  {
    hide DefsOk;
    SmallTablesOk(REFLECTION);
    LargeTablesOk(REFLECTION);
    FieldTableOk(REFLECTION);
  }
}
