/**
 `Verifier`: is an arbitrary byte buffer a FlatBuffer of a given schema?

 `GoodTable` says, without counters or control flow, what it means that all a schema leads to lies inside
 the buffer. The class computes exactly that, within its limits on depth and table count.
 */
module FlatVerifier {
  import opened Bytes
  import opened Options
  import opened FlatFormat
  import opened FlatSchema

  // ---- What is checked ----

  /** `Verify(elem, elem_len)` */
  predicate InRange(buf: Str, elem: int, len: nat) {
    0 <= elem && len < |buf| && elem <= |buf| - len
  }

  /** `Verify<T>(elem)` with alignment checking on. */
  predicate InRangeAligned(buf: Str, elem: int, size: nat) {
    size > 0 && elem % size == 0 && InRange(buf, elem, size)
  }

  /** The vtable's address: an unsigned 64-bit difference. */
  function VTableAddr(buf: Str, pos: nat): (v: int)
    requires InRange(buf, pos, 4)
    ensures 0 <= v < TWO_64
  {
    (pos - ReadI(buf, pos, 4)) % TWO_64
  }

  /** `VerifyTableStart`, limits aside. */
  predicate GoodStart(buf: Str, pos: int) {
    InRangeAligned(buf, pos, 4)
    && var vt := VTableAddr(buf, pos);
    && InRangeAligned(buf, vt, 2)
    && ReadU(buf, vt, 2) % 2 == 0 && InRange(buf, vt, ReadU(buf, vt, 2))
  }

  /** `GetOptionalFieldOffset` */
  function FieldOffsetAt(buf: Str, pos: nat, id: nat): (fo: int)
    requires GoodStart(buf, pos) && id % 2 == 0
    ensures 0 <= fo < 0x1_0000
  {
    Pow256Values();
    var vt := VTableAddr(buf, pos);
    EvenBelow(id, ReadU(buf, vt, 2));
    if id < ReadU(buf, vt, 2) then ReadU(buf, vt + id, 2) else 0
  }

  lemma EvenBelow(id: nat, size: nat)
    requires id % 2 == 0 && size % 2 == 0
    ensures id < size ==> id + 2 <= size
  {
  }

  /** `VerifyOffset` */
  predicate GoodRef(buf: Str, pos: int) {
    InRangeAligned(buf, pos, 4)
    && var o := ReadU(buf, pos, 4);
    && 0 < o < 0x8000_0000 && InRange(buf, pos + o, 1)
  }

  function Follow(buf: Str, pos: nat): (target: nat)
    requires pos + 4 <= |buf|
    ensures target >= pos
  {
    pos + ReadU(buf, pos, 4)
  }

  /** `VerifyVectorOrString` */
  predicate GoodVector(buf: Str, v: int, elemSize: nat) {
    InRangeAligned(buf, v, 4) && elemSize > 0
    && var n := ReadU(buf, v, 4);
    && n < MAX_BUFFER_SIZE / elemSize && InRange(buf, v, 4 + elemSize * n)
  }

  predicate GoodString(buf: Str, v: int) {
    GoodVector(buf, v, 1)
    && var end := v + 4 + ReadU(buf, v, 4);
    && InRange(buf, end, 1) && buf[end] == 0
  }

  /** Positions only move towards the end of the buffer. */
  function Gap(buf: Str, pos: int): nat {
    if pos < |buf| then if pos < 0 then |buf| else |buf| - pos else 0
  }

  /** A generated `Verify`, limits aside. */
  predicate GoodTable(schema: Schema, t: nat, buf: Str, pos: int)
    decreases Gap(buf, pos), 3
  {
    t < |schema| && DefsOk(schema, schema[t]) && GoodStart(buf, pos)
    && forall i :: 0 <= i < |schema[t]| ==> GoodField(schema, buf, pos, schema[t][i])
  }

  predicate GoodField(schema: Schema, buf: Str, pos: nat, f: FieldDef)
    requires GoodStart(buf, pos)
    decreases Gap(buf, pos), 2
  {
    DefOk(schema, f) &&
    var fo := FieldOffsetAt(buf, pos, f.id);
    match f.kind
    case ScalarKind(size) => fo == 0 || InRange(buf, pos + fo, size)
    case _ =>
      (fo == 0 && !f.required)
      || (fo != 0 && GoodRef(buf, pos + fo) && GoodTarget(schema, buf, Follow(buf, pos + fo), f.kind))
  }

  predicate GoodTarget(schema: Schema, buf: Str, v: nat, k: Kind)
    decreases Gap(buf, v), 4
  {
    match k
    case ScalarKind(_) => false
    case StringKind => GoodString(buf, v)
    case TableKind(t) => GoodTable(schema, t, buf, v)
    case ScalarVectorKind(size) => GoodVector(buf, v, size)
    case StringVectorKind =>
      GoodVector(buf, v, 4) && forall i :: 0 <= i < ReadU(buf, v, 4) ==> GoodString(buf, Elem(buf, v, i))
    case TableVectorKind(t) =>
      GoodVector(buf, v, 4) && forall i :: 0 <= i < ReadU(buf, v, 4) ==> GoodTable(schema, t, buf, Elem(buf, v, i))
  }

  /** `Vector<Offset<T>>::Get(i)` */
  function Elem(buf: Str, v: nat, i: nat): (target: nat)
    requires v + 8 + 4 * i <= |buf|
    ensures target > v
  {
    Follow(buf, v + 4 + 4 * i)
  }

  /** What a field refers to starts strictly behind the field, hence behind its table. */
  lemma FieldLeadsOn(schema: Schema, buf: Str, pos: nat, f: FieldDef)
    requires GoodStart(buf, pos) && GoodField(schema, buf, pos, f) && !f.kind.ScalarKind?
    requires FieldOffsetAt(buf, pos, f.id) != 0
    ensures pos + FieldOffsetAt(buf, pos, f.id) + 4 <= |buf|
    ensures Follow(buf, pos + FieldOffsetAt(buf, pos, f.id)) > pos + FieldOffsetAt(buf, pos, f.id) > pos
  {
    hide GoodStart, GoodTarget;
  }

  lemma GapShrinks(buf: Str, v: nat, i: nat)
    requires v + 8 + 4 * i <= |buf|
    ensures Gap(buf, Elem(buf, v, i)) < Gap(buf, v)
  {
  }

  /** A whole buffer with its root offset `start` bytes in. */
  predicate GoodBuffer(schema: Schema, t: nat, buf: Str, start: nat) {
    GoodRef(buf, start) && GoodTable(schema, t, buf, Follow(buf, start))
  }

  predicate GoodPrefix(buf: Str) {
    InRangeAligned(buf, 0, 4) && ReadU(buf, 0, 4) == |buf| - 4
  }

  /** `strncmp` of two identifiers: equal up to the first NUL. */
  predicate SameId(a: Str, b: Str)
    requires |a| == |b|
  {
    a == [] || (a[0] == b[0] && (a[0] == 0 || SameId(a[1..], b[1..])))
  }

  lemma {:induction false} SameIdIsEquality(a: Str, b: Str)
    requires |a| == |b| && 0 !in a
    ensures SameId(a, b) <==> a == b
  {
    if a != [] {
      SameIdIsEquality(a[1..], b[1..]);
      assert a == [a[0]] + a[1..] && b == [b[0]] + b[1..];
    }
  }

  /** The identifier asked for, if any, stands behind the root offset. */
  predicate GoodId(buf: Str, start: nat, id: Option<Str>)
    requires id.Some? ==> |id.value| == 4
  {
    id.Some? ==> start + 8 <= |buf| && SameId(buf[start + 4..start + 8], id.value)
  }

  /**
   The guard before the identifier comparison asks for eight bytes in all, the comparison goes four further
   behind a size prefix. That changes no verdict: a buffer too short for it is refused whatever it finds.
   */
  lemma RoomForIdentifier(schema: Schema, t: nat, buf: Str, start: nat)
    requires GoodBuffer(schema, t, buf, start)
    ensures start + 8 <= |buf|
  {
    hide VTableAddr, ReadU;
    var pos := Follow(buf, start);
    assert start % 4 == 0 && pos % 4 == 0 && pos > start;
  }

  // ---- What it costs ----

  /** How deep the tables nest, and how many are visited, shared ones again each time. */
  datatype Load = Load(height: nat, visits: nat)

  function Beside(a: Load, b: Load): Load {
    Load(if a.height > b.height then a.height else b.height, a.visits + b.visits)
  }

  const NO_LOAD := Load(0, 0)

  function TableLoad(schema: Schema, t: nat, buf: Str, pos: int): Load
    requires GoodTable(schema, t, buf, pos)
    decreases Gap(buf, pos), 3, 0
  {
    var inner := FieldsLoad(schema, buf, pos, schema[t], |schema[t]|);
    Load(inner.height + 1, inner.visits + 1)
  }

  function FieldsLoad(schema: Schema, buf: Str, pos: nat, defs: seq<FieldDef>, n: nat): Load
    requires n <= |defs| && GoodStart(buf, pos)
    requires forall i :: 0 <= i < n ==> GoodField(schema, buf, pos, defs[i])
    decreases Gap(buf, pos), 2, n
  {
    if n == 0 then NO_LOAD
    else Beside(FieldsLoad(schema, buf, pos, defs, n - 1), FieldLoad(schema, buf, pos, defs[n - 1]))
  }

  function FieldLoad(schema: Schema, buf: Str, pos: nat, f: FieldDef): Load
    requires GoodStart(buf, pos) && GoodField(schema, buf, pos, f)
    decreases Gap(buf, pos), 1, 0
  {
    var fo := FieldOffsetAt(buf, pos, f.id);
    if f.kind.ScalarKind? || fo == 0 then NO_LOAD
    else TargetLoad(schema, buf, Follow(buf, pos + fo), f.kind)
  }

  function TargetLoad(schema: Schema, buf: Str, v: nat, k: Kind): Load
    requires GoodTarget(schema, buf, v, k)
    decreases Gap(buf, v), 4, 0
  {
    match k
    case TableKind(t) => TableLoad(schema, t, buf, v)
    case TableVectorKind(t) => ElemsLoad(schema, buf, v, t, ReadU(buf, v, 4))
    case _ => NO_LOAD
  }

  function ElemsLoad(schema: Schema, buf: Str, v: nat, t: nat, n: nat): Load
    requires GoodVector(buf, v, 4) && n <= ReadU(buf, v, 4)
    requires forall i :: 0 <= i < n ==> GoodTable(schema, t, buf, Elem(buf, v, i))
    decreases Gap(buf, v), 3, n
  {
    if n == 0 then NO_LOAD
    else Beside(ElemsLoad(schema, buf, v, t, n - 1), TableLoad(schema, t, buf, Elem(buf, v, n - 1)))
  }

  lemma {:induction false} FieldsLoadMonotone(schema: Schema, buf: Str, pos: nat, defs: seq<FieldDef>, m: nat, n: nat)
    requires m <= n <= |defs| && GoodStart(buf, pos)
    requires forall i :: 0 <= i < n ==> GoodField(schema, buf, pos, defs[i])
    ensures FieldsLoad(schema, buf, pos, defs, m).height <= FieldsLoad(schema, buf, pos, defs, n).height
    ensures FieldsLoad(schema, buf, pos, defs, m).visits <= FieldsLoad(schema, buf, pos, defs, n).visits
    decreases n
  {
    hide GoodField, GoodStart;
    if m < n { FieldsLoadMonotone(schema, buf, pos, defs, m, n - 1); }
  }

  lemma {:induction false} ElemsLoadMonotone(schema: Schema, buf: Str, v: nat, t: nat, m: nat, n: nat)
    requires GoodVector(buf, v, 4) && m <= n <= ReadU(buf, v, 4)
    requires forall i :: 0 <= i < n ==> GoodTable(schema, t, buf, Elem(buf, v, i))
    ensures ElemsLoad(schema, buf, v, t, m).height <= ElemsLoad(schema, buf, v, t, n).height
    ensures ElemsLoad(schema, buf, v, t, m).visits <= ElemsLoad(schema, buf, v, t, n).visits
    decreases n
  {
    hide GoodTable;
    if m < n { ElemsLoadMonotone(schema, buf, v, t, m, n - 1); }
  }

  // ---- The checker ----

  class Verifier {
    const buf: Str
    const maxDepth: nat
    const maxTables: nat
    var depth: nat
    var numTables: nat

    /** Limits small enough that the 32-bit counters cannot wrap; 64 and 1000000 by default. */
    constructor (buf: Str, maxDepth: nat, maxTables: nat)
      requires |buf| < MAX_BUFFER_SIZE && maxDepth < 0xFFFF_FFFF && maxTables < 0xFFFF_FFFF
      ensures this.buf == buf && this.maxDepth == maxDepth && this.maxTables == maxTables
      ensures depth == 0 && numTables == 0
    {
      this.buf, this.maxDepth, this.maxTables := buf, maxDepth, maxTables;
      depth, numTables := 0, 0;
    }

    /** Whether so much more is within the limits. */
    predicate Room(l: Load)
      reads this
    {
      depth + l.height <= maxDepth && numTables + l.visits <= maxTables
    }

    method VerifyComplexity() returns (ok: bool)
      modifies this
      ensures depth == old(depth) + 1 && numTables == old(numTables) + 1
      ensures ok == old(Room(Load(1, 1)))
    {
      depth := depth + 1;
      numTables := numTables + 1;
      ok := depth <= maxDepth && numTables <= maxTables;
    }

    method VerifyTableStart(pos: nat) returns (ok: bool)
      modifies this
      ensures ok == (GoodStart(buf, pos) && old(Room(Load(1, 1))))
      ensures ok ==> depth == old(depth) + 1 && numTables == old(numTables) + 1
    {
      if !InRangeAligned(buf, pos, 4) { return false; }
      var vt := VTableAddr(buf, pos);
      ok := VerifyComplexity();
      ok := ok && InRangeAligned(buf, vt, 2)
            && ReadU(buf, vt, 2) % 2 == 0 && InRange(buf, vt, ReadU(buf, vt, 2));
    }

    /** The generated `Verify` of table `t`: it accepts exactly the good tables within the limits. */
    method VerifyTable(schema: Schema, t: nat, pos: nat) returns (ok: bool)
      requires SchemaOk(schema) && t < |schema|
      modifies this
      ensures ok == (GoodTable(schema, t, buf, pos) && old(Room(TableLoad(schema, t, buf, pos))))
      ensures ok ==> depth == old(depth) && numTables == old(numTables) + TableLoad(schema, t, buf, pos).visits
      decreases Gap(buf, pos), 3
    {
      hide GoodField, GoodStart, FieldLoad, DefOk;
      var defs := schema[t];
      assert DefsOk(schema, defs);
      ok := VerifyTableStart(pos);
      if !ok { return; }
      for i := 0 to |defs|
        invariant forall j :: 0 <= j < i ==> GoodField(schema, buf, pos, defs[j])
        invariant var l := FieldsLoad(schema, buf, pos, defs, i);
                  depth == old(depth) + 1 && depth + l.height <= maxDepth
                  && numTables == old(numTables) + 1 + l.visits <= maxTables
      {
        ok := VerifyField(schema, pos, defs[i]);
        if !ok {
          if GoodTable(schema, t, buf, pos) {
            FieldsLoadMonotone(schema, buf, pos, defs, i + 1, |defs|);
          }
          return;
        }
      }
      depth := depth - 1;
    }

    method VerifyField(schema: Schema, pos: nat, f: FieldDef) returns (ok: bool)
      requires SchemaOk(schema) && DefOk(schema, f) && GoodStart(buf, pos) && Room(NO_LOAD)
      modifies this
      ensures ok == (GoodField(schema, buf, pos, f) && old(Room(FieldLoad(schema, buf, pos, f))))
      ensures ok ==> depth == old(depth) && numTables == old(numTables) + FieldLoad(schema, buf, pos, f).visits
      decreases Gap(buf, pos), 2
    {
      var fo := FieldOffsetAt(buf, pos, f.id);
      if f.kind.ScalarKind? {
        return fo == 0 || InRange(buf, pos + fo, f.kind.size);
      }
      if fo == 0 {
        return !f.required;
      }
      if !GoodRef(buf, pos + fo) { return false; }
      ok := VerifyTarget(schema, Follow(buf, pos + fo), f.kind);
    }

    method VerifyTarget(schema: Schema, v: nat, k: Kind) returns (ok: bool)
      requires SchemaOk(schema) && KindOk(schema, k) && !k.ScalarKind? && Room(NO_LOAD)
      modifies this
      ensures ok == (GoodTarget(schema, buf, v, k) && old(Room(TargetLoad(schema, buf, v, k))))
      ensures ok ==> depth == old(depth) && numTables == old(numTables) + TargetLoad(schema, buf, v, k).visits
      decreases Gap(buf, v), 4
    {
      match k
      case StringKind => return GoodString(buf, v);
      case TableKind(t) => ok := VerifyTable(schema, t, v);
      case ScalarVectorKind(size) => return GoodVector(buf, v, size);
      case StringVectorKind =>
        ok := GoodVector(buf, v, 4);
        if ok { ok := VerifyVectorOfStrings(v); }
      case TableVectorKind(t) =>
        ok := GoodVector(buf, v, 4);
        if ok { ok := VerifyVectorOfTables(schema, t, v); }
    }

    method VerifyVectorOfStrings(v: nat) returns (ok: bool)
      requires GoodVector(buf, v, 4)
      ensures ok == forall i :: 0 <= i < ReadU(buf, v, 4) ==> GoodString(buf, Elem(buf, v, i))
    {
      for i := 0 to ReadU(buf, v, 4)
        invariant forall j :: 0 <= j < i ==> GoodString(buf, Elem(buf, v, j))
      {
        if !GoodString(buf, Elem(buf, v, i)) { return false; }
      }
      return true;
    }

    method VerifyVectorOfTables(schema: Schema, t: nat, v: nat) returns (ok: bool)
      requires SchemaOk(schema) && t < |schema| && GoodVector(buf, v, 4) && Room(NO_LOAD)
      modifies this
      ensures ok == ((forall i :: 0 <= i < ReadU(buf, v, 4) ==> GoodTable(schema, t, buf, Elem(buf, v, i)))
                     && old(Room(ElemsLoad(schema, buf, v, t, ReadU(buf, v, 4)))))
      ensures ok ==> depth == old(depth)
                     && numTables == old(numTables) + ElemsLoad(schema, buf, v, t, ReadU(buf, v, 4)).visits
      decreases Gap(buf, v), 3
    {
      hide GoodTable, TableLoad, Follow, Gap;
      var n := ReadU(buf, v, 4);
      ok := true;
      for i := 0 to n
        invariant ok && depth == old(depth)
        invariant forall j :: 0 <= j < i ==> GoodTable(schema, t, buf, Elem(buf, v, j))
        invariant var l := ElemsLoad(schema, buf, v, t, i);
                  depth + l.height <= maxDepth && numTables == old(numTables) + l.visits <= maxTables
      {
        GapShrinks(buf, v, i);
        ok := VerifyTable(schema, t, Elem(buf, v, i));
        if !ok {
          if forall j :: 0 <= j < n ==> GoodTable(schema, t, buf, Elem(buf, v, j)) {
            ElemsLoadMonotone(schema, buf, v, t, i + 1, n);
          }
          return;
        }
      }
    }

    method VerifyBufferFromStart(schema: Schema, t: nat, id: Option<Str>, start: nat) returns (ok: bool)
      requires SchemaOk(schema) && t < |schema| && (id.Some? ==> |id.value| == 4)
      modifies this
      ensures ok == (GoodId(buf, start, id) && GoodBuffer(schema, t, buf, start)
                     && old(Room(TableLoad(schema, t, buf, Follow(buf, start)))))
      ensures ok ==> depth == old(depth)
    {
      if id.Some? && (|buf| < 8 || !GoodId(buf, start, id)) { return false; }
      if !GoodRef(buf, start) { return false; }
      ok := VerifyTable(schema, t, Follow(buf, start));
    }

    method VerifyBuffer(schema: Schema, t: nat, id: Option<Str>) returns (ok: bool)
      requires SchemaOk(schema) && t < |schema| && (id.Some? ==> |id.value| == 4)
      modifies this
      ensures ok == (GoodId(buf, 0, id) && GoodBuffer(schema, t, buf, 0)
                     && old(Room(TableLoad(schema, t, buf, Follow(buf, 0)))))
      ensures ok ==> depth == old(depth)
    {
      ok := VerifyBufferFromStart(schema, t, id, 0);
    }

    method VerifySizePrefixedBuffer(schema: Schema, t: nat, id: Option<Str>) returns (ok: bool)
      requires SchemaOk(schema) && t < |schema| && (id.Some? ==> |id.value| == 4)
      modifies this
      ensures ok == (GoodPrefix(buf) && GoodId(buf, 4, id) && GoodBuffer(schema, t, buf, 4)
                     && old(Room(TableLoad(schema, t, buf, Follow(buf, 4)))))
      ensures ok ==> depth == old(depth)
    {
      if !GoodPrefix(buf) { return false; }
      ok := VerifyBufferFromStart(schema, t, id, 4);
    }
  }
}
