/**
 Whole tables and shared strings, as a client of `FlatBufferBuilder` writes and reads them.
 */
module FlatTables {
  import opened Bytes
  import opened FlatFormat
  import opened FlatWriter
  import opened FlatBuilder
  import opened FlatScalars

  // ---- Reading a field of a stored table ----

  /** `GetField` returns the stored bits of a scalar, or the default when the field is absent. */
  lemma FieldReads(data: Str, t: nat, fields: seq<Field>, id: nat, size: nat, default: int)
    requires ObjAt(data, t, TableObj(fields)) && FieldId(id)
    requires Locate(fields, id) < |fields| ==>
               fields[Locate(fields, id)].ScalarField? && fields[Locate(fields, id)].size == size
    ensures TableAt(data, t) && (FieldOffset(data, t, id) != 0 ==> InUse(data, t - FieldOffset(data, t, id), size))
    ensures GetField(data, t, id, size, default)
            == if Locate(fields, id) < |fields| then fields[Locate(fields, id)].bits else default
  {
    hide TableAt, ReadAt;
    var i := Locate(fields, id);
    if i < |fields| {
      var f := fields[i];
      assert FieldAt(data, t, f) && f.id == id;
      assert ValueAt(data, t - FieldOffset(data, t, f.id), f);
    } else {
      assert OthersAbsent(data, t, fields);
    }
  }

  /** A reference field leads to the stored object. */
  lemma FieldLeadsTo(data: Str, t: nat, fields: seq<Field>, id: nat)
    requires ObjAt(data, t, TableObj(fields)) && FieldId(id)
    requires Locate(fields, id) < |fields| && fields[Locate(fields, id)].RefField?
    ensures TableAt(data, t) && FieldOffset(data, t, id) > 0
    ensures RefAt(data, t - FieldOffset(data, t, id), fields[Locate(fields, id)].obj)
  {
    hide TableAt, ReadAt, RefAt;
    assert FieldAt(data, t, fields[Locate(fields, id)]);
  }

  // ---- Writing a table ----

  /** One `AddElement` or `AddOffset` call. */
  datatype Input =
    | Scalar(id: nat, kind: Comparison, size: nat, bits: nat, default: nat)
    | Ref(id: nat, off: nat)

  predicate InputOk(i: Input) {
    && FieldId(i.id)
    && (i.Scalar? ==> IsWidth(i.size) && i.bits < Pow256(i.size) && (i.kind.Floating? ==> i.size >= 4))
  }

  predicate InputsOk(inputs: seq<Input>) {
    && (forall i :: 0 <= i < |inputs| ==> InputOk(inputs[i]))
    && (forall i, j :: 0 <= i < j < |inputs| ==> inputs[i].id != inputs[j].id)
  }

  ghost predicate RefsKnown(inputs: seq<Input>, objs: map<nat, Obj>) {
    forall i :: 0 <= i < |inputs| && inputs[i].Ref? && inputs[i].off != 0 ==> inputs[i].off in objs
  }

  /** What one call stores. */
  ghost function FieldOf(i: Input, objs: map<nat, Obj>, forceDefaults: bool): (fs: seq<Field>)
    requires i.Ref? && i.off != 0 ==> i.off in objs
    ensures |fs| <= 1 && forall k :: 0 <= k < |fs| ==> fs[k].id == i.id
  {
    match i
    case Scalar(id, kind, size, bits, default) => StoredScalar(id, kind, size, bits, default, forceDefaults)
    case Ref(id, off) => if off == 0 then [] else [RefField(id, objs[off])]
  }

  ghost function FieldsOf(inputs: seq<Input>, objs: map<nat, Obj>, forceDefaults: bool): (fs: seq<Field>)
    requires RefsKnown(inputs, objs)
    ensures forall k :: 0 <= k < |fs| ==> exists i :: 0 <= i < |inputs| && fs[k].id == inputs[i].id
  {
    if inputs == [] then []
    else
      var n := |inputs| - 1;
      FieldsOf(inputs[..n], objs, forceDefaults) + FieldOf(inputs[n], objs, forceDefaults)
  }

  /** With distinct ids, looking up the id of a call finds what that call stored. */
  lemma {:induction false} LocateInput(inputs: seq<Input>, objs: map<nat, Obj>, forceDefaults: bool, i: nat)
    requires InputsOk(inputs) && RefsKnown(inputs, objs) && i < |inputs|
    ensures var fs, gs := FieldsOf(inputs, objs, forceDefaults), FieldOf(inputs[i], objs, forceDefaults);
            var k := Locate(fs, inputs[i].id);
            if gs == [] then k == |fs| else k < |fs| && fs[k] == gs[0]
  {
    hide Locate, FieldOf, InputOk;
    var n := |inputs| - 1;
    var before, last := FieldsOf(inputs[..n], objs, forceDefaults), FieldOf(inputs[n], objs, forceDefaults);
    LocateAppend(before, last, inputs[i].id);
    LocateOne(last, inputs[n].id);
    if i < n {
      LocateInput(inputs[..n], objs, forceDefaults, i);
      assert inputs[i].id != inputs[n].id;
    } else {
      assert Locate(before, inputs[n].id) == |before|;
    }
  }

  /** The size of the buffer after the calls, from `n` bytes. */
  function SizeAfter(n: nat, inputs: seq<Input>, forceDefaults: bool): (m: nat)
    requires forall i :: 0 <= i < |inputs| ==> InputOk(inputs[i])
    ensures m >= n
  {
    if inputs == [] then n
    else
      var k := |inputs| - 1;
      SizeAfterOne(SizeAfter(n, inputs[..k], forceDefaults), inputs[k], forceDefaults)
  }

  function SizeAfterOne(n: nat, i: Input, forceDefaults: bool): (m: nat)
    requires InputOk(i)
    ensures m >= n
  {
    match i
    case Scalar(_, kind, size, bits, default) =>
      if IsTheSameAs(kind, size, bits, default) && !forceDefaults then n else n + PaddingBytes(n, size) + size
    case Ref(_, off) => if off == 0 then n else n + PaddingBytes(n, 4) + 4
  }

  /** The vtable's last slot after the calls that stored something. */
  function MaxId(inputs: seq<Input>, forceDefaults: bool): (m: nat) {
    if inputs == [] then 0
    else
      var k := |inputs| - 1;
      var m := MaxId(inputs[..k], forceDefaults);
      if Skipped(inputs[k], forceDefaults) || inputs[k].id <= m then m else inputs[k].id
  }

  predicate Skipped(i: Input, forceDefaults: bool) {
    match i
    case Scalar(_, kind, size, bits, default) => IsTheSameAs(kind, size, bits, default) && !forceDefaults
    case Ref(_, off) => off == 0
  }

  lemma {:induction false} SizesMonotone(n: nat, inputs: seq<Input>, forceDefaults: bool, k: nat)
    requires k <= |inputs| && forall i :: 0 <= i < |inputs| ==> InputOk(inputs[i])
    ensures SizeAfter(n, inputs[..k], forceDefaults) <= SizeAfter(n, inputs, forceDefaults)
    decreases |inputs|
  {
    if k == |inputs| {
      assert inputs[..k] == inputs;
    } else {
      SizesMonotone(n, inputs[..|inputs| - 1], forceDefaults, k);
      assert inputs[..|inputs| - 1][..k] == inputs[..k];
    }
  }

  method AddInput(b: FlatBufferBuilder, i: Input)
    requires b.Valid() && b.nested && InputOk(i) && Locate(b.pending, i.id) == |b.pending|
    requires i.Ref? && i.off != 0 ==> i.off in b.objs
    requires SizeAfterOne(|b.data|, i, b.forceDefaults) < MAX_BUFFER_SIZE
    modifies b`data, b`minalign, b`locs, b`maxVOffset, b`pending
    ensures b.Valid() && b.pending == old(b.pending) + FieldOf(i, b.objs, b.forceDefaults)
    ensures |b.data| == SizeAfterOne(|old(b.data)|, i, b.forceDefaults)
    ensures b.maxVOffset == if Skipped(i, b.forceDefaults) || i.id <= old(b.maxVOffset) then old(b.maxVOffset) else i.id
  {
    hide FlatBufferBuilder.Valid, Locate;
    match i
    case Scalar(id, kind, size, bits, default) => b.AddElement(id, kind, size, bits, default);
    case Ref(id, off) => b.AddOffset(id, off);
  }

  lemma NoInputs(n: nat, objs: map<nat, Obj>, forceDefaults: bool)
    ensures RefsKnown([], objs) && FieldsOf([], objs, forceDefaults) == []
    ensures SizeAfter(n, [], forceDefaults) == n && MaxId([], forceDefaults) == 0
  {
  }

  /** What the `i`th call finds and adds. */
  lemma OneMoreInput(n: nat, inputs: seq<Input>, objs: map<nat, Obj>, forceDefaults: bool, i: nat)
    requires InputsOk(inputs) && RefsKnown(inputs, objs) && i < |inputs|
    ensures InputOk(inputs[i]) && (inputs[i].Ref? && inputs[i].off != 0 ==> inputs[i].off in objs)
    ensures RefsKnown(inputs[..i], objs) && RefsKnown(inputs[..i + 1], objs)
    ensures var fs := FieldsOf(inputs[..i], objs, forceDefaults);
            && Locate(fs, inputs[i].id) == |fs|
            && FieldsOf(inputs[..i + 1], objs, forceDefaults) == fs + FieldOf(inputs[i], objs, forceDefaults)
    ensures SizeAfterOne(SizeAfter(n, inputs[..i], forceDefaults), inputs[i], forceDefaults)
            == SizeAfter(n, inputs[..i + 1], forceDefaults) <= SizeAfter(n, inputs, forceDefaults)
    ensures MaxId(inputs[..i + 1], forceDefaults)
            == (var m := MaxId(inputs[..i], forceDefaults);
                if Skipped(inputs[i], forceDefaults) || inputs[i].id <= m then m else inputs[i].id)
  {
    hide Locate, InputOk, FieldOf, SizeAfterOne, Skipped;
    assert inputs[..i + 1][..i] == inputs[..i];
    SizesMonotone(n, inputs, forceDefaults, i + 1);
  }

  /** The size the table under construction reaches, soffset included, from a buffer of `m` bytes. */
  function EndAfter(m: nat): nat { m + PaddingBytes(m, 4) + 4 }

  /** `StartTable`, the calls, `EndTable`. */
  method WriteTable(b: FlatBufferBuilder, inputs: seq<Input>) returns (t: nat)
    requires b.Valid() && !b.nested && InputsOk(inputs) && RefsKnown(inputs, b.objs)
    requires EndAfter(SizeAfter(|b.data|, inputs, b.forceDefaults)) - |b.data| < 0x1_0000
    requires EndAfter(SizeAfter(|b.data|, inputs, b.forceDefaults)) + VTableSize(MaxId(inputs, b.forceDefaults))
             < MAX_BUFFER_SIZE
    modifies b
    ensures b.Valid() && !b.nested && t !in old(b.objs)
    ensures b.objs == old(b.objs)[t := TableObj(FieldsOf(inputs, old(b.objs), b.forceDefaults))]
    ensures b.stringPool == old(b.stringPool)
  {
    hide FlatBufferBuilder.Valid, InputOk, FieldOf, SizeAfterOne, Skipped, SizeAfter, MaxId, FieldsOf, Locate,
      RefsKnown, FieldId, VTableSize;
    var start := b.StartTable();
    NoInputs(start, b.objs, b.forceDefaults);
    assert inputs[..|inputs|] == inputs;
    for i := 0 to |inputs|
      invariant b.Valid() && b.nested && b.tableStart == start && b.objs == old(b.objs)
      invariant b.stringPool == old(b.stringPool)
      invariant RefsKnown(inputs[..i], b.objs) && b.pending == FieldsOf(inputs[..i], b.objs, b.forceDefaults)
      invariant |b.data| == SizeAfter(start, inputs[..i], b.forceDefaults)
      invariant b.maxVOffset == MaxId(inputs[..i], b.forceDefaults)
    {
      OneMoreInput(start, inputs, b.objs, b.forceDefaults, i);
      AddInput(b, inputs[i]);
    }
    t := b.EndTable(start);
  }

  predicate LosesSign(i: Input, forceDefaults: bool)
    requires i.Scalar?
  {
    && i.kind.Floating? && !forceDefaults
    && IsZero(i.size, i.bits) && IsZero(i.size, i.default) && i.bits != i.default
  }

  lemma SkippedValue(i: Input, forceDefaults: bool)
    requires InputOk(i) && i.Scalar? && (i.kind.Floating? ==> i.size >= 4)
    ensures IsTheSameAs(i.kind, i.size, i.bits, i.default) && !forceDefaults ==>
              (i.bits == i.default <==> !LosesSign(i, forceDefaults))
              && IsTheSameAs(i.kind, i.size, i.default, i.bits)
    ensures LosesSign(i, forceDefaults) ==> IsTheSameAs(i.kind, i.size, i.bits, i.default)
  {
    Pow256Values();
  }

  /**
   Written, then read: whichever calls filled the table, wherever its vtable is, and whatever has been
   built since, `GetField` gives the bits passed to `AddElement`, stored or not. The one exception is a
   floating-point zero whose default is the zero of the other sign: it is taken for the default.
   */
  lemma WrittenThenRead(data: Str, t: nat, inputs: seq<Input>, objs: map<nat, Obj>, forceDefaults: bool, i: nat)
    requires InputsOk(inputs) && RefsKnown(inputs, objs) && i < |inputs|
    requires ObjAt(data, t, TableObj(FieldsOf(inputs, objs, forceDefaults)))
    ensures TableAt(data, t)
    ensures inputs[i].Scalar? ==>
              var fo := FieldOffset(data, t, inputs[i].id);
              && (fo != 0 ==> InUse(data, t - fo, inputs[i].size))
              && var v := GetField(data, t, inputs[i].id, inputs[i].size, inputs[i].default);
              && (v == inputs[i].bits <==> !LosesSign(inputs[i], forceDefaults))
              && (v == inputs[i].bits || IsTheSameAs(inputs[i].kind, inputs[i].size, v, inputs[i].bits))
    ensures inputs[i].Ref? ==>
              var fo := FieldOffset(data, t, inputs[i].id);
              if inputs[i].off == 0 then fo == 0 else fo > 0 && RefAt(data, t - fo, objs[inputs[i].off])
  {
    hide ObjAt, RefAt, TableAt, FieldsOf, GetField, FieldOffset;
    var fields := FieldsOf(inputs, objs, forceDefaults);
    LocateInput(inputs, objs, forceDefaults, i);
    match inputs[i]
    case Scalar(id, _, size, bits, default) =>
      SkippedValue(inputs[i], forceDefaults);
      FieldReads(data, t, fields, id, size, default);
    case Ref(id, off) =>
      if off == 0 { AbsentField(data, t, fields, id); } else { FieldLeadsTo(data, t, fields, id); }
  }

  lemma AbsentField(data: Str, t: nat, fields: seq<Field>, id: nat)
    requires ObjAt(data, t, TableObj(fields)) && FieldId(id) && Locate(fields, id) == |fields|
    ensures TableAt(data, t) && FieldOffset(data, t, id) == 0
  {
    assert OthersAbsent(data, t, fields);
  }

  /** A field no call mentions reads as absent. */
  lemma NeverWritten(data: Str, t: nat, inputs: seq<Input>, objs: map<nat, Obj>, forceDefaults: bool, id: nat)
    requires RefsKnown(inputs, objs) && FieldId(id) && forall i :: 0 <= i < |inputs| ==> inputs[i].id != id
    requires ObjAt(data, t, TableObj(FieldsOf(inputs, objs, forceDefaults)))
    ensures TableAt(data, t) && FieldOffset(data, t, id) == 0
  {
    AbsentField(data, t, FieldsOf(inputs, objs, forceDefaults), id);
  }

  // ---- Shared strings ----

  /** Any run of `CreateSharedString` calls: offsets are equal exactly for equal strings. */
  method ShareAll(b: FlatBufferBuilder, ss: seq<Str>) returns (offs: seq<nat>)
    requires b.Valid() && !b.nested && |b.data| + TotalSize(ss) < MAX_BUFFER_SIZE
    modifies b`data, b`minalign, b`objs, b`stringPool
    ensures b.Valid() && |offs| == |ss|
    ensures forall i :: 0 <= i < |ss| ==> offs[i] in b.objs && ObjAt(b.data, offs[i], StringObj(ss[i]))
    ensures forall i, j :: 0 <= i < |ss| && 0 <= j < |ss| ==> (offs[i] == offs[j] <==> ss[i] == ss[j])
  {
    hide FlatBufferBuilder.Valid, ObjAt, TotalSize;
    offs := [];
    assert ss[..|ss|] == ss;
    NothingToStore(ss);
    for i := 0 to |ss|
      invariant b.Valid() && |offs| == i && |b.data| <= |old(b.data)| + TotalSize(ss[..i])
      invariant forall k :: 0 <= k < i ==>
                  offs[k] in b.stringPool && offs[k] in b.objs && b.objs[offs[k]] == StringObj(ss[k])
    {
      OneMoreString(ss, i);
      var off := b.CreateSharedString(ss[i]);
      offs := offs + [off];
    }
    forall i | 0 <= i < |ss|
      ensures ObjAt(b.data, offs[i], StringObj(ss[i]))
    {
      b.KnownObject(offs[i]);
    }
    forall i, j | 0 <= i < |ss| && 0 <= j < |ss|
      ensures offs[i] == offs[j] <==> ss[i] == ss[j]
    {
      b.PooledOnce(offs[i], offs[j]);
    }
  }

  function TotalSize(ss: seq<Str>): nat {
    if ss == [] then 0 else TotalSize(ss[..|ss| - 1]) + |ss[|ss| - 1]| + 8
  }

  lemma NothingToStore(ss: seq<Str>)
    ensures TotalSize(ss[..0]) == 0
  {
  }

  lemma OneMoreString(ss: seq<Str>, i: nat)
    requires i < |ss|
    ensures TotalSize(ss[..i + 1]) == TotalSize(ss[..i]) + |ss[i]| + 8 <= TotalSize(ss)
  {
    assert ss[..i + 1][..i] == ss[..i];
    TotalSizeMonotone(ss, i + 1);
  }

  lemma {:induction false} TotalSizeMonotone(ss: seq<Str>, k: nat)
    requires k <= |ss|
    ensures TotalSize(ss[..k]) <= TotalSize(ss)
    decreases |ss|
  {
    if k == |ss| {
      assert ss[..k] == ss;
    } else {
      TotalSizeMonotone(ss[..|ss| - 1], k);
      assert ss[..|ss| - 1][..k] == ss[..k];
    }
  }
}
