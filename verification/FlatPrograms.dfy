/**
 Whole runs of a `FlatBufferBuilder`: any sequence of strings, shared strings, vectors and tables, each referring
 to results of earlier calls.

 `Meaning` says what a run builds without a buffer, an offset or an option of the builder; `Run` builds exactly that.
 */
module FlatPrograms {
  import opened Bytes
  import opened Options
  import opened FlatFormat
  import opened FlatWriter
  import opened FlatBuilder
  import opened FlatTables
  import opened FlatSchema
  import opened FlatVerifier
  import opened FlatRoundTrip

  /**
   One call. References name the result of the call before which `k` others were made as `k + 1`, so that 0 is
   still the null offset.
   */
  datatype Call =
    | MakeString(s: Str)
    | MakeShared(s: Str)
    | MakeScalars(size: nat, elems: seq<nat>)
    | MakeVector(names: seq<nat>)
    | MakeTable(inputs: seq<Input>)

  /** A call that refers to the results of the first `n` calls only. */
  predicate CallOk(c: Call, n: nat) {
    match c
    case MakeString(_) => true
    case MakeShared(_) => true
    case MakeScalars(size, elems) => IsWidth(size) && forall k :: 0 <= k < |elems| ==> elems[k] < Pow256(size)
    case MakeVector(names) => forall k :: 0 <= k < |names| ==> 0 < names[k] <= n
    case MakeTable(inputs) => InputsOk(inputs) && forall k :: 0 <= k < |inputs| && inputs[k].Ref? ==> inputs[k].off <= n
  }

  predicate CallsOk(calls: seq<Call>) {
    forall i :: 0 <= i < |calls| ==> CallOk(calls[i], i)
  }

  // ---- What a run builds ----

  /** Results by name. */
  ghost function Named(objs: seq<Obj>): (m: map<nat, Obj>)
    ensures forall k :: k in m <==> 0 < k <= |objs|
    ensures forall k :: 0 < k <= |objs| ==> m[k] == objs[k - 1]
  {
    if objs == [] then map[] else Named(objs[..|objs| - 1])[|objs| := objs[|objs| - 1]]
  }

  function Picked<T>(names: seq<nat>, xs: seq<T>): (ys: seq<T>)
    requires forall k :: 0 <= k < |names| ==> 0 < names[k] <= |xs|
    ensures |ys| == |names| && forall k :: 0 <= k < |names| ==> ys[k] == xs[names[k] - 1]
  {
    seq(|names|, k requires 0 <= k < |names| => xs[names[k] - 1])
  }

  ghost function MeaningOf(c: Call, objs: seq<Obj>, forceDefaults: bool): Obj
    requires CallOk(c, |objs|)
  {
    match c
    case MakeString(s) => StringObj(s)
    case MakeShared(s) => StringObj(s)
    case MakeScalars(size, elems) => ScalarVector(size, elems)
    case MakeVector(names) => OffsetVector(Picked(names, objs))
    case MakeTable(inputs) => TableObj(FieldsOf(inputs, Named(objs), forceDefaults))
  }

  /** What each call of the run stands for. */
  ghost function Meaning(calls: seq<Call>, forceDefaults: bool): (objs: seq<Obj>)
    requires CallsOk(calls)
    ensures |objs| == |calls|
  {
    if calls == [] then []
    else
      var n := |calls| - 1;
      var objs := Meaning(calls[..n], forceDefaults);
      objs + [MeaningOf(calls[n], objs, forceDefaults)]
  }

  lemma {:induction false} MeaningPrefix(calls: seq<Call>, forceDefaults: bool, n: nat)
    requires CallsOk(calls) && n <= |calls|
    ensures CallsOk(calls[..n]) && Meaning(calls[..n], forceDefaults) == Meaning(calls, forceDefaults)[..n]
    decreases |calls|
  {
    if n == |calls| {
      assert calls[..n] == calls;
    } else {
      var m := |calls| - 1;
      MeaningPrefix(calls[..m], forceDefaults, n);
      assert calls[..m][..n] == calls[..n];
    }
  }

  // ---- Names and offsets ----

  /** The offset each name got. */
  function Resolve(name: nat, offs: seq<nat>): nat
    requires name <= |offs|
  {
    if name == 0 then 0 else offs[name - 1]
  }

  function ResolveInput(i: Input, offs: seq<nat>): Input
    requires i.Ref? ==> i.off <= |offs|
  {
    if i.Ref? then Ref(i.id, Resolve(i.off, offs)) else i
  }

  function ResolveAll(inputs: seq<Input>, offs: seq<nat>): (rs: seq<Input>)
    requires forall k :: 0 <= k < |inputs| && inputs[k].Ref? ==> inputs[k].off <= |offs|
    ensures |rs| == |inputs| && forall k :: 0 <= k < |inputs| ==> rs[k] == ResolveInput(inputs[k], offs)
  {
    seq(|inputs|, k requires 0 <= k < |inputs| => ResolveInput(inputs[k], offs))
  }

  /** The builder holds the results so far at these offsets. */
  ghost predicate Holds(known: map<nat, Obj>, offs: seq<nat>, objs: seq<Obj>) {
    |offs| == |objs| && forall k :: 0 <= k < |offs| ==> 0 < offs[k] && offs[k] in known && known[offs[k]] == objs[k]
  }

  lemma ResolvedOk(inputs: seq<Input>, offs: seq<nat>, objs: seq<Obj>, known: map<nat, Obj>)
    requires Holds(known, offs, objs) && CallOk(MakeTable(inputs), |offs|)
    ensures var rs := ResolveAll(inputs, offs); InputsOk(rs) && RefsKnown(rs, known) && RefsKnown(inputs, Named(objs))
  {
    var rs := ResolveAll(inputs, offs);
    forall k | 0 <= k < |rs|
      ensures InputOk(rs[k])
    {
      assert InputOk(inputs[k]);
    }
  }

  /** Fields do not depend on where the objects they refer to are. */
  lemma {:induction false} ResolvedFields(inputs: seq<Input>, offs: seq<nat>, objs: seq<Obj>, known: map<nat, Obj>,
                                          forceDefaults: bool)
    requires Holds(known, offs, objs)
    requires forall k :: 0 <= k < |inputs| && inputs[k].Ref? ==> inputs[k].off <= |offs|
    requires RefsKnown(ResolveAll(inputs, offs), known) && RefsKnown(inputs, Named(objs))
    ensures FieldsOf(ResolveAll(inputs, offs), known, forceDefaults) == FieldsOf(inputs, Named(objs), forceDefaults)
  {
    hide FieldOf, Named, Holds, ResolveInput;
    if inputs != [] {
      var n := |inputs| - 1;
      assert ResolveAll(inputs, offs)[..n] == ResolveAll(inputs[..n], offs);
      KnownPrefix(inputs, Named(objs), n);
      KnownPrefix(ResolveAll(inputs, offs), known, n);
      ResolvedFields(inputs[..n], offs, objs, known, forceDefaults);
      ResolvedField(inputs[n], offs, objs, known, forceDefaults);
    }
  }

  lemma KnownPrefix(inputs: seq<Input>, known: map<nat, Obj>, n: nat)
    requires RefsKnown(inputs, known) && n < |inputs|
    ensures RefsKnown(inputs[..n], known) && (inputs[n].Ref? && inputs[n].off != 0 ==> inputs[n].off in known)
  {
  }

  lemma ResolvedField(i: Input, offs: seq<nat>, objs: seq<Obj>, known: map<nat, Obj>, forceDefaults: bool)
    requires Holds(known, offs, objs) && (i.Ref? ==> i.off <= |offs|)
    ensures var r := ResolveInput(i, offs);
            (r.Ref? && r.off != 0 ==> r.off in known) && (i.Ref? && i.off != 0 ==> i.off in Named(objs))
            && FieldOf(r, known, forceDefaults) == FieldOf(i, Named(objs), forceDefaults)
  {
    hide Named, StoredScalar;
  }

  // ---- Running ----

  /** The assertions of the source on sizes, before the call is made. */
  predicate Fits(c: Call, data: Str, offs: seq<nat>, forceDefaults: bool)
    requires CallOk(c, |offs|)
  {
    match c
    case MakeString(s) => |PushString(data, s)| < MAX_BUFFER_SIZE
    case MakeShared(s) => |PushString(data, s)| < MAX_BUFFER_SIZE
    case MakeScalars(size, elems) => |PushScalars(data, size, elems)| < MAX_BUFFER_SIZE
    case MakeVector(names) => |PreAligned(data, 4 * |names|, 4)| + 4 * |names| + 4 < MAX_BUFFER_SIZE
    case MakeTable(inputs) =>
      var rs := ResolveAll(inputs, offs);
      (forall k :: 0 <= k < |rs| ==> InputOk(rs[k]))
      && EndAfter(SizeAfter(|data|, rs, forceDefaults)) - |data| < 0x1_0000
      && EndAfter(SizeAfter(|data|, rs, forceDefaults)) + VTableSize(MaxId(rs, forceDefaults)) < MAX_BUFFER_SIZE
  }

  /** Objects known before are known still, as the same. */
  ghost predicate Keeps(known: map<nat, Obj>, known': map<nat, Obj>) {
    forall off :: off in known ==> off in known' && known'[off] == known[off]
  }

  method MakeOne(b: FlatBufferBuilder, c: Call, offs: seq<nat>, ghost objs: seq<Obj>) returns (off: nat)
    requires b.Valid() && !b.nested && Holds(b.objs, offs, objs) && CallOk(c, |offs|)
    requires Fits(c, b.data, offs, b.forceDefaults)
    modifies b
    ensures b.Valid() && !b.nested && Keeps(old(b.objs), b.objs) && old(b.stringPool) <= b.stringPool
    ensures off > 0 && off in b.objs && b.objs[off] == MeaningOf(c, objs, b.forceDefaults)
    ensures c.MakeShared? ==> off in b.stringPool
  {
    hide FlatBufferBuilder.Valid, MeaningOf, Fits, CallOk;
    match c {
      case MakeVector(names) => off := MakeVectorOf(b, names, offs, objs);
      case MakeTable(inputs) => off := MakeTableOf(b, inputs, offs, objs);
      case _ => off := MakeLeaf(b, c, offs, objs);
    }
    b.KnownObject(off);
  }

  predicate IsLeaf(c: Call) { c.MakeString? || c.MakeShared? || c.MakeScalars? }

  method MakeLeaf(b: FlatBufferBuilder, c: Call, offs: seq<nat>, ghost objs: seq<Obj>) returns (off: nat)
    requires b.Valid() && !b.nested && IsLeaf(c) && |offs| == |objs| && CallOk(c, |offs|)
    requires Fits(c, b.data, offs, b.forceDefaults)
    modifies b`data, b`minalign, b`objs, b`stringPool
    ensures b.Valid() && Keeps(old(b.objs), b.objs) && old(b.stringPool) <= b.stringPool
    ensures off in b.objs && b.objs[off] == MeaningOf(c, objs, b.forceDefaults)
    ensures c.MakeShared? ==> off in b.stringPool
  {
    hide FlatBufferBuilder.Valid, PushString, PushScalars;
    match c
    case MakeString(s) => off := b.CreateString(s);
    case MakeShared(s) => off := b.CreateSharedString(s);
    case MakeScalars(size, elems) => off := b.CreateScalarVector(size, elems);
  }

  method MakeVectorOf(b: FlatBufferBuilder, names: seq<nat>, offs: seq<nat>, ghost objs: seq<Obj>) returns (off: nat)
    requires b.Valid() && !b.nested && Holds(b.objs, offs, objs) && CallOk(MakeVector(names), |offs|)
    requires Fits(MakeVector(names), b.data, offs, b.forceDefaults)
    modifies b`data, b`minalign, b`objs
    ensures b.Valid() && off !in old(b.objs)
    ensures b.objs == old(b.objs)[off := MeaningOf(MakeVector(names), objs, b.forceDefaults)]
  {
    hide FlatBufferBuilder.Valid, PreAligned;
    var at := Picked(names, offs);
    assert ObjsOf(b.objs, at) == Picked(names, objs);
    off := b.CreateOffsetVector(at);
  }

  method MakeTableOf(b: FlatBufferBuilder, inputs: seq<Input>, offs: seq<nat>, ghost objs: seq<Obj>)
    returns (off: nat)
    requires b.Valid() && !b.nested && Holds(b.objs, offs, objs) && CallOk(MakeTable(inputs), |offs|)
    requires Fits(MakeTable(inputs), b.data, offs, b.forceDefaults)
    modifies b
    ensures b.Valid() && !b.nested && off !in old(b.objs) && b.stringPool == old(b.stringPool)
    ensures b.objs == old(b.objs)[off := MeaningOf(MakeTable(inputs), objs, b.forceDefaults)]
  {
    hide FlatBufferBuilder.Valid, SizeAfter, MaxId, InputsOk, InputOk, FieldsOf, RefsKnown, Named, ResolveInput;
    ResolvedOk(inputs, offs, objs, b.objs);
    ResolvedFields(inputs, offs, objs, b.objs, b.forceDefaults);
    off := WriteTable(b, ResolveAll(inputs, offs));
  }

  lemma HoldsStill(known: map<nat, Obj>, known': map<nat, Obj>, offs: seq<nat>, objs: seq<Obj>)
    requires Holds(known, offs, objs) && Keeps(known, known')
    ensures Holds(known', offs, objs)
  {
  }

  /**
   Run the calls until one fails an assertion on sizes. Whatever came in between, every result so far is still
   at its offset and stands for its meaning; shared strings have one offset if and only if they are equal.
   */
  method Run(b: FlatBufferBuilder, calls: seq<Call>) returns (offs: seq<nat>)
    requires b.Valid() && !b.nested && CallsOk(calls)
    modifies b
    ensures b.Valid() && !b.nested && Keeps(old(b.objs), b.objs)
    ensures |offs| <= |calls|
    ensures |offs| < |calls| ==> !Fits(calls[|offs|], b.data, offs, b.forceDefaults)
    ensures Holds(b.objs, offs, Meaning(calls, b.forceDefaults)[..|offs|])
    ensures forall i :: 0 <= i < |offs| ==> ObjAt(b.data, offs[i], Meaning(calls, b.forceDefaults)[i])
    ensures forall i, j :: 0 <= i < |offs| && 0 <= j < |offs| && calls[i].MakeShared? && calls[j].MakeShared? ==>
              (offs[i] == offs[j] <==> calls[i].s == calls[j].s)
  {
    hide FlatBufferBuilder.Valid, Meaning, MeaningOf, Fits, ObjAt;
    ghost var objs := Meaning(calls, b.forceDefaults);
    offs := [];
    for i := 0 to |calls|
      invariant b.Valid() && !b.nested && |offs| == i && Keeps(old(b.objs), b.objs)
      invariant Holds(b.objs, offs, objs[..i])
      invariant forall k :: 0 <= k < i && calls[k].MakeShared? ==> offs[k] in b.stringPool
    {
      if !Fits(calls[i], b.data, offs, b.forceDefaults) { break; }
      NextMeaning(calls, b.forceDefaults, i);
      ghost var known := b.objs;
      var off := MakeOne(b, calls[i], offs, objs[..i]);
      HoldsStill(known, b.objs, offs, objs[..i]);
      offs := offs + [off];
    }
    forall i | 0 <= i < |offs|
      ensures ObjAt(b.data, offs[i], objs[i])
    {
      b.KnownObject(offs[i]);
    }
    forall i, j | 0 <= i < |offs| && 0 <= j < |offs| && calls[i].MakeShared? && calls[j].MakeShared?
      ensures offs[i] == offs[j] <==> calls[i].s == calls[j].s
    {
      SharedMeaning(calls, b.forceDefaults, i);
      SharedMeaning(calls, b.forceDefaults, j);
      b.PooledOnce(offs[i], offs[j]);
    }
  }

  /**
   From calls to a verified buffer and back, the last call being the root: unless an assertion on sizes fails,
   the buffer is accepted if and only if the tables that were meant are within the limits, and is read back as
   what was meant. Neither depends on deduplication, identifier or size prefix.
   */
  method Serialize(calls: seq<Call>, forceDefaults: bool, dedupVTables: bool, fileId: Option<Str>, sizePrefix: bool,
                   schema: Schema, t: nat, maxDepth: nat, maxTables: nat)
    returns (fits: bool, ok: bool, r: Option<Obj>)
    requires CallsOk(calls) && calls != [] && SchemaOk(schema) && t < |schema|
    requires Conforms(schema, t, Meaning(calls, forceDefaults)[|calls| - 1])
    requires fileId.Some? ==> |fileId.value| == 4 && 0 !in fileId.value
    requires maxDepth < 0xFFFF_FFFF && maxTables < 0xFFFF_FFFF
    ensures var root := Meaning(calls, forceDefaults)[|calls| - 1];
            var load := ObjLoad(schema, t, root);
            fits ==> ok == (load.height <= maxDepth && load.visits <= maxTables)
                     && (ok ==> r == Some(Project(schema, t, root)))
  {
    hide FlatBufferBuilder.Valid, Meaning, ObjAt, Conforms, ObjLoad, Project, SchemaOk, GoodId, BeforeRoot, FinishBytes,
         RefFits, Fits;
    var b := new FlatBufferBuilder(forceDefaults, dedupVTables);
    var offs := Run(b, calls);
    if |offs| < |calls| { return false, false, None; }
    var root := offs[|calls| - 1];
    b.KnownObject(root);
    b.MinAlignIsWidth();
    if !RefFits(BeforeRoot(b.data, fileId, sizePrefix, b.minalign)) { return false, false, None; }
    if sizePrefix && |FinishBytes(b.data, root, fileId, sizePrefix, b.minalign)| >= MAX_BUFFER_SIZE {
      return false, false, None;
    }
    fits := true;
    ok, r := FinishThenVerify(b, root, fileId, sizePrefix, schema, t, fileId, maxDepth, maxTables);
    assert fileId.None? ==> GoodId(b.data, if sizePrefix then 4 else 0, fileId) by { AnyId(b.data, sizePrefix); }
  }

  lemma AnyId(buf: Str, sizePrefix: bool)
    ensures GoodId(buf, if sizePrefix then 4 else 0, None)
  {
  }

  lemma NextMeaning(calls: seq<Call>, forceDefaults: bool, i: nat)
    requires CallsOk(calls) && i < |calls|
    ensures var objs := Meaning(calls, forceDefaults); objs[i] == MeaningOf(calls[i], objs[..i], forceDefaults)
  {
    hide MeaningOf;
    MeaningPrefix(calls, forceDefaults, i + 1);
    MeaningPrefix(calls, forceDefaults, i);
    assert calls[..i + 1][..i] == calls[..i];
  }

  lemma SharedMeaning(calls: seq<Call>, forceDefaults: bool, i: nat)
    requires CallsOk(calls) && i < |calls| && calls[i].MakeShared?
    ensures Meaning(calls, forceDefaults)[i] == StringObj(calls[i].s)
  {
    NextMeaning(calls, forceDefaults, i);
  }
}
