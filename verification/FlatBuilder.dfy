/**
 `FlatBufferBuilder`: strings, vectors and tables are prepended to a buffer and named by their offset
 from its end.

 The ghost map `objs` records what was stored at every offset ever handed out. The class invariant says
 that all of it is still there, after any sequence of operations.
 */
module FlatBuilder {
  import opened Bytes
  import opened Options
  import opened FlatFormat
  import opened FlatPool
  import opened FlatScalars
  import opened FlatWriter

  ghost predicate ObjsOk(data: Str, objs: map<nat, Obj>, m: nat) {
    forall off :: off in objs ==> 0 < off && ObjAt(data, off, objs[off]) && Within(objs[off], m)
  }

  lemma ObjsStable(data: Str, data': Str, objs: map<nat, Obj>, m: nat, m': nat)
    requires Grown(data, data') && ObjsOk(data, objs, m) && m <= m'
    ensures ObjsOk(data', objs, m')
  {
    hide ObjAt, Within, Grown;
    forall off | off in objs
      ensures ObjAt(data', off, objs[off]) && Within(objs[off], m')
    {
      ObjStable(data, data', off, objs[off]);
      WithinMore(objs[off], m, m');
    }
  }

  lemma PendingStable(data: Str, data': Str, locs: seq<FieldLoc>, fields: seq<Field>)
    requires Grown(data, data') && PendingOk(data, locs, fields)
    ensures PendingOk(data', locs, fields)
  {
    hide ValueAt, Grown;
    forall i | 0 <= i < |locs|
      ensures ValueAt(data', locs[i].off, fields[i])
    {
      ValueStable(data, data', locs[i].off, fields[i]);
    }
  }

  /** Pooled strings: offsets of strings, no two alike. */
  ghost predicate PoolOk(objs: map<nat, Obj>, pool: set<nat>) {
    && (forall p :: p in pool ==> p in objs && objs[p].StringObj?)
    && (forall p, q :: p in pool && q in pool && objs[p] == objs[q] ==> p == q)
  }

  lemma PoolAdds(objs: map<nat, Obj>, pool: set<nat>, off: nat)
    requires PoolOk(objs, pool) && off in objs && objs[off].StringObj?
    requires forall p :: p in pool ==> objs[p] != objs[off]
    ensures PoolOk(objs, pool + {off})
  {
  }

  ghost predicate FieldsWithin(fields: seq<Field>, m: nat) {
    forall i :: 0 <= i < |fields| ==> FieldWithin(fields[i], m)
  }

  lemma FieldsWithinMore(fields: seq<Field>, m: nat, m': nat)
    requires FieldsWithin(fields, m) && m <= m'
    ensures FieldsWithin(fields, m')
  {
    forall i | 0 <= i < |fields|
      ensures FieldWithin(fields[i], m')
    {
      if fields[i].RefField? { WithinMore(fields[i].obj, m, m'); }
    }
  }

  ghost function ObjsOf(objs: map<nat, Obj>, offs: seq<nat>): (os: seq<Obj>)
    requires forall i :: 0 <= i < |offs| ==> offs[i] in objs
    ensures |os| == |offs| && forall i :: 0 <= i < |offs| ==> os[i] == objs[offs[i]]
  {
    seq(|offs|, i requires 0 <= i < |offs| => objs[offs[i]])
  }

  /** A field `AddElement` stores: nothing for a default value, unless defaults are forced. */
  function StoredScalar(id: nat, kind: Comparison, size: nat, bits: nat, default: nat, forceDefaults: bool): seq<Field>
  {
    if IsTheSameAs(kind, size, bits, default) && !forceDefaults then [] else [ScalarField(id, size, bits)]
  }

  lemma TableWithin(fields: seq<Field>, m: nat)
    requires FieldsWithin(fields, m) && 4 <= m
    ensures Within(TableObj(fields), m)
  {
  }

  function Larger(a: nat, b: nat): nat { if b > a then b else a }

  class FlatBufferBuilder {
    var data: Str
    var vtables: seq<nat>
    var locs: seq<FieldLoc>
    var maxVOffset: nat
    var nested: bool
    var finished: bool
    var minalign: nat
    var stringPool: set<nat>
    const forceDefaults: bool
    const dedupVTables: bool

    /** What every offset returned so far stands for. */
    ghost var objs: map<nat, Obj>
    /** The fields of the table under construction. */
    ghost var pending: seq<Field>
    ghost var tableStart: nat

    ghost predicate Valid()
      reads this
    {
      && |data| <= MAX_BUFFER_SIZE && IsWidth(minalign)
      && ObjsOk(data, objs, minalign)
      && VTablesOk(data, vtables) && (dedupVTables ==> VTablesDistinct(data, vtables))
      && PendingOk(data, locs, pending) && FieldsWithin(pending, minalign)
      && tableStart <= |data| && LocsWithin(locs, tableStart, |data|, maxVOffset)
      && (!nested ==> locs == [] && maxVOffset == 0)
      && PoolOk(objs, stringPool)
    }

    constructor (forceDefaults: bool, dedupVTables: bool)
      ensures Valid() && data == [] && objs == map[] && !nested && !finished && stringPool == {} && vtables == []
      ensures minalign == 1 && locs == [] && maxVOffset == 0
      ensures this.forceDefaults == forceDefaults && this.dedupVTables == dedupVTables
    {
      this.forceDefaults, this.dedupVTables := forceDefaults, dedupVTables;
      data, vtables, locs, maxVOffset := [], [], [], 0;
      nested, finished, minalign, stringPool := false, false, 1, {};
      objs, pending, tableStart := map[], [], 0;
    }

    /** Growing the buffer, and tracking a larger alignment, keeps every offset's meaning. */
    lemma GrowthKeepsValid(before: Str, minBefore: nat)
      requires Grown(before, data) && minBefore <= minalign && IsWidth(minalign) && |data| <= MAX_BUFFER_SIZE
      requires ObjsOk(before, objs, minBefore) && VTablesOk(before, vtables)
      requires dedupVTables ==> VTablesDistinct(before, vtables)
      requires PendingOk(before, locs, pending) && FieldsWithin(pending, minBefore)
      requires tableStart <= |before| && LocsWithin(locs, tableStart, |before|, maxVOffset)
      requires !nested ==> locs == [] && maxVOffset == 0
      requires PoolOk(objs, stringPool)
      ensures Valid()
    {
      hide ObjsOk, VTablesOk, VTablesDistinct, PendingOk, PoolOk, FieldsWithin;
      ObjsStable(before, data, objs, minBefore, minalign);
      VTablesKept(before, data, vtables, []);
      PendingStable(before, data, locs, pending);
      FieldsWithinMore(pending, minBefore, minalign);
    }

    method TrackMinAlign(size: nat)
      requires Valid() && IsWidth(size)
      modifies this`minalign
      ensures Valid() && minalign == Larger(old(minalign), size)
    {
      if size > minalign {
        ghost var before := minalign;
        minalign := size;
        GrowthKeepsValid(data, before);
      }
    }

    /** Replace the buffer by a grown one. */
    method Grow(bytes: Str)
      requires Valid() && Grown(data, bytes) && |bytes| <= MAX_BUFFER_SIZE
      modifies this`data
      ensures Valid() && data == bytes
    {
      ghost var before := data;
      data := bytes;
      GrowthKeepsValid(before, minalign);
    }

    lemma KnownObject(off: nat)
      requires Valid() && off in objs
      ensures 0 < off <= |data| && ObjAt(data, off, objs[off]) && Within(objs[off], minalign)
    {
    }

    lemma MinAlignIsWidth()
      requires Valid()
      ensures IsWidth(minalign)
    {
    }

    /** Hand out the newest offset. */
    ghost method Record(off: nat, obj: Obj)
      requires Valid() && 0 < off && off !in objs && ObjAt(data, off, obj) && Within(obj, minalign)
      modifies this`objs
      ensures Valid() && objs == old(objs)[off := obj]
    {
      hide ObjAt, Within;
      objs := objs[off := obj];
    }

    // ---- Strings and vectors ----

    /** `NotNested` is a precondition: children are written before their parent is started. */
    method CreateString(s: Str) returns (off: nat)
      requires Valid() && !nested && |PushString(data, s)| < MAX_BUFFER_SIZE
      modifies this`data, this`minalign, this`objs
      ensures Valid() && off == |data| && off !in old(objs) && objs == old(objs)[off := StringObj(s)]
      ensures data == PushString(old(data), s) && minalign == Larger(old(minalign), 4)
    {
      TrackMinAlign(4);
      PushStringMeans(data, s);
      Grow(PushString(data, s));
      off := |data|;
      Record(off, StringObj(s));
    }

    method CreateScalarVector(size: nat, elems: seq<nat>) returns (off: nat)
      requires Valid() && !nested && IsWidth(size) && |PushScalars(data, size, elems)| < MAX_BUFFER_SIZE
      requires forall k :: 0 <= k < |elems| ==> elems[k] < Pow256(size)
      modifies this`data, this`minalign, this`objs
      ensures Valid() && off == |data| && off !in old(objs) && objs == old(objs)[off := ScalarVector(size, elems)]
      ensures data == PushScalars(old(data), size, elems) && minalign == Larger(Larger(old(minalign), 4), size)
    {
      TrackMinAlign(4);
      TrackMinAlign(size);
      PushScalarsMeans(data, size, elems);
      Grow(PushScalars(data, size, elems));
      off := |data|;
      Record(off, ScalarVector(size, elems));
    }

    /** A vector of strings or tables, by the offsets they were created at. */
    method CreateOffsetVector(offs: seq<nat>) returns (off: nat)
      requires Valid() && !nested && |PreAligned(data, 4 * |offs|, 4)| + 4 * |offs| + 4 < MAX_BUFFER_SIZE
      requires forall i :: 0 <= i < |offs| ==> offs[i] in objs
      modifies this`data, this`minalign, this`objs
      ensures Valid() && off == |data| && off !in old(objs)
      ensures objs == old(objs)[off := OffsetVector(ObjsOf(old(objs), offs))]
      ensures Grown(old(data), data) && |data| == |PreAligned(old(data), 4 * |offs|, 4)| + 4 * |offs| + 4
      ensures minalign == Larger(old(minalign), 4)
    {
      TrackMinAlign(4);
      ghost var os := ObjsOf(objs, offs);
      var bytes := PushRefs(data, offs, os);
      Grow(bytes);
      off := |data|;
      Record(off, OffsetVector(os));
    }

    /** Equal strings share one offset; the buffer does not grow for a string already shared. */
    method CreateSharedString(s: Str) returns (off: nat)
      requires Valid() && !nested && |PushString(data, s)| < MAX_BUFFER_SIZE
      modifies this`data, this`minalign, this`objs, this`stringPool
      ensures Valid() && off in stringPool && off in objs && objs[off] == StringObj(s)
      ensures off in old(stringPool) <==> exists p :: p in old(stringPool) && old(objs)[p] == StringObj(s)
      ensures minalign == Larger(old(minalign), 4)
      ensures off in old(stringPool) ==> data == old(data) && objs == old(objs) && stringPool == old(stringPool)
      ensures off !in old(stringPool) ==> off == |data| && data == PushString(old(data), s)
                                          && off !in old(objs) && objs == old(objs)[off := StringObj(s)]
                                          && stringPool == old(stringPool) + {off}
    {
      hide ObjAt, HasString, StringAt, PushString, ObjsOk, PendingOk, VTablesOk, VTablesDistinct, FieldsWithin,
        LocsWithin, PoolOk, Within;
      var sizeBefore := |data|;
      PooledStrings();
      off := CreateString(s);
      KnownObject(off);
      PooledStrings();
      StringObjHasString(data, off, s);
      var found := FindString(data, stringPool, off);
      if found.Some? {
        data := data[|data| - sizeBefore..];
        objs := old(objs);
        off := found.value;
        GrowthKeepsValid(old(data), old(minalign));
      } else {
        PoolAdds(objs, stringPool, off);
        stringPool := stringPool + {off};
      }
    }

    lemma PooledStrings()
      requires Valid()
      ensures forall p :: p in stringPool ==> p in objs && HasString(data, p) && objs[p] == StringObj(StringAt(data, p))
    {
      hide HasString, StringAt;
      forall p | p in stringPool
        ensures p in objs && HasString(data, p) && objs[p] == StringObj(StringAt(data, p))
      {
        StringObjHasString(data, p, objs[p].s);
      }
    }

    /** Whatever has been built since, two shared offsets are equal exactly when their strings are. */
    lemma PooledOnce(p: nat, q: nat)
      requires Valid() && p in stringPool && q in stringPool
      ensures p in objs && q in objs && (p == q <==> objs[p] == objs[q])
    {
    }

    // ---- Tables ----

    method StartTable() returns (start: nat)
      requires Valid() && !nested
      modifies this`nested, this`tableStart, this`pending
      ensures Valid() && nested && start == tableStart == |data| && pending == [] && maxVOffset == 0
    {
      nested := true;
      start := |data|;
      tableStart := start;
      pending := [];
    }

    /** `TrackField`: remember where the field just pushed is. */
    method TrackField(id: nat, ghost f: Field)
      requires Valid() && nested && FieldId(id) && Locate(pending, id) == |pending| && f.id == id
      requires tableStart < |data| && ValueAt(data, |data|, f) && FieldWithin(f, minalign)
      modifies this`locs, this`maxVOffset, this`pending
      ensures Valid() && pending == old(pending) + [f]
      ensures maxVOffset == if id > old(maxVOffset) then id else old(maxVOffset)
    {
      hide ValueAt, FieldWithin, ObjsOk, VTablesOk, PoolOk;
      assert forall i :: 0 <= i < |locs| ==> locs[i].id == pending[i].id;
      MaxStays(locs, maxVOffset, FieldLoc(|data|, id));
      locs := locs + [FieldLoc(|data|, id)];
      maxVOffset := if id > maxVOffset then id else maxVOffset;
      pending := pending + [f];
    }

    method AddElement(id: nat, kind: Comparison, size: nat, bits: nat, default: nat)
      requires Valid() && nested && FieldId(id) && Locate(pending, id) == |pending|
      requires IsWidth(size) && bits < Pow256(size)
      requires (IsTheSameAs(kind, size, bits, default) && !forceDefaults)
               || |PushScalar(data, size, bits)| < MAX_BUFFER_SIZE
      modifies this`data, this`minalign, this`locs, this`maxVOffset, this`pending
      ensures Valid() && pending == old(pending) + StoredScalar(id, kind, size, bits, default, forceDefaults)
      ensures data == if IsTheSameAs(kind, size, bits, default) && !forceDefaults then old(data)
                      else PushScalar(old(data), size, bits)
      ensures minalign == if IsTheSameAs(kind, size, bits, default) && !forceDefaults then old(minalign)
                          else Larger(old(minalign), size)
      ensures maxVOffset == if (IsTheSameAs(kind, size, bits, default) && !forceDefaults) || id <= old(maxVOffset)
                            then old(maxVOffset) else id
    {
      hide ObjsOk, VTablesOk, VTablesDistinct, PendingOk, LocsWithin, PoolOk, FieldsWithin, PushScalar, Locate,
        IsTheSameAs;
      if IsTheSameAs(kind, size, bits, default) && !forceDefaults { return; }
      TrackMinAlign(size);
      Grow(PushScalar(data, size, bits));
      TrackField(id, ScalarField(id, size, bits));
    }

    method AddOffset(id: nat, off: nat)
      requires Valid() && nested && FieldId(id) && Locate(pending, id) == |pending|
      requires off != 0 ==> off in objs && RefFits(data)
      modifies this`data, this`minalign, this`locs, this`maxVOffset, this`pending
      ensures Valid() && pending == old(pending) + if off == 0 then [] else [RefField(id, objs[off])]
      ensures data == if off == 0 then old(data) else PushRef(old(data), off)
      ensures minalign == if off == 0 then old(minalign) else Larger(old(minalign), 4)
      ensures maxVOffset == if off == 0 || id <= old(maxVOffset) then old(maxVOffset) else id
    {
      hide Valid, ObjAt, RefAt, PushRef, Within, Locate;
      if off == 0 { return; }
      TrackMinAlign(4);
      KnownObject(off);
      PushRefMeans(data, off, objs[off]);
      Grow(PushRef(data, off));
      TrackField(id, RefField(id, objs[off]));
    }

    method ClearOffsets()
      requires Valid()
      modifies this`locs, this`maxVOffset, this`pending
      ensures Valid() && locs == [] && maxVOffset == 0 && pending == []
    {
      locs, maxVOffset := [], 0;
      pending := [];
    }

    /** The finished table stands for exactly the fields added, whether or not its vtable is shared. */
    method EndTable(start: nat) returns (t: nat)
      requires Valid() && nested && start == tableStart
      requires TableEnd(data) + VTableSize(maxVOffset) < MAX_BUFFER_SIZE && TableEnd(data) - start < 0x1_0000
      modifies this
      ensures Valid() && !nested && t == TableEnd(old(data)) && t !in old(objs)
      ensures objs == old(objs)[t := TableObj(old(pending))]
      ensures Grown(old(data), data) && |data| <= t + VTableSize(old(maxVOffset))
      ensures SizesRecorded(data, t, VTableSize(old(maxVOffset)), t - start) && NoSlack(data, t)
      ensures stringPool == old(stringPool) && minalign == Larger(old(minalign), 4)
    {
      hide SizesRecorded, NoSlack, ObjAt, Within, ObjsOk, TableEnd, VTablesOk, VTablesDistinct, PendingOk, LocsWithin,
           PoolOk, FieldsWithin;
      TrackMinAlign(4);
      TableWithin(pending, minalign);
      var bytes, off, vts := FinishFields(data, start, locs, maxVOffset, vtables, dedupVTables, pending);
      ghost var obj := TableObj(pending);
      NewOffset(off);
      CloseTable(bytes, vts);
      t := off;
      Record(t, obj);
    }

    lemma NewOffset(off: nat)
      requires Valid() && off > |data|
      ensures off !in objs
    {
      if off in objs { KnownObject(off); }
    }

    method CloseTable(bytes: Str, vts: seq<nat>)
      requires Valid() && Grown(data, bytes) && |bytes| <= MAX_BUFFER_SIZE
      requires VTablesOk(bytes, vts) && (dedupVTables ==> VTablesDistinct(bytes, vts))
      modifies this`data, this`vtables, this`locs, this`maxVOffset, this`pending, this`nested
      ensures Valid() && data == bytes && vtables == vts && !nested
    {
      hide ObjAt, Within, ObjsOk, VTablesOk, VTablesDistinct, PendingOk, LocsWithin, PoolOk, FieldsWithin;
      Grow(bytes);
      ClearOffsets();
      vtables := vts;
      nested := false;
    }

    // ---- The whole buffer ----

    method Clear()
      requires Valid()
      modifies this
      ensures Valid() && data == [] && objs == map[] && !nested && !finished && stringPool == {} && vtables == []
      ensures minalign == 1 && locs == [] && maxVOffset == 0
    {
      hide ObjsOk, VTablesOk, VTablesDistinct, PendingOk, FieldsWithin, LocsWithin, PoolOk;
      NothingStored();
      objs := map[];
      data, vtables, stringPool := [], [], {};
      locs, maxVOffset, pending := [], 0, [];
      nested, finished, minalign, tableStart := false, false, 1, 0;
    }

    /** The root is reached from the start of a buffer whose size is a multiple of every alignment used. */
    method Finish(root: nat, fileId: Option<Str>, sizePrefix: bool)
      requires Valid() && !nested && root in objs
      requires fileId.Some? ==> |fileId.value| == 4 && 0 !in fileId.value
      requires RefFits(BeforeRoot(data, fileId, sizePrefix, minalign))
      requires sizePrefix ==> |FinishBytes(data, root, fileId, sizePrefix, minalign)| < MAX_BUFFER_SIZE
      modifies this`data, this`vtables, this`finished
      ensures Valid() && finished && objs == old(objs) && Within(objs[root], minalign)
      ensures Grown(old(data), data) && |old(data)| + 4 <= |data| < MAX_BUFFER_SIZE && |data| % minalign == 0
      ensures RootAt(data, if sizePrefix then 4 else 0, fileId, root, objs[root])
      ensures sizePrefix ==> SizePrefixed(data)
      ensures data == FinishBytes(old(data), root, fileId, sizePrefix, minalign) && vtables == []
      ensures |data| < |old(data)| + HeaderSize(fileId, sizePrefix) + minalign
    {
      hide ObjAt, Within, RootAt, SizePrefixed, BeforeRoot, ObjsOk, PendingOk, VTablesOk, PoolOk;
      ClearScratch();
      KnownObject(root);
      WithinAtLeast4(objs[root], minalign);
      FinishMeans(data, root, objs[root], fileId, sizePrefix, minalign);
      Grow(FinishBytes(data, root, fileId, sizePrefix, minalign));
      finished := true;
    }

    /** `clear_scratch`: the remembered vtables are forgotten. */
    method ClearScratch()
      requires Valid()
      modifies this`vtables
      ensures Valid() && vtables == []
    {
      vtables := [];
    }
  }

  lemma MaxStays(locs: seq<FieldLoc>, maxVOffset: nat, loc: FieldLoc)
    requires maxVOffset == 0 || exists i :: 0 <= i < |locs| && locs[i].id == maxVOffset
    ensures var m := if loc.id > maxVOffset then loc.id else maxVOffset;
            m == 0 || exists i :: 0 <= i < |locs + [loc]| && (locs + [loc])[i].id == m
  {
    if loc.id > maxVOffset {
      assert (locs + [loc])[|locs|].id == loc.id;
    } else if maxVOffset > 0 {
      var i :| 0 <= i < |locs| && locs[i].id == maxVOffset;
      assert (locs + [loc])[i].id == maxVOffset;
    }
  }

  lemma NothingStored()
    ensures ObjsOk([], map[], 1) && PoolOk(map[], {}) && LocsWithin([], 0, 0, 0)
    ensures VTablesOk([], []) && VTablesDistinct([], []) && PendingOk([], [], []) && FieldsWithin([], 1)
  {
    hide ObjAt, ValueAt, VTableAt, VTableBytes, Within, FieldWithin;
  }

  lemma WithinAtLeast4(obj: Obj, m: nat)
    requires Within(obj, m)
    ensures 4 <= m
  {
  }
}
