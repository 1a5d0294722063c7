/**
 The table steps of the builder on the buffer they share with its records: the scratch end holds one 32-bit
 offset for every vtable remembered, then one `FieldLoc` for every field of the table under construction.

 Each step is proved against the records it reads and writes, and `EndTable` against the same result as
 `FlatWriter.FinishTable`.
 */
module FlatScratch {
  import opened Bytes
  import opened Options
  import opened FlatFormat
  import opened FlatVector
  import opened FlatWriter

  // ---- Records ----

  /** `sizeof(uoffset_t)` and `sizeof(FieldLoc)`: the latter is an offset, a field id, and two bytes of padding. */
  const VTABLE_SIZE := 4
  const LOC_SIZE := 8

  predicate VTableRecord(scratch: Str, pos: nat, vt: nat) {
    pos + VTABLE_SIZE <= |scratch| && FromLE(scratch[pos..pos + VTABLE_SIZE]) == vt
  }

  predicate LocRecord(scratch: Str, pos: nat, loc: FieldLoc) {
    && pos + LOC_SIZE <= |scratch|
    && FromLE(scratch[pos..pos + 4]) == loc.off && FromLE(scratch[pos + 4..pos + 6]) == loc.id
  }

  /** The scratch bytes are exactly these vtables followed by these fields. */
  ghost predicate Records(scratch: Str, vtables: seq<nat>, locs: seq<FieldLoc>) {
    && |scratch| == VTABLE_SIZE * |vtables| + LOC_SIZE * |locs|
    && (forall i :: 0 <= i < |vtables| ==> VTableRecord(scratch, VTABLE_SIZE * i, vtables[i]))
    && (forall k :: 0 <= k < |locs| ==> LocRecord(scratch, VTABLE_SIZE * |vtables| + LOC_SIZE * k, locs[k]))
  }

  /** Records decode to one list of vtables and one list of fields only. */
  lemma RecordsDetermine(scratch: Str, vtables: seq<nat>, locs: seq<FieldLoc>, vtables': seq<nat>, locs': seq<FieldLoc>)
    requires Records(scratch, vtables, locs) && Records(scratch, vtables', locs') && |locs| == |locs'|
    ensures vtables == vtables' && locs == locs'
  {
    hide FromLE;
    assert |vtables| == |vtables'|;
    forall i | 0 <= i < |vtables|
      ensures vtables[i] == vtables'[i]
    {
      assert VTableRecord(scratch, VTABLE_SIZE * i, vtables[i]) && VTableRecord(scratch, VTABLE_SIZE * i, vtables'[i]);
    }
    forall k | 0 <= k < |locs|
      ensures locs[k] == locs'[k]
    {
      var pos := VTABLE_SIZE * |vtables| + LOC_SIZE * k;
      assert LocRecord(scratch, pos, locs[k]) && LocRecord(scratch, pos, locs'[k]);
    }
  }

  lemma RecordsPrefix(scratch: Str, scratch': Str, vtables: seq<nat>, locs: seq<FieldLoc>)
    requires Records(scratch, vtables, locs) && scratch <= scratch'
    ensures forall i :: 0 <= i < |vtables| ==> VTableRecord(scratch', VTABLE_SIZE * i, vtables[i])
    ensures forall k :: 0 <= k < |locs| ==> LocRecord(scratch', VTABLE_SIZE * |vtables| + LOC_SIZE * k, locs[k])
  {
    hide FromLE;
    forall i | 0 <= i < |vtables|
      ensures VTableRecord(scratch', VTABLE_SIZE * i, vtables[i])
    {
      var pos := VTABLE_SIZE * i;
      assert VTableRecord(scratch, pos, vtables[i]);
      assert scratch'[pos..pos + 4] == scratch[pos..pos + 4];
    }
    forall k | 0 <= k < |locs|
      ensures LocRecord(scratch', VTABLE_SIZE * |vtables| + LOC_SIZE * k, locs[k])
    {
      var pos := VTABLE_SIZE * |vtables| + LOC_SIZE * k;
      assert LocRecord(scratch, pos, locs[k]);
      assert scratch'[pos..pos + 4] == scratch[pos..pos + 4] && scratch'[pos + 4..pos + 6] == scratch[pos + 4..pos + 6];
    }
  }

  lemma LocAppended(scratch: Str, vtables: seq<nat>, locs: seq<FieldLoc>, loc: FieldLoc, padding: Str)
    requires Records(scratch, vtables, locs) && |padding| == 2 && loc.off < Pow256(4) && loc.id < Pow256(2)
    ensures Records(scratch + LE(loc.off, 4) + LE(loc.id, 2) + padding, vtables, locs + [loc])
  {
    hide FromLE, LE, Pow256, VTableRecord;
    var scratch', pos := scratch + LE(loc.off, 4) + LE(loc.id, 2) + padding, |scratch|;
    RecordsPrefix(scratch, scratch', vtables, locs);
    FromLEInvertsLE(loc.off, 4);
    FromLEInvertsLE(loc.id, 2);
    assert scratch'[pos..pos + 4] == LE(loc.off, 4) && scratch'[pos + 4..pos + 6] == LE(loc.id, 2);
    assert LocRecord(scratch', pos, loc);
  }

  lemma VTableAppended(scratch: Str, vtables: seq<nat>, vt: nat)
    requires Records(scratch, vtables, []) && vt < Pow256(4)
    ensures Records(scratch + LE(vt, 4), vtables + [vt], [])
  {
    hide FromLE, LE, Pow256;
    var scratch', pos := scratch + LE(vt, 4), |scratch|;
    RecordsPrefix(scratch, scratch', vtables, []);
    FromLEInvertsLE(vt, 4);
    assert scratch'[pos..pos + 4] == LE(vt, 4);
    assert VTableRecord(scratch', pos, vt);
  }

  lemma LocsPopped(scratch: Str, vtables: seq<nat>, locs: seq<FieldLoc>)
    requires Records(scratch, vtables, locs)
    ensures Records(scratch[..|scratch| - LOC_SIZE * |locs|], vtables, [])
  {
    hide FromLE;
    var scratch' := scratch[..|scratch| - LOC_SIZE * |locs|];
    forall i | 0 <= i < |vtables|
      ensures VTableRecord(scratch', VTABLE_SIZE * i, vtables[i])
    {
      var pos := VTABLE_SIZE * i;
      assert VTableRecord(scratch, pos, vtables[i]);
      assert scratch'[pos..pos + 4] == scratch[pos..pos + 4];
    }
  }

  // ---- Steps ----

  /** `TrackField`: one record more; `padding` is what the compiler leaves in the struct's tail. */
  method TrackField(v: VectorDownward, loc: FieldLoc, padding: Str, ghost vtables: seq<nat>, ghost locs: seq<FieldLoc>)
    requires v.Valid() && Records(v.Scratch(), vtables, locs)
    requires loc.off < Pow256(4) && loc.id < Pow256(2) && |padding| == 2
    modifies v, v.mem
    ensures v.Valid() && (v.mem == old(v.mem) || (v.mem != null && fresh(v.mem)))
    ensures v.Data() == old(v.Data()) && Records(v.Scratch(), vtables, locs + [loc])
  {
    LocAppended(v.Scratch(), vtables, locs, loc, padding);
    ghost var before := v.Scratch();
    v.ScratchPush(LE(loc.off, 4) + LE(loc.id, 2) + padding);
    assert v.Scratch() == before + LE(loc.off, 4) + LE(loc.id, 2) + padding;
  }

  /** `ClearOffsets`: exactly the field records go. */
  method ClearOffsets(v: VectorDownward, numFieldLoc: nat, ghost vtables: seq<nat>, ghost locs: seq<FieldLoc>)
    requires v.Valid() && Records(v.Scratch(), vtables, locs) && numFieldLoc == |locs|
    modifies v`scratch
    ensures v.Valid() && v.Data() == old(v.Data()) && Records(v.Scratch(), vtables, [])
  {
    LocsPopped(v.Scratch(), vtables, locs);
    v.ScratchPop(numFieldLoc * LOC_SIZE);
  }

  lemma WordWritten(v: Str, rest: Str, i: nat, word: nat)
    requires i + 2 <= |v| && word < 0x1_0000
    ensures Overwrite(v + rest, i, LE(word, 2)) == PutWord(v, i, word) + rest
  {
    hide LE;
  }

  /** The vtable at the front of the data, each field at the place its record says. */
  method WriteVTable(v: VectorDownward, size: nat, tableSize: nat, t: nat, numFieldLoc: nat, ghost placed: Str,
                     ghost vtables: seq<nat>, ghost locs: seq<FieldLoc>)
    returns (ghost vtable: Str)
    requires v.Valid() && Records(v.Scratch(), vtables, locs) && numFieldLoc == |locs|
    requires v.Data() == Zeros(size) + placed && t == |placed|
    requires 4 <= size < 0x1_0000 && size % 2 == 0 && tableSize < 0x1_0000 && LocsOk(locs, t, size)
    modifies v.mem
    ensures v.Valid() && v.Scratch() == old(v.Scratch()) && v.Data() == vtable + placed
    ensures VTableFor(vtable, size, tableSize, locs, |locs|, t)
  {
    hide LE, FromLE, Word, PutWord, Overwrite, Records;
    vtable := Zeros(size);
    ZeroWords(size);
    WordWritten(vtable, placed, 2, tableSize);
    v.WriteAt(size + t - 2, LE(tableSize, 2));
    vtable := PutWord(vtable, 2, tableSize);
    WordWritten(vtable, placed, 0, size);
    v.WriteAt(size + t, LE(size, 2));
    vtable := PutWord(vtable, 0, size);
    for k := 0 to numFieldLoc
      invariant v.Valid() && v.mem == old(v.mem) && v.Scratch() == old(v.Scratch()) && v.Data() == vtable + placed
      invariant VTableFor(vtable, size, tableSize, locs, k, t)
    {
      var loc := ReadLoc(v, numFieldLoc, k, vtables, locs);
      WordWritten(vtable, placed, loc.id, t - loc.off);
      v.WriteAt(size + t - loc.id, LE(t - loc.off, 2));
      vtable := PutField(vtable, size, tableSize, locs, k, t);
    }
  }

  /** The `k`-th record before the end of the scratch. */
  method ReadLoc(v: VectorDownward, numFieldLoc: nat, k: nat, ghost vtables: seq<nat>, ghost locs: seq<FieldLoc>)
    returns (loc: FieldLoc)
    requires v.Valid() && Records(v.Scratch(), vtables, locs) && k < numFieldLoc == |locs|
    ensures loc == locs[k]
  {
    hide FromLE;
    ghost var at := VTABLE_SIZE * |vtables| + LOC_SIZE * k;
    assert LocRecord(v.Scratch(), at, locs[k]);
    var pos := v.scratch - numFieldLoc * LOC_SIZE + k * LOC_SIZE;
    var off := v.ScratchAt(pos, 4);
    var id := v.ScratchAt(pos + 4, 2);
    loc := FieldLoc(FromLE(off), FromLE(id));
  }

  /** The deduplication walk from `scratch_data` to `scratch_end`. */
  method FindVTable(v: VectorDownward, ghost vtable: Str, ghost rest: Str, ghost vtables: seq<nat>)
    returns (r: Option<nat>)
    requires v.Valid() && Records(v.Scratch(), vtables, [])
    requires v.Data() == vtable + rest && 4 <= |vtable| && Word(vtable, 0) == |vtable|
    requires VTablesOk(v.Data(), vtables)
    ensures r.Some? ==> r.value in vtables && VTableBytes(v.Data(), r.value) == vtable
    ensures r.None? ==> forall i :: 0 <= i < |vtables| ==> VTableBytes(v.Data(), vtables[i]) != vtable
  {
    hide Records, VTableBytes, VTableAt, VTablesOk, Word, VTableRecord;
    var vt1 := FrontVTable(v, vtable, rest);
    var pos := 0;
    ghost var i := 0;
    while pos < v.scratch
      invariant 0 <= i <= |vtables| && pos == VTABLE_SIZE * i
      invariant forall j :: 0 <= j < i ==>
                  VTableAt(v.Data(), vtables[j]) && VTableBytes(v.Data(), vtables[j]) != vtable
    {
      RecordAt(v.Data(), v.Scratch(), vtables, i);
      var offset, same := CompareVTable(v, pos, vt1, vtables[i]);
      if same { return Some(offset); }
      pos, i := pos + VTABLE_SIZE, i + 1;
    }
    RecordsEnd(v.Scratch(), vtables);
    return None;
  }

  lemma RecordAt(data: Str, scratch: Str, vtables: seq<nat>, i: nat)
    requires Records(scratch, vtables, []) && VTablesOk(data, vtables) && VTABLE_SIZE * i < |scratch|
    ensures i < |vtables| && VTableRecord(scratch, VTABLE_SIZE * i, vtables[i]) && VTableAt(data, vtables[i])
  {
  }

  lemma RecordsEnd(scratch: Str, vtables: seq<nat>)
    requires Records(scratch, vtables, [])
    ensures |scratch| == VTABLE_SIZE * |vtables|
  {
  }

  /** The vtable just written, at the front of the data. */
  method FrontVTable(v: VectorDownward, ghost vtable: Str, ghost rest: Str) returns (vt1: Str)
    requires v.Valid() && v.Data() == vtable + rest && 4 <= |vtable| && Word(vtable, 0) == |vtable|
    ensures vt1 == vtable
  {
    hide FromLE;
    var front := v.DataAt(v.Size(), 2);
    assert front == vtable[0..2];
    vt1 := v.DataAt(v.Size(), FromLE(front));
  }

  lemma StoredVTable(data: Str, vt: nat)
    requires VTableAt(data, vt)
    ensures 4 <= vt <= |data|
    ensures var n := FromLE(data[|data| - vt..|data| - vt + 2]);
            n <= vt && |VTableBytes(data, vt)| == n && VTableBytes(data, vt) == data[|data| - vt..|data| - vt + n]
  {
    hide FromLE;
  }

  /** One turn of the walk: sizes first, then `memcmp`. */
  method CompareVTable(v: VectorDownward, pos: nat, vt1: Str, ghost vt: nat) returns (offset: nat, same: bool)
    requires v.Valid() && VTableRecord(v.Scratch(), pos, vt) && VTableAt(v.Data(), vt)
    ensures offset == vt && same == (VTableBytes(v.Data(), vt) == vt1)
  {
    hide FromLE, VTableAt, VTableBytes;
    offset := ReadOffset(v, pos, vt);
    StoredVTable(v.Data(), vt);
    var vt2Size := VTableSizeAt(v, offset);
    if |vt1| != vt2Size { return offset, false; }
    var vt2 := v.DataAt(offset, vt2Size);
    same := vt2 == vt1;
  }

  method ReadOffset(v: VectorDownward, pos: nat, ghost vt: nat) returns (offset: nat)
    requires v.Valid() && VTableRecord(v.Scratch(), pos, vt)
    ensures offset == vt
  {
    hide FromLE;
    var record := v.ScratchAt(pos, VTABLE_SIZE);
    offset := FromLE(record);
  }

  method VTableSizeAt(v: VectorDownward, offset: nat) returns (n: nat)
    requires v.Valid() && VTableAt(v.Data(), offset)
    ensures n == |VTableBytes(v.Data(), offset)|
  {
    hide FromLE, VTableAt, VTableBytes;
    StoredVTable(v.Data(), offset);
    var size := v.DataAt(offset, 2);
    n := FromLE(size);
  }

  /**
   `EndTable` as the source runs it: the vtable is written from the field records, the records are popped,
   the vtable records are searched, and an equal vtable takes the place of the new one. What is left in the
   buffer is a finished table as `FlatWriter.FinishTable` describes it, and in the scratch the vtables.
   */
  method EndTable(v: VectorDownward, start: nat, numFieldLoc: nat, maxVOffset: nat, dedup: bool,
                  ghost vtables: seq<nat>, ghost locs: seq<FieldLoc>)
    returns (t: nat, ghost vtables': seq<nat>)
    requires v.Valid() && Records(v.Scratch(), vtables, locs) && numFieldLoc == |locs|
    requires VTablesOk(v.Data(), vtables) && (dedup ==> VTablesDistinct(v.Data(), vtables))
    requires TableEnd(v.Data()) + VTableSize(maxVOffset) < MAX_BUFFER_SIZE
    requires start <= |v.Data()| && TableEnd(v.Data()) - start < 0x1_0000
    requires LocsWithin(locs, start, |v.Data()|, maxVOffset)
    modifies v, v.mem
    ensures v.Valid() && (v.mem == old(v.mem) || (v.mem != null && fresh(v.mem)))
    ensures Grown(old(v.Data()), v.Data()) && t == TableEnd(old(v.Data()))
    ensures |v.Data()| <= t + VTableSize(maxVOffset)
    ensures VTablesOk(v.Data(), vtables') && (dedup ==> VTablesDistinct(v.Data(), vtables'))
    ensures Records(v.Scratch(), vtables', [])
    ensures Recorded(v.Data(), t, t - start, locs, maxVOffset)
  {
    hide Records, VTablesOk, VTablesDistinct, LE, Word, TableEnd, Grown, VTableFor, TableDone, LocsOk, LocsWithin,
         Aligned, VTableSize, Recorded, VectorDownward.Valid, VectorDownward.Data, VectorDownward.Scratch, Zeros;
    ghost var data, aligned := v.Data(), Aligned(v.Data(), 4);
    LocsInTable(data, start, locs, maxVOffset);
    var size := VTableSize(maxVOffset);
    ghost var vtable;
    t, vtable := LayOut(v, start, size, numFieldLoc, vtables, locs);
    VTablesKept(data, aligned, vtables, []);
    VTableHead(vtable, size, t - start, locs, t);
    vtables' := Link(v, t, dedup, aligned, vtable, vtables);
    GrownTransitive(data, aligned, v.Data());
    WellFinished(v.Data(), t, vtable, t - start, locs, start, |data|, maxVOffset);
  }

  /** What `FlatWriter.FinishTable` and `FinishFields` say of a finished table. */
  ghost predicate Recorded(data: Str, t: nat, tableSize: nat, locs: seq<FieldLoc>, maxVOffset: nat) {
    && LocsOk(locs, t, VTableSize(maxVOffset)) && Completed(data, t, VTableSize(maxVOffset), tableSize, locs)
    && SizesRecorded(data, t, VTableSize(maxVOffset), tableSize) && NoSlack(data, t)
  }

  lemma WellFinished(data: Str, t: nat, vtable: Str, tableSize: nat, locs: seq<FieldLoc>, start: nat, n: nat,
                     maxVOffset: nat)
    requires TableDone(data, t, vtable) && VTableFor(vtable, VTableSize(maxVOffset), tableSize, locs, |locs|, t)
    requires LocsWithin(locs, start, n, maxVOffset) && LocsOk(locs, t, VTableSize(maxVOffset))
    ensures Recorded(data, t, tableSize, locs, maxVOffset)
  {
    hide TableDone, VTableFor, LocsWithin, LocsOk, Completed, SizesRecorded, NoSlack;
    CompletedWith(data, t, vtable, VTableSize(maxVOffset), tableSize, locs);
    VTableSizes(data, t, vtable, VTableSize(maxVOffset), tableSize, locs);
    VTableEndsInField(data, t, vtable, tableSize, locs, start, n, maxVOffset);
  }

  /** The table's own offset to come, its vtable in front of it, and no field records any more. */
  method LayOut(v: VectorDownward, start: nat, size: nat, numFieldLoc: nat, ghost vtables: seq<nat>,
                ghost locs: seq<FieldLoc>)
    returns (t: nat, ghost vtable: Str)
    requires v.Valid() && Records(v.Scratch(), vtables, locs) && numFieldLoc == |locs|
    requires 4 <= size < 0x1_0000 && size % 2 == 0 && LocsOk(locs, TableEnd(v.Data()), size)
    requires start <= |v.Data()| && TableEnd(v.Data()) - start < 0x1_0000
    modifies v, v.mem
    ensures v.Valid() && (v.mem == old(v.mem) || (v.mem != null && fresh(v.mem)))
    ensures t == TableEnd(old(v.Data())) && Records(v.Scratch(), vtables, [])
    ensures v.Data() == vtable + (Zeros(4) + Aligned(old(v.Data()), 4))
    ensures VTableFor(vtable, size, t - start, locs, |locs|, t)
  {
    hide Records, VTableFor, LocsOk, Aligned;
    ghost var aligned := Aligned(v.Data(), 4);
    t := MakeRoom(v, size);
    vtable := WriteVTable(v, size, t - start, t, numFieldLoc, Zeros(4) + aligned, vtables, locs);
    ClearOffsets(v, numFieldLoc, vtables, locs);
  }

  /** `PushElement<soffset_t>(0)`, then zeros for the vtable. */
  method MakeRoom(v: VectorDownward, size: nat) returns (t: nat)
    requires v.Valid()
    modifies v, v.mem
    ensures v.Valid() && (v.mem == old(v.mem) || (v.mem != null && fresh(v.mem)))
    ensures t == TableEnd(old(v.Data())) && v.Data() == Zeros(size) + (Zeros(4) + Aligned(old(v.Data()), 4))
    ensures v.Scratch() == old(v.Scratch())
  {
    v.Fill(PaddingBytes(v.Size(), 4));
    v.Fill(4);
    t := v.Size();
    v.Fill(size);
  }

  /** The vtable is shared or remembered, and the table pointed at it. */
  method Link(v: VectorDownward, t: nat, dedup: bool, ghost aligned: Str, ghost vtable: Str, ghost vtables: seq<nat>)
    returns (ghost vtables': seq<nat>)
    requires v.Valid() && Records(v.Scratch(), vtables, [])
    requires v.Data() == vtable + (Zeros(4) + aligned) && |aligned| % 4 == 0 && t == |aligned| + 4
    requires VTablesOk(aligned, vtables) && (dedup ==> VTablesDistinct(aligned, vtables))
    requires 4 <= |vtable| < 0x1_0000 && |vtable| % 2 == 0 && Word(vtable, 0) == |vtable|
    requires t + |vtable| < MAX_BUFFER_SIZE
    modifies v, v.mem
    ensures v.Valid() && (v.mem == old(v.mem) || (v.mem != null && fresh(v.mem)))
    ensures Grown(aligned, v.Data()) && TableDone(v.Data(), t, vtable)
    ensures VTablesOk(v.Data(), vtables') && (dedup ==> VTablesDistinct(v.Data(), vtables'))
    ensures Records(v.Scratch(), vtables', []) && |v.Data()| <= t + |vtable|
  {
    hide VTableAt, VTableBytes, TableDone, VTablesOk, VTablesDistinct, Word, Records, LE, VTableOf;
    assert Grown(aligned, v.Data());
    VTablesStable(aligned, v.Data(), vtables);
    var vtUse := v.Size();
    if dedup {
      var found := FindVTable(v, vtable, Zeros(4) + aligned, vtables);
      if found.Some? {
        vtUse := found.value;
        FoundInUse(aligned, vtUse);
        v.Pop(v.Size() - t);
      }
    }
    if vtUse == v.Size() {
      vtables' := Remember(v, t, vtUse, dedup, aligned, vtable, vtables);
    } else {
      Share(v, t, vtUse, dedup, aligned, vtable, vtables);
      vtables' := vtables;
    }
  }

  /** `scratch_push_small(vt_use)`, and the table's offset to the vtable in front of it. */
  method Remember(v: VectorDownward, t: nat, vtUse: nat, dedup: bool, ghost aligned: Str, ghost vtable: Str,
                  ghost vtables: seq<nat>)
    returns (ghost vtables': seq<nat>)
    requires v.Valid() && Records(v.Scratch(), vtables, [])
    requires v.Data() == vtable + (Zeros(4) + aligned) && |aligned| % 4 == 0 && t == |aligned| + 4
    requires vtUse == |v.Data()| < MAX_BUFFER_SIZE && VTablesOk(aligned, vtables)
    requires dedup ==> VTablesDistinct(aligned, vtables)
                       && forall i :: 0 <= i < |vtables| ==> VTableBytes(aligned, vtables[i]) != vtable
    requires 4 <= |vtable| < 0x1_0000 && |vtable| % 2 == 0 && Word(vtable, 0) == |vtable|
    modifies v, v.mem
    ensures v.Valid() && (v.mem == old(v.mem) || (v.mem != null && fresh(v.mem)))
    ensures Grown(aligned, v.Data()) && TableDone(v.Data(), t, vtable)
    ensures VTablesOk(v.Data(), vtables') && (dedup ==> VTablesDistinct(v.Data(), vtables'))
    ensures Records(v.Scratch(), vtables', []) && |v.Data()| == t + |vtable|
  {
    hide VTableAt, VTableBytes, TableDone, VTablesOk, VTablesDistinct, Word, Records, LE, VTableOf, Grown, U32;
    Pow256Values();
    VTableAppended(v.Scratch(), vtables, vtUse);
    PushAndPoint(v, t, vtUse, aligned, vtable);
    NewTable(aligned, vtable, v.Data(), t);
    VTablesKept(aligned, v.Data(), vtables, vtable);
    vtables' := vtables + [vtUse];
  }

  method PushAndPoint(v: VectorDownward, t: nat, vtUse: nat, ghost aligned: Str, ghost vtable: Str)
    requires v.Valid() && v.Data() == vtable + (Zeros(4) + aligned) && t == |aligned| + 4
    requires vtUse == |v.Data()| && FitsSigned(|vtable|, 4)
    modifies v, v.mem
    ensures v.Valid() && (v.mem == old(v.mem) || (v.mem != null && fresh(v.mem)))
    ensures v.Data() == vtable + (LE(U32(|vtable|), 4) + aligned) && v.Scratch() == old(v.Scratch()) + LE(vtUse, 4)
  {
    hide LE, U32;
    OffsetFilledIn(vtable, aligned, LE(U32(|vtable|), 4));
    v.ScratchPush(LE(vtUse, 4));
    v.WriteAt(t, LE(U32(vtUse - t), 4));
  }

  method Share(v: VectorDownward, t: nat, vtUse: nat, dedup: bool, ghost aligned: Str, ghost vtable: Str,
               ghost vtables: seq<nat>)
    requires v.Valid() && Records(v.Scratch(), vtables, [])
    requires v.Data() == Zeros(4) + aligned && |aligned| % 4 == 0 && t == |aligned| + 4 < MAX_BUFFER_SIZE
    requires VTablesOk(aligned, vtables) && (dedup ==> VTablesDistinct(aligned, vtables))
    requires vtUse in vtables && VTableAt(aligned, vtUse) && VTableBytes(aligned, vtUse) == vtable
    modifies v.mem
    ensures v.Valid() && Grown(aligned, v.Data()) && TableDone(v.Data(), t, vtable)
    ensures VTablesOk(v.Data(), vtables) && (dedup ==> VTablesDistinct(v.Data(), vtables))
    ensures Records(v.Scratch(), vtables, []) && |v.Data()| == t
  {
    hide VTableAt, VTableBytes, TableDone, VTablesOk, VTablesDistinct, Records, LE, VTableOf, Grown;
    Pow256Values();
    FoundInUse(aligned, vtUse);
    v.WriteAt(t, LE(U32(vtUse - t), 4));
    OffsetFilledIn([], aligned, LE(U32(vtUse - t), 4));
    assert [] + (Zeros(4) + aligned) == Zeros(4) + aligned;
    SharedTable(aligned, vtUse, vtable, v.Data(), t);
    VTablesKept(aligned, v.Data(), vtables, vtable);
  }
}
