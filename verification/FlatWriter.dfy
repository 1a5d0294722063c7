/**
 What each step of a `FlatBufferBuilder` prepends to the buffer, and what it means there.
 */
module FlatWriter {
  import opened Bytes
  import opened Options
  import opened FlatFormat

  // ---- Prepending ----

  function Aligned(data: Str, size: nat): (r: Str)
    requires size > 0
    ensures Grown(data, r) && |r| % size == 0 && |r| < |data| + size
  {
    Zeros(PaddingBytes(|data|, size)) + data
  }

  /** `Align` then `push_small`: a scalar on its own boundary. */
  function PushScalar(data: Str, size: nat, bits: nat): (r: Str)
    requires IsWidth(size) && bits < Pow256(size)
    ensures Grown(data, r) && |r| == |data| + PaddingBytes(|data|, size) + size
    ensures ScalarAt(r, |r|, size, bits)
    ensures |data| % size == 0 ==> |r| == |data| + size
  {
    AlignedStep(|data|, size);
    ScalarPrepended(Aligned(data, size), size, bits);
    LE(bits, size) + Aligned(data, size)
  }

  lemma AlignedStep(n: nat, size: nat)
    requires IsWidth(size)
    ensures n % size == 0 ==> PaddingBytes(n, size) == 0
    ensures (n + PaddingBytes(n, size) + size) % size == 0
  {
    hide PaddingBytes;
    if n % size == 0 { NoPadding(n, size); }
    MultiplesDrop(n + PaddingBytes(n, size), 1, size);
  }

  /** Room for an aligned 32-bit offset below the buffer limit. */
  predicate RefFits(data: Str) { |Aligned(data, 4)| + 4 < MAX_BUFFER_SIZE }

  /** `ReferTo` then `push_small`: a relative offset to something already in the buffer. */
  function PushRef(data: Str, off: nat): (r: Str)
    requires 0 < off <= |data| && RefFits(data)
    ensures Grown(data, r) && |data| + 4 <= |r| < |data| + 8 && |r| % 4 == 0 && |r| == |Aligned(data, 4)| + 4
    ensures InUse(r, |r|, 4) && |r| - ReadAt(r, |r|, 4) == off && 0 < ReadAt(r, |r|, 4) < 0x8000_0000
    ensures |data| % 4 == 0 ==> |r| == |data| + 4
  {
    var aligned := Aligned(data, 4);
    Pow256Values();
    AlignedStep(|data|, 4);
    var r := PushScalar(aligned, 4, |aligned| - off + 4);
    GrownTransitive(data, aligned, r);
    r
  }

  lemma PushRefMeans(data: Str, off: nat, obj: Obj)
    requires 0 < off <= |data| && RefFits(data) && ObjAt(data, off, obj)
    ensures RefAt(PushRef(data, off), |PushRef(data, off)|, obj)
  {
    hide PushRef, ObjAt, ReadAt, Grown, Aligned, RefFits;
    ObjStable(data, PushRef(data, off), off, obj);
  }

  // ---- Strings and vectors ----

  /** `PushElement` of a length cast to 32 bits: it aligns first, like every scalar. */
  function PushLength(data: Str, n: nat): (r: Str)
    ensures Grown(data, r) && |r| == |data| + PaddingBytes(|data|, 4) + 4
  {
    Pow256Values();
    PushScalar(data, 4, n % Pow256(4))
  }

  /** On an aligned buffer that alignment adds nothing: the length stands right before what it counts. */
  lemma LengthAdjacent(data: Str, n: nat)
    requires |data| % 4 == 0
    ensures PushLength(data, n) == LE(n, 4) + data
  {
    hide LE;
    Pow256Values();
    NoPadding(|data|, 4);
    assert Aligned(data, 4) == data;
    LEDropsHighBytes(n % Pow256(4), 4, n / Pow256(4));
  }

  /** `CreateString`: padding, terminator, bytes, length. */
  function PushString(data: Str, s: Str): (r: Str)
    ensures Grown(data, r) && |data| + |s| + 5 <= |r| <= |data| + |s| + 8
  {
    StringBodyAligned(data, s);
    GrownTransitive(data, StringBody(data, s), PushLength(StringBody(data, s), |s|));
    PushLength(StringBody(data, s), |s|)
  }

  function StringBody(data: Str, s: Str): (r: Str)
    ensures Grown(data, r) && |data| + |s| + 1 <= |r| <= |data| + |s| + 4
  {
    s + [0] + Zeros(PaddingBytes(|data| + |s| + 1, 4)) + data
  }

  lemma StringBodyAligned(data: Str, s: Str)
    ensures |StringBody(data, s)| % 4 == 0 && PaddingBytes(|StringBody(data, s)|, 4) == 0
  {
    hide PaddingBytes;
    NoPadding(|StringBody(data, s)|, 4);
  }

  /** Nothing stands between a string's length and its first byte, nor between its last byte and the NUL. */
  lemma StringAdjacent(data: Str, s: Str)
    ensures PushString(data, s) == LE(|s|, 4) + (s + [0] + Zeros(PaddingBytes(|data| + |s| + 1, 4)) + data)
  {
    hide LE;
    StringBodyAligned(data, s);
    LengthAdjacent(StringBody(data, s), |s|);
  }

  lemma PushStringMeans(data: Str, s: Str)
    requires |PushString(data, s)| < MAX_BUFFER_SIZE
    ensures var r := PushString(data, s); ObjAt(r, |r|, StringObj(s))
  {
    hide PushString, LE;
    var r := PushString(data, s);
    Pow256Values();
    StringAdjacent(data, s);
    FromLEInvertsLE(|s|, 4);
    assert At(r, |r|, 4) == LE(|s|, 4);
    assert At(r, |r| - 4, |s|) == s;
    assert At(r, |r| - 4 - |s|, 1) == [0];
    assert (|data| + |s| + 1 + PaddingBytes(|data| + |s| + 1, 4)) % 4 == 0;
  }

  function ScalarBytes(size: nat, elems: seq<nat>): (b: Str)
    ensures |b| == |elems| * size
  {
    if elems == [] then [] else LE(elems[0], size) + ScalarBytes(size, elems[1..])
  }

  /** Elements laid out in order in front of aligned data are the vector's scalars. */
  lemma {:induction false} ScalarBytesMean(size: nat, elems: seq<nat>, d: Str)
    requires IsWidth(size) && |d| % size == 0
    requires forall k :: 0 <= k < |elems| ==> elems[k] < Pow256(size)
    ensures var r := ScalarBytes(size, elems) + d; |r| % size == 0 && ScalarsAt(r, |r|, size, elems)
  {
    hide ReadAt;
    var r := ScalarBytes(size, elems) + d;
    MultiplesDrop(|d|, |elems|, size);
    if elems != [] {
      var rest := ScalarBytes(size, elems[1..]) + d;
      ScalarBytesMean(size, elems[1..], d);
      assert r == LE(elems[0], size) + rest;
      ScalarPrepended(rest, size, elems[0]);
      ScalarsStable(rest, r, |rest|, size, elems[1..]);
      forall k | 0 <= k < |elems|
        ensures ScalarAt(r, |r| - k * size, size, elems[k])
      {
        if k > 0 {
          assert |r| - k * size == |rest| - (k - 1) * size;
          assert ScalarAt(r, |rest| - (k - 1) * size, size, elems[1..][k - 1]);
        }
      }
    }
  }

  lemma ScalarPrepended(d: Str, size: nat, bits: nat)
    requires IsWidth(size) && |d| % size == 0 && bits < Pow256(size)
    ensures ScalarAt(LE(bits, size) + d, |d| + size, size, bits)
  {
    var r := LE(bits, size) + d;
    FromLEInvertsLE(bits, size);
    MultiplesDrop(|d|, 1, size);
    assert At(r, |r|, size) == LE(bits, size);
  }

  lemma BothAligned(n: nat, n': nat, size: nat)
    requires IsWidth(size) && n' == n + PaddingBytes(n, 4)
    ensures (n' + PaddingBytes(n', size)) % size == 0 && (n' + PaddingBytes(n', size)) % 4 == 0
  {
    hide PaddingBytes;
    if size == 8 {
      Divides(n' + PaddingBytes(n', size), 4, size);
    } else {
      Divides(n', size, 4);
      NoPadding(n', size);
    }
  }

  /** The second padding adds at most the other half of eight bytes to the first. */
  lemma LeastPadding(n: nat, size: nat)
    requires IsWidth(size)
    ensures var p := PaddingBytes(n, 4); p + PaddingBytes(n + p, size) < if size > 4 then size else 4
  {
    hide PaddingBytes;
    var p := PaddingBytes(n, 4);
    if size == 8 {
      var q := PaddingBytes(n + p, 8);
      Divides(n + p + q, 4, 8);
      DifferenceDivides(n + p + q, n + p, 4);
    } else {
      Divides(n + p, size, 4);
      NoPadding(n + p, size);
    }
  }

  /** Both `PreAlign` calls of `StartVector`. */
  function PreAligned(data: Str, bytes: nat, size: nat): (r: Str)
    requires IsWidth(size)
    ensures Grown(data, r) && (|r| + bytes) % 4 == 0 && (|r| + bytes) % size == 0
    ensures |r| < |data| + if size > 4 then size else 4
  {
    var d1 := Zeros(PaddingBytes(|data| + bytes, 4)) + data;
    var d2 := Zeros(PaddingBytes(|d1| + bytes, size)) + d1;
    GrownTransitive(data, d1, d2);
    BothAligned(|data| + bytes, |d1| + bytes, size);
    LeastPadding(|data| + bytes, size);
    d2
  }

  /** `CreateVector` of scalars. */
  function PushScalars(data: Str, size: nat, elems: seq<nat>): (r: Str)
    requires IsWidth(size)
    ensures Grown(data, r) && |data| + |elems| * size + 4 <= |r| <= |data| + |elems| * size + 14
  {
    var d := PreAligned(data, |elems| * size, size);
    var body := ScalarBytes(size, elems) + d;
    GrownTransitive(data, d, body);
    NoPadding(|body|, 4);
    GrownTransitive(data, body, PushLength(body, |elems|));
    PushLength(body, |elems|)
  }

  /** Nothing stands between a vector's length and its first element. */
  lemma ScalarsAdjacent(data: Str, size: nat, elems: seq<nat>)
    requires IsWidth(size)
    ensures PushScalars(data, size, elems)
            == LE(|elems|, 4) + (ScalarBytes(size, elems) + PreAligned(data, |elems| * size, size))
  {
    hide LE, ScalarBytes, PreAligned;
    LengthAdjacent(ScalarBytes(size, elems) + PreAligned(data, |elems| * size, size), |elems|);
  }

  lemma PushScalarsMeans(data: Str, size: nat, elems: seq<nat>)
    requires IsWidth(size) && |PushScalars(data, size, elems)| < MAX_BUFFER_SIZE
    requires forall k :: 0 <= k < |elems| ==> elems[k] < Pow256(size)
    ensures var r := PushScalars(data, size, elems); ObjAt(r, |r|, ScalarVector(size, elems))
  {
    hide ReadAt, ScalarBytes, PushScalars, PreAligned, LE;
    ScalarsAdjacent(data, size, elems);
    var d := PreAligned(data, |elems| * size, size);
    MultiplesDrop(|d|, |elems|, size);
    ScalarBytesMean(size, elems, d);
    var body := ScalarBytes(size, elems) + d;
    Pow256Values();
    LengthFits(|elems|, size);
    ScalarPrepended(body, 4, |elems|);
    ScalarsStable(body, LE(|elems|, 4) + body, |body|, size, elems);
  }

  lemma LengthFits(n: nat, size: nat)
    requires IsWidth(size)
    ensures n <= n * size
  {
  }

  lemma RefsCons(data: Str, pos: int, objs: seq<Obj>, i: nat)
    requires 0 < i <= |objs| && RefAt(data, pos, objs[i - 1]) && RefsAt(data, pos - 4, objs[i..])
    ensures RefsAt(data, pos, objs[i - 1..])
  {
    hide RefAt;
    forall k | 0 <= k < |objs[i - 1..]|
      ensures RefAt(data, pos - 4 * k, objs[i - 1..][k])
    {
      if k > 0 {
        assert objs[i - 1..][k] == objs[i..][k - 1];
        assert RefAt(data, pos - 4 - 4 * (k - 1), objs[i..][k - 1]);
      }
    }
  }

  /** One more element in front of the offsets already written. */
  lemma PushRefInFront(data: Str, r: Str, off: nat, objs: seq<Obj>, i: nat)
    requires Grown(data, r) && 0 < i <= |objs| && 0 < off <= |data| && ObjAt(data, off, objs[i - 1])
    requires |r| % 4 == 0 && RefFits(r) && RefsAt(r, |r|, objs[i..])
    ensures var r' := PushRef(r, off); Grown(data, r') && |r'| == |r| + 4 && RefsAt(r', |r'|, objs[i - 1..])
  {
    hide RefAt, ObjAt, RefsAt, PushRef;
    var r' := PushRef(r, off);
    ObjStable(data, r, off, objs[i - 1]);
    GrownTransitive(data, r, r');
    PushRefMeans(r, off, objs[i - 1]);
    RefsStable(r, r', |r|, objs[i..]);
    RefsCons(r', |r'|, objs, i);
  }

  /** `CreateVector` of offsets: written from the last to the first, each relative to its own place. */
  method PushRefs(data: Str, offs: seq<nat>, ghost objs: seq<Obj>) returns (r: Str)
    requires |offs| == |objs| && |PreAligned(data, 4 * |offs|, 4)| + 4 * |offs| + 4 < MAX_BUFFER_SIZE
    requires forall i :: 0 <= i < |offs| ==> 0 < offs[i] <= |data| && ObjAt(data, offs[i], objs[i])
    ensures Grown(data, r) && |r| == |PreAligned(data, 4 * |offs|, 4)| + 4 * |offs| + 4
    ensures ObjAt(r, |r|, OffsetVector(objs))
  {
    hide RefAt, ObjAt, PreAligned;
    var d := PreAligned(data, 4 * |offs|, 4);
    var i := |offs|;
    r := d;
    while i > 0
      invariant 0 <= i <= |offs| && Grown(data, r)
      invariant |r| == |d| + 4 * (|offs| - i) && |r| % 4 == 0
      invariant RefsAt(r, |r|, objs[i..])
    {
      PushRefInFront(data, r, offs[i - 1], objs, i);
      r := PushRef(r, offs[i - 1]);
      i := i - 1;
    }
    OffsetVectorMeans(data, r, objs);
    r := PushLength(r, |offs|);
  }

  lemma OffsetVectorMeans(data: Str, body: Str, objs: seq<Obj>)
    requires Grown(data, body) && |body| % 4 == 0 && RefsAt(body, |body|, objs[0..])
    requires |body| + 4 < MAX_BUFFER_SIZE
    ensures var r := PushLength(body, |objs|);
            Grown(data, r) && |r| == |body| + 4 && ObjAt(r, |r|, OffsetVector(objs))
  {
    hide RefAt, PushLength, LE;
    assert objs[0..] == objs;
    LengthAdjacent(body, |objs|);
    var r := LE(|objs|, 4) + body;
    GrownTransitive(data, body, r);
    Pow256Values();
    ScalarPrepended(body, 4, |objs|);
    RefsStable(body, r, |body|, objs);
  }

  // ---- Tables ----

  /** A `FieldLoc`: where a field of the table being built has been written. */
  datatype FieldLoc = FieldLoc(off: nat, id: nat)

  function Word(v: Str, i: nat): (u: int)
    requires i + 2 <= |v|
    ensures 0 <= u < 0x1_0000
  {
    Pow256Values();
    FromLE(v[i..i + 2])
  }

  function PutWord(v: Str, i: nat, word: nat): (v': Str)
    requires i + 2 <= |v| && word < 0x1_0000
    ensures |v'| == |v| && Word(v', i) == word
    ensures forall j :: 0 <= j && j + 2 <= |v| && (j + 2 <= i || i + 2 <= j) ==> Word(v', j) == Word(v, j)
  {
    Pow256Values();
    FromLEInvertsLE(word, 2);
    var v' := v[..i] + LE(word, 2) + v[i + 2..];
    assert v'[i..i + 2] == LE(word, 2);
    WordsKept(v, v', i);
    v'
  }

  lemma WordsKept(v: Str, v': Str, i: nat)
    requires i + 2 <= |v| == |v'| && v'[..i] == v[..i] && v'[i + 2..] == v[i + 2..]
    ensures forall j :: 0 <= j && j + 2 <= |v| && (j + 2 <= i || i + 2 <= j) ==> Word(v', j) == Word(v, j)
  {
    forall j | 0 <= j && j + 2 <= |v| && (j + 2 <= i || i + 2 <= j)
      ensures Word(v', j) == Word(v, j)
    {
      forall k | j <= k < j + 2
        ensures v'[k] == v[k]
      {
        if k < i {
          assert v'[k] == v'[..i][k] == v[..i][k] == v[k];
        } else {
          assert v'[k] == v'[i + 2..][k - i - 2] == v[i + 2..][k - i - 2] == v[k];
        }
      }
      assert v'[j..j + 2] == v[j..j + 2];
    }
  }

  /** Some of the first `n` fields has vtable offset `id`. */
  predicate IdAmong(locs: seq<FieldLoc>, n: nat, id: nat)
    requires n <= |locs|
  {
    exists i :: 0 <= i < n && locs[i].id == id
  }

  predicate LocsOk(locs: seq<FieldLoc>, t: nat, size: nat) {
    && (forall i :: 0 <= i < |locs| ==> FieldId(locs[i].id) && locs[i].id + 2 <= size && 0 < t - locs[i].off < 0x1_0000)
    && (forall i, j :: 0 <= i < j < |locs| ==> locs[i].id != locs[j].id)
  }

  /** The vtable with the first `n` fields filled in, the rest zero. */
  ghost predicate VTableFor(v: Str, size: nat, tableSize: nat, locs: seq<FieldLoc>, n: nat, t: nat)
    requires n <= |locs|
  {
    && 4 <= size == |v| < 0x1_0000 && size % 2 == 0
    && Word(v, 0) == size && Word(v, 2) == tableSize
    && (forall i :: 0 <= i < n ==> locs[i].id + 2 <= size && Word(v, locs[i].id) == t - locs[i].off)
    && (forall id: nat :: FieldId(id) && id + 2 <= size && !IdAmong(locs, n, id) ==> Word(v, id) == 0)
  }

  /** The vtable `EndTable` writes: its size, the table's size, and each field's place. */
  method BuildVTable(size: nat, tableSize: nat, locs: seq<FieldLoc>, t: nat) returns (v: Str)
    requires 4 <= size < 0x1_0000 && size % 2 == 0 && tableSize < 0x1_0000
    requires LocsOk(locs, t, size)
    ensures VTableFor(v, size, tableSize, locs, |locs|, t)
  {
    hide Word, PutWord;
    v := Zeros(size);
    ZeroWords(size);
    v := PutWord(v, 2, tableSize);
    v := PutWord(v, 0, size);
    for k := 0 to |locs|
      invariant VTableFor(v, size, tableSize, locs, k, t)
    {
      // the source asserts that no field is set twice
      assert !IdAmong(locs, k, locs[k].id);
      assert Word(v, locs[k].id) == 0;
      v := PutField(v, size, tableSize, locs, k, t);
    }
  }

  lemma ZeroWords(size: nat)
    ensures forall j :: 0 <= j && j + 2 <= size ==> Word(Zeros(size), j) == 0
  {
    forall j | 0 <= j && j + 2 <= size
      ensures Word(Zeros(size), j) == 0
    {
      Pow256Values();
      assert Zeros(size)[j..j + 2] == LE(0, 2);
      FromLEInvertsLE(0, 2);
    }
  }

  function PutField(v: Str, size: nat, tableSize: nat, locs: seq<FieldLoc>, k: nat, t: nat): (v': Str)
    requires k < |locs| && LocsOk(locs, t, size) && VTableFor(v, size, tableSize, locs, k, t)
    ensures VTableFor(v', size, tableSize, locs, k + 1, t)
  {
    var v' := PutWord(v, locs[k].id, t - locs[k].off);
    PutFieldKeeps(v, v', size, tableSize, locs, k, t);
    v'
  }

  lemma PutFieldKeeps(v: Str, v': Str, size: nat, tableSize: nat, locs: seq<FieldLoc>, k: nat, t: nat)
    requires k < |locs| && LocsOk(locs, t, size) && VTableFor(v, size, tableSize, locs, k, t)
    requires v' == PutWord(v, locs[k].id, t - locs[k].off)
    ensures VTableFor(v', size, tableSize, locs, k + 1, t)
  {
    hide Word, PutWord;
    var id := locs[k].id;
    forall i | 0 <= i < k + 1
      ensures Word(v', locs[i].id) == t - locs[i].off
    {
      if i < k { IdsApart(locs[i].id, id); }
    }
    assert IdAmong(locs, k + 1, id);
    forall other: nat | FieldId(other) && other + 2 <= size && !IdAmong(locs, k + 1, other)
      ensures Word(v', other) == 0
    {
      assert !IdAmong(locs, k, other);
      IdsApart(other, id);
    }
  }

  lemma IdsApart(a: nat, b: nat)
    requires FieldId(a) && FieldId(b) && a != b
    ensures a + 2 <= b || b + 2 <= a
  {
  }

  lemma SubRange(data: Str, off: nat, n: nat, i: nat, m: nat)
    requires InUse(data, off, n) && i + m <= n
    ensures InUse(data, off - i, m) && At(data, off - i, m) == At(data, off, n)[i..i + m]
  {
    var a := |data| - off;
    var whole, part := data[a..a + n], data[a + i..a + i + m];
    forall j | 0 <= j < m
      ensures whole[i..i + m][j] == part[j]
    {
      assert whole[i..i + m][j] == whole[i + j] == data[a + i + j];
    }
    assert whole[i..i + m] == part;
  }

  lemma FieldOffsetIsWord(data: Str, off: nat, id: nat)
    requires TableAt(data, off) && FieldId(id)
    ensures var v := VTableBytes(data, VTableOf(data, off));
            FieldOffset(data, off, id) == if id < |v| then Word(v, id) else 0
  {
    var vt := VTableOf(data, off);
    var v := VTableBytes(data, vt);
    if id < |v| {
      assert id + 2 <= |v| && InUse(data, vt - id, 2);
      SubRange(data, vt, |v|, id, 2);
    }
  }

  ghost predicate PendingOk(data: Str, locs: seq<FieldLoc>, fields: seq<Field>) {
    && |locs| == |fields|
    && forall i :: 0 <= i < |locs| ==> locs[i].id == fields[i].id && ValueAt(data, locs[i].off, fields[i])
  }

  /** A table whose vtable records its fields denotes exactly those fields. */
  lemma TableMeans(data: Str, data': Str, t: nat, size: nat, tableSize: nat, locs: seq<FieldLoc>, fields: seq<Field>)
    requires Grown(data, data') && TableAt(data', t) && LocsOk(locs, t, size) && PendingOk(data, locs, fields)
    requires VTableFor(VTableBytes(data', VTableOf(data', t)), size, tableSize, locs, |locs|, t)
    ensures ObjAt(data', t, TableObj(fields))
  {
    hide VTableFor, FieldsAt, OthersAbsent, TableAt;
    assert DistinctIds(fields);
    FieldsPresent(data, data', t, size, tableSize, locs, fields);
    OthersMissing(data', t, size, tableSize, locs, fields);
    TableInUse(data', t);
  }

  lemma TableInUse(data: Str, t: int)
    requires TableAt(data, t)
    ensures InUse(data, t, 4) && t % 4 == 0
  {
  }

  lemma FieldsPresent(data: Str, data': Str, t: nat, size: nat, tableSize: nat, locs: seq<FieldLoc>, fields: seq<Field>)
    requires Grown(data, data') && TableAt(data', t) && LocsOk(locs, t, size) && PendingOk(data, locs, fields)
    requires VTableFor(VTableBytes(data', VTableOf(data', t)), size, tableSize, locs, |locs|, t)
    ensures FieldsAt(data', t, fields)
  {
    hide TableAt, VTableBytes, VTableOf, Word, ValueAt, Grown, FieldOffset;
    forall i | 0 <= i < |fields|
      ensures FieldAt(data', t, fields[i])
    {
      FieldOffsetIsWord(data', t, locs[i].id);
      ValueStable(data, data', locs[i].off, fields[i]);
    }
  }

  lemma OthersMissing(data': Str, t: nat, size: nat, tableSize: nat, locs: seq<FieldLoc>, fields: seq<Field>)
    requires TableAt(data', t) && |locs| == |fields| && forall i :: 0 <= i < |locs| ==> locs[i].id == fields[i].id
    requires VTableFor(VTableBytes(data', VTableOf(data', t)), size, tableSize, locs, |locs|, t)
    ensures OthersAbsent(data', t, fields)
  {
    hide TableAt, VTableBytes, VTableOf, Word, FieldOffset, Locate;
    forall id: nat | FieldId(id) && Locate(fields, id) == |fields|
      ensures FieldOffset(data', t, id) == 0
    {
      FieldOffsetIsWord(data', t, id);
      assert !IdAmong(locs, |locs|, id);
    }
  }

  /** The 32-bit pattern of a signed offset. */
  function U32(i: int): (u: nat)
    requires FitsSigned(i, 4)
    ensures u < Pow256(4) && ToSigned(u, 4) == i
  {
    Pow256Values();
    if i < 0 then i + 0x1_0000_0000 else i
  }

  ghost predicate VTablesOk(data: Str, vtables: seq<nat>) {
    forall i :: 0 <= i < |vtables| ==> VTableAt(data, vtables[i])
  }

  lemma VTablesStable(data: Str, data': Str, vtables: seq<nat>)
    requires Grown(data, data') && VTablesOk(data, vtables)
    ensures VTablesOk(data', vtables)
    ensures forall i :: 0 <= i < |vtables| ==>
              VTableAt(data, vtables[i]) && VTableAt(data', vtables[i])
              && VTableBytes(data', vtables[i]) == VTableBytes(data, vtables[i])
  {
    forall i | 0 <= i < |vtables|
      ensures VTableAt(data, vtables[i]) && VTableAt(data', vtables[i])
              && VTableBytes(data', vtables[i]) == VTableBytes(data, vtables[i])
    {
      VTableStable(data, data', vtables[i]);
    }
  }

  /** No layout is remembered twice. */
  ghost predicate VTablesDistinct(data: Str, vtables: seq<nat>)
    requires VTablesOk(data, vtables)
  {
    forall i, j :: 0 <= i < j < |vtables| ==> VTableBytes(data, vtables[i]) != VTableBytes(data, vtables[j])
  }

  /** An earlier vtable with exactly these bytes, if deduplication finds one. */
  method FindVTable(data: Str, v: Str, vtables: seq<nat>) returns (r: Option<nat>)
    requires VTablesOk(data, vtables)
    ensures r.Some? ==> r.value in vtables && VTableAt(data, r.value) && VTableBytes(data, r.value) == v
    ensures r.None? ==> forall i :: 0 <= i < |vtables| ==> VTableBytes(data, vtables[i]) != v
  {
    for i := 0 to |vtables|
      invariant forall j :: 0 <= j < i ==> VTableBytes(data, vtables[j]) != v
    {
      assert VTableAt(data, vtables[i]);
      if VTableBytes(data, vtables[i]) == v { return Some(vtables[i]); }
    }
    return None;
  }

  /** The table's place and its vtable once the vtable offset has been filled in. */
  ghost predicate TableDone(data: Str, t: nat, v: Str) {
    TableAt(data, t) && VTableBytes(data, VTableOf(data, t)) == v
  }

  lemma SOffsetWritten(rest: Str, x: Str, soffset: int, data: Str, t: nat)
    requires FitsSigned(soffset, 4)
    requires data == x + (LE(U32(soffset), 4) + rest) && t == |rest| + 4
    ensures InUse(data, t, 4) && VTableOf(data, t) == t + soffset
  {
    FromLEInvertsLE(U32(soffset), 4);
    assert At(data, t, 4) == LE(U32(soffset), 4);
  }

  lemma SharedTable(aligned: Str, vt: nat, v: Str, data: Str, t: nat)
    requires |aligned| % 4 == 0 && VTableAt(aligned, vt) && VTableBytes(aligned, vt) == v
    requires t == |aligned| + 4 < MAX_BUFFER_SIZE && FitsSigned(vt - t, 4)
    requires data == LE(U32(vt - t), 4) + aligned
    ensures Grown(aligned, data) && TableDone(data, t, v)
  {
    hide At, ReadAt, FromLE, LE, ToSigned, VTableAt, VTableBytes, VTableOf, U32;
    SOffsetWritten(aligned, [], vt - t, data, t);
    VTableStable(aligned, data, vt);
  }

  lemma NewTable(aligned: Str, v: Str, data: Str, t: nat)
    requires |aligned| % 4 == 0 && t == |aligned| + 4
    requires 4 <= |v| < 0x1_0000 && |v| % 2 == 0 && Word(v, 0) == |v| && FitsSigned(|v|, 4)
    requires data == v + (LE(U32(|v|), 4) + aligned)
    ensures Grown(aligned, data) && TableDone(data, t, v)
    ensures |data| == t + |v| && VTableAt(data, |data|) && VTableBytes(data, |data|) == v
  {
    hide At, ReadAt, FromLE, LE, ToSigned, VTableAt, VTableBytes, VTableOf, Word, U32;
    GrownTransitive(aligned, LE(U32(|v|), 4) + aligned, data);
    SOffsetWritten(aligned, v, |v|, data, t);
    NewVTable(LE(U32(|v|), 4) + aligned, v, data);
    assert |data| == t + |v|;
  }

  lemma NewVTable(rest: Str, v: Str, data: Str)
    requires |rest| % 2 == 0 && 4 <= |v| < 0x1_0000 && |v| % 2 == 0 && Word(v, 0) == |v|
    requires data == v + rest
    ensures VTableAt(data, |data|) && VTableBytes(data, |data|) == v
  {
    assert At(data, |data|, 2) == v[0..2];
    assert At(data, |data|, |v|) == v;
  }

  /** Where the fields of the table under construction may be. */
  predicate LocsWithin(locs: seq<FieldLoc>, start: nat, size: nat, maxVOffset: nat) {
    && maxVOffset <= 0xFFFC && maxVOffset % 2 == 0
    && (forall i :: 0 <= i < |locs| ==>
          FieldId(locs[i].id) && locs[i].id <= maxVOffset && start < locs[i].off <= size)
    && (forall i, j :: 0 <= i < j < |locs| ==> locs[i].id != locs[j].id)
    && (maxVOffset == 0 || exists i :: 0 <= i < |locs| && locs[i].id == maxVOffset)
  }

  /** The offset the table under construction will get. */
  function TableEnd(data: Str): (t: nat)
    ensures |data| + 4 <= t <= |data| + 7
  {
    |Aligned(data, 4)| + 4
  }

  function VTableSize(maxVOffset: nat): nat {
    if maxVOffset + 2 < 4 then 4 else maxVOffset + 2
  }

  /** The table at `t` has a vtable for these fields. */
  ghost predicate Completed(data: Str, t: nat, size: nat, tableSize: nat, locs: seq<FieldLoc>) {
    exists v :: TableDone(data, t, v) && VTableFor(v, size, tableSize, locs, |locs|, t)
  }

  ghost function CompletedBy(data: Str, t: nat, size: nat, tableSize: nat, locs: seq<FieldLoc>): (v: Str)
    requires Completed(data, t, size, tableSize, locs)
    ensures TableDone(data, t, v) && VTableFor(v, size, tableSize, locs, |locs|, t)
  {
    var v :| TableDone(data, t, v) && VTableFor(v, size, tableSize, locs, |locs|, t);
    v
  }

  lemma CompletedWith(data: Str, t: nat, v: Str, size: nat, tableSize: nat, locs: seq<FieldLoc>)
    requires TableDone(data, t, v) && VTableFor(v, size, tableSize, locs, |locs|, t)
    ensures Completed(data, t, size, tableSize, locs)
  {
  }

  lemma VTableHead(v: Str, size: nat, tableSize: nat, locs: seq<FieldLoc>, t: nat)
    requires VTableFor(v, size, tableSize, locs, |locs|, t)
    ensures 4 <= |v| == size < 0x1_0000 && |v| % 2 == 0 && Word(v, 0) == |v|
  {
  }

  lemma LocsInTable(data: Str, start: nat, locs: seq<FieldLoc>, maxVOffset: nat)
    requires start <= |data| && TableEnd(data) - start < 0x1_0000 && LocsWithin(locs, start, |data|, maxVOffset)
    ensures LocsOk(locs, TableEnd(data), VTableSize(maxVOffset))
    ensures 4 <= VTableSize(maxVOffset) < 0x1_0000 && VTableSize(maxVOffset) % 2 == 0
    ensures |Aligned(data, 4)| % 4 == 0 && TableEnd(data) == |Aligned(data, 4)| + 4
  {
  }

  /**
   `EndTable`: write the vtable, share an equal earlier one if asked to, and point the table at it.
   Sharing changes where the vtable is, never what it says.
   */
  method FinishTable(data: Str, start: nat, locs: seq<FieldLoc>, maxVOffset: nat, vtables: seq<nat>, dedup: bool)
    returns (data': Str, t: nat, vtables': seq<nat>)
    requires VTablesOk(data, vtables) && (dedup ==> VTablesDistinct(data, vtables))
    requires TableEnd(data) + VTableSize(maxVOffset) < MAX_BUFFER_SIZE
    requires start <= |data| && TableEnd(data) - start < 0x1_0000
    requires LocsWithin(locs, start, |data|, maxVOffset)
    ensures Grown(data, data') && t == TableEnd(data) && |data'| <= t + VTableSize(maxVOffset)
    ensures VTablesOk(data', vtables') && (dedup ==> VTablesDistinct(data', vtables'))
    ensures LocsOk(locs, t, VTableSize(maxVOffset))
    ensures Completed(data', t, VTableSize(maxVOffset), t - start, locs)
  {
    hide VTablesOk, VTablesDistinct, Word, TableEnd, Grown, VTableFor, TableDone, LocsOk, LocsWithin, Aligned,
         VTableSize, Completed;
    LocsInTable(data, start, locs, maxVOffset);
    var aligned := Aligned(data, 4);
    var placed := Zeros(4) + aligned;
    t := |placed|;
    var size := VTableSize(maxVOffset);
    var v := BuildVTable(size, t - start, locs, t);
    VTableHead(v, size, t - start, locs, t);
    VTablesKept(data, aligned, vtables, []);
    data', vtables' := LinkVTable(aligned, t, v, vtables, dedup);
    GrownTransitive(data, aligned, data');
    CompletedWith(data', t, v, size, t - start, locs);
  }

  /** `FinishTable` for a table whose fields are in place: it now stands for those fields. */
  method FinishFields(data: Str, start: nat, locs: seq<FieldLoc>, maxVOffset: nat, vtables: seq<nat>, dedup: bool,
                      ghost fields: seq<Field>)
    returns (data': Str, t: nat, vtables': seq<nat>)
    requires VTablesOk(data, vtables) && (dedup ==> VTablesDistinct(data, vtables))
    requires TableEnd(data) + VTableSize(maxVOffset) < MAX_BUFFER_SIZE
    requires start <= |data| && TableEnd(data) - start < 0x1_0000
    requires LocsWithin(locs, start, |data|, maxVOffset) && PendingOk(data, locs, fields)
    ensures Grown(data, data') && t == TableEnd(data) && |data'| <= t + VTableSize(maxVOffset)
    ensures VTablesOk(data', vtables') && (dedup ==> VTablesDistinct(data', vtables'))
    ensures ObjAt(data', t, TableObj(fields)) && SizesRecorded(data', t, VTableSize(maxVOffset), t - start)
    ensures NoSlack(data', t)
  {
    hide ObjAt, VTableFor, LocsOk, TableAt, PendingOk, VTablesOk, VTablesDistinct, Grown, TableEnd, VTableSize,
         SizesRecorded, NoSlack, Completed;
    data', t, vtables' := FinishTable(data, start, locs, maxVOffset, vtables, dedup);
    ghost var v := CompletedBy(data', t, VTableSize(maxVOffset), t - start, locs);
    TableMeans(data, data', t, VTableSize(maxVOffset), t - start, locs, fields);
    VTableSizes(data', t, v, VTableSize(maxVOffset), t - start, locs);
    VTableEndsInField(data', t, v, t - start, locs, start, |data|, maxVOffset);
  }

  /** A vtable ends with its last field: there is no slot behind it. */
  predicate NoSlack(data: Str, t: nat) {
    TableAt(data, t)
    && var size := ReadAt(data, VTableOf(data, t), 2);
    size == 4 || FieldOffset(data, t, size - 2) > 0
  }

  lemma VTableEndsInField(data: Str, t: nat, v: Str, tableSize: nat, locs: seq<FieldLoc>, start: nat, n: nat,
                          maxVOffset: nat)
    requires TableDone(data, t, v) && VTableFor(v, VTableSize(maxVOffset), tableSize, locs, |locs|, t)
    requires LocsWithin(locs, start, n, maxVOffset) && LocsOk(locs, t, VTableSize(maxVOffset))
    ensures NoSlack(data, t)
  {
    hide Word, FieldOffset;
    VTableSizes(data, t, v, VTableSize(maxVOffset), tableSize, locs);
    if maxVOffset > 0 {
      var i :| 0 <= i < |locs| && locs[i].id == maxVOffset;
      FieldOffsetIsWord(data, t, locs[i].id);
    }
  }

  /** The vtable of the table at `t` begins with its own size and the size of the table. */
  predicate SizesRecorded(data: Str, t: nat, size: int, tableSize: int) {
    TableAt(data, t)
    && ReadAt(data, VTableOf(data, t), 2) == size && ReadAt(data, VTableOf(data, t) - 2, 2) == tableSize
  }

  lemma VTableSizes(data: Str, t: nat, v: Str, size: nat, tableSize: nat, locs: seq<FieldLoc>)
    requires TableDone(data, t, v) && VTableFor(v, size, tableSize, locs, |locs|, t)
    ensures SizesRecorded(data, t, size, tableSize)
  {
    hide FromLE;
    var vt := VTableOf(data, t);
    SubRange(data, vt, size, 2, 2);
  }

  /** Growth keeps the remembered vtables, and a layout not among them may join. */
  lemma VTablesKept(data: Str, data': Str, vtables: seq<nat>, v: Str)
    requires Grown(data, data') && VTablesOk(data, vtables)
    ensures VTablesOk(data', vtables) && (VTablesDistinct(data, vtables) ==> VTablesDistinct(data', vtables))
    ensures VTableAt(data', |data'|) ==> VTablesOk(data', vtables + [|data'|])
    ensures VTableAt(data', |data'|) && VTableBytes(data', |data'|) == v && VTablesDistinct(data, vtables)
            && (forall i :: 0 <= i < |vtables| ==> VTableBytes(data, vtables[i]) != v)
            ==> VTablesDistinct(data', vtables + [|data'|])
  {
    hide VTableAt, VTableBytes;
    VTablesStable(data, data', vtables);
  }

  /** The vtable `v` of the table at `t` is in place: shared, or new and remembered. */
  method LinkVTable(aligned: Str, t: nat, v: Str, vtables: seq<nat>, dedup: bool)
    returns (data: Str, vtables': seq<nat>)
    requires VTablesOk(aligned, vtables) && |aligned| % 4 == 0 && t == |aligned| + 4
    requires dedup ==> VTablesDistinct(aligned, vtables)
    requires 4 <= |v| < 0x1_0000 && |v| % 2 == 0 && Word(v, 0) == |v| && t + |v| < MAX_BUFFER_SIZE
    ensures Grown(aligned, data) && TableDone(data, t, v)
    ensures VTablesOk(data, vtables') && (dedup ==> VTablesDistinct(data, vtables'))
    ensures |data| == if |vtables'| == |vtables| then t else t + |v|
  {
    hide VTableAt, VTableBytes, TableDone, VTablesOk, VTablesDistinct, Word, Grown, LE, U32, Overwrite;
    Pow256Values();
    var found: Option<nat> := None;
    if dedup {
      found := FindVTable(aligned, v, vtables);
    }
    if found.Some? {
      var placed := Zeros(4) + aligned;
      FoundInUse(aligned, found.value);
      data := Overwrite(placed, 0, LE(U32(found.value - t), 4));
      assert [] + placed == placed;
      OffsetFilledIn([], aligned, LE(U32(found.value - t), 4));
      SharedTable(aligned, found.value, v, data, t);
      VTablesKept(aligned, data, vtables, v);
      vtables' := vtables;
    } else {
      var placed := v + (Zeros(4) + aligned);
      data := Overwrite(placed, |placed| - t, LE(U32(|placed| - t), 4));
      OffsetFilledIn(v, aligned, LE(U32(|v|), 4));
      NewTable(aligned, v, data, t);
      VTablesKept(aligned, data, vtables, v);
      vtables' := vtables + [|data|];
    }
  }

  /** The table's offset to its vtable, left zero so far, is written behind the vtable. */
  lemma OffsetFilledIn(vtable: Str, aligned: Str, offset: Str)
    requires |offset| == 4
    ensures Overwrite(vtable + (Zeros(4) + aligned), |vtable|, offset) == vtable + (offset + aligned)
  {
  }

  lemma FoundInUse(data: Str, vt: nat)
    requires VTableAt(data, vt)
    ensures 4 <= vt <= |data|
  {
  }

  // ---- Finishing ----

  function HeaderSize(fileId: Option<Str>, sizePrefix: bool): nat {
    (if sizePrefix then 4 else 0) + 4 + (if fileId.Some? then 4 else 0)
  }

  /** The data, padded so that with the header its size is a multiple of `minalign`, and the identifier. */
  function BeforeRoot(data: Str, fileId: Option<Str>, sizePrefix: bool, minalign: nat): (r: Str)
    requires minalign > 0
    ensures Grown(data, r)
  {
    var padded := Zeros(PaddingBytes(|data| + HeaderSize(fileId, sizePrefix), minalign)) + data;
    if fileId.Some? then fileId.value + padded else padded
  }

  /** `Finish`: padding, file identifier, root offset, size prefix. */
  function FinishBytes(data: Str, root: nat, fileId: Option<Str>, sizePrefix: bool, minalign: nat): (r: Str)
    requires minalign > 0 && 0 < root <= |data| && RefFits(BeforeRoot(data, fileId, sizePrefix, minalign))
    ensures Grown(data, r)
  {
    var d := BeforeRoot(data, fileId, sizePrefix, minalign);
    var r := PushRef(d, root);
    Pow256Values();
    var r' := if sizePrefix then PushScalar(r, 4, |r|) else r;
    GrownTransitive(data, d, r);
    GrownTransitive(data, r, r');
    r'
  }

  /** The header of a finished buffer, `start` bytes into it, leads to the object at `root`. */
  ghost predicate RootAt(data: Str, start: nat, fileId: Option<Str>, root: nat, obj: Obj) {
    && start <= |data| && RefAt(data, |data| - start, obj)
    && |data| - start - ReadAt(data, |data| - start, 4) == root
    && (fileId.Some? ==> InUse(data, |data| - start - 4, 4) && At(data, |data| - start - 4, 4) == fileId.value)
  }

  ghost predicate SizePrefixed(data: Str) {
    InUse(data, |data|, 4) && ReadAt(data, |data|, 4) == |data| - 4
  }

  lemma FinishMeans(data: Str, root: nat, obj: Obj, fileId: Option<Str>, sizePrefix: bool, minalign: nat)
    requires 4 <= minalign && IsWidth(minalign) && 0 < root <= |data| && ObjAt(data, root, obj)
    requires fileId.Some? ==> |fileId.value| == 4
    requires RefFits(BeforeRoot(data, fileId, sizePrefix, minalign))
    ensures var r := FinishBytes(data, root, fileId, sizePrefix, minalign);
            && |r| % minalign == 0 && |r| < |data| + HeaderSize(fileId, sizePrefix) + minalign
            && RootAt(r, if sizePrefix then 4 else 0, fileId, root, obj)
            && (sizePrefix ==> SizePrefixed(r))
  {
    hide RefAt, ObjAt, PushRef, PushScalar, ReadAt, At, Grown, PaddingBytes, RootAt;
    var d := BeforeRoot(data, fileId, sizePrefix, minalign);
    HeaderAligned(|data|, HeaderSize(fileId, sizePrefix), minalign);
    var r := PushRef(d, root);
    assert |d| % 4 == 0;
    RootWritten(data, d, root, obj, fileId);
    if sizePrefix {
      Pow256Values();
      PrefixWritten(r, fileId, root, obj);
    }
  }

  lemma RootWritten(data: Str, d: Str, root: nat, obj: Obj, fileId: Option<Str>)
    requires Grown(data, d) && 0 < root <= |data| && ObjAt(data, root, obj) && RefFits(d) && |d| % 4 == 0
    requires fileId.Some? ==> |fileId.value| == 4 && fileId.value <= d
    ensures RootAt(PushRef(d, root), 0, fileId, root, obj)
  {
    hide RefAt, ObjAt, PushRef;
    ObjStable(data, d, root, obj);
    PushRefMeans(d, root, obj);
    if fileId.Some? {
      assert At(d, |d|, 4) == fileId.value;
      AtStable(d, PushRef(d, root), |d|, 4);
    }
  }

  lemma PrefixWritten(r: Str, fileId: Option<Str>, root: nat, obj: Obj)
    requires |r| < Pow256(4) && |r| % 4 == 0 && RootAt(r, 0, fileId, root, obj)
    ensures var r' := PushScalar(r, 4, |r|);
            |r'| == |r| + 4 && RootAt(r', 4, fileId, root, obj) && SizePrefixed(r')
  {
    hide RefAt, PushScalar;
    var r' := PushScalar(r, 4, |r|);
    RefStable(r, r', |r|, obj);
    RefInUse(r, |r|, obj);
    AtStable(r, r', |r|, 4);
    if fileId.Some? { AtStable(r, r', |r| - 4, 4); }
  }

  lemma HeaderAligned(n: nat, header: nat, minalign: nat)
    requires IsWidth(minalign) && 4 <= minalign && header % 4 == 0
    ensures var m := n + PaddingBytes(n + header, minalign); (m + header) % minalign == 0 && m % 4 == 0
  {
    hide PaddingBytes;
    var total := n + header + PaddingBytes(n + header, minalign);
    Divides(total, 4, minalign);
    DifferenceDivides(total, header, 4);
  }
}
