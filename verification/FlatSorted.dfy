/**
 Vectors of tables sorted by a string key, and binary search in them.
 */
module FlatSorted {
  import opened Bytes
  import opened Options
  import opened Strings
  import opened FlatFormat
  import opened FlatWriter
  import opened FlatPool
  import opened FlatBuilder

  // ---- Keys ----

  /** The table has a string in the required key field `id`. */
  predicate HasKey(obj: Obj, id: nat) {
    && FieldId(id) && obj.TableObj?
    && var k := Locate(obj.fields, id);
    && k < |obj.fields| && obj.fields[k].RefField? && obj.fields[k].obj.StringObj?
  }

  function KeyOf(obj: Obj, id: nat): Str
    requires HasKey(obj, id)
  {
    obj.fields[Locate(obj.fields, id)].obj.s
  }

  function KeysOf(objs: seq<Obj>, id: nat): (ks: seq<Str>)
    requires forall i :: 0 <= i < |objs| ==> HasKey(objs[i], id)
    ensures |ks| == |objs| && forall i :: 0 <= i < |objs| ==> ks[i] == KeyOf(objs[i], id)
  {
    seq(|objs|, i requires 0 <= i < |objs| => KeyOf(objs[i], id))
  }

  /** Where the relative offset at `pos` leads. */
  function Deref(data: Str, pos: nat): int
    requires InUse(data, pos, 4)
  {
    pos - ReadAt(data, pos, 4)
  }

  predicate KeyReadable(data: Str, t: int, id: nat) {
    && FieldId(id) && TableAt(data, t)
    && InUse(data, t - FieldOffset(data, t, id), 4)
    && HasString(data, Deref(data, t - FieldOffset(data, t, id)))
  }

  /** `key()`: the offset of the table's key string. */
  function KeyString(data: Str, t: nat, id: nat): (off: nat)
    requires KeyReadable(data, t, id)
    ensures HasString(data, off)
  {
    Deref(data, t - FieldOffset(data, t, id))
  }

  lemma KeyReads(data: Str, t: int, obj: Obj, id: nat)
    requires ObjAt(data, t, obj) && HasKey(obj, id)
    ensures t >= 0 && KeyReadable(data, t, id) && StringAt(data, KeyString(data, t, id)) == KeyOf(obj, id)
    ensures ObjAt(data, KeyString(data, t, id), StringObj(KeyOf(obj, id)))
  {
    hide TableAt, ReadAt, HasString, StringAt;
    var f := obj.fields[Locate(obj.fields, id)];
    assert FieldAt(data, t, f);
    assert RefAt(data, t - FieldOffset(data, t, id), f.obj);
    StringObjHasString(data, Deref(data, t - FieldOffset(data, t, id)), f.obj.s);
  }

  // ---- Sorting ----

  predicate Sorted(ks: seq<Str>) {
    forall i, j :: 0 <= i < j < |ks| ==> !Less(ks[j], ks[i])
  }

  /** `TableKeyComparator` on two offsets. */
  predicate TableLess(data: Str, a: nat, b: nat, id: nat)
    requires KeyReadable(data, a, id) && KeyReadable(data, b, id)
  {
    StringLessThan(StringAt(data, KeyString(data, a, id)), StringAt(data, KeyString(data, b, id)))
  }

  lemma NotLessTransitive(a: Str, b: Str, c: Str)
    requires !Less(b, a) && !Less(c, b)
    ensures !Less(c, a)
  {
    LessTotal(a, b);
    LessTotal(b, c);
    if Less(c, a) {
      if a != b { LessTransitive(c, a, b); }
    }
  }

  function OffKeys(data: Str, offs: seq<nat>, id: nat): (ks: seq<Str>)
    requires forall i :: 0 <= i < |offs| ==> KeyReadable(data, offs[i], id)
    ensures |ks| == |offs|
    ensures forall i :: 0 <= i < |offs| ==> ks[i] == StringAt(data, KeyString(data, offs[i], id))
  {
    seq(|offs|, i requires 0 <= i < |offs| => StringAt(data, KeyString(data, offs[i], id)))
  }

  /** Insertion of one offset into a sorted list. */
  method InsertOffset(data: Str, offs: seq<nat>, x: nat, id: nat) returns (r: seq<nat>)
    requires KeyReadable(data, x, id) && forall i :: 0 <= i < |offs| ==> KeyReadable(data, offs[i], id)
    requires Sorted(OffKeys(data, offs, id))
    ensures multiset(r) == multiset(offs) + multiset{x}
    ensures forall i :: 0 <= i < |r| ==> KeyReadable(data, r[i], id)
    ensures Sorted(OffKeys(data, r, id))
  {
    hide KeyReadable, StringAt, KeyString, Less, StringLessThan;
    var k := |offs|;
    ghost var ks, kx := OffKeys(data, offs, id), StringAt(data, KeyString(data, x, id));
    while k > 0 && TableLess(data, x, offs[k - 1], id)
      invariant 0 <= k <= |offs|
      invariant forall j :: k <= j < |offs| ==> !Less(ks[j], kx)
    {
      StringLessThanIsLess(kx, ks[k - 1]);
      LessAsymmetric(kx, ks[k - 1]);
      k := k - 1;
    }
    forall j | 0 <= j < k
      ensures !Less(kx, ks[j])
    {
      StringLessThanIsLess(kx, ks[k - 1]);
      if j < k - 1 { NotLessTransitive(ks[j], ks[k - 1], kx); }
    }
    r := offs[..k] + [x] + offs[k..];
    InsertedKeys(data, offs, x, k, id);
    InsertedSorted(ks, kx, k);
  }

  lemma InsertedKeys(data: Str, offs: seq<nat>, x: nat, k: nat, id: nat)
    requires KeyReadable(data, x, id) && forall i :: 0 <= i < |offs| ==> KeyReadable(data, offs[i], id)
    requires k <= |offs|
    ensures var r := offs[..k] + [x] + offs[k..];
            && multiset(r) == multiset(offs) + multiset{x}
            && (forall i :: 0 <= i < |r| ==> KeyReadable(data, r[i], id))
            && OffKeys(data, r, id)
               == OffKeys(data, offs, id)[..k] + [StringAt(data, KeyString(data, x, id))] + OffKeys(data, offs, id)[k..]
  {
    hide KeyReadable, StringAt, KeyString, OffKeys;
    InsertedMultiset(offs, x, k);
    var r, ks, kx := offs[..k] + [x] + offs[k..], OffKeys(data, offs, id), StringAt(data, KeyString(data, x, id));
    var ks' := ks[..k] + [kx] + ks[k..];
    forall i | 0 <= i < |r|
      ensures KeyReadable(data, r[i], id) && StringAt(data, KeyString(data, r[i], id)) == ks'[i]
    {
      assert r[i] == if i < k then offs[i] else if i == k then x else offs[i - 1];
    }
  }

  lemma InsertedMultiset(offs: seq<nat>, x: nat, k: nat)
    requires k <= |offs|
    ensures multiset(offs[..k] + [x] + offs[k..]) == multiset(offs) + multiset{x}
  {
    assert offs == offs[..k] + offs[k..];
  }

  lemma InsertedSorted(ks: seq<Str>, kx: Str, k: nat)
    requires Sorted(ks) && k <= |ks|
    requires forall j :: 0 <= j < k ==> !Less(kx, ks[j])
    requires forall j :: k <= j < |ks| ==> !Less(ks[j], kx)
    ensures Sorted(ks[..k] + [kx] + ks[k..])
  {
    hide Less;
  }

  lemma LessAsymmetric(a: Str, b: Str)
    requires Less(a, b)
    ensures !Less(b, a)
  {
    if Less(b, a) {
      LessTransitive(a, b, a);
      LessIrreflexive(a);
    }
  }

  /** `std::sort` with `TableKeyComparator`: some permutation in key order. */
  method SortOffsets(data: Str, offs: seq<nat>, id: nat) returns (r: seq<nat>)
    requires forall i :: 0 <= i < |offs| ==> KeyReadable(data, offs[i], id)
    ensures multiset(r) == multiset(offs)
    ensures forall i :: 0 <= i < |r| ==> KeyReadable(data, r[i], id)
    ensures Sorted(OffKeys(data, r, id))
  {
    hide KeyReadable, Less;
    r := [];
    assert offs[..|offs|] == offs;
    for i := 0 to |offs|
      invariant multiset(r) == multiset(offs[..i])
      invariant forall j :: 0 <= j < |r| ==> KeyReadable(data, r[j], id)
      invariant Sorted(OffKeys(data, r, id))
    {
      r := InsertOffset(data, r, offs[i], id);
      assert offs[..i + 1] == offs[..i] + [offs[i]];
    }
  }

  ghost predicate AllKeyed(objs: map<nat, Obj>, offs: seq<nat>, id: nat) {
    forall i :: 0 <= i < |offs| ==> offs[i] in objs && HasKey(objs[offs[i]], id)
  }

  /** The caller's array is sorted in place; the vector holds the same tables in key order. */
  method CreateVectorOfSortedTables(b: FlatBufferBuilder, v: array<nat>, id: nat) returns (off: nat)
    requires b.Valid() && !b.nested && AllKeyed(b.objs, v[..], id)
    requires |PreAligned(b.data, 4 * v.Length, 4)| + 4 * v.Length + 4 < MAX_BUFFER_SIZE
    modifies v, b`data, b`minalign, b`objs
    ensures b.Valid() && multiset(v[..]) == multiset(old(v[..]))
    ensures AllKeyed(old(b.objs), v[..], id)
    ensures b.objs == old(b.objs)[off := OffsetVector(ObjsOf(old(b.objs), v[..]))]
    ensures Sorted(KeysOf(ObjsOf(old(b.objs), v[..]), id))
  {
    hide FlatBufferBuilder.Valid, HasKey, KeyReadable, ObjAt, Less;
    forall i | 0 <= i < v.Length
      ensures KeyReadable(b.data, v[..][i], id)
    {
      b.KnownObject(v[..][i]);
      KeyReads(b.data, v[..][i], b.objs[v[..][i]], id);
    }
    ghost var before := v[..];
    var sorted := SortOffsets(b.data, v[..], id);
    SameLength(sorted, before);
    forall i | 0 <= i < v.Length { v[i] := sorted[i]; }
    assert v[..] == sorted;
    SameMembers(sorted, before);
    assert AllKeyed(b.objs, sorted, id);
    ghost var os := ObjsOf(b.objs, sorted);
    forall i | 0 <= i < |sorted|
      ensures OffKeys(b.data, sorted, id)[i] == KeyOf(os[i], id)
    {
      b.KnownObject(sorted[i]);
      KeyReads(b.data, sorted[i], os[i], id);
    }
    assert OffKeys(b.data, sorted, id) == KeysOf(os, id);
    off := b.CreateOffsetVector(v[..]);
  }

  lemma SameLength(a: seq<nat>, b: seq<nat>)
    requires multiset(a) == multiset(b)
    ensures |a| == |b|
  {
    assert |multiset(a)| == |a| && |multiset(b)| == |b|;
  }

  lemma SameMembers(a: seq<nat>, b: seq<nat>)
    requires multiset(a) == multiset(b)
    ensures forall i :: 0 <= i < |a| ==> a[i] in b
  {
    forall i | 0 <= i < |a|
      ensures a[i] in b
    {
      assert a[i] in multiset(a);
    }
  }

  // ---- Searching ----

  lemma KeyBytes(data: Str, off: nat, k: Str)
    requires ObjAt(data, off, StringObj(k))
    ensures off <= |data|
    ensures var a := |data| - off + 4; a + |k| < |data| && data[a..a + |k|] == k && data[a + |k|] == 0
  {
    hide ReadAt;
    var a := |data| - off + 4;
    assert At(data, off - 4, |k|) == data[a..a + |k|];
    assert At(data, off - 4 - |k|, 1) == [data[a + |k|]];
  }

  /** `KeyCompareWithValue`: `strcmp` of the stored key with a C string. */
  lemma CompareKey(data: Str, t: int, obj: Obj, id: nat, key: Str)
    requires ObjAt(data, t, obj) && HasKey(obj, id) && 0 !in key
    ensures KeyReadable(data, t, id)
    ensures var a := |data| - KeyString(data, t, id) + 4;
            Terminated(data, a) && Terminated(key + [0], 0)
            && (StrCmp(data, a, key + [0], 0) < 0 <==> Less(UpToNul(KeyOf(obj, id)), key))
            && (StrCmp(data, a, key + [0], 0) == 0 <==> UpToNul(KeyOf(obj, id)) == key)
  {
    hide TableAt, Less, CStr, StrCmp, FromLE, HasKey, KeyReadable, KeyString, KeyOf, UpToNul, ObjAt, HasString;
    KeyReads(data, t, obj, id);
    var off, k := KeyString(data, t, id), KeyOf(obj, id);
    var a := |data| - off + 4;
    KeyBytes(data, off, k);
    StoredUpToNul(data, a, k);
    CStrIs(key + [0], 0, key);
    StrCmpIsLexicographic(data, a, key + [0], 0);
  }

  /** The keys as `strcmp` sees them are still in order. */
  function SeenKeys(ks: seq<Str>): (cs: seq<Str>)
    ensures |cs| == |ks| && forall i :: 0 <= i < |ks| ==> cs[i] == UpToNul(ks[i])
  {
    seq(|ks|, i requires 0 <= i < |ks| => UpToNul(ks[i]))
  }

  lemma SeenKeysSorted(ks: seq<Str>)
    requires Sorted(ks)
    ensures Sorted(SeenKeys(ks))
  {
    hide Less, UpToNul;
    var cs := SeenKeys(ks);
    forall i, j | 0 <= i < j < |cs|
      ensures !Less(cs[j], cs[i])
    {
      if Less(cs[j], cs[i]) { UpToNulMonotone(ks[j], ks[i]); }
    }
  }

  lemma NulFreeKeysSeen(ks: seq<Str>)
    requires forall i :: 0 <= i < |ks| ==> 0 !in ks[i]
    ensures SeenKeys(ks) == ks
  {
  }

  /**
   `LookupByKey`: binary search that dereferences one element at a time. It finds a table whose key agrees
   with the one sought up to its first NUL, exactly if there is one.
   */
  method LookupByKey(data: Str, vec: nat, id: nat, key: Str, ghost objs: seq<Obj>) returns (r: Option<nat>)
    requires ObjAt(data, vec, OffsetVector(objs)) && 0 !in key
    requires forall i :: 0 <= i < |objs| ==> HasKey(objs[i], id)
    requires Sorted(KeysOf(objs, id))
    ensures r.Some? <==> key in SeenKeys(KeysOf(objs, id))
    ensures r.Some? ==>
              exists i :: 0 <= i < |objs| && ObjAt(data, r.value, objs[i]) && UpToNul(KeyOf(objs[i], id)) == key
  {
    hide ObjAt, RefAt, HasKey, KeyOf, Less, KeyReadable, StrCmp, Terminated, UpToNul;
    ghost var ks := SeenKeys(KeysOf(objs, id));
    SeenKeysSorted(KeysOf(objs, id));
    VectorLength(data, vec, objs);
    var lo, hi := 0, ReadAt(data, vec, 4);
    while lo < hi
      invariant 0 <= lo <= hi <= |objs|
      invariant forall j :: 0 <= j < lo ==> Less(ks[j], key)
      invariant forall j :: hi <= j < |objs| ==> Less(key, ks[j])
    {
      var mid := (lo + hi) / 2;
      VectorElem(data, vec, objs, mid);
      var t := Deref(data, vec - 4 - 4 * mid);
      CompareKey(data, t, objs[mid], id, key);
      var cmp := StrCmp(data, |data| - KeyString(data, t, id) + 4, key + [0], 0);
      if cmp == 0 {
        assert ks[mid] == key;
        return Some(t);
      } else if cmp < 0 {
        BelowToo(ks, mid, key);
        lo := mid + 1;
      } else {
        LessTotal(ks[mid], key);
        AboveToo(ks, mid, key);
        hi := mid;
      }
    }
    LessIrreflexive(key);
    return None;
  }

  /** Sorted when built, found when looked up: by any of the NUL-free keys, and by no other. */
  method BuildThenLookup(b: FlatBufferBuilder, v: array<nat>, id: nat, key: Str) returns (r: Option<nat>)
    requires b.Valid() && !b.nested && AllKeyed(b.objs, v[..], id) && 0 !in key
    requires |PreAligned(b.data, 4 * v.Length, 4)| + 4 * v.Length + 4 < MAX_BUFFER_SIZE
    requires forall i :: 0 <= i < v.Length ==> 0 !in KeyOf(b.objs[v[i]], id)
    modifies v, b`data, b`minalign, b`objs
    ensures b.Valid()
    ensures r.Some? <==> key in old(KeysOf(ObjsOf(b.objs, v[..]), id))
    ensures r.Some? ==>
              exists i :: 0 <= i < v.Length && ObjAt(b.data, r.value, old(b.objs[v[i]]))
                          && old(KeyOf(b.objs[v[i]], id)) == key
  {
    hide FlatBufferBuilder.Valid, HasKey, KeyOf, ObjAt, Sorted, UpToNul;
    ghost var objs, offs := b.objs, v[..];
    var vec := CreateVectorOfSortedTables(b, v, id);
    ghost var os, was := ObjsOf(objs, v[..]), ObjsOf(objs, offs);
    SameKeys(objs, offs, v[..], id);
    NulFreeKeysSeen(KeysOf(os, id));
    b.KnownObject(vec);
    r := LookupByKey(b.data, vec, id, key, os);
    if r.Some? {
      ghost var j :| 0 <= j < |os| && ObjAt(b.data, r.value, os[j]) && UpToNul(KeyOf(os[j], id)) == key;
      assert KeysOf(os, id)[j] == SeenKeys(KeysOf(os, id))[j] == key;
      SameMembers(v[..], offs);
      ghost var i :| 0 <= i < |offs| && offs[i] == v[..][j];
    }
  }

  /** The same offsets in another order have the same keys. */
  lemma SameKeys(objs: map<nat, Obj>, offs: seq<nat>, offs': seq<nat>, id: nat)
    requires multiset(offs) == multiset(offs') && AllKeyed(objs, offs, id) && AllKeyed(objs, offs', id)
    requires forall i :: 0 <= i < |offs| ==> 0 !in KeyOf(objs[offs[i]], id)
    ensures var ks, ks' := KeysOf(ObjsOf(objs, offs), id), KeysOf(ObjsOf(objs, offs'), id);
            (forall k :: k in ks <==> k in ks') && forall i :: 0 <= i < |ks'| ==> 0 !in ks'[i]
  {
    hide HasKey, KeyOf;
    KeysAmong(objs, offs, offs', id);
    KeysAmong(objs, offs', offs, id);
    SameMembers(offs', offs);
    forall i | 0 <= i < |offs'|
      ensures 0 !in KeyOf(objs[offs'[i]], id)
    {
      var j :| 0 <= j < |offs| && offs[j] == offs'[i];
    }
  }

  lemma KeysAmong(objs: map<nat, Obj>, offs: seq<nat>, offs': seq<nat>, id: nat)
    requires multiset(offs) == multiset(offs') && AllKeyed(objs, offs, id) && AllKeyed(objs, offs', id)
    ensures forall k :: k in KeysOf(ObjsOf(objs, offs), id) ==> k in KeysOf(ObjsOf(objs, offs'), id)
  {
    hide HasKey, KeyOf;
    var ks, ks' := KeysOf(ObjsOf(objs, offs), id), KeysOf(ObjsOf(objs, offs'), id);
    SameMembers(offs, offs');
    forall i | 0 <= i < |ks|
      ensures ks[i] in ks'
    {
      var j :| 0 <= j < |offs'| && offs'[j] == offs[i];
      assert ks'[j] == ks[i];
    }
  }

  lemma VectorLength(data: Str, vec: nat, objs: seq<Obj>)
    requires ObjAt(data, vec, OffsetVector(objs))
    ensures InUse(data, vec, 4) && ReadAt(data, vec, 4) == |objs|
  {
  }

  lemma VectorElem(data: Str, vec: nat, objs: seq<Obj>, i: nat)
    requires ObjAt(data, vec, OffsetVector(objs)) && i < |objs|
    ensures InUse(data, vec - 4 - 4 * i, 4) && ObjAt(data, Deref(data, vec - 4 - 4 * i), objs[i])
    ensures Deref(data, vec - 4 - 4 * i) >= 0
  {
    assert RefAt(data, vec - 4 - 4 * i, objs[i]);
  }

  lemma BelowToo(ks: seq<Str>, mid: nat, key: Str)
    requires Sorted(ks) && mid < |ks| && Less(ks[mid], key)
    ensures forall j :: 0 <= j <= mid ==> Less(ks[j], key)
  {
    forall j | 0 <= j < mid
      ensures Less(ks[j], key)
    {
      LessTotal(ks[j], ks[mid]);
      if ks[j] != ks[mid] { LessTransitive(ks[j], ks[mid], key); }
    }
  }

  lemma AboveToo(ks: seq<Str>, mid: nat, key: Str)
    requires Sorted(ks) && mid < |ks| && Less(key, ks[mid])
    ensures forall j :: mid <= j < |ks| ==> Less(key, ks[j])
  {
    forall j | mid < j < |ks|
      ensures Less(key, ks[j])
    {
      LessTotal(ks[mid], ks[j]);
      if ks[j] != ks[mid] { LessTransitive(key, ks[mid], ks[j]); }
    }
  }
}
