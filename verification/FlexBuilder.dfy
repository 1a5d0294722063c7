/**
 The FlexBuffers `Builder`: an append-only byte buffer and a stack of values waiting for a parent.

 The ghost field `trees` says what each stack entry means. Every operation states its effect on
 `trees`; that the bytes in the buffer agree is the class invariant.
 */
module FlexBuilder {
  import opened Bytes
  import opened Options
  import opened Strings
  import opened FlexFormat
  import opened FlexWidths
  import opened FlexSlots
  import opened FlexPools

  /** A `std::vector` cannot hold more. */
  const CAPACITY: nat := 0x7FFF_FFFF_FFFF_FFFF

  /** The keys, and the values, of interleaved pairs. */
  function KeyColumn<T>(xs: seq<T>, start: nat, n: nat): (ys: seq<T>)
    requires |xs| == start + 2 * n
    ensures |ys| == n && forall k :: 0 <= k < n ==> ys[k] == xs[start + 2 * k]
  {
    Strided(xs, start, 2, n)
  }

  function ValueColumn<T>(xs: seq<T>, start: nat, n: nat): (ys: seq<T>)
    requires |xs| == start + 2 * n
    ensures |ys| == n && forall k :: 0 <= k < n ==> ys[k] == xs[start + 2 * k + 1]
  {
    Strided(xs, start + 1, 2, n)
  }

  predicate Indices(p: seq<nat>) { forall i :: 0 <= i < |p| ==> p[i] < |p| }

  /** Where the entry that ends up at `i` was, when the pairs from `start` on are reordered by `p`. */
  function PermutedFrom(start: nat, p: seq<nat>, i: nat): (j: nat)
    requires Indices(p) && i < start + 2 * |p|
    ensures j < start + 2 * |p| && (i < start ==> j == i)
  {
    if i < start then i else start + 2 * p[(i - start) / 2] + (i - start) % 2
  }

  lemma PermutedFromPair(start: nat, p: seq<nat>, i: nat)
    requires Indices(p) && i < |p|
    ensures PermutedFrom(start, p, start + 2 * i) == start + 2 * p[i]
    ensures PermutedFrom(start, p, start + 2 * i + 1) == start + 2 * p[i] + 1
  {
    assert (2 * i) / 2 == i && (2 * i + 1) / 2 == i;
  }

  /** The stack with its key and value pairs from `start` on reordered by `p`. */
  function PermutePairs<T>(xs: seq<T>, start: nat, p: seq<nat>): (ys: seq<T>)
    requires |xs| == start + 2 * |p| && Indices(p)
    ensures |ys| == |xs| && forall i :: 0 <= i < |ys| ==> ys[i] == xs[PermutedFrom(start, p, i)]
  {
    seq(|xs|, i requires 0 <= i < |xs| => xs[PermutedFrom(start, p, i)])
  }

  lemma PermutedPairs<T>(xs: seq<T>, start: nat, p: seq<nat>)
    requires |xs| == start + 2 * |p| && Indices(p)
    ensures var ys := PermutePairs(xs, start, p);
            && ys[..start] == xs[..start]
            && forall i :: 0 <= i < |p| ==>
                 ys[start + 2 * i] == xs[start + 2 * p[i]] && ys[start + 2 * i + 1] == xs[start + 2 * p[i] + 1]
  {
    hide PermutedFrom, PermutePairs;
    var ys := PermutePairs(xs, start, p);
    forall i | 0 <= i < |p|
      ensures ys[start + 2 * i] == xs[start + 2 * p[i]] && ys[start + 2 * i + 1] == xs[start + 2 * p[i] + 1]
    {
      PermutedFromPair(start, p, i);
    }
  }

  lemma PermutePairsEntries(buf: Str, vs: seq<Value>, ts: seq<Tree>, start: nat, p: seq<nat>)
    requires Entries(buf, vs, ts)
    requires |vs| == start + 2 * |p| && Indices(p)
    ensures Entries(buf, PermutePairs(vs, start, p), PermutePairs(ts, start, p))
  {
    hide Entry, PermutedFrom;
    forall i | 0 <= i < |vs|
      ensures Entry(buf, PermutePairs(vs, start, p)[i], PermutePairs(ts, start, p)[i])
    {
      assert Entry(buf, vs[PermutedFrom(start, p, i)], ts[PermutedFrom(start, p, i)]);
    }
  }

  /** From `start` on the stack holds `n` keys, each followed by its value. */
  ghost predicate MapPairs(ts: seq<Tree>, start: nat, n: nat) {
    && |ts| == start + 2 * n
    && forall i :: 0 <= i < n ==> ts[start + 2 * i].TKey?
  }

  ghost function PairKeys(ts: seq<Tree>, start: nat, n: nat): (ks: seq<Str>)
    requires MapPairs(ts, start, n)
    ensures |ks| == n
    ensures forall i :: 0 <= i < n ==> ts[start + 2 * i] == TKey(ks[i])
  {
    seq(n, i requires 0 <= i < n => ts[start + 2 * i].k)
  }

  ghost function PairValues(ts: seq<Tree>, start: nat, n: nat): (vs: seq<Tree>)
    requires |ts| == start + 2 * n
    ensures |vs| == n
    ensures forall i :: 0 <= i < n ==> vs[i] == ts[start + 2 * i + 1]
  {
    seq(n, i requires 0 <= i < n => ts[start + 2 * i + 1])
  }

  /** The map a list of pairs becomes: keys in increasing order, each with its value. */
  function SortedMap(ks: seq<Str>, vs: seq<Tree>): Tree
    requires |ks| == |vs|
  {
    var p := SortPermutation(ks);
    TMap(Permute(ks, p), Permute(vs, p))
  }

  function KeyStrings(buf: Str, stack: seq<Value>, start: nat, len: nat): (ks: seq<Str>)
    requires start + 2 * len <= |stack|
    requires forall i :: 0 <= i < len ==> stack[start + 2 * i].u <= |buf|
    ensures |ks| == len && forall i :: 0 <= i < len ==> ks[i] == CStr(buf, stack[start + 2 * i].u)
  {
    seq(len, i requires 0 <= i < len => CStr(buf, stack[start + 2 * i].u))
  }

  /** The strings `strcmp` compares when `EndMap` sorts are the keys the entries stand for. */
  lemma StackKeysAre(buf: Str, vs: seq<Value>, ts: seq<Tree>, start: nat, n: nat)
    requires Entries(buf, vs, ts) && MapPairs(ts, start, n)
    ensures forall i :: 0 <= i < n ==> vs[start + 2 * i].u <= |buf|
    ensures KeyStrings(buf, vs, start, n) == PairKeys(ts, start, n)
  {
    var ks := PairKeys(ts, start, n);
    forall i | 0 <= i < n
      ensures vs[start + 2 * i].u <= |buf| && CStr(buf, vs[start + 2 * i].u) == ks[i]
    {
      assert Entry(buf, vs[start + 2 * i], ts[start + 2 * i]);
    }
  }

  /** The stack from `start` on, as `CreateVector` sees it. */
  lemma WindowTypes(buf: Str, stack: seq<Value>, trees: seq<Tree>, start: nat)
    requires Entries(buf, stack, trees) && start <= |trees|
    ensures |stack| == |trees|
    ensures Strided(trees, start, 1, |trees| - start) == trees[start..]
    ensures ElementType(stack, start, |trees| - start) == ElemTypeOf(trees[start..])
    ensures AllOfType(trees[start..], ElemTypeOf(trees[start..])) ==>
              SameType(Strided(stack, start, 1, |stack| - start), ElementType(stack, start, |stack| - start))
  {
    var n := |stack| - start;
    forall k | 0 <= k < n
      ensures stack[start + k].typ == TypeOf(trees[start..][k])
    {
      assert Entry(buf, stack[start + k], trees[start + k]);
    }
    assert n > 0 ==> stack[start].typ == TypeOf(trees[start..][0]);
  }

  predicate AllOfType(es: seq<Tree>, et: int) {
    forall i :: 0 <= i < |es| ==> TypeOf(es[i]) == et
  }

  /** The element type of a typed vector of these trees. */
  function ElemTypeOf(es: seq<Tree>): int { if es == [] then FBT_KEY else TypeOf(es[0]) }

  lemma KeyColumnTypes(buf: Str, stack: seq<Value>, trees: seq<Tree>, start: nat, len: nat, ks: seq<Str>)
    requires Entries(buf, stack, trees) && |stack| == start + 2 * len && |ks| == len
    requires KeyColumn(trees, start, len) == KeyTrees(ks)
    ensures ElementType(stack, start, len) == FBT_KEY
    ensures SameType(Strided(stack, start, 2, len), FBT_KEY)
  {
    forall k | 0 <= k < len
      ensures stack[Index(start, 2, k)].typ == FBT_KEY
    {
      assert Entry(buf, stack[Index(start, 2, k)], trees[Index(start, 2, k)]);
      assert KeyColumn(trees, start, len)[k] == KeyTrees(ks)[k];
    }
    assert len > 0 ==> Index(start, 2, 0) == start;
  }

  /** The two vectors of a map, from interleaved sorted keys and values. */
  method WriteMap(before: Str, stack: seq<Value>, minWidth: nat, start: nat, len: nat,
                  ghost trees: seq<Tree>, ghost ks: seq<Str>)
    returns (buf: Str, vec: Value, ghost keys: Value, ghost keysEnd: Str)
    requires Entries(before, stack, trees) && Used(before, stack) + 64 <= CAPACITY && minWidth <= 3
    requires |stack| == start + 2 * len && |ks| == len
    requires KeyColumn(trees, start, len) == KeyTrees(ks)
    ensures before <= buf && |buf| <= |before| + 62 + 18 * len
    ensures Entry(buf, vec, TMap(ks, ValueColumn(trees, start, len)))
    ensures MapLaid(before, keysEnd, buf, keys, vec, stack, start, len, minWidth)
  {
    hide Entry, Content, Denotes, LeastWidth, Laid;
    KeyColumnTypes(before, stack, trees, start, len, ks);
    var bytes, keyVec := CreateVector(before, stack, minWidth, start, len, 2, true, false, Option.None,
                                      trees, Option.None);
    EntriesStable(before, bytes, stack, trees);
    buf, vec := CreateVector(bytes, stack, minWidth, start + 1, len, 2, false, false, Option.Some(keyVec),
                             trees, Option.Some(ks));
    keys, keysEnd := keyVec, bytes;
  }

  /** The key vector, then the value vector that refers to it, each in the smallest slots that hold it. */
  ghost predicate MapLaid(before: Str, keysEnd: Str, buf: Str, keys: Value, vec: Value, sorted: seq<Value>,
                          start: nat, n: nat, minWidth: nat)
    requires |sorted| == start + 2 * n
  {
    && Laid(before, keysEnd, keys, 1, n, true) && Laid(keysEnd, buf, vec, 3, n, false)
    && LeastWidth(sorted, start, n, 2, |before|, minWidth, Option.None, keys.width)
    && LeastWidth(sorted, start + 1, n, 2, |keysEnd|, minWidth, Option.Some(keys), vec.width)
  }

  lemma SortedKeyColumn(ts: seq<Tree>, start: nat, p: seq<nat>)
    requires MapPairs(ts, start, |p|)
    requires Indices(p)
    ensures KeyColumn(PermutePairs(ts, start, p), start, |p|) == KeyTrees(Permute(PairKeys(ts, start, |p|), p))
  {
    hide PermutePairs, PermutedFrom;
    PermutedPairs(ts, start, p);
  }

  lemma SortedValueColumn(ts: seq<Tree>, start: nat, p: seq<nat>)
    requires MapPairs(ts, start, |p|)
    requires Indices(p)
    ensures ValueColumn(PermutePairs(ts, start, p), start, |p|) == Permute(PairValues(ts, start, |p|), p)
  {
    hide PermutePairs, PermutedFrom;
    PermutedPairs(ts, start, p);
  }

  /** Sort the pairs from `start` on by key and write them as a map. */
  method SortAndWriteMap(before: Str, stack: seq<Value>, minWidth: nat, start: nat, n: nat, ghost trees: seq<Tree>)
    returns (buf: Str, vec: Value, ghost keys: Value, ghost keysEnd: Str)
    requires Entries(before, stack, trees) && Used(before, stack) + 64 <= CAPACITY && minWidth <= 3
    requires MapPairs(trees, start, n) && Distinct(PairKeys(trees, start, n))
    ensures before <= buf && |buf| <= |before| + 62 + 18 * n
    ensures Entry(buf, vec, SortedMap(PairKeys(trees, start, n), PairValues(trees, start, n)))
    ensures MapLaid(before, keysEnd, buf, keys, vec,
                    PermutePairs(stack, start, SortPermutation(PairKeys(trees, start, n))), start, n, minWidth)
  {
    hide MapLaid;
    StackKeysAre(before, stack, trees, start, n);
    var keyStrings := KeyStrings(before, stack, start, n);
    var perm := SortPermutation(keyStrings);
    PermutePairsEntries(before, stack, trees, start, perm);
    SortedKeyColumn(trees, start, perm);
    SortedValueColumn(trees, start, perm);
    buf, vec, keys, keysEnd := WriteMap(before, PermutePairs(stack, start, perm), minWidth, start, n,
                                        PermutePairs(trees, start, perm), Permute(PairKeys(trees, start, n), perm));
  }

  lemma StringEntry(buf: Str, v: Value, str: Str)
    requires v.typ == FBT_STRING && v.width == WidthU(|str|)
    ensures Entry(buf, v, TString(str)) <==> StringAt(buf, v.u, str)
  {
    hide FromLE, Pow256, Denotes;
  }

  /** A buffer padded for a value of this width. */
  function AlignedTo(buf: Str, width: nat): Str
    requires width <= 3
  {
    buf + Zeros(PaddingBytes(|buf|, WidthBytes(width)))
  }

  /** A size field as narrow as it can be, on its own boundary, the bytes, and NULs after them. */
  function WithSized(buf: Str, data: Str, trailing: nat): Str {
    AlignedTo(buf, WidthU(|data|)) + LE(|data|, WidthBytes(WidthU(|data|))) + (data + Zeros(trailing))
  }

  class Builder {
    var buf: Str
    var stack: seq<Value>
    var keyPool: set<nat>
    var finished: bool
    var forceMinWidth: nat
    var stringPool: set<(nat, nat)>
    const shareKeys: bool
    const shareStrings: bool

    ghost var trees: seq<Tree>

    ghost predicate Valid()
      reads this
      ensures Valid() ==> |stack| == |trees|
    {
      ValidFor(buf)
    }

    function Used(): nat
      reads this
    {
      FlexSlots.Used(buf, stack)
    }

    constructor (shareKeys: bool, shareStrings: bool)
      ensures Valid() && trees == [] && buf == [] && stack == [] && !finished && keyPool == {} && stringPool == {}
      ensures forceMinWidth == 0
      ensures this.shareKeys == shareKeys && this.shareStrings == shareStrings
    {
      this.shareKeys, this.shareStrings := shareKeys, shareStrings;
      buf, stack, trees := [], [], [];
      keyPool, stringPool := {}, {};
      finished, forceMinWidth := false, 0;
    }

    // ---- Byte-level steps ----

    method WriteBytes(val: Str)
      modifies this`buf
      ensures buf == old(buf) + val
    {
      buf := buf + val;
    }

    method Write(val: nat, byteWidth: nat)
      modifies this`buf
      ensures buf == old(buf) + LE(val, byteWidth)
    {
      WriteBytes(LE(val, byteWidth));
    }

    method Align(alignment: nat) returns (byteWidth: nat)
      requires alignment <= 3
      modifies this`buf
      ensures byteWidth == WidthBytes(alignment)
      ensures buf == old(buf) + Zeros(PaddingBytes(|old(buf)|, byteWidth))
      ensures |buf| % byteWidth == 0
    {
      byteWidth := WidthBytes(alignment);
      buf := buf + Zeros(PaddingBytes(|buf|, byteWidth));
    }

    ghost predicate ValidFor(bytes: Str)
      reads this
    {
      && Entries(bytes, stack, trees)
      && KeyPoolOk(bytes, keyPool)
      && (shareStrings ==> StringPoolOk(bytes, stringPool))
      && forceMinWidth <= 3
    }

    /** Appending bytes keeps the meaning of every stack and pool entry. */
    lemma AppendKeepsValid(before: Str)
      requires ValidFor(before) && before <= buf
      ensures Valid()
    {
      EntriesStable(before, buf, stack, trees);
      KeyPoolStable(before, buf, keyPool);
      if shareStrings { StringPoolStable(before, buf, stringPool); }
    }

    method Push(v: Value, ghost t: Tree)
      requires Valid() && Entry(buf, v, t)
      modifies this`stack, this`trees
      ensures Valid()
      ensures stack == old(stack) + [v] && trees == old(trees) + [t]
    {
      stack := stack + [v];
      trees := trees + [t];
    }

    /** With sharing on, every pooled string is one of `texts`, and the pool can tell those apart. */
    ghost predicate PoolsOnly(texts: iset<Str>)
      reads this
    {
      shareStrings ==> Unambiguous(texts) && PooledAmong(buf, stringPool, texts)
    }

    lemma PoolKept(before: Str, texts: iset<Str>)
      requires shareStrings ==> Unambiguous(texts) && PooledAmong(before, stringPool, texts)
      requires before <= buf
      ensures PoolsOnly(texts)
    {
      if shareStrings { PooledAmongStable(before, buf, stringPool, texts); }
    }

    // ---- Scalars ----

    method Null()
      requires Valid()
      modifies this`stack, this`trees
      ensures Valid() && trees == old(trees) + [TNull] && Used() == old(Used()) + 16
    {
      Push(Value(0, FBT_NULL, 0), TNull);
    }

    method Int(i: int)
      requires Valid() && FitsSigned(i, 8)
      modifies this`stack, this`trees
      ensures Valid() && trees == old(trees) + [TInt(i)] && Used() == old(Used()) + 16
    {
      Push(Value(U64(i), FBT_INT, WidthI(i)), TInt(i));
    }

    method UInt(u: nat)
      requires Valid() && u < TWO_64
      modifies this`stack, this`trees
      ensures Valid() && trees == old(trees) + [TUInt(u)] && Used() == old(Used()) + 16
    {
      Push(Value(u, FBT_UINT, WidthU(u)), TUInt(u));
    }

    method Bool(b: bool)
      requires Valid()
      modifies this`stack, this`trees
      ensures Valid() && trees == old(trees) + [TBool(b)] && Used() == old(Used()) + 16
    {
      Push(Value(if b then 1 else 0, FBT_BOOL, 0), TBool(b));
    }

    method IndirectInt(i: int)
      requires Valid() && FitsSigned(i, 8)
      modifies this`buf, this`stack, this`trees
      ensures Valid() && trees == old(trees) + [TIndirectInt(i)] && Used() <= old(Used()) + 31
      ensures old(buf) <= buf
      ensures buf == AlignedTo(old(buf), WidthI(i)) + LE(U64(i), WidthBytes(WidthI(i)))
      ensures stack == old(stack) + [Value(|AlignedTo(old(buf), WidthI(i))|, FBT_INDIRECT_INT, WidthI(i))]
    {
      hide KeyPoolOk, StringPoolOk, Entries;
      var width := WidthI(i);
      var byteWidth := Align(width);
      var iloc := |buf|;
      Write(U64(i), byteWidth);
      WidthIIsLeast(i, width);
      SignedRoundTrip(i, byteWidth);
      assert buf[iloc..iloc + byteWidth] == LE(U64(i), byteWidth);
      AppendKeepsValid(old(buf));
      Push(Value(iloc, FBT_INDIRECT_INT, width), TIndirectInt(i));
    }

    method IndirectUInt(u: nat)
      requires Valid() && u < TWO_64
      modifies this`buf, this`stack, this`trees
      ensures Valid() && trees == old(trees) + [TIndirectUInt(u)] && Used() <= old(Used()) + 31
      ensures old(buf) <= buf
      ensures buf == AlignedTo(old(buf), WidthU(u)) + LE(u, WidthBytes(WidthU(u)))
      ensures stack == old(stack) + [Value(|AlignedTo(old(buf), WidthU(u))|, FBT_INDIRECT_UINT, WidthU(u))]
    {
      hide KeyPoolOk, StringPoolOk, Entries;
      var width := WidthU(u);
      var byteWidth := Align(width);
      var iloc := |buf|;
      Write(u, byteWidth);
      WidthUIsLeast(u, width);
      FromLEInvertsLE(u, byteWidth);
      assert buf[iloc..iloc + byteWidth] == LE(u, byteWidth);
      AppendKeepsValid(old(buf));
      Push(Value(iloc, FBT_INDIRECT_UINT, width), TIndirectUInt(u));
    }

    // ---- Keys, strings and blobs ----

    /** `key_pool.find`: a pooled key that `strcmp` finds equal to the one at `sloc`. */
    method FindKey(sloc: nat) returns (r: Option<nat>)
      requires KeyPoolOk(buf, keyPool) && Terminated(buf, sloc)
      ensures r.Some? ==> r.value in keyPool && CStr(buf, r.value) == CStr(buf, sloc)
      ensures r.None? ==> forall p :: p in keyPool ==> CStr(buf, p) != CStr(buf, sloc)
    {
      if p :| p in keyPool && Terminated(buf, p) && StrCmp(buf, p, buf, sloc) == 0 {
        StrCmpIsLexicographic(buf, p, buf, sloc);
        return Some(p);
      }
      forall p | p in keyPool
        ensures CStr(buf, p) != CStr(buf, sloc)
      {
        StrCmpIsLexicographic(buf, p, buf, sloc);
      }
      return None;
    }

    /** `string_pool.find`: a pooled string that agrees up to the first NUL with the one of `n` bytes at `sloc`. */
    method FindString(sloc: nat, n: nat) returns (r: Option<(nat, nat)>)
      requires StringPoolOk(buf, stringPool)
      requires sloc + n < |buf| && buf[sloc + n] == 0
      ensures r.Some? ==> r.value in stringPool && CStr(buf, r.value.0) == CStr(buf, sloc)
      ensures r.None? ==> forall e :: e in stringPool ==> CStr(buf, e.0) != CStr(buf, sloc)
    {
      if e :| e in stringPool && e.0 + e.1 < |buf| && PoolEqual(buf, e.0, e.1, sloc, n) {
        PoolHit(buf, e, sloc, n);
        return Some(e);
      }
      forall e | e in stringPool
        ensures CStr(buf, e.0) != CStr(buf, sloc)
      {
        PoolHit(buf, e, sloc, n);
      }
      return None;
    }

    /** Write a key, or find it in the pool and take the new bytes back. */
    method WriteKey(str: Str) returns (sloc: nat)
      requires Valid()
      modifies this`buf, this`keyPool
      ensures Valid()
      ensures old(buf) <= buf && |buf| <= |old(buf)| + |str| + 1 && old(keyPool) <= keyPool
      ensures KeyAt(buf, sloc, CStr(str + [0], 0))
      ensures shareKeys ==> sloc in keyPool
      ensures shareKeys && sloc in old(keyPool) ==> buf == old(buf) && keyPool == old(keyPool)
      ensures !(shareKeys && sloc in old(keyPool)) ==> sloc == |old(buf)| && buf == old(buf) + (str + [0])
      ensures shareKeys && sloc !in old(keyPool) ==>
                forall p :: p in old(keyPool) ==> CStr(old(buf), p) != CStr(str + [0], 0)
    {
      sloc := |buf|;
      WriteBytes(str + [0]);
      CStrOfSuffix(old(buf), str + [0]);
      TerminatedByLast(buf, sloc);
      AppendKeepsValid(old(buf));
      KeyPoolStable(old(buf), buf, keyPool);
      if shareKeys {
        var found := FindKey(sloc);
        if found.Some? {
          buf := buf[..sloc];
          assert buf == old(buf);
          sloc := found.value;
        } else {
          KeyPoolInsert(buf, keyPool, sloc);
          keyPool := keyPool + {sloc};
        }
      }
    }

    /**
     A key means its bytes up to the first NUL. With sharing on, equal keys have equal offsets: the
     pool holds every key offset, no two for the same key, and a key that is pooled already adds nothing.
     */
    method Key(str: Str) returns (sloc: nat)
      requires Valid()
      modifies this`buf, this`stack, this`keyPool, this`trees
      ensures Valid() && trees == old(trees) + [TKey(CStr(str + [0], 0))]
      ensures KeyAt(buf, sloc, CStr(str + [0], 0)) && Used() <= old(Used()) + |str| + 17
      ensures old(buf) <= buf && old(keyPool) <= keyPool
      ensures stack == old(stack) + [Value(sloc, FBT_KEY, 0)]
      ensures shareKeys ==> sloc in keyPool
      ensures shareKeys && sloc in old(keyPool) ==> buf == old(buf) && keyPool == old(keyPool)
      ensures !(shareKeys && sloc in old(keyPool)) ==> sloc == |old(buf)| && buf == old(buf) + (str + [0])
      ensures shareKeys && sloc !in old(keyPool) ==>
                forall p :: p in old(keyPool) ==> CStr(old(buf), p) != CStr(str + [0], 0)
    {
      sloc := WriteKey(str);
      Push(Value(sloc, FBT_KEY, 0), TKey(CStr(str + [0], 0)));
    }

    /** The size field, the bytes and the trailing NULs, without the stack entry. */
    method WriteBlob(data: Str, trailing: nat) returns (sloc: nat, width: nat)
      requires |data| < TWO_64
      modifies this`buf
      ensures width == WidthU(|data|) && buf == WithSized(old(buf), data, trailing)
      ensures old(buf) <= buf && |buf| == sloc + |data| + trailing <= |old(buf)| + 15 + |data| + trailing
      ensures HasSize(buf, sloc, WidthBytes(width), |data|)
      ensures buf[sloc..sloc + |data|] == data
      ensures forall i :: sloc + |data| <= i < |buf| ==> buf[i] == 0
    {
      width := WidthU(|data|);
      var byteWidth := Align(width);
      ghost var sizeAt := |buf|;
      Write(|data|, byteWidth);
      sloc := |buf|;
      WriteBytes(data + Zeros(trailing));
      assert buf[sizeAt..sloc] == LE(|data|, byteWidth);
      WidthUIsLeast(|data|, width);
      FromLEInvertsLE(|data|, byteWidth);
    }

    /**
     Write a string, or find a pooled one that the comparator takes for it and take the new bytes back;
     `hit` is the pool entry found.
     */
    method WriteString(str: Str) returns (sloc: nat, width: nat, ghost hit: Option<(nat, nat)>)
      requires Valid() && |str| < TWO_64
      modifies this`buf, this`stringPool
      ensures Valid() && width == WidthU(|str|)
      ensures old(buf) <= buf && |buf| <= |old(buf)| + |str| + 16 && old(stringPool) <= stringPool
      ensures hit.Some? ==> shareStrings && Lookalike(old(buf), old(stringPool), hit.value, str) && sloc == hit.value.0
      ensures hit.Some? ==> buf == old(buf) && stringPool == old(stringPool)
      ensures hit.None? ==> StringAt(buf, sloc, str) && buf == WithSized(old(buf), str, 1)
      ensures hit.None? ==> stringPool == old(stringPool) + if shareStrings then {(sloc, |str|)} else {}
      ensures hit.None? && shareStrings ==>
                forall e :: e in old(stringPool) ==> !Lookalike(old(buf), old(stringPool), e, str)
    {
      var resetTo := |buf|;
      sloc, width := WriteBlob(str, 1);
      AppendKeepsValid(old(buf));
      assert buf[..resetTo] == old(buf);
      assert StringAt(buf, sloc, str);
      hit := Option.None;
      if shareStrings {
        sloc, hit := ShareString(str, sloc, resetTo);
      }
    }

    /** Give back the pooled copy of the string just written at `sloc`, if there is one. */
    method ShareString(str: Str, sloc: nat, resetTo: nat) returns (shared: nat, ghost hit: Option<(nat, nat)>)
      requires Valid() && shareStrings && StringAt(buf, sloc, str)
      requires resetTo <= |buf| && ValidFor(buf[..resetTo])
      modifies this`buf, this`stringPool
      ensures Valid()
      ensures hit.Some? ==> Lookalike(old(buf)[..resetTo], old(stringPool), hit.value, str) && shared == hit.value.0
      ensures hit.Some? ==> buf == old(buf)[..resetTo] && stringPool == old(stringPool)
      ensures hit.None? ==> buf == old(buf) && shared == sloc && stringPool == old(stringPool) + {(sloc, |str|)}
      ensures hit.None? ==>
                forall e :: e in old(stringPool) ==> !Lookalike(old(buf)[..resetTo], old(stringPool), e, str)
    {
      hide Entries, Denotes, Content, Entry, StringAt, KeyPoolOk, UpToNul, CStr;
      ghost var before := buf[..resetTo];
      PooledBytesStable(before, buf, stringPool);
      StringAtIsCStr(buf, sloc, str);
      var found := FindString(sloc, |str|);
      if found.Some? {
        buf := buf[..resetTo];
        shared, hit := found.value.0, found;
      } else {
        StringPoolInsert(buf, stringPool, (sloc, |str|));
        stringPool := stringPool + {(sloc, |str|)};
        shared, hit := sloc, Option.None;
      }
    }

    /**
     Without sharing the entry stands for the string. With sharing the pool compares strings only up to
     their first NUL, and the entry stands for the string if and only if the pool keeps it.
     */
    method String(str: Str) returns (sloc: nat, ghost hit: Option<(nat, nat)>)
      requires Valid() && |str| < TWO_64
      modifies this`buf, this`stack, this`stringPool, this`trees
      ensures Valid() <==> (shareStrings ==> Keeps(old(buf), old(stringPool), str))
      ensures trees == old(trees) + [TString(str)]
      ensures stack == old(stack) + [Value(sloc, FBT_STRING, WidthU(|str|))]
      ensures Used() <= old(Used()) + |str| + 32
      ensures old(buf) <= buf && old(stringPool) <= stringPool
      ensures hit.Some? ==> shareStrings && Lookalike(old(buf), old(stringPool), hit.value, str) && sloc == hit.value.0
      ensures hit.Some? ==> buf == old(buf) && stringPool == old(stringPool)
      ensures hit.None? ==> StringAt(buf, sloc, str) && buf == WithSized(old(buf), str, 1)
      ensures hit.None? ==> stringPool == old(stringPool) + if shareStrings then {(sloc, |str|)} else {}
      ensures hit.None? && shareStrings ==>
                forall e :: e in old(stringPool) ==> !Lookalike(old(buf), old(stringPool), e, str)
    {
      hide Entry, Entries, StringAt, StringPoolOk, KeyPoolOk, Lookalike;
      var width;
      sloc, width, hit := WriteString(str);
      PushString(Value(sloc, FBT_STRING, width), str);
      if hit.Some? {
        OneLookalike(buf, stringPool, hit.value, str);
      } else if shareStrings {
        NoLookalike(old(buf), old(stringPool), str);
      }
    }

    method PushString(v: Value, ghost str: Str)
      requires Valid() && v.typ == FBT_STRING && v.width == WidthU(|str|)
      modifies this`stack, this`trees
      ensures Valid() <==> StringAt(buf, v.u, str)
      ensures stack == old(stack) + [v] && trees == old(trees) + [TString(str)]
    {
      hide StringPoolOk, KeyPoolOk, StringAt;
      StringEntry(buf, v, str);
      EntriesPushed(buf, stack, trees, v, TString(str));
      stack := stack + [v];
      trees := trees + [TString(str)];
    }

    method Blob(data: Str) returns (sloc: nat)
      requires Valid() && |data| < TWO_64
      modifies this`buf, this`stack, this`trees
      ensures Valid() && trees == old(trees) + [TBlob(data)]
      ensures Used() <= old(Used()) + |data| + 31
      ensures old(buf) <= buf && buf == WithSized(old(buf), data, 0) && |buf| == sloc + |data|
      ensures stack == old(stack) + [Value(sloc, FBT_BLOB, WidthU(|data|))]
    {
      var width;
      sloc, width := WriteBlob(data, 0);
      AppendKeepsValid(old(buf));
      Push(Value(sloc, FBT_BLOB, width), TBlob(data));
    }

    // ---- Vectors and maps ----

    /** `StartVector` and `StartMap`: remember where the children begin. */
    method StartVector() returns (start: nat)
      requires Valid()
      ensures start == |trees|
    {
      start := |stack|;
    }

    /** The elements from `start` on become one vector; with `typed` they must share a supported type. */
    method EndVector(start: nat, typed: bool, fixed: bool) returns (u: nat)
      requires Valid() && Used() + 64 <= CAPACITY && start <= |trees|
      requires fixed ==> typed
      requires typed ==> GoodTyped(ElemTypeOf(trees[start..]), fixed, |trees| - start)
      requires typed ==> AllOfType(trees[start..], ElemTypeOf(trees[start..]))
      modifies this`buf, this`stack, this`trees
      ensures Valid() && old(buf) <= buf && Used() <= old(Used()) + 47
      ensures trees == old(trees)[..start]
                       + [VectorTree(typed, fixed, ElemTypeOf(old(trees)[start..]), Option.None, old(trees)[start..])]
      ensures |stack| == start + 1 && stack[..start] == old(stack)[..start] && stack[start].u == u
      ensures var n := |old(stack)| - start;
              && Laid(old(buf), buf, stack[start], PrefixSlots(false, fixed), n, typed)
              && LeastWidth(old(stack), start, n, 1, |old(buf)|, forceMinWidth, Option.None, stack[start].width)
    {
      hide Laid, LeastWidth, Entry, Entries, Content, Denotes, Strided, SameType, AllOfType, ElementType, KeyPoolOk,
           StringPoolOk;
      WindowTypes(buf, stack, trees, start);
      var n := |stack| - start;
      var bytes, vec := CreateVector(buf, stack, forceMinWidth, start, n, 1, typed, fixed, Option.None,
                                     trees, Option.None);
      ReplaceTop(start, bytes, vec,
                 VectorTree(typed, fixed, ElementType(stack, start, n), Option.None, trees[start..]));
      u := vec.u;
    }

    /** Drop the children and push their parent. */
    method ReplaceTop(start: nat, bytes: Str, v: Value, ghost t: Tree)
      requires Valid() && start <= |stack| && buf <= bytes && Entry(bytes, v, t)
      modifies this`buf, this`stack, this`trees
      ensures Valid() && buf == bytes
      ensures stack == old(stack)[..start] + [v] && trees == old(trees)[..start] + [t]
    {
      hide KeyPoolOk, StringPoolOk, Content, Denotes;
      buf := bytes;
      AppendKeepsValid(old(buf));
      stack := stack[..start] + [v];
      trees := trees[..start] + [t];
    }

    /**
     The keys and values pushed since `start` become one map. The result does not depend on the
     insertion order: the pairs are stored in key order.
     */
    method EndMap(start: nat, ghost n: nat) returns (u: nat, ghost keys: Value, ghost keysEnd: Str)
      requires Valid() && Used() + 64 <= CAPACITY
      requires MapPairs(trees, start, n) && Distinct(PairKeys(trees, start, n))
      modifies this`buf, this`stack, this`trees
      ensures Valid() && old(buf) <= buf && Used() <= old(Used()) + 78
      ensures trees == old(trees)[..start]
                       + [SortedMap(PairKeys(old(trees), start, n), PairValues(old(trees), start, n))]
      ensures |stack| == start + 1 && stack[..start] == old(stack)[..start] && stack[start].u == u
      ensures MapLaid(old(buf), keysEnd, buf, keys, stack[start],
                      PermutePairs(old(stack), start, SortPermutation(PairKeys(old(trees), start, n))), start, n,
                      forceMinWidth)
    {
      hide MapLaid, Entry, Entries, Content, Denotes, KeyPoolOk, StringPoolOk;
      var len := |stack| - start;
      len := len / 2;
      assert len == n;
      var bytes, vec;
      bytes, vec, keys, keysEnd := SortAndWriteMap(buf, stack, forceMinWidth, start, len, trees);
      ReplaceTop(start, bytes, vec, SortedMap(PairKeys(trees, start, len), PairValues(trees, start, len)));
      u := vec.u;
    }

    /**
     A typed vector straight from an array of scalars of `1 << width` bytes. As in the source, the
     length must fit the same width.
     */
    method ScalarVector(et: int, xs: seq<int>, width: nat, fixed: bool) returns (vloc: nat)
      requires Valid() && width <= 3 && ScalarsFit(et, xs, WidthBytes(width)) && WidthU(|xs|) <= width
      requires |xs| < TWO_64 && et != FBT_KEY && GoodTyped(et, fixed, |xs|)
      modifies this`buf, this`stack, this`trees
      ensures Valid() && trees == old(trees) + [TTyped(et, fixed, ScalarTrees(et, xs))]
      ensures old(buf) <= buf && Used() <= old(Used()) + 31 + 8 * |xs|
      ensures stack == old(stack) + [Value(vloc, ToTypedVector(et, if fixed then |xs| else 0), width)]
      ensures Laid(old(buf), buf, stack[|stack| - 1], PrefixSlots(false, fixed), |xs|, true)
    {
      var bytes;
      bytes, vloc := WriteScalarVector(buf, et, xs, width, fixed);
      buf := bytes;
      AppendKeepsValid(old(buf));
      Push(Value(vloc, ToTypedVector(et, if fixed then |xs| else 0), width), TTyped(et, fixed, ScalarTrees(et, xs)));
    }

    /** The value on top of the stack, to be used again. */
    method LastValue() returns (v: Value)
      requires Valid() && trees != []
      ensures Entry(buf, v, trees[|trees| - 1])
    {
      v := stack[|stack| - 1];
    }

    /** Refer again to a value remembered when the buffer was `past`: its tree, at no cost in bytes. */
    method ReuseValue(v: Value, ghost past: Str, ghost t: Tree)
      requires Valid() && Entry(past, v, t) && past <= buf
      modifies this`stack, this`trees
      ensures Valid() && trees == old(trees) + [t] && Used() == old(Used()) + 16
    {
      EntryStable(past, buf, v, t);
      Push(v, t);
    }

    method ForceMinimumBitWidth(width: nat)
      requires Valid() && width <= 3
      modifies this`forceMinWidth
      ensures Valid() && forceMinWidth == width
    {
      forceMinWidth := width;
    }

    method Clear()
      modifies this
      ensures Valid() && buf == [] && trees == [] && stack == [] && !finished && keyPool == {} && stringPool == {}
      ensures forceMinWidth == 0
    {
      buf, stack, trees := [], [], [];
      keyPool, stringPool := {}, {};
      finished, forceMinWidth := false, 0;
    }

    /** With one value left, the finished buffer read from its end is the tree of that value. */
    method Finish() returns (ghost width: nat)
      requires Valid() && Used() + 64 <= CAPACITY && |trees| == 1
      modifies this`buf, this`finished
      ensures Valid() && finished && old(buf) <= buf && |buf| <= |old(buf)| + 17
      ensures |buf| >= 2 && Denotes(buf, GetRoot(buf), trees[0])
      ensures LeastRootWidth(stack[0], |old(buf)|, width)
      ensures var b := WidthBytes(width); |buf| == |old(buf)| + PaddingBytes(|old(buf)|, b) + b + 2
    {
      hide Content, Denotes, KeyPoolOk, StringPoolOk, IsRoot, LeastRootWidth;
      assert Entry(buf, stack[0], trees[0]);
      var bytes;
      ghost var aligned;
      bytes, aligned, width := WriteRoot(buf, stack[0]);
      buf := bytes;
      RootDenotes(old(buf), aligned, stack[0], trees[0], width, buf);
      AppendKeepsValid(old(buf));
      finished := true;
    }
  }
}
