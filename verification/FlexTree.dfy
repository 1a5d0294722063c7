/**
 Whole trees: every tree can be built, finished, and read back, and map lookup finds exactly
 the keys that were put in.
 */
module FlexTree {
  import opened Bytes
  import opened Options
  import opened Strings
  import opened FlexFormat
  import opened FlexSlots
  import opened FlexPools
  import opened FlexBuilder
  import FlexReader

  // ---- Trees a caller may build ----

  /**
   Values within their C++ ranges, strings among `texts`, NUL-free keys, distinct map keys, supported
   typed vectors.
   */
  ghost predicate Storable(t: Tree, texts: iset<Str>) {
    match t
    case TNull => true
    case TBool(_) => true
    case TInt(i) => FitsSigned(i, 8)
    case TUInt(u) => u < TWO_64
    case TIndirectInt(i) => FitsSigned(i, 8)
    case TIndirectUInt(u) => u < TWO_64
    case TKey(k) => 0 !in k
    case TString(s) => |s| < TWO_64 && s in texts
    case TBlob(s) => |s| < TWO_64
    case TVector(es) => AllStorable(es, texts)
    case TTyped(et, fixed, es) => GoodTyped(et, fixed, |es|) && AllOfType(es, et) && AllStorable(es, texts)
    case TMap(ks, vs) =>
      && |ks| == |vs| && Distinct(ks)
      && (forall i :: 0 <= i < |ks| ==> 0 !in ks[i])
      && AllStorable(vs, texts)
  }

  ghost predicate AllStorable(es: seq<Tree>, texts: iset<Str>) {
    forall i :: 0 <= i < |es| ==> Storable(es[i], texts)
  }

  /** The same tree with the pairs of every map in key order: the form in which it is read back. */
  function Canon(t: Tree): (c: Tree) {
    match t
    case TVector(es) => TVector(CanonAll(es))
    case TTyped(et, fixed, es) => TTyped(et, fixed, CanonAll(es))
    case TMap(ks, vs) => if |ks| == |vs| then SortedMap(ks, CanonAll(vs)) else t
    case _ => t
  }

  function CanonAll(es: seq<Tree>): (cs: seq<Tree>)
    ensures |cs| == |es| && forall i :: 0 <= i < |es| ==> cs[i] == Canon(es[i])
  {
    if es == [] then [] else [Canon(es[0])] + CanonAll(es[1..])
  }

  lemma CanonKeepsType(t: Tree)
    ensures TypeOf(Canon(t)) == TypeOf(t)
  {
  }

  /** Reordering pairs changes no map: each key keeps its (canonical) value. */
  lemma CanonKeepsMaps(ks: seq<Str>, vs: seq<Tree>)
    requires |ks| == |vs| && Distinct(ks)
    ensures var c := Canon(TMap(ks, vs));
            c.TMap? && |c.keys| == |c.vals| && StrictlySorted(c.keys)
            && MapOf(c.keys, c.vals) == MapOf(ks, CanonAll(vs))
  {
    hide Less, CanonAll, SortPermutation, MapOf;
    SortPermutationSorts(ks);
    PermutedMapOf(ks, CanonAll(vs), SortPermutation(ks));
  }

  /** Two insertion orders of the same pairs give the same tree. */
  lemma CanonForgetsOrder(ks: seq<Str>, vs: seq<Tree>, p: seq<nat>)
    requires |ks| == |vs| && Distinct(ks) && IsPermutation(p, |ks|)
    ensures Canon(TMap(Permute(ks, p), Permute(vs, p))) == Canon(TMap(ks, vs))
  {
    hide Less, SortPermutation, Cost, Storable;
    var ks', cs, cs' := Permute(ks, p), CanonAll(vs), CanonAll(Permute(vs, p));
    assert cs' == Permute(cs, p);
    PermutedDistinct(ks, p);
    var q, q' := SortPermutation(ks), SortPermutation(ks');
    SortPermutationSorts(ks);
    SortPermutationSorts(ks');
    PermutedElements(ks, p);
    PermutedElements(ks, q);
    PermutedElements(ks', q');
    SortedListsAgree(Permute(ks, q), Permute(ks', q'));
    forall i | 0 <= i < |ks|
      ensures p[q'[i]] == q[i]
    {
      assert ks[p[q'[i]]] == ks'[q'[i]] == Permute(ks', q')[i] == Permute(ks, q)[i] == ks[q[i]];
    }
    assert Permute(cs', q') == Permute(cs, q);
  }

  /** Bytes a tree can need at most, counting the stack. */
  function Cost(t: Tree): nat {
    match t
    case TKey(k) => |k| + 17
    case TString(s) => |s| + 32
    case TBlob(s) => |s| + 31
    case TVector(es) => CostAll(es) + 47
    case TTyped(_, _, es) => CostAll(es) + 47
    case TMap(ks, vs) => KeysCost(ks) + CostAll(vs) + 78
    case _ => 31
  }

  function CostAll(es: seq<Tree>): nat {
    if es == [] then 0 else CostAll(es[..|es| - 1]) + Cost(es[|es| - 1])
  }

  function KeysCost(ks: seq<Str>): nat {
    if ks == [] then 0 else KeysCost(ks[..|ks| - 1]) + |ks[|ks| - 1]| + 17
  }

  // ---- Building ----

  /** The calls a client makes for a tree, depth first. */
  method BuildTree(b: Builder, t: Tree, ghost texts: iset<Str>)
    requires b.Valid() && b.PoolsOnly(texts) && Storable(t, texts) && b.Used() + Cost(t) + 64 <= CAPACITY
    modifies b
    ensures b.Valid() && b.PoolsOnly(texts) && b.trees == old(b.trees) + [Canon(t)]
    ensures old(b.buf) <= b.buf && b.Used() <= old(b.Used()) + Cost(t)
    decreases t, 1
  {
    hide Builder.Valid, Builder.PoolsOnly;
    match t
    case TVector(es) => BuildVector(b, es, texts);
    case TTyped(et, fixed, es) => BuildTyped(b, et, fixed, es, texts);
    case TMap(ks, vs) => BuildMap(b, ks, vs, texts);
    case _ => BuildLeaf(b, t, texts);
  }

  method BuildLeaf(b: Builder, t: Tree, ghost texts: iset<Str>)
    requires !t.TVector? && !t.TTyped? && !t.TMap?
    requires b.Valid() && b.PoolsOnly(texts) && Storable(t, texts)
    modifies b
    ensures b.Valid() && b.PoolsOnly(texts) && b.trees == old(b.trees) + [t]
    ensures old(b.buf) <= b.buf && b.Used() <= old(b.Used()) + Cost(t)
  {
    hide Builder.Valid, Unambiguous, PooledAmong;
    if t.TString? {
      var _ := BuildString(b, t.s, texts);
    } else {
      if t.TKey? {
        CStrIs(t.k + [0], 0, t.k);
        var _ := b.Key(t.k);
      } else if t.TBlob? {
        var _ := b.Blob(t.s);
      } else {
        BuildNumber(b, t);
      }
      b.PoolKept(old(b.buf), texts);
    }
  }

  predicate IsNumber(t: Tree) {
    t.TNull? || t.TBool? || t.TInt? || t.TUInt? || t.TIndirectInt? || t.TIndirectUInt?
  }

  method BuildNumber(b: Builder, t: Tree)
    requires b.Valid() && IsNumber(t) && Storable(t, iset{})
    modifies b`buf, b`stack, b`trees
    ensures b.Valid() && b.trees == old(b.trees) + [t]
    ensures old(b.buf) <= b.buf && b.Used() <= old(b.Used()) + 31
  {
    hide Builder.Valid;
    match t
    case TNull => b.Null();
    case TBool(v) => b.Bool(v);
    case TInt(i) => b.Int(i);
    case TUInt(u) => b.UInt(u);
    case TIndirectInt(i) => b.IndirectInt(i);
    case TIndirectUInt(u) => b.IndirectUInt(u);
  }

  method BuildString(b: Builder, s: Str, ghost texts: iset<Str>) returns (sloc: nat)
    requires b.Valid() && b.PoolsOnly(texts) && |s| < TWO_64 && s in texts
    modifies b
    ensures b.Valid() && b.PoolsOnly(texts) && b.trees == old(b.trees) + [TString(s)]
    ensures old(b.buf) <= b.buf && b.Used() <= old(b.Used()) + |s| + 32
    ensures b.keyPool == old(b.keyPool) && old(b.stringPool) <= b.stringPool
    ensures b.shareStrings ==> (sloc, |s|) in b.stringPool && sloc + |s| <= |b.buf| && b.buf[sloc..sloc + |s|] == s
  {
    hide StringPoolOk, KeyPoolOk, Entries, Keeps, Unambiguous, StringAt, CStr, UpToNul;
    ghost var before, pool := b.buf, b.stringPool;
    if b.shareStrings { UnambiguousKeeps(before, pool, texts, s); }
    ghost var hit;
    sloc, hit := b.String(s);
    if b.shareStrings {
      PooledAmongStable(before, b.buf, pool, texts);
      if hit.None? {
        StringAtIsCStr(b.buf, sloc, s);
      } else {
        LookalikeIsSame(before, pool, hit.value, texts, s);
      }
    }
  }

  method BuildVector(b: Builder, es: seq<Tree>, ghost texts: iset<Str>)
    requires b.Valid() && b.PoolsOnly(texts) && AllStorable(es, texts)
    requires b.Used() + CostAll(es) + 47 + 64 <= CAPACITY
    modifies b
    ensures b.Valid() && b.PoolsOnly(texts) && b.trees == old(b.trees) + [TVector(CanonAll(es))]
    ensures old(b.buf) <= b.buf && b.Used() <= old(b.Used()) + CostAll(es) + 47
    decreases es, 2
  {
    hide Builder.Valid, Unambiguous, PooledAmong;
    var start := b.StartVector();
    BuildAll(b, es, texts);
    assert b.trees[start..] == CanonAll(es) && b.trees[..start] == old(b.trees);
    ghost var before := b.buf;
    var _ := b.EndVector(start, false, false);
    b.PoolKept(before, texts);
  }

  method BuildTyped(b: Builder, et: int, fixed: bool, es: seq<Tree>, ghost texts: iset<Str>)
    requires b.Valid() && b.PoolsOnly(texts) && AllStorable(es, texts)
    requires GoodTyped(et, fixed, |es|) && AllOfType(es, et)
    requires b.Used() + CostAll(es) + 47 + 64 <= CAPACITY
    modifies b
    ensures b.Valid() && b.PoolsOnly(texts) && b.trees == old(b.trees) + [TTyped(et, fixed, CanonAll(es))]
    ensures old(b.buf) <= b.buf && b.Used() <= old(b.Used()) + CostAll(es) + 47
    decreases es, 2
  {
    hide Builder.Valid, Unambiguous, PooledAmong;
    if es == [] && et != FBT_KEY {
      assert ScalarTrees(et, []) == CanonAll(es);
      var _ := b.ScalarVector(et, [], 0, fixed);
      b.PoolKept(old(b.buf), texts);
    } else {
      var start := b.StartVector();
      BuildAll(b, es, texts);
      CanonAllOfType(es, et);
      assert b.trees[start..] == CanonAll(es) && b.trees[..start] == old(b.trees);
      ghost var before := b.buf;
      var _ := b.EndVector(start, true, fixed);
      b.PoolKept(before, texts);
    }
  }

  lemma CanonAllOfType(es: seq<Tree>, et: int)
    requires AllOfType(es, et)
    ensures AllOfType(CanonAll(es), et) && (es != [] ==> ElemTypeOf(CanonAll(es)) == et)
  {
    forall i | 0 <= i < |es|
      ensures TypeOf(CanonAll(es)[i]) == et
    {
      CanonKeepsType(es[i]);
    }
  }

  method BuildAll(b: Builder, es: seq<Tree>, ghost texts: iset<Str>)
    requires b.Valid() && b.PoolsOnly(texts) && AllStorable(es, texts)
    requires b.Used() + CostAll(es) + 64 <= CAPACITY
    modifies b
    ensures b.Valid() && b.PoolsOnly(texts) && b.trees == old(b.trees) + CanonAll(es)
    ensures old(b.buf) <= b.buf && b.Used() <= old(b.Used()) + CostAll(es)
    decreases es, 1
  {
    hide Builder.Valid, Builder.PoolsOnly, Canon, Storable, Cost, CostAll;
    CostStart(es, []);
    ghost var cs := CanonAll(es);
    assert es[..|es|] == es && cs[..|cs|] == cs;
    for i := 0 to |es|
      invariant b.Valid() && b.PoolsOnly(texts) && old(b.buf) <= b.buf
      invariant b.trees == old(b.trees) + cs[..i]
      invariant CostAll(es[..i]) <= CostAll(es)
      invariant b.Used() <= old(b.Used()) + CostAll(es[..i])
    {
      CostPrefix(es, i);
      assert cs[..i + 1] == cs[..i] + [cs[i]];
      ghost var before := b.trees;
      BuildTree(b, es[i], texts);
      assert b.trees == before + [cs[i]];
    }
  }

  /** The first `n` keys and values, interleaved as they go on the stack. */
  function Interleaved(ks: seq<Str>, vs: seq<Tree>, n: nat): (ts: seq<Tree>)
    requires n <= |ks| == |vs|
    ensures |ts| == 2 * n
  {
    if n == 0 then [] else Interleaved(ks, vs, n - 1) + [TKey(ks[n - 1]), vs[n - 1]]
  }

  lemma {:induction false} InterleavedAt(ks: seq<Str>, vs: seq<Tree>, n: nat, j: nat)
    requires j < n <= |ks| == |vs|
    ensures Interleaved(ks, vs, n)[2 * j] == TKey(ks[j]) && Interleaved(ks, vs, n)[2 * j + 1] == vs[j]
  {
    if j < n - 1 { InterleavedAt(ks, vs, n - 1, j); }
  }

  method BuildMap(b: Builder, ks: seq<Str>, vs: seq<Tree>, ghost texts: iset<Str>)
    requires b.Valid() && b.PoolsOnly(texts) && AllStorable(vs, texts)
    requires |ks| == |vs| && Distinct(ks) && forall i :: 0 <= i < |ks| ==> 0 !in ks[i]
    requires b.Used() + KeysCost(ks) + CostAll(vs) + 78 + 64 <= CAPACITY
    modifies b
    ensures b.Valid() && b.PoolsOnly(texts) && b.trees == old(b.trees) + [SortedMap(ks, CanonAll(vs))]
    ensures old(b.buf) <= b.buf && b.Used() <= old(b.Used()) + KeysCost(ks) + CostAll(vs) + 78
    decreases vs, 2
  {
    hide Builder.Valid, Unambiguous, PooledAmong;
    var start := b.StartVector();
    BuildPairs(b, ks, vs, texts);
    ghost var before := b.buf;
    FinishMap(b, start, ks, CanonAll(vs));
    b.PoolKept(before, texts);
    assert b.trees[..start] == old(b.trees);
  }

  method BuildPair(b: Builder, k: Str, v: Tree, ghost texts: iset<Str>)
    requires b.Valid() && b.PoolsOnly(texts) && Storable(v, texts) && 0 !in k
    requires b.Used() + |k| + 17 + Cost(v) + 64 <= CAPACITY
    modifies b
    ensures b.Valid() && b.PoolsOnly(texts) && b.trees == old(b.trees) + [TKey(k), Canon(v)]
    ensures old(b.buf) <= b.buf && b.Used() <= old(b.Used()) + |k| + 17 + Cost(v)
    decreases v, 2
  {
    hide Builder.Valid, Unambiguous, PooledAmong, Canon, Storable, Cost;
    CStrIs(k + [0], 0, k);
    var _ := b.Key(k);
    b.PoolKept(old(b.buf), texts);
    BuildTree(b, v, texts);
  }

  method BuildPairs(b: Builder, ks: seq<Str>, vs: seq<Tree>, ghost texts: iset<Str>)
    requires b.Valid() && b.PoolsOnly(texts) && AllStorable(vs, texts)
    requires |ks| == |vs| && forall i :: 0 <= i < |ks| ==> 0 !in ks[i]
    requires b.Used() + KeysCost(ks) + CostAll(vs) + 64 <= CAPACITY
    modifies b
    ensures b.Valid() && b.PoolsOnly(texts) && b.trees == old(b.trees) + Interleaved(ks, CanonAll(vs), |ks|)
    ensures old(b.buf) <= b.buf && b.Used() <= old(b.Used()) + KeysCost(ks) + CostAll(vs)
    decreases vs, 1
  {
    hide Builder.Valid, Builder.PoolsOnly, Canon, Storable, Cost, CostAll, KeysCost;
    CostStart(vs, ks);
    ghost var cs := CanonAll(vs);
    assert ks[..|ks|] == ks && vs[..|vs|] == vs;
    for i := 0 to |ks|
      invariant b.Valid() && b.PoolsOnly(texts) && old(b.buf) <= b.buf
      invariant b.trees == old(b.trees) + Interleaved(ks, cs, i)
      invariant KeysCost(ks[..i]) <= KeysCost(ks) && CostAll(vs[..i]) <= CostAll(vs)
      invariant b.Used() <= old(b.Used()) + KeysCost(ks[..i]) + CostAll(vs[..i])
    {
      CostPrefix(vs, i);
      KeysCostPrefix(ks, i);
      ghost var before := b.trees;
      BuildPair(b, ks[i], vs[i], texts);
      assert b.trees == before + [TKey(ks[i]), cs[i]];
    }
  }

  lemma CostStart(es: seq<Tree>, ks: seq<Str>)
    ensures CostAll(es[..0]) == 0 && KeysCost(ks[..0]) == 0
  {
  }

  lemma {:induction false} CostPrefix(es: seq<Tree>, i: nat)
    requires i < |es|
    ensures CostAll(es[..i + 1]) == CostAll(es[..i]) + Cost(es[i]) && CostAll(es[..i + 1]) <= CostAll(es)
    decreases |es|
  {
    assert es[..i + 1][..i] == es[..i];
    if i + 1 == |es| {
      assert es[..i + 1] == es;
    } else {
      CostPrefix(es[..|es| - 1], i);
      assert es[..|es| - 1][..i + 1] == es[..i + 1];
    }
  }

  lemma {:induction false} KeysCostPrefix(ks: seq<Str>, i: nat)
    requires i < |ks|
    ensures KeysCost(ks[..i + 1]) == KeysCost(ks[..i]) + |ks[i]| + 17 && KeysCost(ks[..i + 1]) <= KeysCost(ks)
    decreases |ks|
  {
    assert ks[..i + 1][..i] == ks[..i];
    if i + 1 == |ks| {
      assert ks[..i + 1] == ks;
    } else {
      KeysCostPrefix(ks[..|ks| - 1], i);
      assert ks[..|ks| - 1][..i + 1] == ks[..i + 1];
    }
  }

  method FinishMap(b: Builder, start: nat, ks: seq<Str>, cs: seq<Tree>)
    requires b.Valid() && b.Used() + 64 <= CAPACITY && |ks| == |cs| && Distinct(ks)
    requires start <= |b.trees| && b.trees[start..] == Interleaved(ks, cs, |ks|)
    modifies b
    ensures b.Valid() && old(b.buf) <= b.buf && b.Used() <= old(b.Used()) + 78 && b.stringPool == old(b.stringPool)
    ensures b.trees == old(b.trees)[..start] + [SortedMap(ks, cs)]
  {
    hide Builder.Valid, Builder.PoolsOnly;
    PairsOf(b.trees, start, ks, cs);
    var _, _, _ := b.EndMap(start, |ks|);
  }

  lemma PairAt(ts: seq<Tree>, start: nat, ks: seq<Str>, cs: seq<Tree>, j: nat)
    requires j < |ks| == |cs| && start <= |ts| && ts[start..] == Interleaved(ks, cs, |ks|)
    ensures |ts| == start + 2 * |ks|
    ensures ts[start + 2 * j] == TKey(ks[j]) && ts[start + 2 * j + 1] == cs[j]
  {
    hide Interleaved;
    InterleavedAt(ks, cs, |ks|, j);
    assert ts[start..][2 * j] == TKey(ks[j]) && ts[start..][2 * j + 1] == cs[j];
  }

  lemma PairsOf(ts: seq<Tree>, start: nat, ks: seq<Str>, cs: seq<Tree>)
    requires |ks| == |cs| && start <= |ts| && ts[start..] == Interleaved(ks, cs, |ks|)
    ensures MapPairs(ts, start, |ks|)
    ensures PairKeys(ts, start, |ks|) == ks && PairValues(ts, start, |ks|) == cs
  {
    hide Interleaved;
    forall j | 0 <= j < |ks|
      ensures ts[start + 2 * j].TKey?
    {
      PairAt(ts, start, ks, cs, j);
    }
    var ks', cs' := PairKeys(ts, start, |ks|), PairValues(ts, start, |ks|);
    forall j | 0 <= j < |ks|
      ensures ks'[j] == ks[j] && cs'[j] == cs[j]
    {
      PairAt(ts, start, ks, cs, j);
    }
  }

  /**
   The round trip: whatever the tree and the sharing flags, the finished buffer, read from its root
   through the accessors, is the tree. With string sharing its strings must differ before any NUL.
   */
  method Serialize(t: Tree, shareKeys: bool, shareStrings: bool, ghost texts: iset<Str>) returns (buf: Str)
    requires Storable(t, texts) && Cost(t) + 64 <= CAPACITY
    requires shareStrings ==> Unambiguous(texts)
    ensures |buf| >= 2 && Denotes(buf, GetRoot(buf), Canon(t))
    ensures forall fuel :: fuel >= FlexReader.Depth(Canon(t)) ==>
              FlexReader.Decode(buf, GetRoot(buf), fuel) == Some(Canon(t))
  {
    var b := new Builder(shareKeys, shareStrings);
    BuildTree(b, t, texts);
    ghost var _ := b.Finish();
    buf := b.buf;
    forall fuel | fuel >= FlexReader.Depth(Canon(t))
      ensures FlexReader.Decode(buf, GetRoot(buf), fuel) == Some(Canon(t))
    {
      FlexReader.DecodeComplete(buf, GetRoot(buf), Canon(t), fuel);
    }
  }

  ghost function NulFree(): iset<Str> { iset s: Str | 0 !in s }

  /** Trees whose strings are NUL-free make the round trip under every choice of sharing flags. */
  method SerializeNulFree(t: Tree, shareKeys: bool, shareStrings: bool) returns (buf: Str)
    requires Storable(t, NulFree()) && Cost(t) + 64 <= CAPACITY
    ensures |buf| >= 2 && Denotes(buf, GetRoot(buf), Canon(t))
    ensures forall fuel :: fuel >= FlexReader.Depth(Canon(t)) ==>
              FlexReader.Decode(buf, GetRoot(buf), fuel) == Some(Canon(t))
  {
    NulFreeUnambiguous(NulFree());
    buf := Serialize(t, shareKeys, shareStrings, NulFree());
  }

  // ---- Sharing ----

  /**
   Strings with an interior NUL can be lost: the second of these two gets the entry of the first, which
   does not stand for it.
   */
  method InteriorNulIsLost() returns (b: Builder, ghost first: Str, ghost second: Str)
    ensures first != second && b.shareStrings && |b.stack| == 2 && b.stack[0] == b.stack[1]
    ensures Entry(b.buf, b.stack[0], TString(first)) && !Entry(b.buf, b.stack[1], TString(second))
  {
    hide StringPoolOk, KeyPoolOk, UpToNul, CStr, FromLE, Pow256, LE;
    var s, t := [1, 0, 2], [1, 0, 3];
    first, second := s, t;
    b := new Builder(true, true);
    NoLookalike(b.buf, b.stringPool, s);
    var at, hit := b.String(s);
    ghost var before, pool := b.buf, b.stringPool;
    StringAtIsCStr(before, at, s);
    SamePrefix();
    assert Lookalike(before, pool, (at, 3), t);
    if StringAt(before, at, t) { StringAtIsCStr(before, at, t); }
    OneLookalike(before, pool, (at, 3), t);
    var at', hit' := b.String(t);
  }

  lemma SamePrefix()
    ensures UpToNul([1, 0, 2]) == UpToNul([1, 0, 3]) == [1]
  {
    UpToNulStep([1, 0, 2]);
    UpToNulStep([1, 0, 3]);
    UpToNulStep([0, 2]);
    UpToNulStep([0, 3]);
  }

  /** A call that pools. */
  datatype Call = AKey(k: Str) | AString(s: Str)

  /** What one call has left in the builder: its text in the right pool, at the offset returned. */
  ghost predicate Pooled(buf: Str, keys: set<nat>, strings: set<(nat, nat)>, c: Call, off: nat) {
    match c
    case AKey(k) => off in keys && Terminated(buf, off) && CStr(buf, off) == UpToNul(k)
    case AString(s) => (off, |s|) in strings && off + |s| <= |buf| && buf[off..off + |s|] == s
  }

  lemma PooledStays(buf: Str, buf': Str, keys: set<nat>, keys': set<nat>, strings: set<(nat, nat)>,
                    strings': set<(nat, nat)>, c: Call, off: nat)
    requires buf <= buf' && keys <= keys' && strings <= strings' && Pooled(buf, keys, strings, c, off)
    ensures Pooled(buf', keys', strings', c, off)
  {
    hide CStr, UpToNul;
    if c.AKey? {
      CStrStable(buf, buf', off);
    } else {
      assert buf'[off..off + |c.s|] == buf[off..off + |c.s|];
    }
  }

  /**
   Any run of key and string calls with sharing on: two keys get one offset if and only if they agree
   up to their first NUL, two strings if and only if they are equal.
   */
  method ShareAll(b: Builder, calls: seq<Call>, ghost texts: iset<Str>) returns (offs: seq<nat>)
    requires b.Valid() && b.PoolsOnly(texts) && b.shareKeys && b.shareStrings
    requires forall i :: 0 <= i < |calls| && calls[i].AString? ==> calls[i].s in texts && |calls[i].s| < TWO_64
    modifies b
    ensures b.Valid() && b.PoolsOnly(texts) && |offs| == |calls| && old(b.buf) <= b.buf
    ensures forall i, j :: 0 <= i < |calls| && 0 <= j < |calls| && calls[i].AKey? && calls[j].AKey? ==>
              (offs[i] == offs[j] <==> UpToNul(calls[i].k) == UpToNul(calls[j].k))
    ensures forall i, j :: 0 <= i < |calls| && 0 <= j < |calls| && calls[i].AString? && calls[j].AString? ==>
              (offs[i] == offs[j] <==> calls[i].s == calls[j].s)
  {
    hide Builder.Valid, Builder.PoolsOnly, Pooled;
    offs := [];
    for i := 0 to |calls|
      invariant b.Valid() && b.PoolsOnly(texts) && |offs| == i && old(b.buf) <= b.buf
      invariant forall k :: 0 <= k < i ==> Pooled(b.buf, b.keyPool, b.stringPool, calls[k], offs[k])
    {
      var off := ShareOne(b, calls[i], texts, calls[..i], offs);
      offs := offs + [off];
    }
    forall i, j | 0 <= i < |calls| && 0 <= j < |calls| && calls[i].AKey? && calls[j].AKey?
      ensures offs[i] == offs[j] <==> UpToNul(calls[i].k) == UpToNul(calls[j].k)
    {
      OncePooled(b, calls[i], offs[i], calls[j], offs[j]);
    }
    forall i, j | 0 <= i < |calls| && 0 <= j < |calls| && calls[i].AString? && calls[j].AString?
      ensures offs[i] == offs[j] <==> calls[i].s == calls[j].s
    {
      OncePooled(b, calls[i], offs[i], calls[j], offs[j]);
    }
  }

  method ShareOne(b: Builder, c: Call, ghost texts: iset<Str>, ghost calls: seq<Call>, ghost offs: seq<nat>)
    returns (off: nat)
    requires b.Valid() && b.PoolsOnly(texts) && b.shareKeys && b.shareStrings
    requires c.AString? ==> c.s in texts && |c.s| < TWO_64
    requires |calls| == |offs|
    requires forall k :: 0 <= k < |calls| ==> Pooled(b.buf, b.keyPool, b.stringPool, calls[k], offs[k])
    modifies b
    ensures b.Valid() && b.PoolsOnly(texts) && Pooled(b.buf, b.keyPool, b.stringPool, c, off) && old(b.buf) <= b.buf
    ensures forall k :: 0 <= k < |calls| ==> Pooled(b.buf, b.keyPool, b.stringPool, calls[k], offs[k])
  {
    hide Unambiguous, PooledAmong, UpToNul, CStr, Pooled, Builder.Valid, Terminated;
    ghost var before, keys, strings := b.buf, b.keyPool, b.stringPool;
    match c {
      case AKey(k) =>
        off := ShareKey(b, k);
        b.PoolKept(before, texts);
      case AString(s) =>
        off := BuildString(b, s, texts);
        assert Pooled(b.buf, b.keyPool, b.stringPool, c, off) by { PooledString(b, s, off); }
    }
    forall k | 0 <= k < |calls|
      ensures Pooled(b.buf, b.keyPool, b.stringPool, calls[k], offs[k])
    {
      PooledStays(before, b.buf, keys, b.keyPool, strings, b.stringPool, calls[k], offs[k]);
    }
  }

  lemma PooledString(b: Builder, s: Str, off: nat)
    requires (off, |s|) in b.stringPool && off + |s| <= |b.buf| && b.buf[off..off + |s|] == s
    ensures Pooled(b.buf, b.keyPool, b.stringPool, AString(s), off)
  {
  }

  method ShareKey(b: Builder, k: Str) returns (off: nat)
    requires b.Valid() && b.shareKeys
    modifies b`buf, b`stack, b`keyPool, b`trees
    ensures b.Valid() && old(b.buf) <= b.buf && old(b.keyPool) <= b.keyPool
    ensures Pooled(b.buf, b.keyPool, b.stringPool, AKey(k), off)
  {
    hide CStr, UpToNul, Builder.Valid;
    off := b.Key(k);
    UpToNulIs(k);
  }

  lemma OncePooled(b: Builder, c: Call, off: nat, d: Call, off': nat)
    requires b.Valid() && b.shareStrings && Pooled(b.buf, b.keyPool, b.stringPool, c, off)
    requires Pooled(b.buf, b.keyPool, b.stringPool, d, off')
    ensures c.AKey? && d.AKey? ==> (off == off' <==> UpToNul(c.k) == UpToNul(d.k))
    ensures c.AString? && d.AString? ==> (off == off' <==> c.s == d.s)
  {
    hide UpToNul, CStr, Entries, StringAt;
    if c.AString? && d.AString? {
      StringAtIsCStr(b.buf, off, c.s);
      StringAtIsCStr(b.buf, off', d.s);
    }
  }

  // ---- Map lookup ----

  /** `std::bsearch` over the key vector with `KeyCompare`: the index of `key`, or `n`. */
  method SearchKeys(buf: Str, kp: int, kw: nat, n: nat, key: Str, ghost ks: seq<Str>) returns (i: nat)
    requires KeyVector(buf, kp, kw, ks) && |ks| == n && StrictlySorted(ks) && 0 !in key
    ensures key in ks ==> i < n && ks[i] == key
    ensures key !in ks ==> i == n
  {
    hide KeyVector, Less, StrCmp, CStr, Indirect, CanRead, StrictlySorted;
    var lo, hi := 0, n;
    while lo < hi
      invariant 0 <= lo <= hi <= n
      invariant forall j :: 0 <= j < lo ==> Less(ks[j], key)
      invariant forall j :: hi <= j < n ==> Less(key, ks[j])
    {
      var mid := (lo + hi) / 2;
      CompareElem(buf, kp, kw, ks, mid, key);
      var elem := Indirect(buf, kp + mid * kw, kw);
      var cmp := StrCmp(key + [0], 0, buf, elem);
      if cmp == 0 {
        return mid;
      } else if cmp < 0 {
        AboveToo(ks, mid, key);
        hi := mid;
      } else {
        LessTotal(key, ks[mid]);
        BelowToo(ks, mid, key);
        lo := mid + 1;
      }
    }
    LessIrreflexive(key);
    i := n;
  }

  /** `KeyCompare` at element `mid`: `strcmp` of the key sought with the key stored. */
  lemma CompareElem(buf: Str, kp: int, kw: nat, ks: seq<Str>, mid: nat, key: Str)
    requires KeyVector(buf, kp, kw, ks) && mid < |ks| && 0 !in key
    ensures CanRead(buf, kp + mid * kw, kw)
    ensures Indirect(buf, kp + mid * kw, kw) >= 0 && Terminated(key + [0], 0)
    ensures Terminated(buf, Indirect(buf, kp + mid * kw, kw))
    ensures var cmp := StrCmp(key + [0], 0, buf, Indirect(buf, kp + mid * kw, kw));
            (cmp < 0 <==> Less(key, ks[mid])) && (cmp == 0 <==> key == ks[mid])
  {
    hide Less, StrCmp, CStr, Indirect, CanRead;
    assert KeyElem(buf, kp + mid * kw, kw, ks[mid]);
    CStrIs(key + [0], 0, key);
    StrCmpIsLexicographic(key + [0], 0, buf, Indirect(buf, kp + mid * kw, kw));
  }

  lemma AboveToo(ks: seq<Str>, mid: nat, key: Str)
    requires StrictlySorted(ks) && mid < |ks| && Less(key, ks[mid])
    ensures forall j :: mid <= j < |ks| ==> Less(key, ks[j])
  {
    hide Less;
    forall j | mid < j < |ks|
      ensures Less(key, ks[j])
    {
      LessTransitive(key, ks[mid], ks[j]);
    }
  }

  lemma BelowToo(ks: seq<Str>, mid: nat, key: Str)
    requires StrictlySorted(ks) && mid < |ks| && Less(ks[mid], key)
    ensures forall j :: 0 <= j <= mid ==> Less(ks[j], key)
  {
    hide Less;
    forall j | 0 <= j < mid
      ensures Less(ks[j], key)
    {
      LessTransitive(ks[j], ks[mid], key);
    }
  }

  /** `Map::operator[]` agrees with the finite map the buffer stands for. */
  method Lookup(buf: Str, p: int, w: nat, key: Str, ghost ks: seq<Str>, ghost vs: seq<Tree>) returns (r: Ref)
    requires Content(buf, p, w, TMap(ks, vs)) && StrictlySorted(ks) && 0 !in key
    ensures key in MapOf(ks, vs) ==> Denotes(buf, r, MapOf(ks, vs)[key])
    ensures key !in MapOf(ks, vs) ==> r == NULL_REF && Denotes(buf, r, TNull)
  {
    SortedKeysAreDistinct(ks);
    NullRefIsNull(buf, TNull);
    var keys := KeysAt(buf, p, w);
    var n := ReadU(buf, keys.0 - keys.1, keys.1);
    var i := SearchKeys(buf, keys.0, keys.1, n, key, ks);
    var len := ReadU(buf, p - w, w);
    if i >= len {
      return NULL_REF;
    }
    r := VectorElem(buf, p, w, len, i);
    assert Denotes(buf, VectorElem(buf, p, w, |vs|, i), vs[i]);
  }

  /**
   From pairs in any order to a lookup in the finished bytes: each key has its own value, and every
   other key has none.
   */
  method SerializeThenLookup(ks: seq<Str>, vs: seq<Tree>, shareKeys: bool, shareStrings: bool, key: Str,
                             ghost texts: iset<Str>)
    returns (buf: Str, r: Ref)
    requires Storable(TMap(ks, vs), texts) && Cost(TMap(ks, vs)) + 64 <= CAPACITY && 0 !in key
    requires shareStrings ==> Unambiguous(texts)
    ensures forall i :: 0 <= i < |ks| && key == ks[i] ==> Denotes(buf, r, Canon(vs[i]))
    ensures key !in ks ==> Denotes(buf, r, TNull)
  {
    hide Denotes, Content, Canon, CanonAll, MapOf, StrictlySorted, Unambiguous;
    buf := Serialize(TMap(ks, vs), shareKeys, shareStrings, texts);
    CanonKeepsMaps(ks, vs);
    RootMap(buf, TMap(ks, vs));
    var root := GetRoot(buf);
    ghost var c := Canon(TMap(ks, vs));
    r := Lookup(buf, Indirect(buf, root.pos, root.parentWidth), root.byteWidth, key, c.keys, c.vals);
  }

  /** `AsMap` of the root. */
  lemma RootMap(buf: Str, t: Tree)
    requires |buf| >= 2 && t.TMap? && Denotes(buf, GetRoot(buf), Canon(t))
    ensures var r := GetRoot(buf);
            CanRead(buf, r.pos, r.parentWidth)
            && Content(buf, Indirect(buf, r.pos, r.parentWidth), r.byteWidth, Canon(t))
  {
    hide Content, SortPermutation;
    CanonKeepsType(t);
  }

  lemma SortedKeysAreDistinct(ks: seq<Str>)
    requires StrictlySorted(ks)
    ensures Distinct(ks)
  {
    forall i, j | 0 <= i < j < |ks|
      ensures ks[i] != ks[j]
    {
      LessIrreflexive(ks[i]);
    }
  }
}
