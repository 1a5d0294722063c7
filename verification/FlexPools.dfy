/**
 The pools that let the `Builder` store equal keys and equal strings once.
 */
module FlexPools {
  import opened Bytes
  import opened Strings
  import opened FlexFormat

  /** Pooled keys: offsets of NUL-terminated strings, no two alike. */
  ghost predicate KeyPoolOk(buf: Str, pool: set<nat>) {
    && (forall p :: p in pool ==> Terminated(buf, p))
    && (forall p, q :: p in pool && q in pool && CStr(buf, p) == CStr(buf, q) ==> p == q)
  }

  lemma KeyPoolStable(buf: Str, buf': Str, pool: set<nat>)
    requires buf <= buf' && KeyPoolOk(buf, pool)
    ensures KeyPoolOk(buf', pool)
    ensures forall p :: p in pool ==> CStr(buf', p) == CStr(buf, p)
  {
    hide CStr;
    forall p | p in pool
      ensures Terminated(buf', p) && CStr(buf', p) == CStr(buf, p)
    {
      CStrStable(buf, buf', p);
    }
  }

  lemma KeyPoolInsert(buf: Str, pool: set<nat>, p: nat)
    requires KeyPoolOk(buf, pool) && Terminated(buf, p)
    requires forall q :: q in pool ==> CStr(buf, q) != CStr(buf, p)
    ensures KeyPoolOk(buf, pool + {p})
  {
    hide CStr;
  }

  /** Pooled strings: offset and length, no two alike up to their first NUL. */
  ghost predicate StringPoolOk(buf: Str, pool: set<(nat, nat)>) {
    && (forall e :: e in pool ==> PooledString(buf, e))
    && (forall e, f :: e in pool && f in pool && CStr(buf, e.0) == CStr(buf, f.0) ==> e == f)
  }

  ghost predicate PooledString(buf: Str, e: (nat, nat)) {
    e.0 + e.1 < |buf| && StringAt(buf, e.0, buf[e.0..e.0 + e.1])
  }

  /** A string as `String` stores it, its size field as narrow as its length allows. */
  ghost predicate StringAt(buf: Str, p: nat, s: Str) {
    p + |s| < |buf| && Content(buf, p, WidthBytes(WidthU(|s|)), TString(s))
  }

  lemma StringAtIsCStr(buf: Str, p: nat, s: Str)
    requires StringAt(buf, p, s)
    ensures p + |s| < |buf| && buf[p..p + |s|] == s && buf[p + |s|] == 0
    ensures Terminated(buf, p) && CStr(buf, p) == UpToNul(s)
  {
    hide CStr, FromLE, Pow256, Denotes;
    StoredUpToNul(buf, p, s);
  }

  lemma PooledStringStable(buf: Str, buf': Str, e: (nat, nat))
    requires buf <= buf' && PooledString(buf, e)
    ensures PooledString(buf', e)
    ensures buf[e.0..e.0 + e.1] == buf'[e.0..e.0 + e.1]
    ensures CStr(buf, e.0) == CStr(buf', e.0) == UpToNul(buf[e.0..e.0 + e.1])
    ensures Terminated(buf', e.0)
  {
    hide CStr, FromLE, Pow256, Denotes, UpToNul, Content, WidthU, WidthBytes, Terminated;
    var s := buf[e.0..e.0 + e.1];
    ContentStable(buf, buf', e.0, WidthBytes(WidthU(e.1)), TString(s));
    assert buf'[e.0..e.0 + e.1] == s;
    StringAtIsCStr(buf, e.0, s);
    StringAtIsCStr(buf', e.0, s);
  }

  lemma StringPoolStable(buf: Str, buf': Str, pool: set<(nat, nat)>)
    requires buf <= buf' && StringPoolOk(buf, pool)
    ensures StringPoolOk(buf', pool)
  {
    hide PooledString, CStr;
    forall e | e in pool
      ensures PooledString(buf', e) && CStr(buf', e.0) == CStr(buf, e.0)
    {
      PooledStringStable(buf, buf', e);
    }
  }

  lemma PooledBytesStable(buf: Str, buf': Str, pool: set<(nat, nat)>)
    requires buf <= buf' && StringPoolOk(buf, pool)
    ensures forall e :: e in pool ==>
              e.0 + e.1 < |buf| && buf[e.0..e.0 + e.1] == buf'[e.0..e.0 + e.1]
              && CStr(buf, e.0) == CStr(buf', e.0) == UpToNul(buf[e.0..e.0 + e.1])
  {
    hide CStr, UpToNul;
    forall e | e in pool
      ensures e.0 + e.1 < |buf| && buf[e.0..e.0 + e.1] == buf'[e.0..e.0 + e.1]
              && CStr(buf, e.0) == CStr(buf', e.0) == UpToNul(buf[e.0..e.0 + e.1])
    {
      PooledStringStable(buf, buf', e);
    }
  }

  lemma StringPoolInsert(buf: Str, pool: set<(nat, nat)>, e: (nat, nat))
    requires StringPoolOk(buf, pool) && PooledString(buf, e)
    requires forall f :: f in pool ==> CStr(buf, f.0) != CStr(buf, e.0)
    ensures StringPoolOk(buf, pool + {e})
  {
    hide PooledString, CStr;
  }

  /** The string pool's comparison: `strncmp` over the first `n` bytes at two offsets. */
  function StrNCmp(buf: Str, a: nat, b: nat, n: nat): (r: int)
    requires a + n <= |buf| && b + n <= |buf|
    decreases n
  {
    if n == 0 then 0
    else if buf[a] != buf[b] then buf[a] - buf[b]
    else if buf[a] == 0 then 0
    else StrNCmp(buf, a + 1, b + 1, n - 1)
  }

  /** Strings of `m` and `n` bytes stored at `a` and `b`, each followed by a NUL, as the pool compares them. */
  predicate PoolEqual(buf: Str, a: nat, m: nat, b: nat, n: nat)
    requires a + m < |buf| && b + n < |buf|
  {
    StrNCmp(buf, a, b, (if m < n then m else n) + 1) == 0
  }

  lemma CStrUnfold(buf: Str, p: nat)
    requires p < |buf|
    ensures buf[p] == 0 ==> CStr(buf, p) == []
    ensures buf[p] != 0 ==> |CStr(buf, p)| > 0 && CStr(buf, p)[0] == buf[p] && CStr(buf, p)[1..] == CStr(buf, p + 1)
  {
  }

  lemma SeqFromHead(s: Str, t: Str)
    requires s != [] && t != []
    ensures s == t <==> s[0] == t[0] && s[1..] == t[1..]
  {
    assert s == [s[0]] + s[1..] && t == [t[0]] + t[1..];
  }

  lemma CStrEqualStep(buf: Str, a: nat, b: nat)
    requires a < |buf| && b < |buf|
    ensures CStr(buf, a) == CStr(buf, b)
            <==> buf[a] == buf[b] && (buf[a] == 0 || CStr(buf, a + 1) == CStr(buf, b + 1))
  {
    hide CStr;
    CStrUnfold(buf, a);
    CStrUnfold(buf, b);
    if buf[a] != 0 && buf[b] != 0 { SeqFromHead(CStr(buf, a), CStr(buf, b)); }
  }

  lemma StrNCmpStep(buf: Str, a: nat, b: nat, n: nat)
    requires 0 < n && a + n <= |buf| && b + n <= |buf|
    ensures StrNCmp(buf, a, b, n) == 0
            <==> buf[a] == buf[b] && (buf[a] == 0 || StrNCmp(buf, a + 1, b + 1, n - 1) == 0)
  {
  }

  lemma {:induction false} StrNCmpIsEquality(buf: Str, a: nat, b: nat, n: nat, endA: nat, endB: nat)
    requires a + n <= |buf| && b + n <= |buf|
    requires a <= endA < a + n && endA - a == endB - b && (buf[endA] == 0 || buf[endB] == 0)
    ensures StrNCmp(buf, a, b, n) == 0 <==> CStr(buf, a) == CStr(buf, b)
    decreases n
  {
    hide CStr, StrNCmp;
    CStrEqualStep(buf, a, b);
    StrNCmpStep(buf, a, b, n);
    if buf[a] == buf[b] != 0 {
      StrNCmpIsEquality(buf, a + 1, b + 1, n - 1, endA, endB);
    }
  }

  /** The pool identifies stored strings exactly when they agree up to their first NUL. */
  lemma PoolEqualIsTruncatedEquality(buf: Str, a: nat, m: nat, b: nat, n: nat)
    requires a + m < |buf| && b + n < |buf| && buf[a + m] == 0 && buf[b + n] == 0
    ensures PoolEqual(buf, a, m, b, n) <==> CStr(buf, a) == CStr(buf, b)
  {
    hide StrNCmp, CStr;
    if m < n {
      StrNCmpIsEquality(buf, a, b, m + 1, a + m, b + m);
    } else {
      StrNCmpIsEquality(buf, a, b, n + 1, a + n, b + n);
    }
  }

  lemma PoolHit(buf: Str, e: (nat, nat), sloc: nat, n: nat)
    requires PooledString(buf, e)
    requires sloc + n < |buf| && buf[sloc + n] == 0
    ensures PoolEqual(buf, e.0, e.1, sloc, n) <==> CStr(buf, e.0) == CStr(buf, sloc)
  {
    hide StrNCmp, CStr, PoolEqual, Denotes;
    PoolEqualIsTruncatedEquality(buf, e.0, e.1, sloc, n);
  }

  /** A pooled string that agrees with `str` up to the first NUL. */
  predicate Lookalike(buf: Str, pool: set<(nat, nat)>, e: (nat, nat), str: Str) {
    e in pool && e.0 <= |buf| && CStr(buf, e.0) == UpToNul(str)
  }

  /** Sharing keeps `str`: at the offset of every pooled string that looks like it, the buffer holds `str` itself. */
  ghost predicate Keeps(buf: Str, pool: set<(nat, nat)>, str: Str) {
    forall e :: e in pool && Lookalike(buf, pool, e, str) ==> StringAt(buf, e.0, str)
  }

  lemma OneLookalike(buf: Str, pool: set<(nat, nat)>, e: (nat, nat), str: Str)
    requires StringPoolOk(buf, pool) && Lookalike(buf, pool, e, str)
    ensures Keeps(buf, pool, str) <==> StringAt(buf, e.0, str)
  {
    hide CStr, UpToNul, StringAt, PooledString;
  }

  lemma NoLookalike(buf: Str, pool: set<(nat, nat)>, str: Str)
    requires forall e :: e in pool ==> !Lookalike(buf, pool, e, str)
    ensures Keeps(buf, pool, str)
  {
    hide Lookalike;
  }

  /** Between strings whose lengths are stored in equal width, that is: no other string agrees with it so far. */
  lemma KeepsIffNoLookalike(buf: Str, pool: set<(nat, nat)>, str: Str)
    requires StringPoolOk(buf, pool) && forall e :: e in pool ==> WidthU(e.1) == WidthU(|str|)
    ensures Keeps(buf, pool, str)
            <==> forall e :: e in pool && UpToNul(buf[e.0..e.0 + e.1]) == UpToNul(str) ==> buf[e.0..e.0 + e.1] == str
  {
    hide CStr, UpToNul, FromLE, Pow256, Denotes, WidthU;
    forall e | e in pool
      ensures CStr(buf, e.0) == UpToNul(buf[e.0..e.0 + e.1])
      ensures StringAt(buf, e.0, str) <==> buf[e.0..e.0 + e.1] == str
    {
      StringAtIsCStr(buf, e.0, buf[e.0..e.0 + e.1]);
      if StringAt(buf, e.0, str) { StringAtIsCStr(buf, e.0, str); }
    }
  }

  /** No two of these strings agree up to the first NUL; all NUL-free strings are such a family. */
  ghost predicate Unambiguous(texts: iset<Str>) {
    forall s, t :: s in texts && t in texts && UpToNul(s) == UpToNul(t) ==> s == t
  }

  lemma NulFreeUnambiguous(texts: iset<Str>)
    requires forall s :: s in texts ==> 0 !in s
    ensures Unambiguous(texts)
  {
  }

  ghost predicate PooledAmong(buf: Str, pool: set<(nat, nat)>, texts: iset<Str>) {
    forall e :: e in pool ==> e.0 + e.1 <= |buf| && buf[e.0..e.0 + e.1] in texts
  }

  lemma UnambiguousKeeps(buf: Str, pool: set<(nat, nat)>, texts: iset<Str>, str: Str)
    requires StringPoolOk(buf, pool) && PooledAmong(buf, pool, texts) && Unambiguous(texts) && str in texts
    ensures Keeps(buf, pool, str)
  {
    hide CStr, UpToNul, StringAt;
    forall e | e in pool && Lookalike(buf, pool, e, str)
      ensures StringAt(buf, e.0, str)
    {
      StringAtIsCStr(buf, e.0, buf[e.0..e.0 + e.1]);
    }
  }

  /** Among unambiguous strings a lookalike is the string itself. */
  lemma LookalikeIsSame(buf: Str, pool: set<(nat, nat)>, e: (nat, nat), texts: iset<Str>, str: Str)
    requires StringPoolOk(buf, pool) && PooledAmong(buf, pool, texts) && Unambiguous(texts) && str in texts
    requires Lookalike(buf, pool, e, str)
    ensures e.1 == |str| && e.0 + e.1 <= |buf| && buf[e.0..e.0 + e.1] == str
  {
    hide CStr, UpToNul, StringAt;
    StringAtIsCStr(buf, e.0, buf[e.0..e.0 + e.1]);
  }

  lemma PooledAmongStable(buf: Str, buf': Str, pool: set<(nat, nat)>, texts: iset<Str>)
    requires buf <= buf' && PooledAmong(buf, pool, texts)
    ensures PooledAmong(buf', pool, texts)
  {
    forall e | e in pool
      ensures buf'[e.0..e.0 + e.1] in texts
    {
      assert buf'[e.0..e.0 + e.1] == buf[e.0..e.0 + e.1];
    }
  }

  /** Two different stored strings with an interior NUL that the pool takes for one. */
  lemma PoolConfusesInteriorNul()
    ensures var buf: Str := [3, 1, 0, 2, 0, 3, 1, 0, 3, 0];
            PoolEqual(buf, 1, 3, 6, 3) && buf[1..1 + 3] != buf[6..6 + 3]
  {
    var buf: Str := [3, 1, 0, 2, 0, 3, 1, 0, 3, 0];
    assert StrNCmp(buf, 2, 7, 3) == 0;
    assert buf[1..4][2] != buf[6..9][2];
  }

  lemma {:induction false} CStrOfSuffix(a: Str, b: Str)
    ensures CStr(a + b, |a|) == CStr(b, 0)
    ensures Terminated(b, 0) ==> Terminated(a + b, |a|)
  {
    CStrShift(a, b, 0);
  }

  lemma {:induction false} CStrShift(a: Str, b: Str, i: nat)
    requires i <= |b|
    ensures CStr(a + b, |a| + i) == CStr(b, i)
    decreases |b| - i
  {
    if i < |b| && b[i] != 0 { CStrShift(a, b, i + 1); }
  }
}
