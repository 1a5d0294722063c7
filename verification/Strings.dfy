/**
 Byte strings: the lexicographic order, NUL-terminated strings inside a buffer,
 and sorting and searching by key.
 */
module Strings {
  import opened Bytes

  /** Byte-wise lexicographic order, a proper prefix being smaller. */
  predicate Less(a: Str, b: Str) {
    b != [] && (a == [] || a[0] < b[0] || (a[0] == b[0] && Less(a[1..], b[1..])))
  }

  lemma {:induction false} LessIrreflexive(a: Str)
    ensures !Less(a, a)
  {
    if a != [] { LessIrreflexive(a[1..]); }
  }

  lemma {:induction false} LessTransitive(a: Str, b: Str, c: Str)
    requires Less(a, b) && Less(b, c)
    ensures Less(a, c)
  {
    if a != [] && a[0] == b[0] == c[0] { LessTransitive(a[1..], b[1..], c[1..]); }
  }

  lemma {:induction false} LessTotal(a: Str, b: Str)
    ensures a == b || Less(a, b) || Less(b, a)
  {
    if a != [] && b != [] && a[0] == b[0] {
      LessTotal(a[1..], b[1..]);
      assert a == [a[0]] + a[1..] && b == [b[0]] + b[1..];
    }
  }

  // ---- C strings ----

  /** The bytes from `p` up to the first NUL. */
  function CStr(buf: Str, p: nat): (s: Str)
    requires p <= |buf|
    ensures p + |s| <= |buf| && s == buf[p..p + |s|] && 0 !in s
    ensures p + |s| < |buf| ==> buf[p + |s|] == 0
    decreases |buf| - p
  {
    if p == |buf| || buf[p] == 0 then [] else [buf[p]] + CStr(buf, p + 1)
  }

  /** A NUL-terminated string starts at `p`. */
  predicate Terminated(buf: Str, p: int) {
    0 <= p <= |buf| && p + |CStr(buf, p)| < |buf|
  }

  lemma {:induction false} CStrIs(buf: Str, p: nat, k: Str)
    requires p + |k| < |buf| && buf[p..p + |k|] == k && 0 !in k && buf[p + |k|] == 0
    ensures Terminated(buf, p) && CStr(buf, p) == k
    decreases |k|
  {
    if k != [] {
      assert buf[p] == buf[p..p + |k|][0] == k[0];
      assert buf[p + 1..p + |k|] == buf[p..p + |k|][1..] == k[1..];
      CStrIs(buf, p + 1, k[1..]);
    }
  }

  lemma CStrStable(buf: Str, buf': Str, p: nat)
    requires buf <= buf' && Terminated(buf, p)
    ensures Terminated(buf', p) && CStr(buf', p) == CStr(buf, p)
  {
    var k := CStr(buf, p);
    assert buf'[p..p + |k|] == buf[p..p + |k|];
    CStrIs(buf', p, k);
  }

  lemma {:induction false} TerminatedByLast(b: Str, p: nat)
    requires p < |b| && b[|b| - 1] == 0
    ensures Terminated(b, p)
    decreases |b| - p
  {
    if b[p] != 0 { TerminatedByLast(b, p + 1); }
  }

  /** What a C string function sees of `s`. */
  function UpToNul(s: Str): (k: Str)
    ensures |k| <= |s| && k == s[..|k|] && 0 !in k && (0 !in s ==> k == s)
  {
    TerminatedByLast(s + [0], 0);
    var k := CStr(s + [0], 0);
    assert k == (s + [0])[..|k|] == s[..|k|];
    assert |k| < |s| ==> s[|k|] == (s + [0])[|k|] == 0;
    k
  }

  lemma UpToNulIs(s: Str)
    ensures UpToNul(s) == CStr(s + [0], 0)
  {
  }

  lemma StoredUpToNul(buf: Str, p: nat, s: Str)
    requires p + |s| < |buf| && buf[p..p + |s|] == s && buf[p + |s|] == 0
    ensures Terminated(buf, p) && CStr(buf, p) == UpToNul(s)
  {
    hide CStr;
    TerminatedByLast(s + [0], 0);
    var k := UpToNul(s);
    assert buf[p..p + |k|] == buf[p..p + |s|][..|k|] == k;
    assert (s + [0])[|k|] == 0;
    if |k| < |s| { assert buf[p + |k|] == buf[p..p + |s|][|k|] == s[|k|] == 0; }
    CStrIs(buf, p, k);
  }

  /** Cutting off at the first NUL keeps the order, though different strings may become equal. */
  lemma {:induction false} UpToNulMonotone(a: Str, b: Str)
    requires Less(UpToNul(a), UpToNul(b))
    ensures Less(a, b)
  {
    hide UpToNul;
    UpToNulStep(a);
    UpToNulStep(b);
    if a != [] && a[0] != 0 && a[0] == b[0] { UpToNulMonotone(a[1..], b[1..]); }
  }

  lemma UpToNulStep(a: Str)
    ensures UpToNul(a) == if a == [] || a[0] == 0 then [] else [a[0]] + UpToNul(a[1..])
  {
    if a != [] && a[0] != 0 {
      assert (a + [0])[1..] == a[1..] + [0];
      CStrTail(a + [0]);
    }
  }

  lemma CStrTail(s: Str)
    requires s != [] && s[0] != 0
    ensures CStr(s, 0) == [s[0]] + CStr(s[1..], 0)
  {
    CStrDrop(s, 1);
  }

  lemma {:induction false} CStrDrop(s: Str, p: nat)
    requires 1 <= p <= |s|
    ensures CStr(s, p) == CStr(s[1..], p - 1)
    decreases |s| - p
  {
    if p < |s| && s[p] != 0 { CStrDrop(s, p + 1); }
  }

  /** The sign convention of `strcmp`: the difference of the first differing bytes. */
  function StrCmp(s: Str, a: nat, t: Str, b: nat): (r: int)
    requires Terminated(s, a) && Terminated(t, b)
    decreases |s| - a
  {
    if s[a] != t[b] then s[a] - t[b] else if s[a] == 0 then 0 else StrCmp(s, a + 1, t, b + 1)
  }

  /** `strcmp` orders NUL-terminated strings lexicographically. */
  lemma {:induction false} StrCmpIsLexicographic(s: Str, a: nat, t: Str, b: nat)
    requires Terminated(s, a) && Terminated(t, b)
    ensures StrCmp(s, a, t, b) < 0 <==> Less(CStr(s, a), CStr(t, b))
    ensures StrCmp(s, a, t, b) == 0 <==> CStr(s, a) == CStr(t, b)
    decreases |s| - a
  {
    if s[a] == t[b] && s[a] != 0 {
      StrCmpIsLexicographic(s, a + 1, t, b + 1);
      assert CStr(s, a) == [s[a]] + CStr(s, a + 1);
      assert CStr(t, b) == [t[b]] + CStr(t, b + 1);
      assert CStr(s, a)[1..] == CStr(s, a + 1);
      assert CStr(t, b)[1..] == CStr(t, b + 1);
    }
  }

  // ---- Sorting by key ----

  predicate Distinct<T(==)>(xs: seq<T>) {
    forall i, j :: 0 <= i < j < |xs| ==> xs[i] != xs[j]
  }

  ghost predicate StrictlySorted(ks: seq<Str>) {
    forall i, j :: 0 <= i < j < |ks| ==> Less(ks[i], ks[j])
  }

  predicate IsPermutation(p: seq<nat>, n: nat) {
    && |p| == n
    && (forall i :: 0 <= i < n ==> p[i] < n)
    && (forall i :: 0 <= i < n ==> i in p)
    && Distinct(p)
  }

  function Permute<T>(xs: seq<T>, p: seq<nat>): (ys: seq<T>)
    requires forall i :: 0 <= i < |p| ==> p[i] < |xs|
    ensures |ys| == |p|
    ensures forall i :: 0 <= i < |p| ==> ys[i] == xs[p[i]]
  {
    seq(|p|, i requires 0 <= i < |p| => xs[p[i]])
  }

  function InsertIndex(ks: seq<Str>, n: nat, p: seq<nat>): (q: seq<nat>)
    requires n < |ks|
    requires forall i :: 0 <= i < |p| ==> p[i] < |ks|
    ensures |q| == |p| + 1
    ensures forall x :: x in q <==> x == n || x in p
    ensures forall i :: 0 <= i < |q| ==> q[i] < |ks|
    ensures n !in p && Distinct(p) ==> Distinct(q)
  {
    if p == [] then [n]
    else if Less(ks[n], ks[p[0]]) then [n] + p
    else
      var rest := InsertIndex(ks, n, p[1..]);
      assert forall x :: x in p <==> x == p[0] || x in p[1..];
      assert n !in p && Distinct(p) ==> p[0] !in rest;
      [p[0]] + rest
  }

  /** Insertion sort of the first `n` indices by key. */
  function SortIndices(ks: seq<Str>, n: nat): (p: seq<nat>)
    requires n <= |ks|
    ensures IsPermutation(p, n)
  {
    if n == 0 then []
    else
      var p := SortIndices(ks, n - 1);
      var q := InsertIndex(ks, n - 1, p);
      assert forall i :: 0 <= i < |q| ==> q[i] in q;
      q
  }

  /** The permutation `std::sort` applies to a list of distinct keys. */
  function SortPermutation(ks: seq<Str>): (p: seq<nat>)
    ensures IsPermutation(p, |ks|)
  {
    SortIndices(ks, |ks|)
  }

  lemma {:induction false} InsertKeepsSorted(ks: seq<Str>, n: nat, p: seq<nat>)
    requires n < |ks| && Distinct(ks) && n !in p
    requires forall i :: 0 <= i < |p| ==> p[i] < |ks|
    requires StrictlySorted(Permute(ks, p))
    ensures StrictlySorted(Permute(ks, InsertIndex(ks, n, p)))
  {
    var q := InsertIndex(ks, n, p);
    forall i, j | 0 <= i < j < |q|
      ensures Less(ks[q[i]], ks[q[j]])
    {
      if p != [] {
        var kp := Permute(ks, p);
        if Less(ks[n], ks[p[0]]) {
          if i == 0 && j >= 2 {
            assert Less(kp[0], kp[j - 1]);
            LessTransitive(ks[n], ks[p[0]], ks[p[j - 1]]);
          } else if i > 0 {
            assert Less(kp[i - 1], kp[j - 1]);
          }
        } else {
          var kp' := Permute(ks, p[1..]);
          assert kp' == kp[1..];
          InsertKeepsSorted(ks, n, p[1..]);
          var rest := InsertIndex(ks, n, p[1..]);
          assert q == [p[0]] + rest;
          if i > 0 {
            assert Less(Permute(ks, rest)[i - 1], Permute(ks, rest)[j - 1]);
          } else {
            assert q[j] in rest;
            if q[j] == n {
              LessTotal(ks[n], ks[p[0]]);
            } else {
              var m :| 0 <= m < |p[1..]| && p[1..][m] == q[j];
              assert Less(kp[0], kp[m + 1]);
            }
          }
        }
      }
    }
  }

  lemma SortIndicesBelow(ks: seq<Str>, n: nat)
    requires n <= |ks|
    ensures n !in SortIndices(ks, n)
    ensures forall i :: 0 <= i < |SortIndices(ks, n)| ==> SortIndices(ks, n)[i] < |ks|
  {
    hide SortIndices, Distinct;
  }

  lemma {:induction false} SortIndicesSorts(ks: seq<Str>, n: nat)
    requires n <= |ks| && Distinct(ks)
    ensures StrictlySorted(Permute(ks, SortIndices(ks, n)))
  {
    hide Less, Distinct, IsPermutation, InsertIndex;
    SortIndicesBelow(ks, n);
    if n > 0 {
      SortIndicesBelow(ks, n - 1);
      SortIndicesSorts(ks, n - 1);
      InsertKeepsSorted(ks, n - 1, SortIndices(ks, n - 1));
    }
  }

  lemma SortPermutationSorts(ks: seq<Str>)
    requires Distinct(ks)
    ensures StrictlySorted(Permute(ks, SortPermutation(ks)))
  {
    SortIndicesSorts(ks, |ks|);
  }

  lemma {:induction false} SortedListsAgree(a: seq<Str>, b: seq<Str>)
    requires StrictlySorted(a) && StrictlySorted(b)
    requires forall x :: x in a <==> x in b
    ensures a == b
  {
    assert a != [] ==> a[0] in b;
    assert b != [] ==> b[0] in a;
    if a != [] && b != [] {
      if a[0] != b[0] {
        var i :| 0 <= i < |b| && b[i] == a[0];
        var j :| 0 <= j < |a| && a[j] == b[0];
        LessTransitive(a[0], b[0], a[0]);
        LessIrreflexive(a[0]);
      }
      forall x | x in a[1..]
        ensures x in b[1..]
      {
        var i :| 1 <= i < |a| && a[i] == x;
        LessIrreflexive(x);
        assert x in b && x != b[0];
      }
      forall x | x in b[1..]
        ensures x in a[1..]
      {
        var i :| 1 <= i < |b| && b[i] == x;
        LessIrreflexive(x);
        assert x in a && x != a[0];
      }
      SortedListsAgree(a[1..], b[1..]);
    }
  }

  lemma PermutedElements<T>(xs: seq<T>, p: seq<nat>)
    requires IsPermutation(p, |xs|)
    ensures forall x :: x in Permute(xs, p) <==> x in xs
  {
    forall x | x in xs
      ensures x in Permute(xs, p)
    {
      var i :| 0 <= i < |xs| && xs[i] == x;
      assert i in p;
      var j :| 0 <= j < |p| && p[j] == i;
      assert Permute(xs, p)[j] == x;
    }
  }

  /** Distinct keys have one sorting permutation, so every correct sort returns this one. */
  lemma SortPermutationIsUnique(ks: seq<Str>, p: seq<nat>)
    requires Distinct(ks) && IsPermutation(p, |ks|)
    requires StrictlySorted(Permute(ks, p))
    ensures p == SortPermutation(ks)
  {
    var q := SortPermutation(ks);
    SortPermutationSorts(ks);
    PermutedElements(ks, p);
    PermutedElements(ks, q);
    SortedListsAgree(Permute(ks, p), Permute(ks, q));
    forall i | 0 <= i < |p|
      ensures p[i] == q[i]
    {
      assert ks[p[i]] == Permute(ks, p)[i] == Permute(ks, q)[i] == ks[q[i]];
    }
  }

  // ---- Finite maps as key and value lists ----

  /** The finite map a list of distinct keys and a list of values stand for. */
  ghost function MapOf<T>(ks: seq<Str>, vs: seq<T>): (m: map<Str, T>)
    requires |ks| == |vs|
    ensures forall k :: k in m <==> k in ks
    ensures Distinct(ks) ==> forall i :: 0 <= i < |ks| ==> m[ks[i]] == vs[i]
  {
    if ks == [] then map[]
    else
      var m := MapOf(ks[1..], vs[1..]);
      assert forall k :: k in ks <==> k == ks[0] || k in ks[1..];
      assert Distinct(ks) ==> forall i :: 1 <= i < |ks| ==> ks[i] == ks[1..][i - 1] && vs[i] == vs[1..][i - 1];
      m[ks[0] := vs[0]]
  }

  lemma PermutedDistinct(ks: seq<Str>, p: seq<nat>)
    requires Distinct(ks) && IsPermutation(p, |ks|)
    ensures Distinct(Permute(ks, p))
  {
    var kp := Permute(ks, p);
    forall i, j | 0 <= i < j < |kp|
      ensures kp[i] != kp[j]
    {
      assert p[i] != p[j];
      if p[i] < p[j] { assert ks[p[i]] != ks[p[j]]; } else { assert ks[p[j]] != ks[p[i]]; }
    }
  }

  /** Sorting the pairs does not change the map they stand for. */
  lemma PermutedMapOf<T>(ks: seq<Str>, vs: seq<T>, p: seq<nat>)
    requires |ks| == |vs| && Distinct(ks) && IsPermutation(p, |ks|)
    ensures MapOf(Permute(ks, p), Permute(vs, p)) == MapOf(ks, vs)
  {
    hide MapOf, Less;
    PermutedElements(ks, p);
    PermutedDistinct(ks, p);
    var kp, vp := Permute(ks, p), Permute(vs, p);
    var m, m' := MapOf(ks, vs), MapOf(kp, vp);
    forall k | k in m
      ensures m[k] == m'[k]
    {
      assert k in kp;
      var j :| 0 <= j < |kp| && kp[j] == k;
      assert m'[k] == vp[j] == vs[p[j]];
      assert k == ks[p[j]];
    }
  }
}
