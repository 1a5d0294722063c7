/**
 The set of shared strings of a `FlatBufferBuilder`: offsets into its own buffer, ordered by the bytes
 they lead to.
 */
module FlatPool {
  import opened Bytes
  import opened Options
  import opened Strings
  import opened FlatFormat

  /** `memcmp` of two ranges of one length. */
  function MemCmp(a: Str, b: Str): int
    requires |a| == |b|
  {
    if a == [] then 0 else if a[0] != b[0] then a[0] - b[0] else MemCmp(a[1..], b[1..])
  }

  predicate StringLessThan(a: Str, b: Str) {
    var n := if |a| < |b| then |a| else |b|;
    var cmp := MemCmp(a[..n], b[..n]);
    if cmp == 0 then |a| < |b| else cmp < 0
  }

  /** The comparator is the lexicographic order, embedded NULs included. */
  lemma {:induction false} StringLessThanIsLess(a: Str, b: Str)
    ensures StringLessThan(a, b) <==> Less(a, b)
  {
    if a != [] && b != [] {
      var n := if |a| < |b| then |a| else |b|;
      assert a[..n][1..] == a[1..][..n - 1] && b[..n][1..] == b[1..][..n - 1];
      StringLessThanIsLess(a[1..], b[1..]);
    }
  }

  /** What `std::set` takes for the same key is the same string. */
  lemma EquivalentIsEqual(a: Str, b: Str)
    ensures !StringLessThan(a, b) && !StringLessThan(b, a) <==> a == b
  {
    StringLessThanIsLess(a, b);
    StringLessThanIsLess(b, a);
    LessTotal(a, b);
    LessIrreflexive(a);
  }

  predicate HasString(data: Str, off: int) {
    InUse(data, off, 4) && InUse(data, off - 4, ReadAt(data, off, 4))
  }

  /** The bytes of the string at `off`. */
  function StringAt(data: Str, off: nat): Str
    requires HasString(data, off)
  {
    At(data, off - 4, ReadAt(data, off, 4))
  }

  lemma StringObjHasString(data: Str, off: int, s: Str)
    requires ObjAt(data, off, StringObj(s))
    ensures HasString(data, off) && StringAt(data, off) == s
  {
  }

  /** `std::set::find` with `StringOffsetCompare`: an offset neither smaller nor larger. */
  method FindString(data: Str, pool: set<nat>, off: nat) returns (r: Option<nat>)
    requires HasString(data, off) && forall p :: p in pool ==> HasString(data, p)
    ensures r.Some? ==> r.value in pool && StringAt(data, r.value) == StringAt(data, off)
    ensures r.None? ==> forall p :: p in pool ==> StringAt(data, p) != StringAt(data, off)
  {
    var rest := pool;
    while rest != {}
      invariant rest <= pool
      invariant forall p :: p in pool && p !in rest ==> StringAt(data, p) != StringAt(data, off)
    {
      var p :| p in rest;
      var a, b := StringAt(data, p), StringAt(data, off);
      EquivalentIsEqual(a, b);
      if !StringLessThan(a, b) && !StringLessThan(b, a) { return Some(p); }
      rest := rest - {p};
    }
    return None;
  }
}
