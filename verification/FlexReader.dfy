/**
 A whole-buffer FlexBuffers reader: it follows the accessors from a reference and rebuilds
 the tree, giving up when a read would leave the buffer.
 */
module FlexReader {
  import opened Bytes
  import opened Options
  import opened Strings
  import opened FlexFormat

  /** `fuel` bounds the nesting a caller is willing to follow. */
  function Decode(buf: Str, r: Ref, fuel: nat): (t: Option<Tree>)
    decreases fuel, 1
  {
    if r.typ == FBT_NULL then Some(TNull)
    else if !CanRead(buf, r.pos, r.parentWidth) then None
    else if r.typ == FBT_BOOL then Some(TBool(ReadU(buf, r.pos, r.parentWidth) != 0))
    else if r.typ == FBT_INT then Some(TInt(ReadI(buf, r.pos, r.parentWidth)))
    else if r.typ == FBT_UINT then Some(TUInt(ReadU(buf, r.pos, r.parentWidth)))
    else if IsInline(r.typ) then None
    else DecodeAt(buf, Indirect(buf, r.pos, r.parentWidth), r.byteWidth, r.typ, fuel)
  }

  function DecodeAt(buf: Str, p: int, w: nat, typ: int, fuel: nat): (t: Option<Tree>)
    decreases fuel, 0
  {
    if fuel == 0 || !(0 <= p <= |buf|) then None
    else if typ == FBT_KEY then
      if Terminated(buf, p) then Some(TKey(CStr(buf, p))) else None
    else if typ == FBT_INDIRECT_INT then
      if p + w <= |buf| then Some(TIndirectInt(ReadI(buf, p, w))) else None
    else if typ == FBT_INDIRECT_UINT then
      if p + w <= |buf| then Some(TIndirectUInt(ReadU(buf, p, w))) else None
    else if IsFixedTypedVector(typ) then
      var (et, n) := ToFixedTypedVectorElementType(typ);
      DecodeTyped(buf, p, w, et, true, n, fuel)
    else if !CanRead(buf, p - w, w) then None
    else
      var n := ReadU(buf, p - w, w);
      if typ == FBT_STRING then
        if p + n < |buf| && buf[p + n] == 0 then Some(TString(buf[p..p + n])) else None
      else if typ == FBT_BLOB then
        if p + n <= |buf| then Some(TBlob(buf[p..p + n])) else None
      else if IsTypedVector(typ) && typ != FBT_VECTOR_STRING_DEPRECATED then
        DecodeTyped(buf, p, w, ToTypedVectorElementType(typ), false, n, fuel)
      else if (typ == FBT_VECTOR || typ == FBT_MAP) && p + n * w + n <= |buf| then
        match DecodeAll(buf, VectorRefs(buf, p, w, n), fuel - 1)
        case None => None
        case Some(es) => if typ == FBT_VECTOR then Some(TVector(es)) else DecodeMap(buf, p, w, es)
      else None
  }

  function VectorRefs(buf: Str, p: int, w: nat, n: nat): (refs: seq<Ref>)
    requires 0 <= p && p + n * w + n <= |buf|
    ensures |refs| == n && forall i :: 0 <= i < n ==> refs[i] == VectorElem(buf, p, w, n, i)
  {
    seq(n, i requires 0 <= i < n => VectorElem(buf, p, w, n, i))
  }

  function TypedRefs(p: int, w: nat, et: int, n: nat): (refs: seq<Ref>)
    ensures |refs| == n && forall i :: 0 <= i < n ==> refs[i] == TypedElem(p, w, et, i)
  {
    seq(n, i requires 0 <= i < n => TypedElem(p, w, et, i))
  }

  function DecodeTyped(buf: Str, p: int, w: nat, et: int, fixed: bool, n: nat, fuel: nat): (t: Option<Tree>)
    requires fuel > 0
    decreases fuel - 1, 3
  {
    match DecodeAll(buf, TypedRefs(p, w, et, n), fuel - 1)
    case None => None
    case Some(es) => Some(TTyped(et, fixed, es))
  }

  function DecodeAll(buf: Str, refs: seq<Ref>, fuel: nat): (es: Option<seq<Tree>>)
    decreases fuel, 2, |refs|
  {
    if refs == [] then Some([])
    else
      match (Decode(buf, refs[0], fuel), DecodeAll(buf, refs[1..], fuel))
      case (Some(e), Some(es)) => Some([e] + es)
      case _ => None
  }

  function DecodeMap(buf: Str, p: int, w: nat, vals: seq<Tree>): (t: Option<Tree>) {
    if !HasKeys(buf, p, w) then None
    else
      var (kp, kw) := KeysAt(buf, p, w);
      if !(0 <= kp <= |buf| && IsWidth(kw) && HasSize(buf, kp, kw, |vals|)) then None
      else
        match DecodeKeys(buf, kp, kw, |vals|)
        case None => None
        case Some(ks) => Some(TMap(ks, vals))
  }

  /** The first `n` keys of the key vector at `kp`. */
  function DecodeKeys(buf: Str, kp: int, kw: nat, n: nat): (ks: Option<seq<Str>>)
  {
    if n == 0 then Some([])
    else if !CanRead(buf, kp + (n - 1) * kw, kw) then None
    else
      var k := Indirect(buf, kp + (n - 1) * kw, kw);
      match DecodeKeys(buf, kp, kw, n - 1)
      case None => None
      case Some(ks) => if Terminated(buf, k) then Some(ks + [CStr(buf, k)]) else None
  }

  /** How deep the offsets of a tree nest. */
  function Depth(t: Tree): nat {
    match t
    case TVector(es) => 1 + MaxDepth(es)
    case TTyped(_, _, es) => 1 + MaxDepth(es)
    case TMap(_, vs) => 1 + MaxDepth(vs)
    case _ => 1
  }

  function MaxDepth(es: seq<Tree>): nat {
    if es == [] then 0
    else var d, m := Depth(es[0]), MaxDepth(es[1..]); if d > m then d else m
  }

  // ---- The reader agrees with the denotation ----

  lemma {:induction false} DecodeKeysComplete(buf: Str, kp: int, kw: nat, ks: seq<Str>, n: nat)
    requires n <= |ks| && KeyVector(buf, kp, kw, ks)
    ensures DecodeKeys(buf, kp, kw, n) == Some(ks[..n])
  {
    hide FromLE, Pow256, CStr, CanRead, Indirect, Terminated;
    if n > 0 {
      DecodeKeysComplete(buf, kp, kw, ks, n - 1);
      assert KeyElem(buf, kp + (n - 1) * kw, kw, ks[n - 1]);
      assert ks[..n] == ks[..n - 1] + [ks[n - 1]];
    }
  }

  ghost predicate AllDenote(buf: Str, refs: seq<Ref>, es: seq<Tree>) {
    |refs| == |es| && forall i :: 0 <= i < |es| ==> Denotes(buf, refs[i], es[i])
  }

  lemma AllDenoteTail(buf: Str, refs: seq<Ref>, es: seq<Tree>)
    requires AllDenote(buf, refs, es) && es != []
    ensures Denotes(buf, refs[0], es[0]) && AllDenote(buf, refs[1..], es[1..])
  {
  }

  lemma {:induction false} DecodeAllComplete(buf: Str, refs: seq<Ref>, es: seq<Tree>, fuel: nat)
    requires AllDenote(buf, refs, es) && MaxDepth(es) <= fuel
    ensures DecodeAll(buf, refs, fuel) == Some(es)
    decreases es, 3
  {
    hide Content, DecodeAt;
    if es != [] {
      AllDenoteTail(buf, refs, es);
      DecodeComplete(buf, refs[0], es[0], fuel);
      DecodeAllComplete(buf, refs[1..], es[1..], fuel);
      assert es == [es[0]] + es[1..];
    }
  }

  /**
   The reader gives back the tree a reference denotes, whatever extra nesting it allows.
   In particular a reference denotes at most one tree.
   */
  lemma {:induction false} DecodeComplete(buf: Str, r: Ref, t: Tree, fuel: nat)
    requires Denotes(buf, r, t) && Depth(t) <= fuel
    ensures Decode(buf, r, fuel) == Some(t)
    decreases t, 2
  {
    hide Content, DecodeAt, FromLE, Pow256;
    if !IsInline(TypeOf(t)) {
      DecodeAtComplete(buf, Indirect(buf, r.pos, r.parentWidth), r.byteWidth, t, fuel);
    }
  }

  lemma {:induction false} DecodeAtComplete(buf: Str, p: int, w: nat, t: Tree, fuel: nat)
    requires Content(buf, p, w, t) && Depth(t) <= fuel
    ensures DecodeAt(buf, p, w, TypeOf(t), fuel) == Some(t)
    decreases t, 1
  {
    hide TypedElemsAt, MapKeys, FromLE, Pow256, CStr, DecodeMap, DecodeAll, Denotes;
    if t.TVector? {
      DecodeVectorComplete(buf, p, w, t.elems, fuel - 1);
      assert DecodeAt(buf, p, w, FBT_VECTOR, fuel) == Some(TVector(t.elems));
    } else if t.TTyped? {
      DecodeTypedComplete(buf, p, w, t.elemType, t.fixed, t.elems, fuel);
    } else if t.TMap? {
      DecodeVectorComplete(buf, p, w, t.vals, fuel - 1);
      DecodeMapComplete(buf, p, w, t.keys, t.vals);
      assert DecodeAt(buf, p, w, FBT_MAP, fuel) == DecodeMap(buf, p, w, t.vals);
    } else {
      DecodeLeafComplete(buf, p, w, t, fuel);
    }
  }

  lemma DecodeLeafComplete(buf: Str, p: int, w: nat, t: Tree, fuel: nat)
    requires !t.TVector? && !t.TTyped? && !t.TMap?
    requires Content(buf, p, w, t) && fuel > 0
    ensures DecodeAt(buf, p, w, TypeOf(t), fuel) == Some(t)
  {
  }

  lemma DecodeMapComplete(buf: Str, p: int, w: nat, ks: seq<Str>, vs: seq<Tree>)
    requires MapKeys(buf, p, w, ks) && |ks| == |vs|
    ensures DecodeMap(buf, p, w, vs) == Some(TMap(ks, vs))
  {
    var (kp, kw) := KeysAt(buf, p, w);
    DecodeKeysComplete(buf, kp, kw, ks, |ks|);
    assert ks[..|ks|] == ks;
  }

  lemma {:induction false} DecodeVectorComplete(buf: Str, p: int, w: nat, es: seq<Tree>, fuel: nat)
    requires VectorAt(buf, p, w, es) && MaxDepth(es) <= fuel
    ensures DecodeAll(buf, VectorRefs(buf, p, w, |es|), fuel) == Some(es)
    decreases es, 4
  {
    DecodeAllComplete(buf, VectorRefs(buf, p, w, |es|), es, fuel);
  }

  lemma TypedCode(et: int, fixed: bool, es: seq<Tree>)
    requires GoodTyped(et, fixed, |es|)
    ensures var typ := TypeOf(TTyped(et, fixed, es));
            typ != FBT_KEY && typ != FBT_INDIRECT_INT && typ != FBT_INDIRECT_UINT && typ != FBT_STRING
            && typ != FBT_BLOB && typ != FBT_VECTOR_STRING_DEPRECATED
            && if fixed then IsFixedTypedVector(typ) && ToFixedTypedVectorElementType(typ) == (et, |es|)
               else !IsFixedTypedVector(typ) && IsTypedVector(typ) && ToTypedVectorElementType(typ) == et
  {
    TypedVectorCodes(et, if fixed then |es| else 0);
  }

  lemma {:induction false} DecodeTypedComplete(buf: Str, p: int, w: nat, et: int, fixed: bool, es: seq<Tree>,
                                               fuel: nat)
    requires Content(buf, p, w, TTyped(et, fixed, es)) && Depth(TTyped(et, fixed, es)) <= fuel
    ensures DecodeAt(buf, p, w, TypeOf(TTyped(et, fixed, es)), fuel) == Some(TTyped(et, fixed, es))
    decreases es, 4
  {
    hide FromLE, Pow256, CStr, Terminated, DecodeMap, DecodeAll, Denotes, TypeOf, IsFixedTypedVector, IsTypedVector,
         ToFixedTypedVectorElementType, ToTypedVectorElementType;
    DecodeAllComplete(buf, TypedRefs(p, w, et, |es|), es, fuel - 1);
    TypedCode(et, fixed, es);
  }

  /**
   The builder stores a tuple of keys, strings or booleans under a type code from which no reader gets
   that tuple back; some of the codes are those of a blob or a boolean.
   */
  lemma OtherTuplesAreLost(buf: Str, pos: int, pw: nat, w: nat, et: int, n: nat, es: seq<Tree>, fuel: nat)
    requires IsTypedVectorElementType(et) && et > FBT_FLOAT && 2 <= n <= 4
    ensures Decode(buf, Ref(pos, pw, w, ToTypedVector(et, n)), fuel) != Some(TTyped(et, true, es))
  {
    hide FromLE, Pow256, CStr, Terminated, DecodeAll, DecodeMap, ReadU, ReadI, CanRead, Decode, DecodeAt;
    OtherTupleCodes(et, n);
    var typ := ToTypedVector(et, n);
    DecodedTypes(buf, Ref(pos, pw, w, typ), fuel);
  }

  lemma OtherTupleCodes(et: int, n: nat)
    requires IsTypedVectorElementType(et) && et > FBT_FLOAT && 2 <= n <= 4
    ensures var typ := ToTypedVector(et, n);
            !IsFixedTypedVector(typ) || ToFixedTypedVectorElementType(typ).0 != et
  {
  }

  /** A tuple is read only under a tuple's type code, and then has the element type of that code. */
  lemma DecodedTypes(buf: Str, r: Ref, fuel: nat)
    ensures var t := Decode(buf, r, fuel);
            t.Some? && t.value.TTyped? && t.value.fixed ==>
              IsFixedTypedVector(r.typ) && t.value.elemType == ToFixedTypedVectorElementType(r.typ).0
  {
    hide FromLE, Pow256, CStr, Terminated, DecodeAll, DecodeAt, ReadU, ReadI, ToFixedTypedVectorElementType;
    var t := Decode(buf, r, fuel);
    if t.Some? && t.value.TTyped? {
      TupleAt(buf, Indirect(buf, r.pos, r.parentWidth), r.byteWidth, r.typ, fuel);
    }
  }

  lemma TupleAt(buf: Str, p: int, w: nat, typ: int, fuel: nat)
    ensures var t := DecodeAt(buf, p, w, typ, fuel);
            t.Some? && t.value.TTyped? && t.value.fixed ==>
              IsFixedTypedVector(typ) && t.value.elemType == ToFixedTypedVectorElementType(typ).0
  {
    hide FromLE, Pow256, CStr, Terminated, DecodeAll, DecodeTyped, ReadU, ReadI;
    if fuel > 0 && 0 <= p <= |buf| {
      if IsFixedTypedVector(typ) {
        var (et, n) := ToFixedTypedVectorElementType(typ);
        TypedIsTyped(buf, p, w, et, true, n, fuel);
      } else if CanRead(buf, p - w, w) && IsTypedVector(typ) {
        TypedIsTyped(buf, p, w, ToTypedVectorElementType(typ), false, ReadU(buf, p - w, w), fuel);
      }
    }
  }

  lemma TypedIsTyped(buf: Str, p: int, w: nat, et: int, fixed: bool, n: nat, fuel: nat)
    requires fuel > 0
    ensures var t := DecodeTyped(buf, p, w, et, fixed, n, fuel);
            t.Some? ==> t.value.TTyped? && t.value.elemType == et && t.value.fixed == fixed
  {
  }

  lemma DenotesIsFunctional(buf: Str, r: Ref, t: Tree, u: Tree)
    requires Denotes(buf, r, t) && Denotes(buf, r, u)
    ensures t == u
  {
    var fuel := Depth(t) + Depth(u);
    DecodeComplete(buf, r, t, fuel);
    DecodeComplete(buf, r, u, fuel);
  }

  // ---- Buffers spelled out ----

  lemma OneByte(buf: Str, pos: nat)
    requires pos < |buf|
    ensures CanRead(buf, pos, 1) && ReadU(buf, pos, 1) == buf[pos]
    ensures ReadI(buf, pos, 1) == if buf[pos] < 128 then buf[pos] as int else buf[pos] as int - 256
  {
    assert buf[pos..pos + 1] == [buf[pos]];
    assert FromLE([buf[pos]]) == buf[pos];
  }

  function Ints(xs: seq<int>): seq<Tree> {
    seq(|xs|, i requires 0 <= i < |xs| => TInt(xs[i]))
  }

  lemma IntsDecoded(buf: Str, refs: seq<Ref>, xs: seq<int>)
    requires |refs| == |xs|
    requires forall i :: 0 <= i < |refs| ==>
               refs[i].typ == FBT_INT && CanRead(buf, refs[i].pos, refs[i].parentWidth)
               && ReadI(buf, refs[i].pos, refs[i].parentWidth) == xs[i]
    ensures DecodeAll(buf, refs, 0) == Some(Ints(xs))
  {
    hide ReadU, ReadI, CanRead, FromLE;
    if refs != [] {
      IntsDecoded(buf, refs[1..], xs[1..]);
      assert Decode(buf, refs[0], 0) == Some(TInt(xs[0]));
      assert Ints(xs) == [TInt(xs[0])] + Ints(xs[1..]);
    }
  }

  const THREE_INTS: Str := [3, 1, 2, 3, 4, 4, 4, 6, 0x28, 1]

  lemma ThreeIntsRoot()
    ensures GetRoot(THREE_INTS) == Ref(7, 1, 1, FBT_VECTOR)
    ensures CanRead(THREE_INTS, 7, 1) && Indirect(THREE_INTS, 7, 1) == 1
  {
    hide ReadU, ReadI;
    OneByte(THREE_INTS, 7);
  }

  lemma ThreeIntsBody()
    ensures DecodeAt(THREE_INTS, 1, 1, FBT_VECTOR, 1) == Some(TVector([TInt(1), TInt(2), TInt(3)]))
  {
    hide ReadU, ReadI, FromLE, DecodeAll;
    OneByte(THREE_INTS, 0);
    OneByte(THREE_INTS, 1);
    OneByte(THREE_INTS, 2);
    OneByte(THREE_INTS, 3);
    var refs := VectorRefs(THREE_INTS, 1, 1, 3);
    assert refs == [Ref(1, 1, 1, FBT_INT), Ref(2, 1, 1, FBT_INT), Ref(3, 1, 1, FBT_INT)];
    IntsDecoded(THREE_INTS, refs, [1, 2, 3]);
    assert Ints([1, 2, 3]) == [TInt(1), TInt(2), TInt(3)];
  }

  /** The vector [1, 2, 3]. */
  lemma ThreeInts()
    ensures Decode(THREE_INTS, GetRoot(THREE_INTS), 1) == Some(TVector([TInt(1), TInt(2), TInt(3)]))
  {
    hide DecodeAt, CanRead, Indirect, GetRoot;
    ThreeIntsRoot();
    ThreeIntsBody();
  }

  lemma OneKey(buf: Str, kp: nat)
    requires CanRead(buf, kp, 1) && Terminated(buf, Indirect(buf, kp, 1))
    ensures DecodeKeys(buf, kp, 1, 1) == Some([CStr(buf, Indirect(buf, kp, 1))])
  {
    hide CStr, CanRead, Indirect;
    var k := Indirect(buf, kp, 1);
    assert DecodeKeys(buf, kp, 1, 0) == Some([]);
    assert [] + [CStr(buf, k)] == [CStr(buf, k)];
  }

  /** The map {"a": 1}: the key, the key vector, the value vector behind its prefix, the root. */
  const ONE_PAIR: Str := [0x61, 0, 1, 3, 1, 1, 1, 1, 4, 2, 0x24, 1]

  lemma OnePairRoot()
    ensures GetRoot(ONE_PAIR) == Ref(9, 1, 1, FBT_MAP) && CanRead(ONE_PAIR, 9, 1) && Indirect(ONE_PAIR, 9, 1) == 7
  {
    hide ReadU, ReadI;
    OneByte(ONE_PAIR, 9);
  }

  lemma OnePairKeys()
    ensures DecodeMap(ONE_PAIR, 7, 1, [TInt(1)]) == Some(TMap([[0x61]], [TInt(1)]))
  {
    hide ReadU, ReadI, FromLE, Terminated, CStr, DecodeKeys;
    OneByte(ONE_PAIR, 2);
    OneByte(ONE_PAIR, 3);
    OneByte(ONE_PAIR, 4);
    OneByte(ONE_PAIR, 5);
    CStrIs(ONE_PAIR, 0, [0x61]);
    OneKey(ONE_PAIR, 3);
  }

  lemma OnePairBody()
    ensures DecodeAt(ONE_PAIR, 7, 1, FBT_MAP, 1) == Some(TMap([[0x61]], [TInt(1)]))
  {
    hide ReadU, ReadI, FromLE, DecodeMap, DecodeAll;
    OneByte(ONE_PAIR, 6);
    OneByte(ONE_PAIR, 7);
    var refs := VectorRefs(ONE_PAIR, 7, 1, 1);
    assert refs == [Ref(7, 1, 1, FBT_INT)];
    IntsDecoded(ONE_PAIR, refs, [1]);
    assert Ints([1]) == [TInt(1)];
    OnePairKeys();
  }

  lemma OnePair()
    ensures Decode(ONE_PAIR, GetRoot(ONE_PAIR), 1) == Some(TMap([[0x61]], [TInt(1)]))
  {
    hide DecodeAt, CanRead, Indirect, GetRoot;
    OnePairRoot();
    OnePairBody();
  }
}
