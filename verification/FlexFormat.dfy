/**
 The FlexBuffers wire format as the `Reference`, `Vector`, `TypedVector` and `Map`
 accessors read it, and the trees a buffer stands for.
 */
module FlexFormat {
  import opened Bits
  import opened Bytes
  import opened Strings

  // ---- Type codes and widths ----

  const FBT_NULL := 0
  const FBT_INT := 1
  const FBT_UINT := 2
  const FBT_FLOAT := 3
  const FBT_KEY := 4
  const FBT_STRING := 5
  const FBT_INDIRECT_INT := 6
  const FBT_INDIRECT_UINT := 7
  const FBT_MAP := 9
  const FBT_VECTOR := 10
  const FBT_VECTOR_INT := 11
  const FBT_VECTOR_STRING_DEPRECATED := 15
  const FBT_VECTOR_INT2 := 16
  const FBT_VECTOR_FLOAT4 := 24
  const FBT_BLOB := 25
  const FBT_BOOL := 26
  const FBT_VECTOR_BOOL := 36

  predicate IsInline(t: int) { t <= FBT_FLOAT || t == FBT_BOOL }

  predicate IsTypedVectorElementType(t: int) { FBT_INT <= t <= FBT_STRING || t == FBT_BOOL }

  predicate IsTypedVector(t: int) {
    FBT_VECTOR_INT <= t <= FBT_VECTOR_STRING_DEPRECATED || t == FBT_VECTOR_BOOL
  }

  predicate IsFixedTypedVector(t: int) { FBT_VECTOR_INT2 <= t <= FBT_VECTOR_FLOAT4 }

  function ToTypedVector(t: int, fixedLen: nat): int
  {
    t - FBT_INT + if fixedLen == 0 then FBT_VECTOR_INT else FBT_VECTOR_INT2 + 3 * (fixedLen - 2)
  }

  function ToTypedVectorElementType(t: int): int { t - FBT_VECTOR_INT + FBT_INT }

  function ToFixedTypedVectorElementType(t: int): (int, int) {
    ((t - FBT_VECTOR_INT2) % 3 + FBT_INT, (t - FBT_VECTOR_INT2) / 3 + 2)
  }

  /**
   A typed vector's type code gives back its element type and, for tuples, its length.
   The builder accepts every element type for tuples, but the codes of 2, 3 and 4 element
   tuples are only three apart: they read back exactly for int, uint and float.
   */
  lemma TypedVectorCodes(t: int, fixedLen: nat)
    requires IsTypedVectorElementType(t)
    requires fixedLen == 0 || 2 <= fixedLen <= 4
    ensures fixedLen == 0 ==>
              IsTypedVector(ToTypedVector(t, 0)) && ToTypedVectorElementType(ToTypedVector(t, 0)) == t
    ensures fixedLen != 0 ==>
              (var code := ToTypedVector(t, fixedLen);
               IsFixedTypedVector(code) && ToFixedTypedVectorElementType(code) == (t, fixedLen)
               <==> t <= FBT_FLOAT)
  {
  }

  /** The least width code whose unsigned range holds `u`. */
  function WidthU(u: nat): (w: nat)
    ensures w <= 3
  {
    if u < 0x100 then 0 else if u < 0x1_0000 then 1 else if u < 0x1_0000_0000 then 2 else 3
  }

  function WidthI(i: int): (w: nat)
    ensures w <= 3
  {
    WidthU(if i >= 0 then 2 * i else -2 * i - 1)
  }

  function WidthBytes(w: nat): (b: nat)
    requires w <= 3
    ensures IsWidth(b)
  {
    if w == 0 then 1 else if w == 1 then 2 else if w == 2 then 4 else 8
  }

  lemma WidthUIsLeast(u: nat, w: nat)
    requires u < TWO_64 && w <= 3
    ensures u < Pow256(WidthBytes(w)) <==> WidthU(u) <= w
  {
    Pow256Values();
  }

  lemma WidthIIsLeast(i: int, w: nat)
    requires FitsSigned(i, 8) && w <= 3
    ensures FitsSigned(i, WidthBytes(w)) <==> WidthI(i) <= w
  {
    Pow256Values();
  }

  function PackedType(width: nat, typ: int): (b: Byte)
    requires width <= 3 && 0 <= typ < 64
    ensures b % 4 == width && b / 4 == typ
  {
    width + 4 * typ
  }

  /** Type and width share no bit of the packed byte, and each is masked or shifted out again. */
  lemma PackedTypeBits(width: nat, typ: int)
    requires width <= 3 && 0 <= typ < 64
    ensures var b := PackedType(width, typ);
            b == Or(width, typ * 4) && And(b, 3) == width && Shr(b, 2) == typ
  {
    hide Or, And, Pow2;
    Pow2Values();
    OrDisjoint(typ, width, 2);
    OrSymmetric(width, typ * 4);
    AndOnes(PackedType(width, typ), 2);
  }

  // ---- Accessors ----

  /** A `Reference`: where a value is, the width of its slot, the width stored with its type. */
  datatype Ref = Ref(pos: int, parentWidth: nat, byteWidth: nat, typ: int)

  /** What an out-of-range index or a missing key gives. */
  const NULL_REF := Ref(-1, 1, 1, FBT_NULL)

  function PackedRef(pos: int, parentWidth: nat, packed: Byte): Ref {
    Ref(pos, parentWidth, WidthBytes(packed % 4), packed / 4)
  }

  predicate CanRead(buf: Str, pos: int, w: nat) { 0 <= pos && pos + w <= |buf| }

  function Indirect(buf: Str, pos: int, w: nat): int
    requires CanRead(buf, pos, w)
  {
    pos - ReadU(buf, pos, w)
  }

  /** The size field in front of `p`. */
  predicate HasSize(buf: Str, p: int, w: nat, n: nat) {
    CanRead(buf, p - w, w) && ReadU(buf, p - w, w) == n
  }

  function VectorElem(buf: Str, p: int, w: nat, len: nat, i: nat): Ref
    requires i < len && 0 <= p && p + len * w + len <= |buf|
  {
    PackedRef(p + i * w, w, buf[p + len * w + i])
  }

  function TypedElem(p: int, w: nat, elemType: int, i: nat): Ref {
    Ref(p + i * w, w, 1, elemType)
  }

  function GetRoot(buf: Str): Ref
    requires |buf| >= 2
  {
    var byteWidth := buf[|buf| - 1];
    PackedRef(|buf| - 2 - byteWidth, byteWidth, buf[|buf| - 2])
  }

  // ---- Trees ----

  datatype Tree =
    | TNull
    | TBool(b: bool)
    | TInt(i: int)
    | TUInt(u: nat)
    | TIndirectInt(i: int)
    | TIndirectUInt(u: nat)
    | TKey(k: Str)
    | TString(s: Str)
    | TBlob(s: Str)
    | TVector(elems: seq<Tree>)
    | TTyped(elemType: int, fixed: bool, elems: seq<Tree>)
    | TMap(keys: seq<Str>, vals: seq<Tree>)

  function TypeOf(t: Tree): (c: int)
  {
    match t
    case TNull => FBT_NULL
    case TBool(_) => FBT_BOOL
    case TInt(_) => FBT_INT
    case TUInt(_) => FBT_UINT
    case TIndirectInt(_) => FBT_INDIRECT_INT
    case TIndirectUInt(_) => FBT_INDIRECT_UINT
    case TKey(_) => FBT_KEY
    case TString(_) => FBT_STRING
    case TBlob(_) => FBT_BLOB
    case TVector(_) => FBT_VECTOR
    case TTyped(et, fixed, es) => ToTypedVector(et, if fixed then |es| else 0)
    case TMap(_, _) => FBT_MAP
  }

  /** Element types and lengths whose typed vectors read back as themselves. */
  predicate GoodTyped(elemType: int, fixed: bool, n: nat) {
    && (elemType == FBT_INT || elemType == FBT_UINT
        || (!fixed && (elemType == FBT_KEY || elemType == FBT_BOOL)))
    && (fixed ==> 2 <= n <= 4)
  }

  /** The NUL-terminated string `k` is stored at `p`. */
  ghost predicate KeyAt(buf: Str, p: int, k: Str) {
    Terminated(buf, p) && CStr(buf, p) == k
  }

  ghost predicate InlineIs(buf: Str, pos: int, w: nat, t: Tree) {
    t != TNull ==>
      CanRead(buf, pos, w) &&
      match t
      case TBool(b) => b <==> ReadU(buf, pos, w) != 0
      case TInt(i) => ReadI(buf, pos, w) == i
      case TUInt(u) => ReadU(buf, pos, w) == u
      case _ => false
  }

  /** What a lookup gives for a missing key is null in every buffer, and nothing else. */
  lemma NullRefIsNull(buf: Str, t: Tree)
    ensures Denotes(buf, NULL_REF, t) <==> t == TNull
  {
    hide Content, ReadU;
  }

  /** The reference `r` reads, through the accessors, as the tree `t`. */
  ghost predicate Denotes(buf: Str, r: Ref, t: Tree)
    decreases t, 1
  {
    && r.typ == TypeOf(t)
    && if IsInline(TypeOf(t)) then InlineIs(buf, r.pos, r.parentWidth, t)
       else CanRead(buf, r.pos, r.parentWidth)
            && Content(buf, Indirect(buf, r.pos, r.parentWidth), r.byteWidth, t)
  }

  /** The structure at `p`, with elements and size field of `w` bytes, is `t`. */
  ghost predicate Content(buf: Str, p: int, w: nat, t: Tree)
    decreases t, 0
  {
    0 <= p <= |buf| &&
    match t
    case TKey(k) => KeyAt(buf, p, k)
    case TString(s) => HasSize(buf, p, w, |s|) && p + |s| < |buf| && buf[p..p + |s|] == s && buf[p + |s|] == 0
    case TBlob(s) => HasSize(buf, p, w, |s|) && p + |s| <= |buf| && buf[p..p + |s|] == s
    case TIndirectInt(i) => p + w <= |buf| && ReadI(buf, p, w) == i
    case TIndirectUInt(u) => p + w <= |buf| && ReadU(buf, p, w) == u
    case TVector(es) => VectorAt(buf, p, w, es)
    case TTyped(et, fixed, es) =>
      GoodTyped(et, fixed, |es|) && (fixed || HasSize(buf, p, w, |es|)) && TypedElemsAt(buf, p, w, et, es)
    case TMap(ks, vs) => VectorAt(buf, p, w, vs) && MapKeys(buf, p, w, ks) && |ks| == |vs|
    case _ => false
  }

  /** Elements, then one type byte for each. */
  ghost predicate VectorAt(buf: Str, p: int, w: nat, es: seq<Tree>)
    decreases es, 2
  {
    && 0 <= p && HasSize(buf, p, w, |es|) && p + |es| * w + |es| <= |buf|
    && forall i :: 0 <= i < |es| ==> Denotes(buf, VectorElem(buf, p, w, |es|, i), es[i])
  }

  ghost predicate TypedElemsAt(buf: Str, p: int, w: nat, et: int, es: seq<Tree>)
    decreases es, 2
  {
    forall i :: 0 <= i < |es| ==> Denotes(buf, TypedElem(p, w, et, i), es[i])
  }

  /** Where `Map::Keys()` finds the key vector, and the width of its elements. */
  predicate HasKeys(buf: Str, p: int, w: nat) {
    CanRead(buf, p - 3 * w, w) && CanRead(buf, p - 2 * w, w)
  }

  function KeysAt(buf: Str, p: int, w: nat): (int, nat)
    requires HasKeys(buf, p, w)
  {
    (Indirect(buf, p - 3 * w, w), ReadU(buf, p - 2 * w, w))
  }

  ghost predicate MapKeys(buf: Str, p: int, w: nat, ks: seq<Str>) {
    HasKeys(buf, p, w) &&
    var (kp, kw) := KeysAt(buf, p, w);
    IsWidth(kw) && KeyVector(buf, kp, kw, ks)
  }

  /** A typed vector of keys at `kp`. */
  ghost predicate KeyVector(buf: Str, kp: int, kw: nat, ks: seq<Str>) {
    && 0 <= kp <= |buf|
    && HasSize(buf, kp, kw, |ks|)
    && forall i :: 0 <= i < |ks| ==> KeyElem(buf, kp + i * kw, kw, ks[i])
  }

  ghost predicate KeyElem(buf: Str, pos: int, kw: nat, k: Str) {
    CanRead(buf, pos, kw) && KeyAt(buf, Indirect(buf, pos, kw), k)
  }

  // ---- Appending keeps every meaning ----

  lemma SliceStable(buf: Str, buf': Str, p: nat, n: nat)
    requires buf <= buf' && p + n <= |buf|
    ensures buf'[p..p + n] == buf[p..p + n]
  {
  }

  lemma ReadStable(buf: Str, buf': Str, pos: int, w: nat)
    requires buf <= buf' && CanRead(buf, pos, w)
    ensures CanRead(buf', pos, w) && ReadU(buf', pos, w) == ReadU(buf, pos, w)
  {
    assert buf'[pos..pos + w] == buf[pos..pos + w];
  }

  lemma HasSizeStable(buf: Str, buf': Str, p: int, w: nat, n: nat)
    requires buf <= buf' && HasSize(buf, p, w, n)
    ensures HasSize(buf', p, w, n)
  {
    ReadStable(buf, buf', p - w, w);
  }

  lemma KeyVectorStable(buf: Str, buf': Str, kp: int, kw: nat, ks: seq<Str>)
    requires buf <= buf' && KeyVector(buf, kp, kw, ks)
    ensures KeyVector(buf', kp, kw, ks)
  {
    hide FromLE, Pow256, CStr, HasSize, ReadU;
    HasSizeStable(buf, buf', kp, kw, |ks|);
    forall i | 0 <= i < |ks|
      ensures KeyElem(buf', kp + i * kw, kw, ks[i])
    {
      assert KeyElem(buf, kp + i * kw, kw, ks[i]);
      ReadStable(buf, buf', kp + i * kw, kw);
      CStrStable(buf, buf', Indirect(buf, kp + i * kw, kw));
    }
  }

  lemma MapKeysStable(buf: Str, buf': Str, p: int, w: nat, ks: seq<Str>)
    requires buf <= buf' && MapKeys(buf, p, w, ks)
    ensures MapKeys(buf', p, w, ks)
  {
    hide KeyVector, FromLE, Pow256;
    ReadStable(buf, buf', p - 3 * w, w);
    ReadStable(buf, buf', p - 2 * w, w);
    var (kp, kw) := KeysAt(buf, p, w);
    KeyVectorStable(buf, buf', kp, kw, ks);
  }

  lemma {:induction false} DenotesStable(buf: Str, buf': Str, r: Ref, t: Tree)
    requires buf <= buf' && Denotes(buf, r, t)
    ensures Denotes(buf', r, t)
    decreases t, 1
  {
    if t != TNull {
      ReadStable(buf, buf', r.pos, r.parentWidth);
      if !IsInline(TypeOf(t)) {
        ContentStable(buf, buf', Indirect(buf, r.pos, r.parentWidth), r.byteWidth, t);
      }
    }
  }

  lemma {:induction false} ContentStable(buf: Str, buf': Str, p: int, w: nat, t: Tree)
    requires buf <= buf' && Content(buf, p, w, t)
    ensures Content(buf', p, w, t)
    decreases t, 0
  {
    hide VectorAt, TypedElemsAt, MapKeys, FromLE, Pow256, CStr, ReadU, HasSize;
    match t
    case TKey(k) =>
      CStrStable(buf, buf', p);
    case TString(s) =>
      HasSizeStable(buf, buf', p, w, |s|);
      SliceStable(buf, buf', p, |s|);
    case TBlob(s) =>
      HasSizeStable(buf, buf', p, w, |s|);
      SliceStable(buf, buf', p, |s|);
    case TIndirectInt(_) =>
      ReadStable(buf, buf', p, w);
    case TIndirectUInt(_) =>
      ReadStable(buf, buf', p, w);
    case TVector(es) =>
      VectorStable(buf, buf', p, w, es);
    case TTyped(et, fixed, es) =>
      if !fixed { HasSizeStable(buf, buf', p, w, |es|); }
      TypedElemsStable(buf, buf', p, w, et, es);
    case TMap(ks, vs) =>
      VectorStable(buf, buf', p, w, vs);
      MapKeysStable(buf, buf', p, w, ks);
  }

  lemma {:induction false} VectorStable(buf: Str, buf': Str, p: int, w: nat, es: seq<Tree>)
    requires buf <= buf' && VectorAt(buf, p, w, es)
    ensures VectorAt(buf', p, w, es)
    decreases es, 2
  {
    hide Denotes, Content, FromLE, Pow256;
    HasSizeStable(buf, buf', p, w, |es|);
    forall i | 0 <= i < |es|
      ensures Denotes(buf', VectorElem(buf', p, w, |es|, i), es[i])
    {
      DenotesStable(buf, buf', VectorElem(buf, p, w, |es|, i), es[i]);
    }
  }

  lemma {:induction false} TypedElemsStable(buf: Str, buf': Str, p: int, w: nat, et: int, es: seq<Tree>)
    requires buf <= buf' && TypedElemsAt(buf, p, w, et, es)
    ensures TypedElemsAt(buf', p, w, et, es)
    decreases es, 2
  {
    hide Denotes, Content, FromLE, Pow256;
    forall i | 0 <= i < |es|
      ensures Denotes(buf', TypedElem(p, w, et, i), es[i])
    {
      DenotesStable(buf, buf', TypedElem(p, w, et, i), es[i]);
    }
  }
}
