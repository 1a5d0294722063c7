/**
 Stack entries, the slots `CreateVector` writes for them, and what those slots mean.
 */
module FlexSlots {
  import opened Bytes
  import opened Options
  import opened FlexFormat
  import opened FlexWidths

  // ---- What a stack entry means ----

  ghost predicate InlineEntry(v: Value, t: Tree) {
    match t
    case TNull => v.u == 0 && v.width == 0
    case TBool(b) => v.u == (if b then 1 else 0) && v.width == 0
    case TInt(i) => FitsSigned(i, 8) && v.u == U64(i) && v.width == WidthI(i)
    case TUInt(u) => u < TWO_64 && v.u == u && v.width == WidthU(u)
    case _ => false
  }

  /** The stack entry `v` stands for the tree `t`. */
  ghost predicate Entry(buf: Str, v: Value, t: Tree) {
    && v.typ == TypeOf(t) && 0 <= v.typ < 64 && v.width <= 3
    && if IsInline(v.typ) then InlineEntry(v, t)
       else v.u <= |buf| && Content(buf, v.u, WidthBytes(v.width), t)
  }

  ghost predicate Entries(buf: Str, vs: seq<Value>, ts: seq<Tree>) {
    |vs| == |ts| && forall i :: 0 <= i < |vs| ==> Entry(buf, vs[i], ts[i])
  }

  lemma EntriesPushed(buf: Str, vs: seq<Value>, ts: seq<Tree>, v: Value, t: Tree)
    requires Entries(buf, vs, ts)
    ensures Entries(buf, vs + [v], ts + [t]) <==> Entry(buf, v, t)
  {
    hide Entry;
    if Entries(buf, vs + [v], ts + [t]) {
      assert Entry(buf, (vs + [v])[|vs|], (ts + [t])[|vs|]);
    }
  }

  lemma EntriesStable(buf: Str, buf': Str, vs: seq<Value>, ts: seq<Tree>)
    requires buf <= buf' && Entries(buf, vs, ts)
    ensures Entries(buf', vs, ts)
  {
    forall i | 0 <= i < |vs|
      ensures Entry(buf', vs[i], ts[i])
    {
      EntryStable(buf, buf', vs[i], ts[i]);
    }
  }

  /** A value keeps its tree for as long as bytes are only appended, on the stack or remembered elsewhere. */
  lemma EntryStable(buf: Str, buf': Str, v: Value, t: Tree)
    requires buf <= buf' && Entry(buf, v, t)
    ensures Entry(buf', v, t)
  {
    if !IsInline(v.typ) {
      ContentStable(buf, buf', v.u, WidthBytes(v.width), t);
    }
  }

  // ---- Writing one slot ----

  /** What `WriteAny` stores for `v` at `pos`: the scalar, or the distance back to the offset. */
  function SlotBits(v: Value, pos: nat): (n: int) {
    if IsInline(v.typ) then v.u else pos - v.u
  }

  ghost predicate Slot(buf: Str, pos: nat, w: nat, v: Value) {
    CanRead(buf, pos, w) && SlotBits(v, pos) >= 0 && buf[pos..pos + w] == LE(SlotBits(v, pos), w)
  }

  /** A slot of sufficient width read through the accessors denotes what the entry means. */
  lemma SlotDenotes(buf: Str, buf': Str, pos: nat, w: nat, byteWidth: nat, v: Value, t: Tree)
    requires buf <= buf' && Entry(buf, v, t)
    requires w <= 3 && Slot(buf', pos, WidthBytes(w), v)
    requires IsInline(v.typ) ==> v.width <= w
    requires !IsInline(v.typ) ==> SlotBits(v, pos) < Pow256(WidthBytes(w))
    requires !IsInline(v.typ) && v.typ != FBT_KEY ==> byteWidth == WidthBytes(v.width)
    ensures Denotes(buf', Ref(pos, WidthBytes(w), byteWidth, v.typ), t)
  {
    hide LE, FromLE, Pow256;
    if IsInline(v.typ) {
      InlineSlotDenotes(buf', pos, w, v, t);
    } else {
      FromLEInvertsLE(SlotBits(v, pos), WidthBytes(w));
      ContentStable(buf, buf', v.u, WidthBytes(v.width), t);
    }
  }

  lemma InlineSlotDenotes(buf: Str, pos: nat, w: nat, v: Value, t: Tree)
    requires v.typ == TypeOf(t) && IsInline(v.typ) && InlineEntry(v, t) && v.width <= w <= 3
    requires Slot(buf, pos, WidthBytes(w), v)
    ensures InlineIs(buf, pos, WidthBytes(w), t)
  {
    hide LE, FromLE;
    var b := WidthBytes(w);
    match t
    case TNull =>
    case TBool(_) =>
      Pow256Values();
      FromLEInvertsLE(v.u, b);
    case TInt(i) =>
      WidthIIsLeast(i, w);
      SignedRoundTrip(i, b);
    case TUInt(u) =>
      WidthUIsLeast(u, w);
      FromLEInvertsLE(u, b);
  }

  /** `Value::StoredWidth` */
  function StoredWidth(v: Value, parent: nat): (w: nat)
  {
    if IsInline(v.typ) && v.width < parent then parent else v.width
  }

  function StoredPackedType(v: Value, parent: nat): (b: Byte)
    requires v.width <= 3 && parent <= 3 && 0 <= v.typ < 64
  {
    PackedType(StoredWidth(v, parent), v.typ)
  }

  /** An inline value is read back with the width of its slot, an offset with that of its target. */
  lemma StoredWidthReads(v: Value, parent: nat, pos: int)
    requires v.width <= 3 && parent <= 3 && 0 <= v.typ < 64
    ensures var r := PackedRef(pos, WidthBytes(parent), StoredPackedType(v, parent));
            && r.typ == v.typ && r.byteWidth >= WidthBytes(v.width)
            && (IsInline(v.typ) && v.width <= parent ==> r.byteWidth == WidthBytes(parent))
            && (!IsInline(v.typ) || v.width >= parent ==> r.byteWidth == WidthBytes(v.width))
  {
  }

  // ---- Vectors ----

  /** Stack index of element `k`: a vector takes every entry from `start`, a map every second one. */
  function Index(start: nat, step: nat, k: nat): (i: nat)
    ensures start + k <= i
  {
    if step == 1 then start + k else start + 2 * k
  }

  /** `n` stack entries, from `start` on, are all there is up to the top of the stack. */
  predicate Window(start: nat, step: nat, n: nat, len: nat) {
    && (step == 1 || step == 2)
    && (n > 0 ==> Index(start, step, n - 1) < len)
    && len <= Index(start, step, n)
  }

  function Strided<T>(xs: seq<T>, start: nat, step: nat, n: nat): (ys: seq<T>)
    requires Window(start, step, n, |xs|)
    ensures |ys| == n
    ensures forall k :: 0 <= k < n ==> ys[k] == xs[Index(start, step, k)]
  {
    seq(n, k requires 0 <= k < n => xs[Index(start, step, k)])
  }

  /** The slots of a vector at `p`, as `CreateVector` writes them. */
  ghost predicate Slots(buf: Str, p: nat, w: nat, vs: seq<Value>, n: nat)
    requires n <= |vs|
  {
    forall k :: 0 <= k < n ==> Slot(buf, p + k * w, w, vs[k])
  }

  /** Slot number `k` of a vector at `p` is wide enough for its entry. */
  predicate SlotFits(p: nat, w: nat, vs: seq<Value>, k: nat)
    requires w <= 3 && k < |vs|
  {
    if IsInline(vs[k].typ) then vs[k].width <= w
    else 0 <= SlotBits(vs[k], p + k * WidthBytes(w)) < Pow256(WidthBytes(w))
  }

  predicate AllSlotsFit(p: nat, w: nat, vs: seq<Value>)
    requires w <= 3
  {
    forall k :: 0 <= k < |vs| ==> SlotFits(p, w, vs, k)
  }

  /** Untyped: slots followed by a packed type for each. */
  lemma SlotsDenoteVector(buf: Str, buf': Str, p: nat, w: nat, vs: seq<Value>, ts: seq<Tree>)
    requires buf <= buf' && Entries(buf, vs, ts) && w <= 3
    requires HasSize(buf', p, WidthBytes(w), |vs|)
    requires p + |vs| * WidthBytes(w) + |vs| <= |buf'|
    requires Slots(buf', p, WidthBytes(w), vs, |vs|) && AllSlotsFit(p, w, vs)
    requires TypesAt(buf', p + |vs| * WidthBytes(w), vs, |vs|, w)
    ensures VectorAt(buf', p, WidthBytes(w), ts)
  {
    hide Content, Denotes, Entry, Slots, TypesAt, AllSlotsFit, LE, FromLE, Pow256, VectorElem, HasSize;
    var b := WidthBytes(w);
    forall k | 0 <= k < |ts|
      ensures Denotes(buf', VectorElem(buf', p, b, |ts|, k), ts[k])
    {
      SlotDenotesElem(buf, buf', p, w, vs, ts, k);
    }
  }

  lemma SlotDenotesElem(buf: Str, buf': Str, p: nat, w: nat, vs: seq<Value>, ts: seq<Tree>, k: nat)
    requires buf <= buf' && Entries(buf, vs, ts) && w <= 3 && k < |ts|
    requires p + |ts| * WidthBytes(w) + |ts| <= |buf'|
    requires Slots(buf', p, WidthBytes(w), vs, |vs|) && AllSlotsFit(p, w, vs)
    requires TypesAt(buf', p + |ts| * WidthBytes(w), vs, |vs|, w)
    ensures Denotes(buf', VectorElem(buf', p, WidthBytes(w), |ts|, k), ts[k])
  {
    hide Content, Denotes, Entry, Slot, SlotBits, LE, FromLE, Pow256, WidthBytes, IsInline, StoredPackedType, PackedRef;
    var b := WidthBytes(w);
    var pos, types := p + k * b, p + |ts| * b;
    assert VectorElem(buf', p, b, |ts|, k) == PackedRef(pos, b, buf'[types + k]);
    assert Denotes(buf', PackedRef(pos, b, buf'[types + k]), ts[k]) by {
      EntryBounds(buf, vs[k], ts[k]);
      assert CanRead(buf', types + k, 1);
      assert SlotFits(p, w, vs, k) && Slot(buf', pos, b, vs[k]);
      SlotDenotesPacked(buf, buf', pos, w, vs[k], ts[k], buf'[types + k]);
    }
  }

  lemma EntryBounds(buf: Str, v: Value, t: Tree)
    requires Entry(buf, v, t)
    ensures v.width <= 3 && 0 <= v.typ < 64
  {
  }

  lemma SlotDenotesPacked(buf: Str, buf': Str, pos: nat, w: nat, v: Value, t: Tree, packed: Byte)
    requires buf <= buf' && Entry(buf, v, t)
    requires w <= 3 && Slot(buf', pos, WidthBytes(w), v) && packed == StoredPackedType(v, w)
    requires IsInline(v.typ) ==> v.width <= w
    requires !IsInline(v.typ) ==> SlotBits(v, pos) < Pow256(WidthBytes(w))
    ensures Denotes(buf', PackedRef(pos, WidthBytes(w), packed), t)
  {
    SlotDenotes(buf, buf', pos, w, WidthBytes(StoredWidth(v, w)), v, t);
  }

  /** Typed: the element type comes from the vector's own type. */
  lemma SlotsDenoteTyped(buf: Str, buf': Str, p: nat, w: nat, et: int, vs: seq<Value>, ts: seq<Tree>)
    requires buf <= buf' && Entries(buf, vs, ts) && w <= 3
    requires IsInline(et) || et == FBT_KEY
    requires Slots(buf', p, WidthBytes(w), vs, |vs|)
    requires AllSlotsFit(p, w, vs) && forall k :: 0 <= k < |vs| ==> vs[k].typ == et
    ensures TypedElemsAt(buf', p, WidthBytes(w), et, ts)
  {
    var b := WidthBytes(w);
    forall k | 0 <= k < |ts|
      ensures Denotes(buf', TypedElem(p, b, et, k), ts[k])
    {
      var v := vs[k];
      assert Entry(buf, v, ts[k]) && SlotFits(p, w, vs, k);
      assert Slot(buf', p + k * b, b, v);
      SlotDenotes(buf, buf', p + k * b, w, 1, v, ts[k]);
    }
  }

  /** A typed vector of keys is a key vector in the sense of `Map::Keys`. */
  lemma TypedKeysAreKeyVector(buf: Str, p: int, w: nat, ks: seq<Str>, ts: seq<Tree>)
    requires |ks| == |ts| && forall i :: 0 <= i < |ks| ==> ts[i] == TKey(ks[i])
    requires Content(buf, p, w, TTyped(FBT_KEY, false, ts))
    ensures KeyVector(buf, p, w, ks)
  {
    forall i | 0 <= i < |ks|
      ensures KeyElem(buf, p + i * w, w, ks[i])
    {
      assert Denotes(buf, TypedElem(p, w, FBT_KEY, i), ts[i]);
      assert Content(buf, Indirect(buf, p + i * w, w), 1, TKey(ks[i]));
    }
  }

  // ---- Choosing and filling slots ----

  predicate OffsetsWithin(vs: seq<Value>, bufSize: nat) {
    forall k :: 0 <= k < |vs| ==> vs[k].width <= 3 && (IsInline(vs[k].typ) || vs[k].u <= bufSize)
  }

  lemma EntriesWithin(buf: Str, vs: seq<Value>, ts: seq<Tree>)
    requires Entries(buf, vs, ts)
    ensures |vs| == |ts| && OffsetsWithin(vs, |buf|)
    ensures forall k :: 0 <= k < |vs| ==> 0 <= vs[k].typ < 64
  {
    forall k | 0 <= k < |vs|
      ensures 0 <= vs[k].typ < 64 && vs[k].width <= 3 && (IsInline(vs[k].typ) || vs[k].u <= |buf|)
    {
      assert Entry(buf, vs[k], ts[k]);
    }
  }

  lemma StridedOffsetsWithin(vs: seq<Value>, start: nat, step: nat, n: nat, bufSize: nat)
    requires Window(start, step, n, |vs|) && OffsetsWithin(vs, bufSize)
    ensures OffsetsWithin(Strided(vs, start, step, n), bufSize)
  {
  }

  predicate AllFit(vs: seq<Value>, n: nat, bufSize: nat, first: nat, step: nat, w: nat)
    requires w <= 3 && n <= |vs|
  {
    forall k :: 0 <= k < n ==> Fits(vs[k], bufSize, Index(first, step, k), w)
  }

  lemma AllFitStep(vs: seq<Value>, n: nat, bufSize: nat, first: nat, step: nat, w: nat, elem: nat)
    requires w <= 3 && elem <= 3 && n < |vs| && OffsetsWithin(vs, bufSize)
    requires AllFit(vs, n, bufSize, first, step, w) && Fits(vs[n], bufSize, Index(first, step, n), elem)
    ensures AllFit(vs, n + 1, bufSize, first, step, Max(w, elem))
  {
    forall k | 0 <= k < n + 1
      ensures Fits(vs[k], bufSize, Index(first, step, k), Max(w, elem))
    {
      FitsWider(vs[k], bufSize, Index(first, step, k), if k < n then w else elem, Max(w, elem));
    }
  }

  /** A width that fits one element more is at least the least one for that element. */
  lemma LeastStep(vs: seq<Value>, n: nat, bufSize: nat, first: nat, step: nat, base: nat, least: nat, elem: nat)
    requires n < |vs| && elem <= 3 && NoneLess(vs, n, bufSize, first, step, base, least)
    requires IsInline(vs[n].typ) ==> elem == vs[n].width
    requires !IsInline(vs[n].typ) ==>
               forall w :: 0 <= w < elem ==> !OffsetFits(vs[n].u, bufSize, Index(first, step, n), w)
    ensures NoneLess(vs, n + 1, bufSize, first, step, base, Max(least, elem))
  {
    hide OffsetFits;
    var m := n + 1;
    forall w | base <= w <= 3 && AllFit(vs, m, bufSize, first, step, w)
      ensures Max(least, elem) <= w
    {
      assert Fits(vs[n], bufSize, Index(first, step, n), w);
      assert AllFit(vs, n, bufSize, first, step, w);
    }
  }

  /** No width from `base` on that is less than `least` fits the first `n` elements. */
  predicate NoneLess(vs: seq<Value>, n: nat, bufSize: nat, first: nat, step: nat, base: nat, least: nat)
    requires n <= |vs|
  {
    forall w :: base <= w <= 3 && AllFit(vs, n, bufSize, first, step, w) ==> least <= w
  }

  /** Slots of width `w` hold all that a vector stores in them, at the places the source estimates. */
  predicate VectorFits(stack: seq<Value>, start: nat, vecLen: nat, step: nat, bufSize: nat, minWidth: nat,
                       keys: Option<Value>, w: nat)
    requires Window(start, step, vecLen, |stack|)
  {
    && minWidth <= w <= 3 && vecLen < Pow256(WidthBytes(w))
    && (keys.Some? ==> OffsetFits(keys.value.u, bufSize, 0, w))
    && AllFit(Strided(stack, start, step, vecLen), vecLen, bufSize, start + (if keys.Some? then 3 else 1), step, w)
  }

  /** The smallest such width. */
  predicate LeastWidth(stack: seq<Value>, start: nat, vecLen: nat, step: nat, bufSize: nat, minWidth: nat,
                       keys: Option<Value>, w: nat)
    requires Window(start, step, vecLen, |stack|)
  {
    && VectorFits(stack, start, vecLen, step, bufSize, minWidth, keys, w)
    && forall w' :: VectorFits(stack, start, vecLen, step, bufSize, minWidth, keys, w') ==> w <= w'
  }

  /** A vector in slots of its width right behind the padding `before` needs, and nothing after its types. */
  predicate Laid(before: Str, buf: Str, v: Value, prefix: nat, n: nat, typed: bool) {
    && v.width <= 3 && before <= buf
    && var b := WidthBytes(v.width);
    && v.u == |before| + PaddingBytes(|before|, b) + prefix * b
    && |buf| == v.u + n * b + (if typed then 0 else n)
  }

  /** The packed types that follow the slots of an untyped vector. */
  ghost predicate TypesAt(buf: Str, p: nat, vs: seq<Value>, n: nat, width: nat)
    requires n <= |vs| && width <= 3
  {
    forall k :: 0 <= k < n ==>
      vs[k].width <= 3 && 0 <= vs[k].typ < 64
      && CanRead(buf, p + k, 1) && buf[p + k] == StoredPackedType(vs[k], width)
  }

  /** The width was chosen with room to spare: it still fits every slot at its real position. */
  lemma ChosenWidthFits(vs: seq<Value>, k: nat, bufSize: nat, estimate: nat, prefix: nat, w: nat)
    requires k < |vs| && w <= 3 && prefix + k <= estimate
    requires !IsInline(vs[k].typ) ==> vs[k].u <= bufSize
    requires Fits(vs[k], bufSize, estimate, w)
    ensures var b := WidthBytes(w); SlotFits(bufSize + PaddingBytes(bufSize, b) + prefix * b, w, vs, k)
  {
    FitsNearer(vs[k], bufSize, estimate, prefix + k, w);
    var b := WidthBytes(w);
    assert (prefix + k) * b == prefix * b + k * b;
  }

  lemma SlotAppended(buf: Str, p: nat, b: nat, vs: seq<Value>, n: nat, bits: nat)
    requires n < |vs| && |buf| == p + n * b && Slots(buf, p, b, vs, n)
    requires bits == SlotBits(vs[n], |buf|)
    ensures Slots(buf + LE(bits, b), p, b, vs, n + 1)
  {
    hide LE;
    var buf' := buf + LE(bits, b);
    assert Slot(buf', |buf|, b, vs[n]) by {
      assert buf'[|buf|..|buf| + b] == LE(bits, b);
    }
    forall k | 0 <= k < n
      ensures Slot(buf', p + k * b, b, vs[k])
    {
      var pos := p + k * b;
      assert Slot(buf, pos, b, vs[k]);
      assert buf'[pos..pos + b] == buf[pos..pos + b];
    }
  }

  lemma SlotsStable(buf: Str, buf': Str, p: nat, b: nat, vs: seq<Value>, n: nat)
    requires n <= |vs| && buf <= buf' && Slots(buf, p, b, vs, n)
    ensures Slots(buf', p, b, vs, n)
  {
    forall k | 0 <= k < n
      ensures Slot(buf', p + k * b, b, vs[k])
    {
      assert Slot(buf, p + k * b, b, vs[k]);
      assert buf'[p + k * b..p + k * b + b] == buf[p + k * b..p + k * b + b];
    }
  }

  lemma ReadAppended(buf: Str, n: nat, b: nat)
    requires n < Pow256(b)
    ensures CanRead(buf + LE(n, b), |buf|, b) && ReadU(buf + LE(n, b), |buf|, b) == n
  {
    FromLEInvertsLE(n, b);
    assert (buf + LE(n, b))[|buf|..|buf| + b] == LE(n, b);
  }

  lemma StridedEntries(buf: Str, vs: seq<Value>, ts: seq<Tree>, start: nat, step: nat, n: nat)
    requires Entries(buf, vs, ts) && Window(start, step, n, |vs|)
    ensures Entries(buf, Strided(vs, start, step, n), Strided(ts, start, step, n))
  {
    var vs', ts' := Strided(vs, start, step, n), Strided(ts, start, step, n);
    forall k | 0 <= k < n
      ensures Entry(buf, vs'[k], ts'[k])
    {
      assert Entry(buf, vs[Index(start, step, k)], ts[Index(start, step, k)]);
    }
  }

  function KeyTrees(ks: seq<Str>): (ts: seq<Tree>)
    ensures |ts| == |ks| && forall i :: 0 <= i < |ks| ==> ts[i] == TKey(ks[i])
  {
    seq(|ks|, i requires 0 <= i < |ks| => TKey(ks[i]))
  }

  /** The key vector handed to `CreateVector` for a map stands for the keys `ks`. */
  ghost predicate KeysMean(buf: Str, keys: Option<Value>, ks: Option<seq<Str>>, n: nat) {
    && (keys.Some? <==> ks.Some?)
    && (keys.Some? ==> |ks.value| == n && Entry(buf, keys.value, TTyped(FBT_KEY, false, KeyTrees(ks.value))))
  }

  /** The type `CreateVector` finds for the elements of a typed vector; an empty one counts as keys. */
  function ElementType(stack: seq<Value>, start: nat, n: nat): int {
    if n == 0 || start >= |stack| then FBT_KEY else stack[start].typ
  }

  /** The tree `CreateVector` builds from its elements. */
  function VectorTree(typed: bool, fixed: bool, elemType: int, keys: Option<seq<Str>>, es: seq<Tree>): Tree {
    if keys.Some? then TMap(keys.value, es) else if typed then TTyped(elemType, fixed, es) else TVector(es)
  }

  predicate SameType(vs: seq<Value>, typ: int) {
    forall k :: 0 <= k < |vs| ==> vs[k].typ == typ
  }

  /** Slots in front of a vector's elements: the key vector's offset and width, and the size. */
  function PrefixSlots(keys: bool, fixed: bool): nat { if keys then 3 else if fixed then 0 else 1 }

  lemma KeysAppended(buf: Str, reloff: nat, keyWidth: nat, b: nat, buf': Str, p: int)
    requires reloff < Pow256(b) && keyWidth < Pow256(b)
    requires buf + LE(reloff, b) + LE(keyWidth, b) <= buf' && p == |buf| + 3 * b
    ensures HasKeys(buf', p, b)
    ensures KeysAt(buf', p, b).0 == |buf| - reloff
    ensures KeysAt(buf', p, b).1 == keyWidth
  {
    hide LE, FromLE, Pow256;
    var buf1 := buf + LE(reloff, b);
    assert ReadsAs(buf', p - 3 * b, b, reloff) by { ReadInside(buf, reloff, b, buf', p - 3 * b); }
    assert ReadsAs(buf', p - 2 * b, b, keyWidth) by { ReadInside(buf1, keyWidth, b, buf', p - 2 * b); }
  }

  lemma SizeAppended(buf: Str, n: nat, b: nat, p: nat)
    requires n < Pow256(b) && p == |buf| + b
    ensures HasSize(buf + LE(n, b), p, b, n)
  {
    ReadAppended(buf, n, b);
    assert p - b == |buf|;
  }

  predicate ReadsAs(buf: Str, pos: int, b: nat, n: nat) { CanRead(buf, pos, b) && ReadU(buf, pos, b) == n }

  lemma ReadInside(buf: Str, n: nat, b: nat, buf': Str, pos: int)
    requires n < Pow256(b) && buf + LE(n, b) <= buf' && pos == |buf|
    ensures ReadsAs(buf', pos, b, n)
  {
    ReadAppended(buf, n, b);
    ReadStable(buf + LE(n, b), buf', |buf|, b);
  }

  lemma KeysBecomeMapKeys(buf: Str, buf': Str, p: nat, b: nat, keys: Value, ks: seq<Str>)
    requires buf <= buf' && Entry(buf, keys, TTyped(FBT_KEY, false, KeyTrees(ks)))
    requires HasKeys(buf', p, b) && KeysAt(buf', p, b) == (keys.u, WidthBytes(keys.width))
    ensures MapKeys(buf', p, b, ks)
  {
    TypedKeysAreKeyVector(buf, keys.u, WidthBytes(keys.width), ks, KeyTrees(ks));
    KeyVectorStable(buf, buf', keys.u, WidthBytes(keys.width), ks);
  }

  /** Every slot fits at its real position, `prefix` slots after the aligned end of the buffer. */
  lemma SlotsWillFit(vs: seq<Value>, bufSize: nat, first: nat, step: nat, prefix: nat, w: nat)
    requires w <= 3 && prefix <= first && OffsetsWithin(vs, bufSize)
    requires AllFit(vs, |vs|, bufSize, first, step, w)
    ensures var b := WidthBytes(w); AllSlotsFit(bufSize + PaddingBytes(bufSize, b) + prefix * b, w, vs)
  {
    var b := WidthBytes(w);
    var p := bufSize + PaddingBytes(bufSize, b) + prefix * b;
    forall k | 0 <= k < |vs|
      ensures SlotFits(p, w, vs, k)
    {
      assert Fits(vs[k], bufSize, Index(first, step, k), w);
      ChosenWidthFits(vs, k, bufSize, Index(first, step, k), prefix, w);
    }
  }

  /** The bytes `CreateVector` leaves behind, with the elements at `p` and `b`-byte slots. */
  ghost predicate Written(buf: Str, p: nat, w: nat, vs: seq<Value>, typed: bool, fixed: bool, keys: Option<Value>)
    requires w <= 3
  {
    var b := WidthBytes(w);
    && p <= |buf|
    && Prefixed(buf, p, b, |vs|, fixed, keys)
    && Slots(buf, p, b, vs, |vs|)
    && (!typed ==> p + |vs| * b + |vs| <= |buf| && TypesAt(buf, p + |vs| * b, vs, |vs|, w))
  }

  lemma VectorNotInline(typed: bool, fixed: bool, et: int, ks: Option<seq<Str>>, ts: seq<Tree>)
    requires typed ==> ks.None? && GoodTyped(et, fixed, |ts|)
    ensures var typ := TypeOf(VectorTree(typed, fixed, et, ks, ts)); !IsInline(typ) && 0 <= typ < 64
    ensures typed ==> IsInline(et) || et == FBT_KEY
  {
  }

  lemma VectorContent(buf: Str, p: nat, b: nat, typed: bool, fixed: bool, et: int, ks: Option<seq<Str>>,
                      ts: seq<Tree>)
    requires p <= |buf|
    requires typed ==> ks.None? && GoodTyped(et, fixed, |ts|) && TypedElemsAt(buf, p, b, et, ts)
                       && (fixed || HasSize(buf, p, b, |ts|))
    requires !typed ==> VectorAt(buf, p, b, ts)
    requires ks.Some? ==> |ks.value| == |ts| && MapKeys(buf, p, b, ks.value)
    ensures Content(buf, p, b, VectorTree(typed, fixed, et, ks, ts))
  {
    hide VectorAt, TypedElemsAt, MapKeys, HasSize, GoodTyped;
  }

  /** Those bytes mean the tree of the elements. */
  lemma VectorMeaning(buf: Str, buf': Str, v: Value, typed: bool, fixed: bool, et: int,
                      keys: Option<Value>, ks: Option<seq<Str>>, vs: seq<Value>, ts: seq<Tree>)
    requires buf <= buf' && Entries(buf, vs, ts) && v.width <= 3
    requires v.typ == TypeOf(VectorTree(typed, fixed, et, ks, ts))
    requires fixed ==> typed
    requires typed ==> ks.None? && GoodTyped(et, fixed, |vs|) && SameType(vs, et)
    requires Written(buf', v.u, v.width, vs, typed, fixed, keys) && AllSlotsFit(v.u, v.width, vs)
    requires KeysMean(buf, keys, ks, |vs|)
    ensures Entry(buf', v, VectorTree(typed, fixed, et, ks, ts))
  {
    hide Denotes, LE, FromLE, Pow256, VectorAt, TypedElemsAt, MapKeys, Slots, TypesAt, AllSlotsFit, Entries,
         TypeOf, IsInline, Content, HasSize, HasKeys, KeysAt, GoodTyped, VectorTree;
    EntriesWithin(buf, vs, ts);
    VectorNotInline(typed, fixed, et, ks, ts);
    if typed {
      SlotsDenoteTyped(buf, buf', v.u, v.width, et, vs, ts);
    } else {
      SlotsDenoteVector(buf, buf', v.u, v.width, vs, ts);
      if keys.Some? { KeysBecomeMapKeys(buf, buf', v.u, WidthBytes(v.width), keys.value, ks.value); }
    }
    VectorContent(buf', v.u, WidthBytes(v.width), typed, fixed, et, ks, ts);
  }

  function Max(a: nat, b: nat): nat { if a < b then b else a }

  // ---- The loops of `CreateVector` ----

  /** Memory in use by a buffer and a stack; a stack entry takes 16 bytes. */
  function Used(buf: Str, stack: seq<Value>): nat { |buf| + 16 * |stack| }

  /** Positions are `size_t`; below this they do not wrap. */
  const LIMIT: nat := 0xFFFF_FFFF_FFFF_FFFF

  /** The first loop: note that positions are estimated from the absolute stack index. */
  method ChooseWidth(stack: seq<Value>, start: nat, step: nat, n: nat, bufSize: nat, prefixElems: nat, base: nat)
    returns (bitWidth: nat)
    requires OffsetsWithin(stack, bufSize) && Window(start, step, n, |stack|)
    requires bufSize + 16 * |stack| + 64 <= LIMIT
    requires base <= 3 && prefixElems <= 3
    ensures base <= bitWidth <= 3
    ensures AllFit(Strided(stack, start, step, n), n, bufSize, start + prefixElems, step, bitWidth)
    ensures NoneLess(Strided(stack, start, step, n), n, bufSize, start + prefixElems, step, base, bitWidth)
  {
    hide Fits;
    ghost var vs := Strided(stack, start, step, n);
    StridedOffsetsWithin(stack, start, step, n, bufSize);
    bitWidth := base;
    var i := start;
    ghost var k := 0;
    while i < |stack|
      invariant 0 <= k <= n && i == Index(start, step, k)
      invariant base <= bitWidth <= 3
      invariant AllFit(vs, k, bufSize, start + prefixElems, step, bitWidth)
      invariant NoneLess(vs, k, bufSize, start + prefixElems, step, base, bitWidth)
    {
      var elemWidth := ElemWidth(stack[i], bufSize, i + prefixElems);
      assert vs[k] == stack[i];
      AllFitStep(vs, k, bufSize, start + prefixElems, step, bitWidth, elemWidth);
      LeastStep(vs, k, bufSize, start + prefixElems, step, base, bitWidth, elemWidth);
      bitWidth := Max(bitWidth, elemWidth);
      i := i + step;
      k := k + 1;
    }
  }

  /** `WriteAny`; the source asserts that an offset fits, here it is an obligation of every caller. */
  function WriteAny(buf: Str, v: Value, byteWidth: nat): (buf': Str)
    requires IsInline(v.typ) || 0 <= |buf| - v.u < Pow256(byteWidth)
    ensures buf' == buf + LE(SlotBits(v, |buf|), byteWidth)
  {
    if IsInline(v.typ) then buf + LE(v.u, byteWidth) else WriteOffset(buf, v.u, byteWidth)
  }

  function WriteOffset(buf: Str, o: nat, byteWidth: nat): (buf': Str)
    requires 0 <= |buf| - o < Pow256(byteWidth)
    ensures buf' == buf + LE(|buf| - o, byteWidth)
    ensures CanRead(buf', |buf|, byteWidth) && Indirect(buf', |buf|, byteWidth) == o
  {
    ReadAppended(buf, |buf| - o, byteWidth);
    buf + LE(|buf| - o, byteWidth)
  }

  /** The second loop. */
  method WriteSlots(before: Str, stack: seq<Value>, start: nat, step: nat, n: nat, width: nat) returns (buf: Str)
    requires Window(start, step, n, |stack|) && width <= 3
    requires AllSlotsFit(|before|, width, Strided(stack, start, step, n))
    ensures before <= buf && |buf| == |before| + n * WidthBytes(width)
    ensures Slots(buf, |before|, WidthBytes(width), Strided(stack, start, step, n), n)
  {
    hide Slot, LE, Pow256;
    ghost var vs := Strided(stack, start, step, n);
    ghost var p, b := |before|, WidthBytes(width);
    buf := before;
    var i := start;
    ghost var k := 0;
    while i < |stack|
      invariant 0 <= k <= n && i == Index(start, step, k)
      invariant before <= buf && |buf| == p + k * b
      invariant Slots(buf, p, b, vs, k)
    {
      assert stack[i] == vs[k] && SlotFits(p, width, vs, k);
      SlotAppended(buf, p, b, vs, k, SlotBits(vs[k], |buf|));
      buf := WriteAny(buf, stack[i], WidthBytes(width));
      i := i + step;
      k := k + 1;
      assert k * b == (k - 1) * b + b;
    }
  }

  /** The third loop. */
  method WriteTypes(before: Str, stack: seq<Value>, start: nat, step: nat, n: nat, width: nat) returns (buf: Str)
    requires Window(start, step, n, |stack|) && width <= 3
    requires forall i :: 0 <= i < |stack| ==> stack[i].width <= 3 && 0 <= stack[i].typ < 64
    ensures before <= buf && |buf| == |before| + n
    ensures TypesAt(buf, |before|, Strided(stack, start, step, n), n, width)
  {
    ghost var vs := Strided(stack, start, step, n);
    buf := before;
    var i := start;
    ghost var k := 0;
    while i < |stack|
      invariant 0 <= k <= n && i == Index(start, step, k)
      invariant before <= buf && |buf| == |before| + k
      invariant TypesAt(buf, |before|, vs, k, width)
    {
      buf := buf + [StoredPackedType(stack[i], width)];
      i := i + step;
      k := k + 1;
    }
  }

  /** What goes before the slots: the key vector's place and width, then the size. */
  function WritePrefix(buf: Str, keys: Option<Value>, n: nat, fixed: bool, width: nat): (buf': Str)
    requires width <= 3 && n < Pow256(WidthBytes(width)) && (keys.Some? ==> !fixed)
    requires keys.Some? ==>
               keys.value.width <= 3 && 0 <= |buf| - keys.value.u < Pow256(WidthBytes(width))
    ensures buf <= buf'
    ensures |buf'| == |buf| + PrefixSlots(keys.Some?, fixed) * WidthBytes(width)
    ensures Prefixed(buf', |buf'|, WidthBytes(width), n, fixed, keys)
  {
    var b := WidthBytes(width);
    var located := if keys.Some? then WriteKeysPlace(buf, keys.value, width) else buf;
    if fixed then located
    else
      var buf' := located + LE(n, b);
      SizeAppended(located, n, b, |buf'|);
      if keys.Some? then KeysPlaceKept(buf, keys.value, width, n); buf' else buf'
  }

  lemma KeysPlaceKept(buf: Str, keys: Value, width: nat, n: nat)
    requires width <= 3 && keys.width <= 3 && 0 <= |buf| - keys.u < Pow256(WidthBytes(width))
    ensures var b := WidthBytes(width); var buf' := WriteKeysPlace(buf, keys, width) + LE(n, b);
            HasKeys(buf', |buf'|, b) && KeysAt(buf', |buf'|, b) == (keys.u, WidthBytes(keys.width))
  {
    Pow256Values();
    var b := WidthBytes(width);
    var buf' := WriteKeysPlace(buf, keys, width) + LE(n, b);
    KeysAppended(buf, |buf| - keys.u, WidthBytes(keys.width), b, buf', |buf'|);
  }

  function WriteKeysPlace(buf: Str, keys: Value, width: nat): (buf': Str)
    requires width <= 3 && keys.width <= 3 && 0 <= |buf| - keys.u < Pow256(WidthBytes(width))
    ensures buf' == buf + LE(|buf| - keys.u, WidthBytes(width)) + LE(WidthBytes(keys.width), WidthBytes(width))
  {
    WriteOffset(buf, keys.u, WidthBytes(width)) + LE(WidthBytes(keys.width), WidthBytes(width))
  }

  ghost predicate Prefixed(buf: Str, p: nat, b: nat, n: nat, fixed: bool, keys: Option<Value>) {
    && (fixed || HasSize(buf, p, b, n))
    && (keys.Some? ==> keys.value.width <= 3 && HasKeys(buf, p, b)
                       && KeysAt(buf, p, b) == (keys.value.u, WidthBytes(keys.value.width)))
  }

  lemma PrefixedStable(buf: Str, buf': Str, p: nat, b: nat, n: nat, fixed: bool, keys: Option<Value>)
    requires buf <= buf' && Prefixed(buf, p, b, n, fixed, keys)
    ensures Prefixed(buf', p, b, n, fixed, keys)
  {
    if !fixed { HasSizeStable(buf, buf', p, b, n); }
    if keys.Some? {
      ReadStable(buf, buf', p - 3 * b, b);
      ReadStable(buf, buf', p - 2 * b, b);
    }
  }

  /** The width `CreateVector` settles on. */
  method ChooseVectorWidth(stack: seq<Value>, start: nat, vecLen: nat, step: nat, bufSize: nat, minWidth: nat,
                           keys: Option<Value>)
    returns (bitWidth: nat)
    requires OffsetsWithin(stack, bufSize) && bufSize + 16 * |stack| + 64 <= LIMIT && minWidth <= 3
    requires Window(start, step, vecLen, |stack|)
    requires keys.Some? ==> keys.value.width <= 3 && keys.value.u <= bufSize && !IsInline(keys.value.typ)
    ensures LeastWidth(stack, start, vecLen, step, bufSize, minWidth, keys, bitWidth)
  {
    hide OffsetFits, AllFit, Pow256;
    bitWidth := Max(minWidth, WidthU(vecLen));
    var prefixElems := 1;
    ghost var keysWidth := 0;
    if keys.Some? {
      var elemWidth := ElemWidth(keys.value, bufSize, 0);
      keysWidth := elemWidth;
      FitsWider(keys.value, bufSize, 0, elemWidth, Max(bitWidth, elemWidth));
      bitWidth := Max(bitWidth, elemWidth);
      prefixElems := prefixElems + 2;
    }
    var base := bitWidth;
    bitWidth := ChooseWidth(stack, start, step, vecLen, bufSize, prefixElems, base);
    WidthUIsLeast(vecLen, bitWidth);
    if keys.Some? { FitsWider(keys.value, bufSize, 0, base, bitWidth); }
    forall w | VectorFits(stack, start, vecLen, step, bufSize, minWidth, keys, w)
      ensures bitWidth <= w
    {
      WidthUIsLeast(vecLen, w);
      assert keys.Some? ==> keysWidth <= w;
      assert AllFit(Strided(stack, start, step, vecLen), vecLen, bufSize, start + prefixElems, step, w);
    }
  }

  /**
   Choose the width, then align to it. Alignment moves every slot, yet every offset, the key vector's
   included, still fits where it will really be.
   */
  method AlignForVector(before: Str, stack: seq<Value>, start: nat, vecLen: nat, step: nat, fixed: bool, minWidth: nat,
                        keys: Option<Value>)
    returns (buf: Str, bitWidth: nat)
    requires OffsetsWithin(stack, |before|) && Used(before, stack) + 64 <= LIMIT && minWidth <= 3
    requires Window(start, step, vecLen, |stack|)
    requires keys.Some? ==> keys.value.width <= 3 && keys.value.u <= |before| && !IsInline(keys.value.typ)
    ensures minWidth <= bitWidth <= 3 && vecLen < Pow256(WidthBytes(bitWidth))
    ensures LeastWidth(stack, start, vecLen, step, |before|, minWidth, keys, bitWidth)
    ensures buf == before + Zeros(PaddingBytes(|before|, WidthBytes(bitWidth)))
    ensures before <= buf && |buf| <= |before| + 7 && |buf| % WidthBytes(bitWidth) == 0
    ensures keys.Some? ==> 0 <= |buf| - keys.value.u < Pow256(WidthBytes(bitWidth))
    ensures AllSlotsFit(|buf| + PrefixSlots(keys.Some?, fixed) * WidthBytes(bitWidth), bitWidth,
                        Strided(stack, start, step, vecLen))
  {
    hide AllFit, Fits, SlotFits;
    bitWidth := ChooseVectorWidth(stack, start, vecLen, step, |before|, minWidth, keys);
    StridedOffsetsWithin(stack, start, step, vecLen, |before|);
    SlotsWillFit(Strided(stack, start, step, vecLen), |before|, start + (if keys.Some? then 3 else 1), step,
                 PrefixSlots(keys.Some?, fixed), bitWidth);
    buf := before + Zeros(PaddingBytes(|before|, WidthBytes(bitWidth)));
  }

  lemma SlotBytesBound(n: nat, w: nat)
    requires w <= 3
    ensures n * WidthBytes(w) <= 8 * n
  {
  }

  /** Everything `CreateVector` writes once the width is known and the buffer aligned. */
  method WriteVector(before: Str, stack: seq<Value>, start: nat, vecLen: nat, step: nat, typed: bool, fixed: bool,
                     keys: Option<Value>, width: nat)
    returns (buf: Str, vloc: nat)
    requires width <= 3 && vecLen < Pow256(WidthBytes(width)) && (fixed ==> typed) && (keys.Some? ==> !typed)
    requires Window(start, step, vecLen, |stack|)
    requires forall i :: 0 <= i < |stack| ==> stack[i].width <= 3 && 0 <= stack[i].typ < 64
    requires keys.Some? ==>
               keys.value.width <= 3 && 0 <= |before| - keys.value.u < Pow256(WidthBytes(width))
    requires AllSlotsFit(|before| + PrefixSlots(keys.Some?, fixed) * WidthBytes(width), width,
                         Strided(stack, start, step, vecLen))
    ensures before <= buf && |buf| <= |before| + 24 + 9 * vecLen
    ensures vloc == |before| + PrefixSlots(keys.Some?, fixed) * WidthBytes(width)
    ensures |buf| == vloc + vecLen * WidthBytes(width) + if typed then 0 else vecLen
    ensures Written(buf, vloc, width, Strided(stack, start, step, vecLen), typed, fixed, keys)
  {
    hide Slots, TypesAt, Prefixed, AllSlotsFit, LE, Window, Index, HasSize, Pow256;
    ghost var vs := Strided(stack, start, step, vecLen);
    ghost var b := WidthBytes(width);
    SlotBytesBound(vecLen, width);
    SlotBytesBound(PrefixSlots(keys.Some?, fixed), width);
    var prefixed := WritePrefix(before, keys, vecLen, fixed, width);
    vloc := |prefixed|;
    var slotted := WriteSlots(prefixed, stack, start, step, vecLen, width);
    buf := slotted;
    if !typed {
      buf := WriteTypes(slotted, stack, start, step, vecLen, width);
    }
    SlotsStable(slotted, buf, vloc, b, vs, vecLen);
    PrefixedStable(prefixed, buf, vloc, b, vecLen, fixed, keys);
  }

  lemma KeysWithin(buf: Str, keys: Option<Value>, ks: Option<seq<Str>>, n: nat)
    requires KeysMean(buf, keys, ks, n)
    ensures keys.Some? ==> keys.value.width <= 3 && keys.value.u <= |buf| && !IsInline(keys.value.typ)
    ensures keys.Some? <==> ks.Some?
    ensures ks.Some? ==> |ks.value| == n
  {
  }

  /** Width, alignment and bytes of a vector: what is written fits where it is written. */
  method AlignAndWrite(before: Str, stack: seq<Value>, minWidth: nat, start: nat, vecLen: nat, step: nat,
                       typed: bool, fixed: bool, keys: Option<Value>)
    returns (buf: Str, vloc: nat, bitWidth: nat)
    requires OffsetsWithin(stack, |before|) && Used(before, stack) + 64 <= LIMIT && minWidth <= 3
    requires forall i :: 0 <= i < |stack| ==> 0 <= stack[i].typ < 64
    requires Window(start, step, vecLen, |stack|) && (fixed ==> typed) && (keys.Some? ==> !typed)
    requires keys.Some? ==> keys.value.width <= 3 && keys.value.u <= |before| && !IsInline(keys.value.typ)
    ensures bitWidth <= 3 && before <= buf && |buf| <= |before| + 31 + 9 * vecLen
    ensures LeastWidth(stack, start, vecLen, step, |before|, minWidth, keys, bitWidth)
    ensures Laid(before, buf, Value(vloc, 0, bitWidth), PrefixSlots(keys.Some?, fixed), vecLen, typed)
    ensures Written(buf, vloc, bitWidth, Strided(stack, start, step, vecLen), typed, fixed, keys)
    ensures AllSlotsFit(vloc, bitWidth, Strided(stack, start, step, vecLen))
  {
    hide Written, AllSlotsFit, IsInline, LeastWidth;
    var aligned;
    aligned, bitWidth := AlignForVector(before, stack, start, vecLen, step, fixed, minWidth, keys);
    buf, vloc := WriteVector(aligned, stack, start, vecLen, step, typed, fixed, keys, bitWidth);
  }

  lemma VectorTypeOf(typed: bool, fixed: bool, et: int, ks: Option<seq<Str>>, ts: seq<Tree>)
    ensures TypeOf(VectorTree(typed, fixed, et, ks, ts))
            == if ks.Some? then FBT_MAP else if typed then ToTypedVector(et, if fixed then |ts| else 0) else FBT_VECTOR
  {
  }

  /**
   Write a vector, typed vector, tuple or map from stack entries. The value returned stands for exactly
   the trees of those entries, in order.
   */
  method CreateVector(before: Str, stack: seq<Value>, minWidth: nat,
                      start: nat, vecLen: nat, step: nat, typed: bool, fixed: bool, keys: Option<Value>,
                      ghost trees: seq<Tree>, ghost ks: Option<seq<Str>>)
    returns (buf: Str, v: Value)
    requires Entries(before, stack, trees) && Used(before, stack) + 64 <= LIMIT && minWidth <= 3
    requires Window(start, step, vecLen, |stack|)
    requires fixed ==> typed
    requires typed ==> keys.None? && GoodTyped(ElementType(stack, start, vecLen), fixed, vecLen)
                       && SameType(Strided(stack, start, step, vecLen), ElementType(stack, start, vecLen))
    requires KeysMean(before, keys, ks, vecLen)
    ensures before <= buf && |buf| <= |before| + 31 + 9 * vecLen
    ensures Entry(buf, v, VectorTree(typed, fixed, ElementType(stack, start, vecLen), ks,
                                     Strided(trees, start, step, vecLen)))
    ensures LeastWidth(stack, start, vecLen, step, |before|, minWidth, keys, v.width)
    ensures Laid(before, buf, v, PrefixSlots(keys.Some?, fixed), vecLen, typed)
  {
    hide LeastWidth, Entry, Entries, Written, AllSlotsFit, Denotes, Content, KeysMean, OffsetsWithin, GoodTyped,
         SameType, TypeOf, VectorTree;
    EntriesWithin(before, stack, trees);
    KeysWithin(before, keys, ks, vecLen);
    var vectorType := ElementType(stack, start, vecLen);
    var vloc, bitWidth;
    buf, vloc, bitWidth := AlignAndWrite(before, stack, minWidth, start, vecLen, step, typed, fixed, keys);
    var typ := if keys.Some? then FBT_MAP
               else if typed then ToTypedVector(vectorType, if fixed then vecLen else 0) else FBT_VECTOR;
    v := Value(vloc, typ, bitWidth);
    VectorTypeOf(typed, fixed, vectorType, ks, Strided(trees, start, step, vecLen));
    StridedEntries(before, stack, trees, start, step, vecLen);
    VectorMeaning(before, buf, v, typed, fixed, vectorType, keys, ks,
                  Strided(stack, start, step, vecLen), Strided(trees, start, step, vecLen));
  }

  // ---- Scalar vectors and the root ----

  /** A scalar of an inline type, as a tree and as the entry it would have on the stack. */
  function ScalarTree(et: int, x: int): Tree
  {
    if et == FBT_INT then TInt(x) else if et == FBT_UINT && x >= 0 then TUInt(x) else TBool(x != 0)
  }

  /** `x` is in the range of the `b`-byte C++ scalar type with this type code. */
  predicate ScalarFits(et: int, x: int, b: nat) {
    (et == FBT_INT && FitsSigned(x, b)) || (et == FBT_UINT && 0 <= x < Pow256(b)) || (et == FBT_BOOL && 0 <= x <= 1)
  }

  predicate ScalarsFit(et: int, xs: seq<int>, b: nat) {
    forall i :: 0 <= i < |xs| ==> ScalarFits(et, xs[i], b)
  }

  function ScalarValue(et: int, x: int, w: nat): (v: Value)
    requires w <= 3 && ScalarFits(et, x, WidthBytes(w))
    ensures v.typ == et && v.width <= w && IsInline(v.typ)
  {
    WideScalar(et, x, w);
    if et == FBT_INT then Value(U64(x), et, WidthI(x))
    else if et == FBT_UINT then Value(x, et, WidthU(x)) else Value(x, et, 0)
  }

  lemma WideScalar(et: int, x: int, w: nat)
    requires w <= 3 && ScalarFits(et, x, WidthBytes(w))
    ensures ScalarFits(et, x, 8)
    ensures et == FBT_INT ==> WidthI(x) <= w
    ensures et == FBT_UINT ==> WidthU(x) <= w
  {
    Pow256Values();
    if et == FBT_INT { WidthIIsLeast(x, w); } else if et == FBT_UINT { WidthUIsLeast(x, w); }
  }

  function ScalarTrees(et: int, xs: seq<int>): (ts: seq<Tree>)
    ensures |ts| == |xs| && forall i :: 0 <= i < |xs| ==> ts[i] == ScalarTree(et, xs[i])
  {
    seq(|xs|, i requires 0 <= i < |xs| => ScalarTree(et, xs[i]))
  }

  function ScalarValues(et: int, xs: seq<int>, w: nat): (vs: seq<Value>)
    requires w <= 3 && ScalarsFit(et, xs, WidthBytes(w))
    ensures |vs| == |xs| && forall i :: 0 <= i < |xs| ==> vs[i] == ScalarValue(et, xs[i], w)
  {
    seq(|xs|, i requires 0 <= i < |xs| => ScalarValue(et, xs[i], w))
  }

  lemma ScalarEntries(buf: Str, et: int, xs: seq<int>, w: nat)
    requires w <= 3 && ScalarsFit(et, xs, WidthBytes(w))
    ensures Entries(buf, ScalarValues(et, xs, w), ScalarTrees(et, xs))
  {
    forall i | 0 <= i < |xs|
      ensures Entry(buf, ScalarValue(et, xs[i], w), ScalarTree(et, xs[i]))
    {
      WideScalar(et, xs[i], w);
      Pow256Values();
    }
  }

  /** The loop of `ScalarVector`. */
  method WriteScalars(before: Str, et: int, xs: seq<int>, w: nat) returns (buf: Str)
    requires w <= 3 && ScalarsFit(et, xs, WidthBytes(w))
    ensures before <= buf && |buf| == |before| + |xs| * WidthBytes(w)
    ensures Slots(buf, |before|, WidthBytes(w), ScalarValues(et, xs, w), |xs|)
  {
    ghost var vs := ScalarValues(et, xs, w);
    ghost var p, b := |before|, WidthBytes(w);
    buf := before;
    for i := 0 to |xs|
      invariant before <= buf && |buf| == p + i * b
      invariant Slots(buf, p, b, vs, i)
    {
      SlotAppended(buf, p, b, vs, i, SlotBits(vs[i], |buf|));
      buf := WriteAny(buf, ScalarValue(et, xs[i], w), WidthBytes(w));
      assert (i + 1) * b == i * b + b;
    }
  }

  lemma ScalarVectorMeans(before: Str, buf: Str, vloc: nat, et: int, xs: seq<int>, w: nat, fixed: bool)
    requires w <= 3 && ScalarsFit(et, xs, WidthBytes(w)) && before <= buf && vloc <= |buf|
    requires et != FBT_KEY && GoodTyped(et, fixed, |xs|)
    requires Slots(buf, vloc, WidthBytes(w), ScalarValues(et, xs, w), |xs|)
    requires fixed || HasSize(buf, vloc, WidthBytes(w), |xs|)
    ensures Entry(buf, Value(vloc, ToTypedVector(et, if fixed then |xs| else 0), w),
                  TTyped(et, fixed, ScalarTrees(et, xs)))
  {
    hide Slots, LE, FromLE, Pow256, Entries, ScalarsFit, HasSize;
    ScalarEntries(before, et, xs, w);
    SlotsDenoteTyped(before, buf, vloc, w, et, ScalarValues(et, xs, w), ScalarTrees(et, xs));
  }

  method WriteScalarVector(before: Str, et: int, xs: seq<int>, width: nat, fixed: bool) returns (buf: Str, vloc: nat)
    requires width <= 3 && ScalarsFit(et, xs, WidthBytes(width)) && WidthU(|xs|) <= width
    requires |xs| < TWO_64 && et != FBT_KEY && GoodTyped(et, fixed, |xs|)
    ensures before <= buf && |buf| <= |before| + 15 + 8 * |xs|
    ensures Laid(before, buf, Value(vloc, 0, width), PrefixSlots(false, fixed), |xs|, true)
    ensures Entry(buf, Value(vloc, ToTypedVector(et, if fixed then |xs| else 0), width),
                  TTyped(et, fixed, ScalarTrees(et, xs)))
  {
    hide Slots, LE, FromLE, Pow256, Entry, Entries, ScalarsFit, HasSize, GoodTyped;
    var b := WidthBytes(width);
    buf := before + Zeros(PaddingBytes(|before|, b));
    WidthUIsLeast(|xs|, width);
    if !fixed {
      SizeAppended(buf, |xs|, b, |buf| + b);
      buf := buf + LE(|xs|, b);
    }
    ghost var prefixed := buf;
    vloc := |buf|;
    buf := WriteScalars(buf, et, xs, width);
    if !fixed { HasSizeStable(prefixed, buf, vloc, b, |xs|); }
    SlotBytesBound(|xs|, width);
    ScalarVectorMeans(before, buf, vloc, et, xs, width, fixed);
  }

  /** `buf` is `aligned` with `v` as its root. */
  predicate IsRoot(aligned: Str, v: Value, w: nat, buf: Str) {
    && w <= 3 && v.width <= 3 && 0 <= v.typ < 64
    && (IsInline(v.typ) ==> v.width <= w)
    && (!IsInline(v.typ) ==> 0 <= SlotBits(v, |aligned|) < Pow256(WidthBytes(w)))
    && SlotBits(v, |aligned|) >= 0
    && buf == aligned + LE(SlotBits(v, |aligned|), WidthBytes(w)) + [StoredPackedType(v, 0), WidthBytes(w)]
  }

  lemma RootDenotes(before: Str, aligned: Str, v: Value, t: Tree, w: nat, buf: Str)
    requires before <= aligned && Entry(before, v, t) && IsRoot(aligned, v, w, buf)
    ensures Denotes(buf, GetRoot(buf), t)
  {
    hide Entry, Denotes, LE, GetRoot, StoredPackedType, IsInline;
    RootRef(aligned, v, w, buf);
    SlotDenotes(before, buf, |aligned|, w, WidthBytes(v.width), v, t);
  }

  /** `GetRoot` finds the root slot. */
  lemma RootRef(aligned: Str, v: Value, w: nat, buf: Str)
    requires IsRoot(aligned, v, w, buf)
    ensures |buf| >= 2 && GetRoot(buf) == Ref(|aligned|, WidthBytes(w), WidthBytes(v.width), v.typ)
    ensures Slot(buf, |aligned|, WidthBytes(w), v)
  {
    hide LE, SlotBits, IsInline;
    var b, pos := WidthBytes(w), |aligned|;
    assert buf[pos..pos + b] == LE(SlotBits(v, pos), b);
    assert |buf| == pos + b + 2 && buf[|buf| - 1] == b && buf[|buf| - 2] == StoredPackedType(v, 0);
  }

  /** The smallest width that holds the root. */
  predicate LeastRootWidth(v: Value, bufSize: nat, w: nat) {
    && w <= 3 && Fits(v, bufSize, 0, w)
    && forall w' :: 0 <= w' <= 3 && Fits(v, bufSize, 0, w') ==> w <= w'
  }

  /** The root slot, its type byte, and its width byte: what `GetRoot` parses from the end. */
  method WriteRoot(before: Str, v: Value) returns (buf: Str, ghost aligned: Str, ghost w: nat)
    requires v.width <= 3 && 0 <= v.typ < 64 && |before| + 64 <= LIMIT && (IsInline(v.typ) || v.u <= |before|)
    ensures before <= aligned <= buf && |buf| <= |before| + 17
    ensures IsRoot(aligned, v, w, buf) && LeastRootWidth(v, |before|, w)
    ensures aligned == before + Zeros(PaddingBytes(|before|, WidthBytes(w))) && |buf| == |aligned| + WidthBytes(w) + 2
  {
    var width := ElemWidth(v, |before|, 0);
    var b := WidthBytes(width);
    buf := before + Zeros(PaddingBytes(|before|, b));
    aligned, w := buf, width;
    buf := WriteAny(buf, v, b) + [StoredPackedType(v, 0), b];
  }
}
