/**
 The layout of a WAV file: a header, then chunks of an id, a size and a payload.
 */
module WavLayout {
  import opened Bytes
  import opened WavFormat

  // ---- Walking over chunks ----

  function ChunkSize(data: Str, i: nat): int
    requires i + 8 <= |data|
  {
    ReadI(data, i + 4, 4)
  }

  /** From `i` on there are whole chunks, then fewer than five bytes. */
  predicate ChunkList(data: Str, i: nat)
    decreases |data| - i
  {
    i + 4 >= |data|
    || (i + 8 <= |data| && 0 <= ChunkSize(data, i) <= |data| - i - 8 && ChunkList(data, i + 8 + ChunkSize(data, i)))
  }

  /** Where the chunks start. */
  function ChunkStarts(data: Str, i: nat): (starts: seq<nat>)
    requires ChunkList(data, i)
    ensures forall k :: 0 <= k < |starts| ==> starts[k] + 8 <= |data|
    decreases |data| - i
  {
    if i + 4 >= |data| then [] else [i] + ChunkStarts(data, i + 8 + ChunkSize(data, i))
  }

  function IdAt(data: Str, i: nat): Str
    requires i + 4 <= |data|
  {
    data[i..i + 4]
  }

  /** The first chunk with this id, by position in a list of starts, or -1. */
  function FirstWithId(data: Str, starts: seq<nat>, id: Str): (r: int)
    requires forall k :: 0 <= k < |starts| ==> starts[k] + 8 <= |data|
    ensures r == -1 <==> forall k :: 0 <= k < |starts| ==> IdAt(data, starts[k]) != id
    ensures r != -1 ==> r in starts && r + 8 <= |data| && IdAt(data, r) == id
  {
    if starts == [] then -1
    else if IdAt(data, starts[0]) == id then starts[0]
    else
      assert forall k :: 1 <= k < |starts| ==> starts[k] == starts[1..][k - 1];
      FirstWithId(data, starts[1..], id)
  }

  lemma NextChunk(data: Str, i: nat, id: Str)
    requires ChunkList(data, i) && i + 4 < |data|
    ensures i + 8 <= |data| && 0 <= ChunkSize(data, i) <= |data| - i - 8
    ensures ChunkList(data, i + 8 + ChunkSize(data, i))
    ensures FirstWithId(data, ChunkStarts(data, i), id)
            == if IdAt(data, i) == id then i
               else FirstWithId(data, ChunkStarts(data, i + 8 + ChunkSize(data, i)), id)
  {
    hide ChunkSize;
    var starts := ChunkStarts(data, i);
    assert starts[1..] == ChunkStarts(data, i + 8 + ChunkSize(data, i));
  }

  lemma NoMoreChunks(data: Str, i: nat, id: Str)
    requires ChunkList(data, i) && i + 4 >= |data|
    ensures FirstWithId(data, ChunkStarts(data, i), id) == -1
  {
  }

  /** `getIndexOfChunk`: payload bytes are skipped, so they are never taken for a chunk. */
  method GetIndexOfChunk(data: Str, id: Str, startIndex: nat) returns (r: int)
    requires |data| >= 4 && ChunkList(data, startIndex)
    ensures |id| == 4 ==> r == FirstWithId(data, ChunkStarts(data, startIndex), id)
    ensures |id| != 4 ==> r == -1
  {
    hide ReadI, ChunkList, ChunkStarts, FirstWithId;
    if |id| != 4 { return -1; }
    var i := startIndex;
    while i < |data| - 4
      invariant ChunkList(data, i)
      invariant FirstWithId(data, ChunkStarts(data, i), id)
                == FirstWithId(data, ChunkStarts(data, startIndex), id)
      decreases |data| - i
    {
      NextChunk(data, i, id);
      if data[i..i + 4] == id { return i; }
      i := i + 4;
      var chunkSize := ReadI(data, i, 4);
      i := i + 4 + chunkSize;
    }
    NoMoreChunks(data, i, id);
    return -1;
  }

  // ---- Writing ----

  function Int32(x: int): (s: Str)
    ensures |s| == 4
  {
    LE(x % 0x1_0000_0000, 4)
  }

  function Int16(x: int): (s: Str)
    ensures |s| == 2
  {
    LE(x % 0x1_0000, 2)
  }

  lemma Int32Reads(data: Str, pos: nat, x: int)
    requires pos + 4 <= |data| && data[pos..pos + 4] == Int32(x)
    ensures ReadU(data, pos, 4) == x % 0x1_0000_0000
    ensures -0x8000_0000 <= x < 0x8000_0000 ==> ReadI(data, pos, 4) == x
  {
    Pow256Values();
    FromLEInvertsLE(x % 0x1_0000_0000, 4);
  }

  lemma Int16Reads(data: Str, pos: nat, x: int)
    requires pos + 2 <= |data| && data[pos..pos + 2] == Int16(x)
    ensures ReadU(data, pos, 2) == x % 0x1_0000
    ensures -0x8000 <= x < 0x8000 ==> ReadI(data, pos, 2) == x
  {
    Pow256Values();
    FromLEInvertsLE(x % 0x1_0000, 2);
  }

  function Chunk(id: Str, payload: Str): (s: Str)
    ensures |s| == |id| + 4 + |payload|
  {
    id + Int32(|payload|) + payload
  }

  /** The first `channels` samples of frame `i`, interleaved. */
  function Frame(samples: seq<seq<nat>>, i: nat, channels: nat, depth: int, fl: Floats): (s: Str)
    requires Depth(depth) && channels <= |samples| && forall c :: 0 <= c < channels ==> i < |samples[c]|
    ensures |s| == channels * (depth / 8)
  {
    if channels == 0 then []
    else Frame(samples, i, channels - 1, depth, fl) + SampleBytes(depth, samples[channels - 1][i], fl)
  }

  predicate Rectangular(samples: seq<seq<nat>>, n: nat) {
    forall c :: 0 <= c < |samples| ==> |samples[c]| == n
  }

  /** The first `n` frames. */
  function Frames(samples: seq<seq<nat>>, n: nat, depth: int, fl: Floats): (s: Str)
    requires Depth(depth) && forall c :: 0 <= c < |samples| ==> n <= |samples[c]|
    ensures |s| == n * (|samples| * (depth / 8))
  {
    if n == 0 then []
    else
      FramesLength(n, |samples| * (depth / 8));
      Frames(samples, n - 1, depth, fl) + Frame(samples, n - 1, |samples|, depth, fl)
  }

  lemma FramesLength(n: nat, b: nat)
    requires n > 0
    ensures (n - 1) * b + b == n * b
  {
  }

  lemma {:induction false} FrameAt(samples: seq<seq<nat>>, i: nat, channels: nat, depth: int, fl: Floats, c: nat,
                                   w: nat, p: nat)
    requires Depth(depth) && c < channels <= |samples| && forall k :: 0 <= k < channels ==> i < |samples[k]|
    requires w == depth / 8 && p == c * w
    ensures p + w <= channels * w == |Frame(samples, i, channels, depth, fl)|
    ensures Frame(samples, i, channels, depth, fl)[p..p + w] == SampleBytes(depth, samples[c][i], fl)
  {
    hide SampleBytes, Frame;
    FrameStep(samples, i, channels, depth, fl, w);
    var before := Frame(samples, i, channels - 1, depth, fl);
    var last := SampleBytes(depth, samples[channels - 1][i], fl);
    if c < channels - 1 {
      FrameAt(samples, i, channels - 1, depth, fl, c, w, p);
      SliceOfPrefix(before, last, p, w);
    } else {
      SliceOfSuffix(before, last, 0, w);
    }
  }

  lemma FrameStep(samples: seq<seq<nat>>, i: nat, channels: nat, depth: int, fl: Floats, w: nat)
    requires Depth(depth) && 0 < channels <= |samples| && forall k :: 0 <= k < channels ==> i < |samples[k]|
    requires w == depth / 8
    ensures Frame(samples, i, channels, depth, fl)
            == Frame(samples, i, channels - 1, depth, fl) + SampleBytes(depth, samples[channels - 1][i], fl)
    ensures |Frame(samples, i, channels - 1, depth, fl)| == (channels - 1) * w
    ensures |SampleBytes(depth, samples[channels - 1][i], fl)| == w && (channels - 1) * w + w == channels * w
  {
    hide SampleBytes;
    FramesLength(channels, w);
  }

  lemma FramesStep(samples: seq<seq<nat>>, n: nat, depth: int, fl: Floats, b: nat)
    requires Depth(depth) && n > 0 && forall k :: 0 <= k < |samples| ==> n <= |samples[k]|
    requires b == |samples| * (depth / 8)
    ensures Frames(samples, n, depth, fl)
            == Frames(samples, n - 1, depth, fl) + Frame(samples, n - 1, |samples|, depth, fl)
    ensures |Frames(samples, n - 1, depth, fl)| == (n - 1) * b && |Frame(samples, n - 1, |samples|, depth, fl)| == b
    ensures (n - 1) * b + b == n * b
  {
    hide SampleBytes, Frame;
    FramesLength(n, b);
  }

  /** The bytes of channel `c` in frame `i`, at the place the reader computes. */
  lemma {:induction false} FramesAt(samples: seq<seq<nat>>, n: nat, depth: int, fl: Floats, i: nat, c: nat, w: nat,
                                    b: nat, p: nat)
    requires Depth(depth) && i < n && c < |samples| && forall k :: 0 <= k < |samples| ==> n <= |samples[k]|
    requires w == depth / 8 && b == |samples| * w && p == i * b + c * w
    ensures p + w <= n * b == |Frames(samples, n, depth, fl)|
    ensures Frames(samples, n, depth, fl)[p..p + w] == SampleBytes(depth, samples[c][i], fl)
  {
    hide SampleBytes, Frame, Frames;
    FramesStep(samples, n, depth, fl, b);
    FrameAt(samples, n - 1, |samples|, depth, fl, c, w, c * w);
    var before, last := Frames(samples, n - 1, depth, fl), Frame(samples, n - 1, |samples|, depth, fl);
    if i < n - 1 {
      FramesAt(samples, n - 1, depth, fl, i, c, w, b, p);
      SliceOfPrefix(before, last, p, w);
    } else {
      SliceOfSuffix(before, last, c * w, w);
    }
  }

  lemma SliceOfPrefix(a: Str, b: Str, p: nat, w: nat)
    requires p + w <= |a|
    ensures (a + b)[p..p + w] == a[p..p + w]
  {
  }

  lemma SliceOfSuffix(a: Str, b: Str, p: nat, w: nat)
    requires p + w <= |b|
    ensures (a + b)[|a| + p..|a| + p + w] == b[p..p + w]
  {
  }

  lemma SliceOfSlice(a: Str, p: nat, n: nat, q: nat, w: nat)
    requires p + n <= |a| && q + w <= n
    ensures a[p..p + n][q..q + w] == a[p + q..p + q + w]
  {
    var l, r := a[p..p + n][q..q + w], a[p + q..p + q + w];
    forall j | 0 <= j < w
      ensures l[j] == r[j]
    {
      assert l[j] == a[p..p + n][q + j] == a[p + q + j];
    }
  }
}
