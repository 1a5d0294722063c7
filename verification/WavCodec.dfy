/**
 Whole WAV files as byte strings: what is written for a set of samples, and what a reader finds in it.
 */
module WavCodec {
  import opened Bytes
  import opened WavFormat
  import opened WavLayout

  // ---- The format chunk ----

  /** The fields of a format chunk, as the reader's integer types hold them. */
  datatype Format = Format(audioFormat: int, channels: int, rate: nat, bytesPerSecond: int, bytesPerBlock: int,
                           depth: int)

  /** Integer division towards zero. */
  function DivTrunc(a: int, b: int): int
    requires b > 0
  {
    if a >= 0 then a / b else -((-a) / b)
  }

  /** `(numChannels * sampleRate * bitDepth) / 8`, which is unsigned 32-bit arithmetic. */
  function BytesPerSecond(channels: int, rate: nat, depth: int): (b: int)
    ensures 0 <= b < 0x2000_0000
  {
    (channels * rate * depth) % 0x1_0000_0000 / 8
  }

  function AudioFormat(depth: int): nat { if depth == 32 then IEEE_FLOAT else PCM }

  function FormatPayload(channels: nat, rate: nat, depth: int): (s: Str)
    ensures |s| == if depth == 32 then 18 else 16
  {
    Int16(AudioFormat(depth)) + Int16(channels) + Int32(rate) + Int32(BytesPerSecond(channels, rate, depth))
    + Int16(channels * DivTrunc(depth, 8)) + Int16(depth) + (if depth == 32 then Int16(0) else [])
  }

  function ReadFormat(data: Str, f: nat): Format
    requires f + 24 <= |data|
  {
    Format(ReadI(data, f + 8, 2), ReadI(data, f + 10, 2), ReadU(data, f + 12, 4), ReadI(data, f + 16, 4),
           ReadI(data, f + 20, 2), ReadI(data, f + 22, 2))
  }

  /** The checks of the reader. */
  predicate Supported(h: Format) {
    && (h.audioFormat == PCM || h.audioFormat == IEEE_FLOAT)
    && 1 <= h.channels <= 128
    && h.bytesPerSecond % 0x1_0000_0000 == BytesPerSecond(h.channels, h.rate, h.depth)
    && h.bytesPerBlock == h.channels * DivTrunc(h.depth, 8)
    && Depth(h.depth)
  }

  lemma PayloadFields(channels: nat, rate: nat, depth: int)
    ensures var p := FormatPayload(channels, rate, depth);
            && p[0..2] == Int16(AudioFormat(depth)) && p[2..4] == Int16(channels) && p[4..8] == Int32(rate)
            && p[8..12] == Int32(BytesPerSecond(channels, rate, depth))
            && p[12..14] == Int16(channels * DivTrunc(depth, 8)) && p[14..16] == Int16(depth)
  {
    hide Int16, Int32, BytesPerSecond, DivTrunc;
  }

  lemma FormatReads(data: Str, f: nat, channels: nat, rate: nat, depth: int)
    requires f + 8 + |FormatPayload(channels, rate, depth)| <= |data|
    requires data[f + 8..f + 8 + |FormatPayload(channels, rate, depth)|] == FormatPayload(channels, rate, depth)
    requires channels <= 0x1FFF && rate < 0x1_0000_0000 && Depth(depth)
    ensures ReadFormat(data, f) == Format(AudioFormat(depth), channels, rate, BytesPerSecond(channels, rate, depth),
                                          channels * (depth / 8), depth)
  {
    hide Int16, Int32, ReadI, ReadU, BytesPerSecond;
    var p := FormatPayload(channels, rate, depth);
    var a, n := f + 8, |p|;
    SliceOfSlice(data, a, n, 0, 2);
    SliceOfSlice(data, a, n, 2, 2);
    SliceOfSlice(data, a, n, 4, 4);
    SliceOfSlice(data, a, n, 8, 4);
    SliceOfSlice(data, a, n, 12, 2);
    SliceOfSlice(data, a, n, 14, 2);
    PayloadFields(channels, rate, depth);
    Int16Reads(data, f + 8, AudioFormat(depth));
    Int16Reads(data, f + 10, channels);
    Int32Reads(data, f + 12, rate);
    Int32Reads(data, f + 16, BytesPerSecond(channels, rate, depth));
    Int16Reads(data, f + 20, channels * DivTrunc(depth, 8));
    Int16Reads(data, f + 22, depth);
  }

  // ---- The whole file ----

  function XmlChunk(xml: Str): Str { if xml == [] then [] else Chunk(IXML, xml) }

  /** The sample bytes; with no samples to write, the depth does not matter. */
  function SampleData(samples: seq<seq<nat>>, n: nat, depth: int, fl: Floats): (s: Str)
    requires Rectangular(samples, n) && (n > 0 ==> Depth(depth))
  {
    if n == 0 then [] else Frames(samples, n, depth, fl)
  }

  /** What comes after the twelve header bytes. */
  function Body(samples: seq<seq<nat>>, n: nat, rate: nat, depth: int, xml: Str, fl: Floats): (s: Str)
    requires Rectangular(samples, n) && (n > 0 ==> Depth(depth))
  {
    Chunk(FMT, FormatPayload(|samples|, rate, depth)) + Chunk(DATA, SampleData(samples, n, depth, fl)) + XmlChunk(xml)
  }

  function WaveBytes(samples: seq<seq<nat>>, n: nat, rate: nat, depth: int, xml: Str, fl: Floats): (s: Str)
    requires Rectangular(samples, n) && (n > 0 ==> Depth(depth))
  {
    var body := Body(samples, n, rate, depth, xml, fl);
    RIFF + Int32(4 + |body|) + WAVE + body
  }

  /** The size field in front counts everything behind it. */
  lemma RiffSize(samples: seq<seq<nat>>, n: nat, rate: nat, depth: int, xml: Str, fl: Floats)
    requires Rectangular(samples, n) && (n > 0 ==> Depth(depth))
    requires |WaveBytes(samples, n, rate, depth, xml, fl)| < 0x1_0000_0000
    ensures var data := WaveBytes(samples, n, rate, depth, xml, fl); |data| >= 12 && ReadU(data, 4, 4) == |data| - 8
  {
    hide Int32, Body, ReadU;
    var data, body := WaveBytes(samples, n, rate, depth, xml, fl), Body(samples, n, rate, depth, xml, fl);
    assert data[4..8] == Int32(4 + |body|);
    Int32Reads(data, 4, 4 + |body|);
  }

  /** Below 2^32 bits a second, the byte rate is that of the channels' samples; floats have an empty extension. */
  lemma ByteRate(channels: nat, rate: nat, depth: int)
    requires Depth(depth) && channels * rate * depth < 0x1_0000_0000
    ensures BytesPerSecond(channels, rate, depth) == channels * rate * (depth / 8)
    ensures depth == 32 ==> FormatPayload(channels, rate, depth)[16..] == [0, 0]
  {
    hide Int16, Int32;
    var cr, w := channels * rate, depth / 8;
    assert depth == 8 * w;
    assert cr * depth == 8 * (cr * w);
    if depth == 32 { NoExtension(); }
  }

  lemma NoExtension()
    ensures Int16(0) == [0, 0]
  {
    assert LE(0, 2) == [0] + LE(0, 1);
  }

  /** A chunk in its place. */
  lemma ChunkReads(data: Str, i: nat, id: Str, payload: Str)
    requires |id| == 4 && |payload| < 0x8000_0000 && i + 8 + |payload| <= |data|
    requires data[i..i + 8 + |payload|] == Chunk(id, payload)
    ensures ChunkSize(data, i) == |payload| && IdAt(data, i) == id
    ensures data[i + 8..i + 8 + |payload|] == payload
  {
    hide Int32, ReadI;
    var n := 8 + |payload|;
    SliceOfSlice(data, i, n, 0, 4);
    SliceOfSlice(data, i, n, 4, 4);
    SliceOfSlice(data, i, n, 8, |payload|);
    ChunkParts(id, payload);
    Int32Reads(data, i + 4, |payload|);
  }

  lemma ChunkParts(id: Str, payload: Str)
    requires |id| == 4
    ensures var c := Chunk(id, payload);
            c[0..4] == id && c[4..8] == Int32(|payload|) && c[8..8 + |payload|] == payload
  {
    hide Int32;
  }

  /** Three parts after a head, each in its place. */
  lemma PartsInPlace(head: Str, a: Str, b: Str, c: Str)
    ensures var s := head + a + b + c;
            && s[|head|..|head| + |a|] == a
            && s[|head| + |a|..|head| + |a| + |b|] == b
            && s[|head| + |a| + |b|..|head| + |a| + |b| + |c|] == c
  {
  }

  /** The list ends where the data ends. */
  lemma EndOfChunks(data: Str, i: nat)
    requires i == |data|
    ensures ChunkList(data, i) && ChunkStarts(data, i) == []
  {
  }

  /** One more chunk in front of a list. */
  lemma OneMoreChunk(data: Str, i: nat, size: nat)
    requires i + 8 + size <= |data| && ChunkSize(data, i) == size && ChunkList(data, i + 8 + size)
    ensures ChunkList(data, i) && ChunkStarts(data, i) == [i] + ChunkStarts(data, i + 8 + size)
  {
    hide ChunkSize;
  }

  function XmlStart(xml: Str, x: nat): seq<nat> { if xml == [] then [] else [x] }

  /** The places of the chunks, whatever their payloads look like. */
  lemma WavePlaces(data: Str, head: Str, fmt: Str, frames: Str, xml: Str, d: nat, x: nat)
    requires |head| == 12 && data == head + Chunk(FMT, fmt) + Chunk(DATA, frames) + XmlChunk(xml)
    requires |data| < 0x8000_0000 && d == 20 + |fmt| && x == d + 8 + |frames|
    ensures |data| == x + |XmlChunk(xml)|
    ensures IdAt(data, 12) == FMT && ChunkSize(data, 12) == |fmt| && data[20..20 + |fmt|] == fmt
    ensures IdAt(data, d) == DATA && ChunkSize(data, d) == |frames| && data[d + 8..d + 8 + |frames|] == frames
    ensures xml != [] ==>
              IdAt(data, x) == IXML && ChunkSize(data, x) == |xml| && data[x + 8..x + 8 + |xml|] == xml
  {
    hide ChunkSize, IdAt, Chunk;
    PartsInPlace(head, Chunk(FMT, fmt), Chunk(DATA, frames), XmlChunk(xml));
    ChunkReads(data, 12, FMT, fmt);
    ChunkReads(data, d, DATA, frames);
    if xml != [] { ChunkReads(data, x, IXML, xml); }
  }

  /** Chunks of those sizes one after another are what the walk visits. */
  lemma WaveChunks(data: Str, d: nat, x: nat, xml: Str)
    requires 20 <= d && d + 8 <= x <= |data| && ChunkSize(data, 12) == d - 20 && ChunkSize(data, d) == x - d - 8
    requires if xml == [] then |data| == x else x + 8 + |xml| == |data| && ChunkSize(data, x) == |xml|
    ensures ChunkList(data, 12) && ChunkStarts(data, 12) == [12] + ([d] + XmlStart(xml, x))
  {
    hide ChunkSize, ChunkList, ChunkStarts;
    if xml == [] {
      EndOfChunks(data, x);
    } else {
      EndOfChunks(data, x + 8 + |xml|);
      OneMoreChunk(data, x, |xml|);
    }
    assert ChunkStarts(data, x) == XmlStart(xml, x);
    OneMoreChunk(data, d, x - d - 8);
    OneMoreChunk(data, 12, d - 20);
  }

  /** So each chunk is found, and iXML only if it was written. */
  lemma ChunksFound(data: Str, xml: Str, d: nat, x: nat)
    requires ChunkList(data, 12) && ChunkStarts(data, 12) == [12] + ([d] + XmlStart(xml, x))
    requires 20 <= |data| && d + 8 <= |data| && IdAt(data, 12) == FMT && IdAt(data, d) == DATA
    requires xml != [] ==> x + 8 <= |data| && IdAt(data, x) == IXML
    ensures FirstWithId(data, ChunkStarts(data, 12), FMT) == 12
    ensures FirstWithId(data, ChunkStarts(data, 12), DATA) == d
    ensures FirstWithId(data, ChunkStarts(data, 12), IXML) == if xml == [] then -1 else x
  {
    hide IdAt, ChunkStarts, ChunkList;
    var starts := ChunkStarts(data, 12);
    assert starts[1..] == [d] + XmlStart(xml, x);
    assert starts[1..][1..] == XmlStart(xml, x);
    assert xml != [] ==> XmlStart(xml, x)[1..] == [];
    assert FMT != DATA && FMT != IXML && DATA != IXML;
  }
}
