/**
 `AudioFile`: audio samples with their rate, depth and iXML text, saved to and decoded from WAV files.
 */
module Wav {
  import opened Bytes
  import opened WavFormat
  import opened WavLayout
  import opened WavCodec

  // ---- The sample loops ----

  /** The writing loops: frame by frame, channel by channel. */
  method WriteFrames(samples: seq<seq<nat>>, n: nat, depth: int, fl: Floats) returns (data: Str)
    requires Depth(depth) && Rectangular(samples, n)
    ensures data == Frames(samples, n, depth, fl)
  {
    hide SampleBytes;
    data := [];
    for i := 0 to n
      invariant data == Frames(samples, i, depth, fl)
    {
      ghost var before := data;
      for channel := 0 to |samples|
        invariant data == before + Frame(samples, i, channel, depth, fl)
      {
        data := data + SampleBytes(depth, samples[channel][i], fl);
      }
      assert data == Frames(samples, i + 1, depth, fl);
    }
  }

  /** The place of channel `c` in frame `i`. */
  function SampleIndex(start: nat, block: nat, i: nat, c: nat, w: nat): nat { start + block * i + c * w }

  lemma IndexInside(start: nat, block: nat, n: nat, i: nat, channels: nat, c: nat, w: nat)
    requires i < n && c < channels && block == channels * w
    ensures SampleIndex(start, block, i, c, w) + w <= start + n * block
  {
    assert (c + 1) * w <= channels * w && (c + 1) * w == c * w + w;
    assert block * (i + 1) <= block * n && block * (i + 1) == block * i + block;
    assert block * n == n * block;
  }

  /** Channel `c` holds what the data has for it, as far as it goes. */
  predicate ChannelRead(channel: seq<nat>, n: nat, data: Str, start: nat, h: Format, c: nat, fl: Floats)
    requires Supported(h) && c < h.channels && start + n * h.bytesPerBlock <= |data|
  {
    |channel| <= n && forall i :: 0 <= i < |channel| ==> SampleRead(channel, data, start, h, i, n, c, fl)
  }

  lemma PushSample(channel: seq<nat>, n: nat, data: Str, start: nat, h: Format, c: nat, fl: Floats, sample: nat)
    requires Supported(h) && c < h.channels && start + n * h.bytesPerBlock <= |data| && |channel| < n
    requires ChannelRead(channel, n, data, start, h, c, fl)
    requires SampleRead(channel + [sample], data, start, h, |channel|, n, c, fl)
    ensures ChannelRead(channel + [sample], n, data, start, h, c, fl)
  {
    hide SampleAt, SampleIndex;
    var longer := channel + [sample];
    forall i | 0 <= i < |longer|
      ensures SampleRead(longer, data, start, h, i, n, c, fl)
    {
      if i < |channel| { assert SampleRead(channel, data, start, h, i, n, c, fl); }
    }
  }

  predicate SampleRead(channel: seq<nat>, data: Str, start: nat, h: Format, i: nat, n: nat, c: nat, fl: Floats)
    requires Supported(h) && c < h.channels && i < n && i < |channel| && start + n * h.bytesPerBlock <= |data|
  {
    IndexInside(start, h.bytesPerBlock, n, i, h.channels, c, h.depth / 8);
    channel[i] == SampleAt(data, SampleIndex(start, h.bytesPerBlock, i, c, h.depth / 8), h.depth, h.audioFormat, fl)
  }

  /** The reading loops: one `push_back` per channel and frame. */
  method ReadFrames(data: Str, start: nat, n: nat, h: Format, fl: Floats) returns (samples: seq<seq<nat>>)
    requires Supported(h) && start + n * h.bytesPerBlock <= |data|
    ensures |samples| == h.channels
    ensures forall c :: 0 <= c < h.channels ==> |samples[c]| == n && ChannelRead(samples[c], n, data, start, h, c, fl)
  {
    hide SampleAt, SampleIndex, ChannelRead;
    var w := h.depth / 8;
    samples := seq(h.channels, _ => []);
    forall c | 0 <= c < h.channels
      ensures ChannelRead(samples[c], n, data, start, h, c, fl)
    {
      NothingRead(n, data, start, h, c, fl);
    }
    for i := 0 to n
      invariant |samples| == h.channels
      invariant forall c :: 0 <= c < h.channels ==>
                  |samples[c]| == i && ChannelRead(samples[c], n, data, start, h, c, fl)
    {
      for channel := 0 to h.channels
        invariant |samples| == h.channels
        invariant forall c :: 0 <= c < h.channels ==>
                    && |samples[c]| == (if c < channel then i + 1 else i)
                    && ChannelRead(samples[c], n, data, start, h, c, fl)
      {
        IndexInside(start, h.bytesPerBlock, n, i, h.channels, channel, w);
        var sampleIndex := SampleIndex(start, h.bytesPerBlock, i, channel, w);
        var sample := SampleAt(data, sampleIndex, h.depth, h.audioFormat, fl);
        PushSample(samples[channel], n, data, start, h, channel, fl, sample);
        samples := samples[channel := samples[channel] + [sample]];
      }
    }
  }

  /** The checks on the header, in their order. */
  method CheckFormat(h: Format) returns (ok: bool)
    ensures ok == Supported(h)
  {
    if h.audioFormat != PCM && h.audioFormat != IEEE_FLOAT { return false; }
    if h.channels < 1 || h.channels > 128 { return false; }
    if h.bytesPerSecond % 0x1_0000_0000 != BytesPerSecond(h.channels, h.rate, h.depth)
       || h.bytesPerBlock != h.channels * DivTrunc(h.depth, 8) {
      return false;
    }
    return h.depth == 8 || h.depth == 16 || h.depth == 24 || h.depth == 32;
  }

  /** The chunk's payload is inside the file. */
  predicate PayloadInside(data: Str, i: int) {
    0 <= i && i + 8 <= |data| && 0 <= ChunkSize(data, i) <= |data| - i - 8
  }

  /** Every channel has one sample for every whole block of the data chunk at `d`. */
  ghost predicate ChannelsRead(samples: seq<seq<nat>>, data: Str, d: int, h: Format, fl: Floats)
    requires Supported(h) && PayloadInside(data, d)
  {
    BlockSize(h);
    BlocksFit(ChunkSize(data, d), h.bytesPerBlock);
    var n := ChunkSize(data, d) / h.bytesPerBlock;
    && |samples| == h.channels
    && forall c :: 0 <= c < h.channels ==> |samples[c]| == n && ChannelRead(samples[c], n, data, d + 8, h, c, fl)
  }

  /** The data chunk and the header of a file the reader accepts. */
  ghost predicate Parts(data: Str, d: int, h: Format) {
    && WellFormedFile(data) && Readable(data)
    && d == FirstWithId(data, ChunkStarts(data, 12), DATA)
    && h == ReadFormat(data, FirstWithId(data, ChunkStarts(data, 12), FMT))
  }

  function CodePlace(d: int, h: Format, c: nat, i: nat): int { d + 8 + (i * h.channels + c) * (h.depth / 8) }

  /** A whole frame `i` of the data chunk at `d`, with the code `k` for channel `c`; floats are no codes. */
  predicate HoldsCode(data: Str, d: int, h: Format, c: nat, i: nat, k: int) {
    && Supported(h) && PayloadInside(data, d) && c < h.channels && (h.depth == 32 ==> h.audioFormat == PCM)
    && (i + 1) * (h.channels * (h.depth / 8)) <= ChunkSize(data, d) && IsCode(h.depth, k)
    && var p := CodePlace(d, h, c, i);
    && 0 <= p && p + h.depth / 8 <= |data| && data[p..p + h.depth / 8] == CodeBytes(h.depth, k)
  }

  /** As many frames of `block` bytes as there is room for. */
  predicate WholeFrames(n: int, block: int, size: int) { n * block <= size < n * block + block }

  lemma QuotientIsWhole(size: int, block: int)
    requires size >= 0 && block > 0
    ensures WholeFrames(size / block, block, size)
  {
    assert size == block * (size / block) + size % block;
  }

  lemma DecodedSample(samples: seq<seq<nat>>, data: Str, d: nat, h: Format, c: nat, i: nat, fl: Floats)
    requires Supported(h) && PayloadInside(data, d) && ChannelsRead(samples, data, d, h, fl) && c < h.channels
    requires (i + 1) * (h.channels * (h.depth / 8)) <= ChunkSize(data, d)
    ensures |samples| == h.channels
    ensures i < |samples[c]| && WholeFrames(|samples[c]|, h.channels * (h.depth / 8), ChunkSize(data, d))
    ensures var p := CodePlace(d, h, c, i);
            0 <= p && p + h.depth / 8 <= |data| && samples[c][i] == SampleAt(data, p, h.depth, h.audioFormat, fl)
  {
    hide SampleAt, ReadU, ReadI, ChunkSize;
    var w, n := h.depth / 8, ChunkSize(data, d) / h.bytesPerBlock;
    BlockSize(h);
    BlocksFit(ChunkSize(data, d), h.bytesPerBlock);
    QuotientIsWhole(ChunkSize(data, d), h.bytesPerBlock);
    WholeBlocks(ChunkSize(data, d), h.bytesPerBlock, i + 1);
    assert SampleRead(samples[c], data, d + 8, h, i, n, c, fl);
    SameIndex(i, h.channels, c, w);
    IndexInside(d + 8, h.bytesPerBlock, n, i, h.channels, c, w);
  }

  lemma WholeBlocks(size: int, block: int, m: int)
    requires block > 0 && m * block <= size
    ensures m <= size / block
  {
    var k := size / block - m;
    assert size - m * block == block * k + size % block;
    assert k <= -1 ==> block * k <= -block;
  }

  lemma SameIndex(i: nat, channels: nat, c: nat, w: nat)
    ensures (i * channels + c) * w == (channels * w) * i + c * w
  {
    assert i * channels * w == channels * w * i;
  }

  method ReadChannels(data: Str, d: int, h: Format, fl: Floats) returns (samples: seq<seq<nat>>)
    requires Supported(h) && PayloadInside(data, d)
    ensures ChannelsRead(samples, data, d, h, fl)
  {
    hide ChannelRead, ReadU, ReadI, SampleAt;
    var dataChunkSize := ChunkSize(data, d);
    BlockSize(h);
    BlocksFit(dataChunkSize, h.bytesPerBlock);
    var numSamples := dataChunkSize / (h.channels * h.depth / 8);
    samples := ReadFrames(data, d + 8, numSamples, h, fl);
  }

  lemma NothingRead(n: nat, data: Str, start: nat, h: Format, c: nat, fl: Floats)
    requires Supported(h) && c < h.channels && start + n * h.bytesPerBlock <= |data|
    ensures ChannelRead([], n, data, start, h, c, fl)
  {
  }

  // ---- The class ----

  /** `vector::resize`: cut, or padded with a default. */
  function Resized<T>(s: seq<T>, n: nat, default: T): (r: seq<T>)
    ensures |r| == n
    ensures forall k :: 0 <= k < n ==> r[k] == if k < |s| then s[k] else default
  {
    if n <= |s| then s[..n] else s + seq(n - |s|, _ => default)
  }

  /** `getNumSamplesPerChannel` */
  function NumSamples(samples: seq<seq<nat>>): nat { if samples == [] then 0 else |samples[0]| }

  /** Old samples stay, new ones are zero; growing also clears what a channel had beyond the original size. */
  predicate KeepsSamples(before: seq<nat>, after: seq<nat>, numSamples: nat, originalSize: nat) {
    |after| == numSamples
    && forall k :: 0 <= k < numSamples ==>
         after[k] == if k < |before| && (k < originalSize || numSamples <= originalSize) then before[k] else 0
  }

  /** There is room in a file whose sizes are 32-bit integers. */
  predicate FileFits(samples: seq<seq<nat>>, rate: nat, depth: int, xml: Str, fl: Floats) {
    && |samples| < 0x8000 && rate < 0x1_0000_0000 && -0x8000 <= depth < 0x8000
    && Rectangular(samples, NumSamples(samples))
    && (NumSamples(samples) == 0 || Depth(depth) ==>
          12 + |Body(samples, NumSamples(samples), rate, depth, xml, fl)| < 0x8000_0000)
  }

  /** The unclamped 24-bit conversion is defined. */
  predicate CodesFit(samples: seq<seq<nat>>, fl: Floats) {
    forall c, i :: 0 <= c < |samples| && 0 <= i < |samples[c]| ==>
      -0x8000_0000 <= Quantize24(fl.value(samples[c][i])) < 0x8000_0000
  }

  /** Where the walk finds the format and data chunks, and whether the header is one the reader supports. */
  predicate Readable(data: Str)
    requires |data| >= 12 && ChunkList(data, 12)
  {
    var f := FirstWithId(data, ChunkStarts(data, 12), FMT);
    && FirstWithId(data, ChunkStarts(data, 12), DATA) != -1 && f != -1
    && data[..4] == RIFF && data[8..12] == WAVE
    && f + 24 <= |data| && Supported(ReadFormat(data, f))
  }

  /** A chunk list whose format chunk, if any, has room for its sixteen bytes of fields. */
  predicate WellFormedFile(data: Str) {
    && |data| >= 12 && ChunkList(data, 12)
    && var f := FirstWithId(data, ChunkStarts(data, 12), FMT);
       f == -1 || f + 24 <= |data|
  }

  lemma BlocksFit(size: int, b: nat)
    requires size >= 0 && b > 0
    ensures 0 <= size / b && size / b * b <= size
  {
  }

  /** The format chunk, field by field; floats have an extension size. */
  method WriteFormat(formatChunkSize: nat, audioFormat: nat, channels: nat, rate: nat, depth: int) returns (s: Str)
    requires audioFormat == AudioFormat(depth) && formatChunkSize == if audioFormat == PCM then 16 else 18
    ensures s == Chunk(FMT, FormatPayload(channels, rate, depth))
  {
    hide BytesPerSecond, Int16, Int32, DivTrunc;
    s := FMT + Int32(formatChunkSize);
    var fields := Int16(audioFormat) + Int16(channels) + Int32(rate) + Int32(BytesPerSecond(channels, rate, depth))
                  + Int16(channels * DivTrunc(depth, 8)) + Int16(depth);
    if audioFormat == IEEE_FLOAT {
      fields := fields + Int16(0);
    }
    assert fields == FormatPayload(channels, rate, depth);
    s := s + fields;
  }

  class AudioFile {
    var samples: seq<seq<nat>>
    var iXMLChunk: Str
    var sampleRate: nat
    var bitDepth: int
    const fl: Floats

    constructor (fl: Floats)
      ensures this.fl == fl && samples == [[]] && iXMLChunk == [] && sampleRate == 44100 && bitDepth == 16
    {
      this.fl := fl;
      bitDepth, sampleRate, samples, iXMLChunk := 16, 44100, [[]], [];
    }

    method SetAudioBuffer(newBuffer: seq<seq<nat>>) returns (ok: bool)
      requires newBuffer != [] ==> Rectangular(newBuffer, |newBuffer[0]|)
      modifies this`samples
      ensures ok == (newBuffer != [])
      ensures samples == if ok then newBuffer else old(samples)
    {
      if newBuffer == [] { return false; }
      samples := Resized(samples, |newBuffer|, []);
      for k := 0 to |samples|
        invariant |samples| == |newBuffer|
        invariant forall c :: 0 <= c < k ==> samples[c] == newBuffer[c]
      {
        samples := samples[k := newBuffer[k]];
      }
      return true;
    }

    method SetNumSamplesPerChannel(numSamples: nat)
      modifies this`samples
      ensures |samples| == |old(samples)| && Rectangular(samples, numSamples)
      ensures forall c :: 0 <= c < |samples| ==>
                KeepsSamples(old(samples)[c], samples[c], numSamples, NumSamples(old(samples)))
    {
      var originalSize := NumSamples(samples);
      for i := 0 to |samples|
        invariant |samples| == |old(samples)|
        invariant forall c :: 0 <= c < i ==>
                    |samples[c]| == numSamples && KeepsSamples(old(samples)[c], samples[c], numSamples, originalSize)
        invariant forall c :: i <= c < |samples| ==> samples[c] == old(samples)[c]
      {
        var channel := Resized(samples[i], numSamples, 0);
        if numSamples > originalSize {
          channel := channel[..originalSize] + seq(numSamples - originalSize, _ => 0);
        }
        samples := samples[i := channel];
      }
    }

    method SetAudioBufferSize(numChannels: nat, numSamples: nat)
      modifies this`samples
      ensures |samples| == numChannels && Rectangular(samples, numSamples)
      ensures forall c :: 0 <= c < numChannels ==>
                KeepsSamples(if c < |old(samples)| then old(samples)[c] else [], samples[c], numSamples,
                             NumSamples(old(samples)))
    {
      samples := Resized(samples, numChannels, []);
      SetNumSamplesPerChannel(numSamples);
    }

    method SetNumChannels(numChannels: nat)
      modifies this`samples
      ensures samples == Resized(old(samples), numChannels, seq(NumSamples(old(samples)), _ => 0))
    {
      var originalNumChannels, originalNumSamples := |samples|, NumSamples(samples);
      samples := Resized(samples, numChannels, []);
      if numChannels > originalNumChannels {
        for i := originalNumChannels to numChannels
          invariant |samples| == numChannels
          invariant forall c :: 0 <= c < originalNumChannels ==> samples[c] == old(samples)[c]
          invariant forall c :: originalNumChannels <= c < i ==> samples[c] == seq(originalNumSamples, _ => 0)
        {
          samples := samples[i := seq(originalNumSamples, _ => 0)];
        }
      }
      assert samples == Resized(old(samples), numChannels, seq(originalNumSamples, _ => 0));
    }

    method SetBitDepth(numBitsPerSample: int)
      modifies this`bitDepth
      ensures bitDepth == numBitsPerSample
    {
      bitDepth := numBitsPerSample;
    }

    method SetSampleRate(newSampleRate: nat)
      modifies this`sampleRate
      ensures sampleRate == newSampleRate
    {
      sampleRate := newSampleRate;
    }

    /** `saveToWaveFile`, up to the bytes it hands to the file; the final size check always passes. */
    method SaveToWaveFile() returns (ok: bool, data: Str)
      requires FileFits(samples, sampleRate, bitDepth, iXMLChunk, fl) && (bitDepth == 24 ==> CodesFit(samples, fl))
      ensures ok == (NumSamples(samples) == 0 || Depth(bitDepth))
      ensures ok ==> data == WaveBytes(samples, NumSamples(samples), sampleRate, bitDepth, iXMLChunk, fl)
    {
      hide Frames, FormatPayload, Int32, DivTrunc;
      var n, channels := NumSamples(samples), |samples|;
      data := [];
      if n > 0 && !Depth(bitDepth) { return false, data; }
      DataSize(samples, n, bitDepth, fl);
      var dataChunkSize := n * (channels * bitDepth / 8);
      var audioFormat := AudioFormat(bitDepth);
      var formatChunkSize := if audioFormat == PCM then 16 else 18;
      var fileSizeInBytes := 4 + formatChunkSize + 8 + 8 + dataChunkSize;
      if |iXMLChunk| > 0 {
        fileSizeInBytes := fileSizeInBytes + 8 + |iXMLChunk|;
      }
      var header := RIFF + Int32(fileSizeInBytes) + WAVE;
      var format := WriteFormat(formatChunkSize, audioFormat, channels, sampleRate, bitDepth);
      var frames := [];
      if n > 0 {
        frames := WriteFrames(samples, n, bitDepth, fl);
      }
      var chunks := DATA + Int32(dataChunkSize) + frames;
      assert chunks == Chunk(DATA, SampleData(samples, n, bitDepth, fl));
      var xml := if |iXMLChunk| > 0 then IXML + Int32(|iXMLChunk|) + iXMLChunk else [];
      data := header + (format + chunks + xml);
      if fileSizeInBytes != |data| - 8 || dataChunkSize != n * channels * DivTrunc(bitDepth, 8) {
        return false, data;
      }
      return true, data;
    }

    /** Everything the reader takes from a file it accepts; a file without iXML leaves the old text in place. */
    method DecodeWaveFile(data: Str) returns (ok: bool)
      requires WellFormedFile(data)
      modifies this`samples, this`iXMLChunk, this`sampleRate, this`bitDepth
      ensures ok == Readable(data)
      ensures !ok ==> samples == old(samples) && iXMLChunk == old(iXMLChunk)
      ensures ok ==> DecodedFrom(data)
      ensures ok ==> iXMLChunk == DecodedXml(data, old(iXMLChunk))
    {
      hide ReadI, ReadU, ChunkList, ChunkStarts, FirstWithId, SampleAt, ChannelsRead, Supported, ReadFormat;
      var headerChunkID, format := data[..4], data[8..12];
      var d := GetIndexOfChunk(data, DATA, 12);
      var f := GetIndexOfChunk(data, FMT, 12);
      var x := GetIndexOfChunk(data, IXML, 12);
      if d == -1 || f == -1 || headerChunkID != RIFF || format != WAVE { return false; }
      var h := ReadFormat(data, f);
      sampleRate, bitDepth := h.rate, h.depth;
      var supported := CheckFormat(h);
      if !supported { return false; }
      SizesInside(data, d);
      samples := ReadChannels(data, d, h, fl);
      if x != -1 {
        SizesInside(data, x);
        iXMLChunk := data[x + 8..x + 8 + ChunkSize(data, x)];
      }
      return true;
    }

    /**
     A file written by anyone: where its data chunk holds the code `k` for channel `c` of frame `i`, the sample
     decoded is the float nearest to that fraction of full scale.
     */
    lemma DecodedCode(data: Str, d: int, h: Format, c: nat, i: nat, k: int)
      requires Parts(data, d, h) && DecodedFrom(data) && HoldsCode(data, d, h, c, i, k)
      ensures bitDepth == h.depth && sampleRate == h.rate && |samples| == h.channels
      ensures i < |samples[c]| && WholeFrames(|samples[c]|, h.channels * (h.depth / 8), ChunkSize(data, d))
      ensures samples[c][i] == fl.nearest(k as real / FullScale(h.depth))
    {
      hide SampleAt, ReadFormat, ReadI, ReadU, FirstWithId, ChunkStarts, ChunkList, CodeBytes, IsCode, ChannelsRead,
        ChunkSize;
      SizesInside(data, d);
      DecodedSample(samples, data, d, h, c, i, fl);
      CodeReads(data, CodePlace(d, h, c, i), h.depth, k, h.audioFormat, fl);
    }

    /** The fields hold what the file says, sample by sample. */
    ghost predicate DecodedFrom(data: Str)
      requires WellFormedFile(data) && Readable(data)
      reads this
    {
      var h := ReadFormat(data, FirstWithId(data, ChunkStarts(data, 12), FMT));
      var d := FirstWithId(data, ChunkStarts(data, 12), DATA);
      SizesInside(data, d);
      sampleRate == h.rate && bitDepth == h.depth && ChannelsRead(samples, data, d, h, fl)
    }
  }

  lemma DataSize(samples: seq<seq<nat>>, n: nat, depth: int, fl: Floats)
    requires Rectangular(samples, n) && (n > 0 ==> Depth(depth))
    ensures |SampleData(samples, n, depth, fl)| == n * (|samples| * depth / 8)
    ensures n * (|samples| * depth / 8) == n * |samples| * DivTrunc(depth, 8)
  {
    if n > 0 {
      var c, w := |samples|, depth / 8;
      assert depth == 8 * w;
      assert c * depth == c * w * 8;
      assert c * depth / 8 == c * w;
      assert n * (c * w) == n * c * w;
    }
  }

  function DecodedXml(data: Str, before: Str): Str
    requires |data| >= 12 && ChunkList(data, 12)
  {
    var x := FirstWithId(data, ChunkStarts(data, 12), IXML);
    if x == -1 then before
    else
      SizesInside(data, x);
      data[x + 8..x + 8 + ChunkSize(data, x)]
  }

  /** A chunk found by the walk has its payload inside the file. */
  lemma SizesInside(data: Str, i: int)
    requires |data| >= 12 && ChunkList(data, 12)
    requires exists id :: i == FirstWithId(data, ChunkStarts(data, 12), id) && i != -1
    ensures 0 <= i && i + 8 <= |data| && 0 <= ChunkSize(data, i) <= |data| - i - 8
  {
    StartsInside(data, 12, i);
  }

  lemma {:induction false} StartsInside(data: Str, from: nat, i: nat)
    requires ChunkList(data, from) && i in ChunkStarts(data, from)
    ensures i + 8 <= |data| && 0 <= ChunkSize(data, i) <= |data| - i - 8
    decreases |data| - from
  {
    hide ChunkSize;
    if i != from { StartsInside(data, from + 8 + ChunkSize(data, from), i); }
  }

  lemma BlockSize(h: Format)
    requires Supported(h)
    ensures h.bytesPerBlock == h.channels * (h.depth / 8) == h.channels * h.depth / 8 && h.bytesPerBlock > 0
  {
    var w := h.depth / 8;
    assert h.depth == 8 * w && DivTrunc(h.depth, 8) == w;
    assert h.channels * h.depth == h.channels * w * 8;
  }

  // ---- The round trip ----

  /** The chunks of a written file, in their places. */
  lemma WrittenPlaces(samples: seq<seq<nat>>, n: nat, rate: nat, depth: int, xml: Str, fl: Floats, data: Str, d: nat,
                      x: nat)
    requires FileFits(samples, rate, depth, xml, fl) && n == NumSamples(samples) && Depth(depth)
    requires data == WaveBytes(samples, n, rate, depth, xml, fl)
    requires d == (if depth == 32 then 38 else 36) && x == d + 8 + |SampleData(samples, n, depth, fl)|
    ensures |data| == x + |XmlChunk(xml)| && IdAt(data, 12) == FMT && IdAt(data, d) == DATA
    ensures HoldsPayload(data, 12, FormatPayload(|samples|, rate, depth))
    ensures HoldsPayload(data, d, SampleData(samples, n, depth, fl))
    ensures xml != [] ==> IdAt(data, x) == IXML && HoldsPayload(data, x, xml)
  {
    hide ChunkSize, IdAt, FormatPayload, Chunk, WaveBytes, Body, SampleData;
    WaveHead(samples, n, rate, depth, xml, fl, data);
    var head := WaveParts(samples, n, rate, depth, xml, fl, data);
    WavePlaces(data, head, FormatPayload(|samples|, rate, depth), SampleData(samples, n, depth, fl), xml, d, x);
  }

  /** A written file is a list of two or three chunks, each found where it is. */
  lemma WrittenChunks(samples: seq<seq<nat>>, n: nat, rate: nat, depth: int, xml: Str, fl: Floats, data: Str, d: nat,
                      x: nat)
    requires FileFits(samples, rate, depth, xml, fl) && n == NumSamples(samples) && Depth(depth)
    requires data == WaveBytes(samples, n, rate, depth, xml, fl)
    requires d == (if depth == 32 then 38 else 36) && x == d + 8 + |SampleData(samples, n, depth, fl)|
    ensures ChunkList(data, 12)
    ensures FirstWithId(data, ChunkStarts(data, 12), FMT) == 12
    ensures FirstWithId(data, ChunkStarts(data, 12), DATA) == d
    ensures FirstWithId(data, ChunkStarts(data, 12), IXML) == if xml == [] then -1 else x
  {
    hide ChunkSize, IdAt, ChunkList, ChunkStarts, FirstWithId, FormatPayload, WaveBytes, Body, SampleData, FileFits,
      Int32;
    WrittenPlaces(samples, n, rate, depth, xml, fl, data, d, x);
    WaveChunks(data, d, x, xml);
    ChunksFound(data, xml, d, x);
  }

  /** The reader accepts it, with the header it was given. */
  lemma WrittenIsReadable(samples: seq<seq<nat>>, n: nat, rate: nat, depth: int, xml: Str, fl: Floats, data: Str)
    requires FileFits(samples, rate, depth, xml, fl) && n == NumSamples(samples) && Depth(depth)
    requires 1 <= |samples| <= 128 && data == WaveBytes(samples, n, rate, depth, xml, fl)
    ensures WellFormedFile(data) && Readable(data) && FirstWithId(data, ChunkStarts(data, 12), FMT) == 12
    ensures ReadFormat(data, 12) == Format(AudioFormat(depth), |samples|, rate, BytesPerSecond(|samples|, rate, depth),
                                           |samples| * (depth / 8), depth)
  {
    hide ChunkSize, IdAt, ChunkList, ChunkStarts, FirstWithId, FormatPayload, ReadFormat, WaveBytes, Body, SampleData,
      BytesPerSecond, Supported, FileFits, DivTrunc;
    RateFits(samples, rate, depth, xml, fl);
    var d := if depth == 32 then 38 else 36;
    var x := d + 8 + |SampleData(samples, n, depth, fl)|;
    WrittenPlaces(samples, n, rate, depth, xml, fl, data, d, x);
    WrittenChunks(samples, n, rate, depth, xml, fl, data, d, x);
    WaveHead(samples, n, rate, depth, xml, fl, data);
    FormatReads(data, 12, |samples|, rate, depth);
    WrittenIsSupported(|samples|, rate, depth);
  }

  lemma RateFits(samples: seq<seq<nat>>, rate: nat, depth: int, xml: Str, fl: Floats)
    requires FileFits(samples, rate, depth, xml, fl)
    ensures rate < 0x1_0000_0000 && Rectangular(samples, NumSamples(samples))
  {
  }

  /** The chunk at `i` has exactly this payload. */
  predicate HoldsPayload(data: Str, i: nat, payload: Str) {
    i + 8 + |payload| <= |data| && ChunkSize(data, i) == |payload| && data[i + 8..i + 8 + |payload|] == payload
  }

  lemma WrittenIsSupported(channels: nat, rate: nat, depth: int)
    requires 1 <= channels <= 128 && Depth(depth)
    ensures Supported(Format(AudioFormat(depth), channels, rate, BytesPerSecond(channels, rate, depth),
                             channels * (depth / 8), depth))
  {
  }

  lemma NoFrames(samples: seq<seq<nat>>, n: nat, depth: int, fl: Floats)
    requires Depth(depth) && Rectangular(samples, n)
    ensures SampleData(samples, n, depth, fl) == Frames(samples, n, depth, fl)
  {
  }

  lemma WaveHead(samples: seq<seq<nat>>, n: nat, rate: nat, depth: int, xml: Str, fl: Floats, data: Str)
    requires Rectangular(samples, n) && Depth(depth) && data == WaveBytes(samples, n, rate, depth, xml, fl)
    ensures |data| == 12 + |Body(samples, n, rate, depth, xml, fl)| && data[..4] == RIFF && data[8..12] == WAVE
  {
    hide Body, Int32;
  }

  lemma WaveParts(samples: seq<seq<nat>>, n: nat, rate: nat, depth: int, xml: Str, fl: Floats, data: Str)
    returns (head: Str)
    requires Rectangular(samples, n) && Depth(depth) && data == WaveBytes(samples, n, rate, depth, xml, fl)
    ensures |head| == 12
    ensures data == head + Chunk(FMT, FormatPayload(|samples|, rate, depth))
                    + Chunk(DATA, SampleData(samples, n, depth, fl)) + XmlChunk(xml)
  {
    hide Chunk, FormatPayload, SampleData, XmlChunk, Int32;
    var a, b, c := Chunk(FMT, FormatPayload(|samples|, rate, depth)), Chunk(DATA, SampleData(samples, n, depth, fl)),
      XmlChunk(xml);
    head := RIFF + Int32(4 + |Body(samples, n, rate, depth, xml, fl)|) + WAVE;
    assert data == head + (a + b + c);
    assert head + (a + b + c) == head + a + b + c;
  }

  lemma IndexIs(start: nat, b: nat, i: nat, c: nat, w: nat)
    ensures SampleIndex(start, b, i, c, w) == start + (i * b + c * w)
  {
    assert b * i == i * b;
  }

  /** The bytes of one sample inside the file. */
  lemma SampleInPlace(data: Str, start: nat, samples: seq<seq<nat>>, n: nat, depth: int, fl: Floats, c: nat, i: nat,
                      w: nat, b: nat, p: nat)
    requires Depth(depth) && Rectangular(samples, n) && c < |samples| && i < n
    requires w == depth / 8 && b == |samples| * w && p == i * b + c * w
    requires start + |Frames(samples, n, depth, fl)| <= |data|
    requires data[start..start + |Frames(samples, n, depth, fl)|] == Frames(samples, n, depth, fl)
    ensures start + p + w <= |data| && data[start + p..start + p + w] == SampleBytes(depth, samples[c][i], fl)
  {
    hide Frames, SampleBytes;
    FramesAt(samples, n, depth, fl, i, c, w, b, p);
    SliceOfSlice(data, start, |Frames(samples, n, depth, fl)|, p, w);
  }

  /** What the reading loops put in a channel, at the place the writing loops put its bytes. */
  lemma SampleFound(data: Str, start: nat, n: nat, fl: Floats, h: Format, c: nat, i: nat, channel: seq<nat>, w: nat,
                    p: nat)
    requires Supported(h) && c < h.channels && i < n == |channel| && w == h.depth / 8
    requires p == i * h.bytesPerBlock + c * w && start + n * h.bytesPerBlock <= |data|
    requires ChannelRead(channel, n, data, start, h, c, fl)
    ensures start + p + w <= |data| && channel[i] == SampleAt(data, start + p, h.depth, h.audioFormat, fl)
  {
    hide SampleAt, SampleIndex, Supported;
    BlockSize(h);
    assert SampleRead(channel, data, start, h, i, n, c, fl);
    IndexIs(start, h.bytesPerBlock, i, c, w);
    IndexOfRead(start, n, h, c, i, w, h.bytesPerBlock);
  }

  lemma IndexOfRead(start: nat, n: nat, h: Format, c: nat, i: nat, w: nat, b: nat)
    requires Supported(h) && c < h.channels && i < n && w == h.depth / 8 && b == h.bytesPerBlock
    ensures SampleIndex(start, b, i, c, w) + w <= start + n * b
  {
    BlockSize(h);
    IndexInside(start, h.bytesPerBlock, n, i, h.channels, c, w);
  }

  /** One sample, written and read. */
  lemma SampleSurvives(data: Str, start: nat, samples: seq<seq<nat>>, n: nat, depth: int, fl: Floats, h: Format,
                       c: nat, i: nat, channel: seq<nat>, w: nat, p: nat)
    requires Depth(depth) && Rectangular(samples, n) && c < |samples| && i < n == |channel|
    requires Supported(h) && h.depth == depth && h.channels == |samples| && h.audioFormat == AudioFormat(depth)
    requires start + n * h.bytesPerBlock <= |data|
    requires start + |Frames(samples, n, depth, fl)| <= |data|
    requires data[start..start + |Frames(samples, n, depth, fl)|] == Frames(samples, n, depth, fl)
    requires ChannelRead(channel, n, data, start, h, c, fl)
    requires h.bytesPerBlock == |samples| * w && w == depth / 8 && p == i * h.bytesPerBlock + c * w
    ensures channel[i] == Reread(depth, samples[c][i], fl)
  {
    hide SampleAt, Frames, SampleBytes, Reread, ChannelRead, Supported;
    SampleInPlace(data, start, samples, n, depth, fl, c, i, w, h.bytesPerBlock, p);
    SampleFound(data, start, n, fl, h, c, i, channel, w, p);
    SampleReads(data, start + p, depth, samples[c][i], h.audioFormat, fl);
  }

  /** A channel as it comes back: the same length, each sample reread. */
  predicate SurvivingChannel(written: seq<nat>, read: seq<nat>, depth: int, fl: Floats)
    requires Depth(depth)
  {
    |read| == |written| && forall i :: 0 <= i < |written| ==> read[i] == Reread(depth, written[i], fl)
  }

  /** Decoding the bytes written for these fields restores them, but for the quantization of the samples. */
  method DecodeWritten(data: Str, b: AudioFile, ghost samples: seq<seq<nat>>, ghost rate: nat, ghost depth: int,
                       ghost xml: Str)
    requires FileFits(samples, rate, depth, xml, b.fl) && Depth(depth) && 1 <= |samples| <= 128
    requires data == WaveBytes(samples, NumSamples(samples), rate, depth, xml, b.fl)
    requires WellFormedFile(data)
    modifies b`samples, b`iXMLChunk, b`sampleRate, b`bitDepth
    ensures b.sampleRate == rate && b.bitDepth == depth && |b.samples| == |samples|
    ensures b.iXMLChunk == if xml == [] then old(b.iXMLChunk) else xml
    ensures forall c :: 0 <= c < |samples| ==> SurvivingChannel(samples[c], b.samples[c], depth, b.fl)
  {
    hide Frames, Reread, ChunkList, ChunkStarts, FirstWithId, ChunkSize, ReadFormat, Supported, WaveBytes, Body,
      ChannelRead;
    ghost var n := NumSamples(samples);
    ghost var d := if depth == 32 then 38 else 36;
    WrittenIsReadable(samples, n, rate, depth, xml, b.fl, data);
    ghost var x := d + 8 + |SampleData(samples, n, depth, b.fl)|;
    WrittenPlaces(samples, n, rate, depth, xml, b.fl, data, d, x);
    WrittenChunks(samples, n, rate, depth, xml, b.fl, data, d, x);
    var ok := b.DecodeWaveFile(data);
    DecodedSurvives(b, data, samples, n, rate, depth, xml);
  }

  lemma DecodedSurvives(b: AudioFile, data: Str, samples: seq<seq<nat>>, n: nat, rate: nat, depth: int, xml: Str)
    requires FileFits(samples, rate, depth, xml, b.fl) && Depth(depth) && 1 <= |samples| <= 128
    requires n == NumSamples(samples) && data == WaveBytes(samples, n, rate, depth, xml, b.fl)
    requires WellFormedFile(data) && Readable(data) && b.DecodedFrom(data)
    ensures b.sampleRate == rate && b.bitDepth == depth && |b.samples| == |samples|
    ensures forall c :: 0 <= c < |samples| ==> SurvivingChannel(samples[c], b.samples[c], depth, b.fl)
  {
    hide Frames, Reread, ChunkList, ChunkStarts, FirstWithId, ChunkSize, ReadFormat, WaveBytes, Body,
      ChannelRead, BytesPerSecond;
    WrittenIsReadable(samples, n, rate, depth, xml, b.fl, data);
    var h := ReadFormat(data, 12);
    var d := if depth == 32 then 38 else 36;
    var x := d + 8 + |SampleData(samples, n, depth, b.fl)|;
    WrittenPlaces(samples, n, rate, depth, xml, b.fl, data, d, x);
    WrittenChunks(samples, n, rate, depth, xml, b.fl, data, d, x);
    NoFrames(samples, n, depth, b.fl);
    BlockSize(h);
    FrameCount(samples, n, depth, b.fl, h.bytesPerBlock);
    forall c | 0 <= c < |samples|
      ensures SurvivingChannel(samples[c], b.samples[c], depth, b.fl)
    {
      forall i | 0 <= i < n
        ensures b.samples[c][i] == Reread(depth, samples[c][i], b.fl)
      {
        SampleOffset(h, c, i);
        SampleSurvives(data, d + 8, samples, n, depth, b.fl, h, c, i, b.samples[c], depth / 8,
                       i * h.bytesPerBlock + c * (depth / 8));
      }
    }
  }

  lemma SampleOffset(h: Format, c: nat, i: nat)
    requires Supported(h)
    ensures i * h.bytesPerBlock + c * (h.depth / 8) >= 0
  {
    BlockSize(h);
    assert i * h.bytesPerBlock >= 0 && c * (h.depth / 8) >= 0;
  }

  lemma FrameCount(samples: seq<seq<nat>>, n: nat, depth: int, fl: Floats, b: nat)
    requires Depth(depth) && Rectangular(samples, n) && b == |samples| * (depth / 8) && b > 0
    ensures |Frames(samples, n, depth, fl)| == n * b && n * b / b == n
  {
    hide Frames;
    DivisionCancels(n, b);
  }

  lemma DivisionCancels(n: int, b: int)
    requires b > 0
    ensures n * b / b == n
  {
    var q, r := n * b / b, n * b % b;
    assert b * (n - q) == r;
    assert n - q >= 1 ==> b * (n - q) >= b;
    assert n - q <= -1 ==> b * (n - q) <= -b;
  }

  /** Saved, then decoded into another object. */
  method SaveThenDecode(a: AudioFile, b: AudioFile) returns (data: Str)
    requires a != b && a.fl == b.fl && Depth(a.bitDepth) && 1 <= |a.samples| <= 128
    requires FileFits(a.samples, a.sampleRate, a.bitDepth, a.iXMLChunk, a.fl)
    requires a.bitDepth == 24 ==> CodesFit(a.samples, a.fl)
    modifies b`samples, b`iXMLChunk, b`sampleRate, b`bitDepth
    ensures b.sampleRate == a.sampleRate && b.bitDepth == a.bitDepth && |b.samples| == |a.samples|
    ensures b.iXMLChunk == if a.iXMLChunk == [] then old(b.iXMLChunk) else a.iXMLChunk
    ensures forall c :: 0 <= c < |a.samples| ==> SurvivingChannel(a.samples[c], b.samples[c], a.bitDepth, a.fl)
  {
    hide SurvivingChannel, WellFormedFile, WaveBytes, Body, Readable;
    var saved;
    saved, data := a.SaveToWaveFile();
    WrittenIsReadable(a.samples, NumSamples(a.samples), a.sampleRate, a.bitDepth, a.iXMLChunk, a.fl, data);
    DecodeWritten(data, b, a.samples, a.sampleRate, a.bitDepth, a.iXMLChunk);
  }

  /** In range, no sample moves by as much as the tolerance of its depth, and 32-bit patterns are untouched. */
  lemma SurvivorsAreNear(written: seq<nat>, read: seq<nat>, depth: int, fl: Floats)
    requires Depth(depth) && FloatsOk(fl) && SurvivingChannel(written, read, depth, fl)
    requires forall i :: 0 <= i < |written| ==> written[i] < 0x1_0000_0000
    requires forall i :: 0 <= i < |written| ==>
               -1.0 <= fl.value(written[i]) <= 1.0 && (depth == 24 ==> fl.value(written[i]) < 1.0)
    ensures forall i :: 0 <= i < |written| ==> Near(fl.value(written[i]), fl.value(read[i]), Tolerance(depth))
    ensures depth == 32 ==> read == written
  {
    hide Reread, Near, Tolerance;
    forall i | 0 <= i < |written|
      ensures Near(fl.value(written[i]), fl.value(read[i]), Tolerance(depth)) && (depth == 32 ==> read[i] == written[i])
    {
      RereadIsNear(depth, written[i], fl);
    }
  }

  // ---- `ExportWAV` ----

  /** The plugin's call sequence: one channel of 32-bit floats. */
  method ExportWAV(samples: seq<nat>, rate: nat, fl: Floats) returns (ok: bool, data: Str)
    requires FileFits([samples], rate, 32, [], fl)
    ensures ok && data == WaveBytes([samples], |samples|, rate, 32, [], fl)
  {
    hide WaveBytes, Body;
    var buffer := [samples];
    var file := new AudioFile(fl);
    var _ := file.SetAudioBuffer(buffer);
    file.SetAudioBufferSize(1, |samples|);
    assert file.samples[0] == samples;
    file.SetNumSamplesPerChannel(|samples|);
    assert file.samples[0] == samples;
    file.SetNumChannels(1);
    assert file.samples == [samples];
    file.SetBitDepth(32);
    file.SetSampleRate(rate);
    ok, data := file.SaveToWaveFile();
  }

  /** What the plugin exports, any reader with this decoder gets back bit for bit. */
  method ExportThenDecode(samples: seq<nat>, rate: nat, b: AudioFile) returns (data: Str)
    requires FileFits([samples], rate, 32, [], b.fl)
    requires forall i :: 0 <= i < |samples| ==> samples[i] < 0x1_0000_0000
    modifies b`samples, b`iXMLChunk, b`sampleRate, b`bitDepth
    ensures b.samples == [samples] && b.sampleRate == rate && b.bitDepth == 32
  {
    hide WellFormedFile, WaveBytes, Body, Readable, FileFits, SurvivingChannel, ReadFormat, ChunkStarts, FirstWithId,
      HoldsPayload, Frames, ChunkList;
    var ok;
    ok, data := ExportWAV(samples, rate, b.fl);
    WrittenIsReadable([samples], |samples|, rate, 32, [], b.fl, data);
    DecodeWritten(data, b, [samples], rate, 32, []);
    PatternsSurvive(samples, b.samples[0], b.fl);
    assert b.samples == [b.samples[0]];
  }

  lemma PatternsSurvive(written: seq<nat>, read: seq<nat>, fl: Floats)
    requires SurvivingChannel(written, read, 32, fl) && forall i :: 0 <= i < |written| ==> written[i] < 0x1_0000_0000
    ensures read == written
  {
  }
}
