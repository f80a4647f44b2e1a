/** `ADPCMEncoder`: the 60-byte IMA ADPCM WAV header, the block-count check
    of `writeToWav`, and the encoding of one 1017-sample block into 512
    bytes. */
module AdpcmEncoder {
  import opened Bytes
  import opened AdpcmCodec

  const HEADER_BYTES: int := 60

  // ---- WAV header (ADPCMEncoder.java:102-152)

  /** Blocks needed for `samples` samples: `(samples + 1016) / 1017` in
      Java `int` arithmetic. */
  function BlockCount(samples: int): (blocks: int)
    ensures 0 <= samples <= 0x7fff_ffff - (BLOCK_SAMPLES - 1) ==>
      (blocks - 1) * BLOCK_SAMPLES < samples <= blocks * BLOCK_SAMPLES
  {
    JavaDiv(Wrap32(samples + (BLOCK_SAMPLES - 1)), BLOCK_SAMPLES)
  }

  /** The header `writeWavHeader` writes for `samples` samples, and the
      block count it returns. */
  function WavHeader(samples: int): (r: (seq<byte>, int))
    ensures |r.0| == HEADER_BYTES
    ensures r.1 == BlockCount(samples)
  {
    var blocks := BlockCount(samples);
    var bytes := Wrap32(blocks * BLOCK_BYTES);
    (RiffChunk(bytes) + FmtChunk() + FactChunk(samples) + DataChunkStart(bytes), blocks)
  }

  /** `RIFF`, the size of everything after it (52 + data bytes), `WAVE`. */
  function RiffChunk(bytes: int): (r: seq<byte>)
    ensures |r| == 12
  {
    Ascii("RIFF") + Le32(Wrap32(52 + bytes)) + Ascii("WAVE")
  }

  /** The `fmt ` chunk: length 20, format tag 17 (IMA ADPCM), 1 channel,
      16000 Hz, average bytes per second, block align 512, 4 bits per
      sample, 2 extra bytes holding the samples per block. */
  function FmtChunk(): (r: seq<byte>)
    ensures |r| == 28
  {
    Ascii("fmt ") + Le32(20) + Le16(17) + Le16(1) + Le32(SAMPLE_RATE)
    + Le32((SAMPLE_RATE * BLOCK_BYTES + BLOCK_SAMPLES / 2) / BLOCK_SAMPLES)
    + Le16(BLOCK_BYTES) + Le16(4) + Le16(2) + Le16(BLOCK_SAMPLES)
  }

  /** The `fact` chunk: length 4 and the number of samples. */
  function FactChunk(samples: int): (r: seq<byte>)
    ensures |r| == 12
  {
    Ascii("fact") + Le32(4) + Le32(samples)
  }

  /** `data` and the length of the data that follows. */
  function DataChunkStart(bytes: int): (r: seq<byte>)
    ensures |r| == 8
  {
    Ascii("data") + Le32(bytes)
  }

  /** Samples counts for which no `int` overflows in `writeWavHeader`. */
  predicate HeaderSamplesInRange(samples: int) {
    0 <= samples <= 0x7fff_ffff - (BLOCK_SAMPLES - 1)
  }

  lemma WavHeaderParts(samples: int)
    ensures var h := WavHeader(samples).0;
      var bytes := Wrap32(BlockCount(samples) * BLOCK_BYTES);
      && h[0..12] == RiffChunk(bytes) && h[12..40] == FmtChunk()
      && h[40..52] == FactChunk(samples) && h[52..60] == DataChunkStart(bytes)
  {
  }

  /** The `fmt ` chunk opens with its name, its length 20, the format tag
      17 (IMA ADPCM) and one channel. */
  lemma FmtChunkKind()
    ensures var f := FmtChunk();
      && f[0..4] == Ascii("fmt ")
      && LeValue(f[4..8]) == 20
      && f[8] == 17 && LeValue(f[8..10]) == 17
      && LeValue(f[10..12]) == 1
  {
    var f := FmtChunk();
    assert f[4..8] == Le32(20);
    Le32Value(20);
    assert f[8..10] == Le16(17);
    Le16Value(17);
    assert f[10..12] == Le16(1);
    Le16Value(1);
  }

  /** The `fmt ` chunk's rates: 16000 samples and 8055 bytes per second,
      blocks of 512 bytes. */
  lemma FmtChunkRates()
    ensures var f := FmtChunk();
      && LeValue(f[12..16]) == 16000
      && LeValue(f[16..20]) == 8055
      && LeValue(f[20..22]) == 512
  {
    var f := FmtChunk();
    assert f[12..16] == Le32(16000);
    Le32Value(16000);
    assert f[16..20] == Le32(8055);
    Le32Value(8055);
    assert f[20..22] == Le16(512);
    Le16Value(512);
  }

  /** The `fmt ` chunk's coding: 4 bits per sample and 2 extra bytes
      holding 1017 samples per block. */
  lemma FmtChunkCoding()
    ensures var f := FmtChunk();
      && LeValue(f[22..24]) == 4
      && LeValue(f[24..26]) == 2
      && LeValue(f[26..28]) == 1017
  {
    var f := FmtChunk();
    assert f[22..24] == Le16(4);
    Le16Value(4);
    assert f[24..26] == Le16(2);
    Le16Value(2);
    assert f[26..28] == Le16(1017);
    Le16Value(1017);
  }

  /** Byte 20 of every header is the format tag 17, the byte the decoder
      checks. */
  lemma WavHeaderTag(samples: int)
    ensures WavHeader(samples).0[20] == 17
  {
    WavHeaderParts(samples);
    FmtChunkKind();
    assert WavHeader(samples).0[20] == WavHeader(samples).0[12..40][8];
  }

  /** The RIFF chunk names the file type and records 52 + data bytes. */
  lemma RiffChunkFields(bytes: int)
    requires 0 <= bytes <= 0x7fff_0000
    ensures var c := RiffChunk(bytes);
      c[0..4] == Ascii("RIFF") && c[8..12] == Ascii("WAVE") && LeValue(c[4..8]) == 52 + bytes
  {
    var c := RiffChunk(bytes);
    assert Wrap32(52 + bytes) == 52 + bytes;
    assert c[4..8] == Le32(52 + bytes);
    Le32Value(52 + bytes);
  }

  /** The `fact` chunk records the sample count. */
  lemma FactChunkFields(samples: int)
    requires 0 <= samples < 0x8000_0000
    ensures var c := FactChunk(samples);
      c[0..4] == Ascii("fact") && LeValue(c[4..8]) == 4 && LeValue(c[8..12]) == samples
  {
    assert FactChunk(samples)[4..8] == Le32(4);
    Le32Value(4);
    assert FactChunk(samples)[8..12] == Le32(samples);
    Le32Value(samples);
  }

  /** The `data` chunk start records the data length. */
  lemma DataChunkFields(bytes: int)
    requires 0 <= bytes < 0x8000_0000
    ensures var c := DataChunkStart(bytes);
      c[0..4] == Ascii("data") && LeValue(c[4..8]) == bytes
  {
    assert DataChunkStart(bytes)[4..8] == Le32(bytes);
    Le32Value(bytes);
  }

  /** For sample counts in range the data size needs no wrap-around. */
  lemma DataBytesInRange(samples: int)
    requires HeaderSamplesInRange(samples)
    ensures var bytes := BlockCount(samples) * BLOCK_BYTES;
      0 <= bytes <= 0x7fff_0000 && Wrap32(bytes) == bytes
  {
    var blocks := BlockCount(samples);
    assert 0 <= blocks <= 2111589;
  }

  /** `writeWavHeader` records a RIFF size of 52 + blocks * 512 bytes. */
  lemma WavHeaderRiffSize(samples: int)
    requires HeaderSamplesInRange(samples)
    ensures LeValue(WavHeader(samples).0[4..8]) == 52 + BlockCount(samples) * BLOCK_BYTES
  {
    var bytes := BlockCount(samples) * BLOCK_BYTES;
    DataBytesInRange(samples);
    WavHeaderParts(samples);
    RiffChunkFields(bytes);
    assert WavHeader(samples).0[4..8] == WavHeader(samples).0[0..12][4..8];
  }

  /** `writeWavHeader` records the sample count in the `fact` chunk. */
  lemma WavHeaderSampleCount(samples: int)
    requires HeaderSamplesInRange(samples)
    ensures LeValue(WavHeader(samples).0[48..52]) == samples
  {
    WavHeaderParts(samples);
    FactChunkFields(samples);
    assert WavHeader(samples).0[48..52] == WavHeader(samples).0[40..52][8..12];
  }

  /** `writeWavHeader` records a data size of blocks * 512 bytes. */
  lemma WavHeaderDataSize(samples: int)
    requires HeaderSamplesInRange(samples)
    ensures LeValue(WavHeader(samples).0[56..60]) == BlockCount(samples) * BLOCK_BYTES
  {
    var bytes := BlockCount(samples) * BLOCK_BYTES;
    DataBytesInRange(samples);
    WavHeaderParts(samples);
    DataChunkFields(bytes);
    assert WavHeader(samples).0[56..60] == WavHeader(samples).0[52..60][4..8];
  }

  /** 2034 samples make 2 blocks, 1024 data bytes and a RIFF size of 1076. */
  lemma WavHeaderExample()
    ensures var (h, blocks) := WavHeader(2034);
      blocks == 2 && LeValue(h[56..60]) == 1024 && LeValue(h[4..8]) == 1076
  {
    assert Wrap32(2034 + 1016) == 3050;
    assert BlockCount(2034) == 2;
    WavHeaderRiffSize(2034);
    WavHeaderDataSize(2034);
  }

  /** `writeToWav` asks for `n * 1017` samples and gets back `n` blocks, so
      its consistency check never fires. */
  lemma WholeBlocksCount(n: nat)
    requires HeaderSamplesInRange(n * BLOCK_SAMPLES)
    ensures BlockCount(n * BLOCK_SAMPLES) == n
  {
    var b := BlockCount(n * BLOCK_SAMPLES);
    assert (b - 1) * BLOCK_SAMPLES < n * BLOCK_SAMPLES <= b * BLOCK_SAMPLES;
  }

  // ---- Writing a file of encoded blocks (ADPCMEncoder.java:48-65)

  /** One encoded block and the extreme sample values seen while encoding
      it (`ADPCMEncoder.Block`). */
  datatype Block = Block(data: seq<byte>, maxLevel: int, minLevel: int)

  function ConcatData(blocks: seq<Block>): (r: seq<byte>)
    ensures (forall i :: 0 <= i < |blocks| ==> |blocks[i].data| == BLOCK_BYTES) ==>
      |r| == BLOCK_BYTES * |blocks|
  {
    if blocks == [] then [] else ConcatData(blocks[..|blocks| - 1]) + blocks[|blocks| - 1].data
  }

  /** The bytes `writeToWav` writes: the header for `|encoded| * 1017`
      samples, then each block's data in order; the `Error("Ooops")` when
      the header's block count disagrees. */
  function WavFile(encoded: seq<Block>): (r: Result<seq<byte>>)
    ensures r.Ok? ==> |r.value| >= HEADER_BYTES && r.value[..HEADER_BYTES] == WavHeader(Wrap32(|encoded| * BLOCK_SAMPLES)).0
  {
    var (header, blocks) := WavHeader(Wrap32(|encoded| * BLOCK_SAMPLES));
    if blocks != |encoded| then Err(InternalError("Ooops"))
    else Ok(header + ConcatData(encoded))
  }

  /** The consistency check of `writeToWav` never fires: a file of whole
      blocks is a header followed by exactly the blocks' bytes, and with
      512-byte blocks it is 60 + 512n bytes long. */
  lemma WavFileOfBlocks(encoded: seq<Block>)
    requires HeaderSamplesInRange(|encoded| * BLOCK_SAMPLES)
    ensures WavFile(encoded).Ok?
    ensures WavFile(encoded).value[HEADER_BYTES..] == ConcatData(encoded)
    ensures (forall i :: 0 <= i < |encoded| ==> |encoded[i].data| == BLOCK_BYTES) ==>
      |WavFile(encoded).value| == HEADER_BYTES + BLOCK_BYTES * |encoded|
  {
    WholeBlocksCount(|encoded|);
  }

  // ---- Encoding one block (ADPCMEncoder.java:188-303)

  /** Nibbles packed two to a byte, the first of each pair in the low half
      (`adpcm[outPos] = delta & 0xf`, then `|= (delta & 0xf) << 4`). */
  function Pack(codes: seq<int>): (r: seq<byte>)
    requires Nibbles(codes) && |codes| % 2 == 0
    ensures |r| == |codes| / 2
  {
    seq(|codes| / 2, k requires 0 <= k < |codes| / 2 => codes[2 * k] + 16 * codes[2 * k + 1])
  }

  /** Where the next nibble goes: before the end of the block while samples
      remain, and exactly at the end once all of them are encoded. */
  lemma NibbleSlot(n: int, outPos: int, highNibble: bool)
    requires 1 <= n <= BLOCK_SAMPLES && 4 <= outPos
    requires n - 1 == 2 * (outPos - 4) + (if highNibble then 1 else 0)
    ensures n < BLOCK_SAMPLES ==> outPos < BLOCK_BYTES
    ensures n == BLOCK_SAMPLES ==> outPos == BLOCK_BYTES && !highNibble
  {
  }

  /** Bytes that hold the codes two by two, low half first, are their
      packing. */
  lemma PackOfBytes(bytes: seq<byte>, codes: seq<int>)
    requires Nibbles(codes) && |codes| == 2 * |bytes|
    requires forall k :: 0 <= k < |bytes| ==> bytes[k] == codes[2 * k] + 16 * codes[2 * k + 1]
    ensures bytes == Pack(codes)
  {
  }

  /** The first index whose step size exceeds `difference`, from `from` on;
      the table length when there is none. */
  function FirstAbove(steps: seq<int>, difference: int, from: nat): (k: nat)
    requires from <= |steps|
    ensures from <= k <= |steps|
    ensures k < |steps| ==> steps[k] > difference
    ensures forall j :: from <= j < k ==> steps[j] <= difference
    decreases |steps| - from
  {
    if from == |steps| then from
    else if steps[from] > difference then from
    else FirstAbove(steps, difference, from + 1)
  }

  /** The initial step index: one below the first step size greater than
      the first difference, but not below 0. */
  function InitialIndex(t: Tables, difference: int): (index: int)
    requires ValidTables(t)
    ensures 0 <= index < |t.stepSize|
  {
    var k := FirstAbove(t.stepSize, difference, 0);
    if k > 0 then k - 1 else 0
  }

  /** The initial index picks the closest step size from below: the largest
      index whose step size does not exceed the difference, or 0 when even
      the smallest exceeds it. */
  lemma InitialIndexIsClosest(t: Tables, difference: int)
    requires ValidTables(t)
    ensures var index := InitialIndex(t, difference);
      && (index == 0 || t.stepSize[index] <= difference)
      && (forall j :: index < j < |t.stepSize| ==> t.stepSize[j] > difference)
  {
  }

  /** The search loop of `encodeBlock` for the initial step index. */
  method InitialStepIndex(t: Tables, difference: int) returns (stepIndex: int)
    requires ValidTables(t)
    ensures stepIndex == InitialIndex(t, difference)
  {
    stepIndex := 0;
    while stepIndex < |t.stepSize|
      invariant 0 <= stepIndex <= |t.stepSize|
      invariant FirstAbove(t.stepSize, difference, stepIndex) == FirstAbove(t.stepSize, difference, 0)
    {
      if t.stepSize[stepIndex] > difference {
        break;
      }
      stepIndex := stepIndex + 1;
    }
    if stepIndex > 0 {
      stepIndex := stepIndex - 1;
    }
  }

  function SeqMax(xs: seq<int>): (m: int)
    requires xs != []
    ensures m in xs && forall i :: 0 <= i < |xs| ==> xs[i] <= m
  {
    if |xs| == 1 then xs[0] else Max(SeqMax(xs[..|xs| - 1]), xs[|xs| - 1])
  }

  function SeqMin(xs: seq<int>): (m: int)
    requires xs != []
    ensures m in xs && forall i :: 0 <= i < |xs| ==> m <= xs[i]
  {
    if |xs| == 1 then xs[0] else Min(SeqMin(xs[..|xs| - 1]), xs[|xs| - 1])
  }

  lemma SeqMaxMinExtend(xs: seq<int>, n: nat)
    requires 1 <= n < |xs|
    ensures SeqMax(xs[..n + 1]) == Max(SeqMax(xs[..n]), xs[n])
    ensures SeqMin(xs[..n + 1]) == Min(SeqMin(xs[..n]), xs[n])
  {
    assert xs[..n + 1][..n] == xs[..n];
  }

  /** Input shorter than a block is zero-padded to 2034 bytes. */
  function PadBlock(input: seq<byte>): (r: seq<byte>)
    requires |input| <= PCM_BLOCK_BYTES
    ensures |r| == PCM_BLOCK_BYTES && r[..|input|] == input
    ensures forall i :: |input| <= i < PCM_BLOCK_BYTES ==> r[i] == 0
  {
    if |input| < PCM_BLOCK_BYTES then input + Zeros(PCM_BLOCK_BYTES - |input|) else input
  }

  /** The state the encoder starts from: the first sample, and the initial
      index chosen from the difference to the second. */
  function StartState(t: Tables, xs: seq<int>): (s: CodecState)
    requires ValidTables(t) && |xs| >= 2 && InInt16(xs[0])
    ensures ValidState(t, s) && s.predictor == xs[0]
  {
    CodecState(xs[0], InitialIndex(t, Abs(xs[1] - xs[0])))
  }

  /** The block `encodeBlock` produces for exactly 2034 bytes of PCM. */
  function EncodeFull(t: Tables, pcm: seq<byte>): (b: Block)
    requires ValidTables(t) && |pcm| == PCM_BLOCK_BYTES
  {
    var xs := Samples(pcm);
    assert |xs| == BLOCK_SAMPLES;
    var s0 := StartState(t, xs);
    var codes := EncCodes(t, s0, xs[1..]);
    EncCodesAreNibbles(t, s0, xs[1..]);
    assert |codes| == 1016;
    Block([pcm[0], pcm[1], s0.index, 0] + Pack(codes), SeqMax(xs), SeqMin(xs))
  }

  /** `encodeBlock` on `input` (the bytes `data[offset..offset+length]`). */
  function EncodeBlockResult(t: Tables, input: seq<byte>): (r: Result<Block>)
    requires ValidTables(t)
    ensures r.Err? <==> |input| > PCM_BLOCK_BYTES
  {
    if |input| > PCM_BLOCK_BYTES then Err(IllegalArgument("Cannot encode block larger than 1017 samples"))
    else Ok(EncodeFull(t, PadBlock(input)))
  }

  /** `encodeBlock`: pads short input, rejects long input, then writes the
      first sample verbatim, the initial step index and a blank byte, and
      encodes the remaining samples. */
  method EncodeBlock(t: Tables, input: seq<byte>) returns (r: Result<Block>)
    requires ValidTables(t)
    ensures r == EncodeBlockResult(t, input)
  {
    var data := input;
    if |input| < PCM_BLOCK_BYTES {
      data := input + Zeros(PCM_BLOCK_BYTES - |input|);
    } else if |input| > PCM_BLOCK_BYTES {
      return Err(IllegalArgument("Cannot encode block larger than 1017 samples"));
    }
    assert data == PadBlock(input);
    var b := EncodeFullBlock(t, data);
    r := Ok(b);
  }

  /** The start state read off the first two samples' bytes. */
  lemma StartStateOf(t: Tables, data: seq<byte>, s0: CodecState)
    requires ValidTables(t) && |data| == PCM_BLOCK_BYTES
    requires s0.predictor == Sample16(data[0], data[1])
    requires s0.index == InitialIndex(t, Abs(Sample16(data[2], data[3]) - s0.predictor))
    ensures s0 == StartState(t, Samples(data))
  {
    SampleAt(data, 0);
    SampleAt(data, 1);
  }

  /** The body of `encodeBlock` once the input is exactly one block. */
  method EncodeFullBlock(t: Tables, data: seq<byte>) returns (b: Block)
    requires ValidTables(t) && |data| == PCM_BLOCK_BYTES
    ensures b == EncodeFull(t, data)
  {
    var adpcm := new byte[BLOCK_BYTES];
    var maxLevel, minLevel;

    // Initial sample uncompressed
    var lastOutput := Sample16(data[0], data[1]);
    adpcm[0] := data[0];
    adpcm[1] := data[1];

    // Initial step index, from the difference to the next sample
    var nextSample := Sample16(data[2], data[3]);
    var stepIndex := InitialStepIndex(t, Abs(nextSample - lastOutput));
    adpcm[2] := stepIndex;
    adpcm[3] := 0;  // blank

    StartStateOf(t, data, CodecState(lastOutput, stepIndex));
    FirstFour(adpcm[..], data[0], data[1], stepIndex, 0);
    maxLevel, minLevel := EncodeSamples(t, data, adpcm, CodecState(lastOutput, stepIndex));
    b := Block(adpcm[..], maxLevel, minLevel);
  }

  lemma FirstFour(a: seq<byte>, b0: byte, b1: byte, b2: byte, b3: byte)
    requires |a| >= 4 && a[0] == b0 && a[1] == b1 && a[2] == b2 && a[3] == b3
    ensures a[..4] == [b0, b1, b2, b3]
  {
  }

  /** A block whose first four bytes are the first sample, the initial
      index and a blank, followed by packed codes, is `EncodeFull`. */
  lemma EncodeFullOf(t: Tables, data: seq<byte>, s0: CodecState, codes: seq<int>, b: Block)
    requires ValidTables(t) && |data| == PCM_BLOCK_BYTES && s0 == StartState(t, Samples(data))
    requires codes == EncCodes(t, s0, Samples(data)[1..]) && Nibbles(codes) && |codes| == BLOCK_SAMPLES - 1
    requires b == Block([data[0], data[1], s0.index, 0] + Pack(codes), SeqMax(Samples(data)), SeqMin(Samples(data)))
    ensures b == EncodeFull(t, data)
  {
  }

  /** The codes written so far into the block from byte 4 on: whole bytes
      before `outPos`, low half first, and the low half of the byte at
      `outPos` when `highNibble` says its high half is next. */
  ghost predicate NibblesWritten(a: seq<byte>, codes: seq<int>, outPos: int, highNibble: bool) {
    && 4 <= outPos <= |a|
    && |codes| == 2 * (outPos - 4) + (if highNibble then 1 else 0)
    && (highNibble ==> outPos < |a| && a[outPos] == codes[|codes| - 1])
    && (forall k :: 0 <= k < outPos - 4 ==> a[4 + k] == codes[2 * k] + 16 * codes[2 * k + 1])
  }

  /** One code into the block: the low half of a fresh byte, or the high
      half of the byte begun before (`adpcm[outPos++] |= delta << 4`). */
  method PutNibble(adpcm: array<byte>, outPos: int, highNibble: bool, ghost codes: seq<int>, delta: int)
    returns (nextPos: int, nextHigh: bool)
    requires NibblesWritten(adpcm[..], codes, outPos, highNibble) && Nibbles(codes)
    requires 0 <= delta < 16 && outPos < adpcm.Length
    modifies adpcm
    ensures NibblesWritten(adpcm[..], codes + [delta], nextPos, nextHigh)
    ensures adpcm[..4] == old(adpcm[..4])
  {
    if highNibble {
      adpcm[outPos] := adpcm[outPos] + 16 * delta;  // the high half was still empty
      nextPos, nextHigh := outPos + 1, false;
    } else {
      adpcm[outPos] := delta;
      nextPos, nextHigh := outPos, true;
    }
  }

  /** After the first `n` samples of `xs`: the codes emitted for samples
      1..n-1, the encoder state, and the extreme levels of samples 0..n-1. */
  ghost predicate Encoded(t: Tables, s0: CodecState, xs: seq<int>, n: int, codes: seq<int>,
                          s: CodecState, maxLevel: int, minLevel: int)
    requires ValidTables(t) && ValidState(t, s0)
  {
    && 1 <= n <= |xs|
    && codes == EncCodes(t, s0, xs[1..n]) && |codes| == n - 1 && Nibbles(codes)
    && s == EncState(t, s0, xs[1..n])
    && maxLevel == SeqMax(xs[..n]) && minLevel == SeqMin(xs[..n])
  }

  /** Before the loop: only the first sample, taken verbatim. */
  lemma EncodedStart(t: Tables, s0: CodecState, data: seq<byte>)
    requires ValidTables(t) && |data| == PCM_BLOCK_BYTES && s0 == StartState(t, Samples(data))
    ensures ValidState(t, s0) && s0.predictor == Sample16(data[0], data[1])
    ensures Encoded(t, s0, Samples(data), 1, [], s0, s0.predictor, s0.predictor)
  {
    var xs := Samples(data);
    SampleAt(data, 0);
    assert xs[1..1] == [] && xs[..1] == [xs[0]];
  }

  /** One more sample: its code, the encoder update, the new extremes. */
  lemma EncodedStep(t: Tables, s0: CodecState, xs: seq<int>, n: int, codes: seq<int>,
                    s: CodecState, maxLevel: int, minLevel: int)
    requires ValidTables(t) && ValidState(t, s0)
    requires Encoded(t, s0, xs, n, codes, s, maxLevel, minLevel) && n < |xs|
    ensures ValidState(t, s)
    ensures var delta := Quantize(t, s, xs[n]);
      Encoded(t, s0, xs, n + 1, codes + [delta], EncoderUpdate(t, s, delta),
              Max(maxLevel, xs[n]), Min(minLevel, xs[n]))
  {
    EncExtend(t, s0, xs, 1, n);
    SeqMaxMinExtend(xs, n);
    EncCodesAreNibbles(t, s0, xs[1..n + 1]);
  }

  /** Once every sample is in, the codes and extremes are those of `xs`. */
  lemma EncodedAll(t: Tables, s0: CodecState, xs: seq<int>, n: int, codes: seq<int>,
                   s: CodecState, maxLevel: int, minLevel: int)
    requires ValidTables(t) && ValidState(t, s0)
    requires Encoded(t, s0, xs, n, codes, s, maxLevel, minLevel) && n == |xs|
    ensures codes == EncCodes(t, s0, xs[1..]) && Nibbles(codes)
    ensures maxLevel == SeqMax(xs) && minLevel == SeqMin(xs)
  {
    assert xs[1..n] == xs[1..] && xs[..n] == xs;
  }

  /** A block holding all 1016 codes is its first four bytes and the codes
      packed. */
  lemma PackedBlock(a: seq<byte>, codes: seq<int>, outPos: int, highNibble: bool)
    requires NibblesWritten(a, codes, outPos, highNibble) && |a| == BLOCK_BYTES
    requires Nibbles(codes) && |codes| == BLOCK_SAMPLES - 1
    ensures a == a[..4] + Pack(codes)
  {
    NibbleSlot(|codes| + 1, outPos, highNibble);
    PackOfBytes(a[4..], codes);
    assert a == a[..4] + a[4..];
  }

  lemma EncodedBlock(t: Tables, s0: CodecState, data: seq<byte>, a: seq<byte>, n: int, codes: seq<int>,
                     s: CodecState, maxLevel: int, minLevel: int, outPos: int, highNibble: bool)
    requires ValidTables(t) && |data| == PCM_BLOCK_BYTES && s0 == StartState(t, Samples(data))
    requires Encoded(t, s0, Samples(data), n, codes, s, maxLevel, minLevel) && 2 * n >= PCM_BLOCK_BYTES
    requires NibblesWritten(a, codes, outPos, highNibble) && |a| == BLOCK_BYTES
    requires a[..4] == [data[0], data[1], s0.index, 0]
    ensures Block(a, maxLevel, minLevel) == EncodeFull(t, data)
  {
    EncodedAll(t, s0, Samples(data), n, codes, s, maxLevel, minLevel);
    PackedBlock(a, codes, outPos, highNibble);
    EncodeFullOf(t, data, s0, codes, Block(a, maxLevel, minLevel));
  }

  /** One pass of the sample loop of `encodeBlock`: the sample at byte
      `i`, its 4-bit code written as the next nibble, the encoder update
      and the new extremes. */
  method EncodeNext(t: Tables, data: seq<byte>, adpcm: array<byte>, ghost s0: CodecState,
                    i: int, s: CodecState, maxLevel: int, minLevel: int, outPos: int, highNibble: bool,
                    ghost n: int, ghost codes: seq<int>)
    returns (delta: int, next: CodecState, maxLevel': int, minLevel': int, outPos': int, highNibble': bool)
    requires ValidTables(t) && ValidState(t, s0) && |data| == PCM_BLOCK_BYTES
    requires i == 2 * n && i < PCM_BLOCK_BYTES
    requires Encoded(t, s0, Samples(data), n, codes, s, maxLevel, minLevel)
    requires NibblesWritten(adpcm[..], codes, outPos, highNibble) && adpcm.Length == BLOCK_BYTES
    modifies adpcm
    ensures Encoded(t, s0, Samples(data), n + 1, codes + [delta], next, maxLevel', minLevel')
    ensures NibblesWritten(adpcm[..], codes + [delta], outPos', highNibble')
    ensures adpcm[..4] == old(adpcm[..4])
  {
    NibbleSlot(n, outPos, highNibble);
    var target := Sample16(data[i], data[i + 1]);
    SampleAt(data, n);
    EncodedStep(t, s0, Samples(data), n, codes, s, maxLevel, minLevel);
    maxLevel', minLevel' := Max(maxLevel, target), Min(minLevel, target);
    delta := Quantize(t, s, target);
    outPos', highNibble' := PutNibble(adpcm, outPos, highNibble, codes, delta);
    next := EncoderUpdate(t, s, delta);
  }

  /** The sample loop of `encodeBlock`: one nibble per sample after the
      first, low half first, from byte 4 on; the extreme levels seen. */
  method EncodeSamples(t: Tables, data: seq<byte>, adpcm: array<byte>, s0: CodecState)
    returns (maxLevel: int, minLevel: int)
    requires ValidTables(t) && |data| == PCM_BLOCK_BYTES && adpcm.Length == BLOCK_BYTES
    requires s0 == StartState(t, Samples(data))
    requires adpcm[..4] == [data[0], data[1], s0.index, 0]
    modifies adpcm
    ensures Block(adpcm[..], maxLevel, minLevel) == EncodeFull(t, data)
  {
    EncodedStart(t, s0, data);
    var s := s0;
    maxLevel, minLevel := s0.predictor, s0.predictor;
    var outPos := 4;
    var highNibble := false;
    var i := 2;
    ghost var n := 1;  // samples consumed: i == 2 * n
    ghost var codes: seq<int> := [];
    while i < PCM_BLOCK_BYTES
      invariant i == 2 * n
      invariant Encoded(t, s0, Samples(data), n, codes, s, maxLevel, minLevel)
      invariant NibblesWritten(adpcm[..], codes, outPos, highNibble)
      invariant adpcm[..4] == old(adpcm[..4])
    {
      var delta;
      delta, s, maxLevel, minLevel, outPos, highNibble :=
        EncodeNext(t, data, adpcm, s0, i, s, maxLevel, minLevel, outPos, highNibble, n, codes);
      codes := codes + [delta];
      i := i + 2;
      n := n + 1;
    }
    EncodedBlock(t, s0, data, adpcm[..], n, codes, s, maxLevel, minLevel, outPos, highNibble);
  }
}
