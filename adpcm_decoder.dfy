/** `ADPCMDecoder`: expanding one 512-byte IMA ADPCM block back into 1017
    16-bit samples, and reading a WAV file of such blocks block by block. */
module AdpcmDecoder {
  import opened Bytes
  import opened AdpcmCodec
  import opened AdpcmEncoder
  import opened Streams

  /** The 4-bit codes stored in `bytes`, low half of each byte first. */
  function Unpack(bytes: seq<byte>): (codes: seq<int>)
    ensures |codes| == 2 * |bytes| && Nibbles(codes)
  {
    if bytes == [] then []
    else
      var b := bytes[|bytes| - 1];
      Unpack(bytes[..|bytes| - 1]) + [b % 16, b / 16]
  }

  /** Where `Unpack` takes the two codes of byte `k` from. */
  lemma {:induction false} UnpackAt(bytes: seq<byte>, k: int)
    requires 0 <= k < |bytes|
    ensures Unpack(bytes)[2 * k] == bytes[k] % 16
    ensures Unpack(bytes)[2 * k + 1] == bytes[k] / 16
  {
    var n := |bytes| - 1;
    if k < n {
      UnpackAt(bytes[..n], k);
    }
  }

  /** Unpacking what the encoder packed gives back its codes. */
  lemma UnpackOfPack(codes: seq<int>)
    requires Nibbles(codes) && |codes| % 2 == 0
    ensures Unpack(Pack(codes)) == codes
  {
    var p := Pack(codes);
    forall j | 0 <= j < |codes|
      ensures Unpack(p)[j] == codes[j]
    {
      var k := j / 2;
      UnpackAt(p, k);
      ModUnique(p[k], 16, codes[2 * k + 1], codes[2 * k]);
      assert j == 2 * k || j == 2 * k + 1;
    }
  }

  /** Packing what was unpacked gives back the bytes. */
  lemma PackOfUnpack(bytes: seq<byte>)
    ensures Pack(Unpack(bytes)) == bytes
  {
    var u := Unpack(bytes);
    forall k | 0 <= k < |bytes|
      ensures Pack(u)[k] == bytes[k]
    {
      UnpackAt(bytes, k);
    }
  }

  /** What `decodeBlock` returns for a whole block: the first sample's two
      bytes verbatim, then the decoder's output for each of the 1016 codes
      as 16-bit little-endian PCM. An initial step index that is negative
      as a Java byte, or beyond the table, fails the first table lookup. */
  function DecodeFull(t: Tables, block: seq<byte>): (r: Result<seq<byte>>)
    requires ValidTables(t) && |block| == BLOCK_BYTES
    ensures r.Err? <==> !(0 <= SignedByte(block[2]) < |t.stepSize|)
    ensures r.Ok? ==> |r.value| == PCM_BLOCK_BYTES && r.value[..2] == block[..2]
  {
    var index := SignedByte(block[2]);
    if !(0 <= index < |t.stepSize|) then Err(IndexOutOfBounds)
    else
      var s0 := CodecState(Sample16(block[0], block[1]), index);
      Ok(block[..2] + Pcm16(DecOutputs(t, s0, Unpack(block[4..]))))
  }

  /** `decodeBlock(adpcm, offset)`: the block at `offset`, or the array
      index exception when it does not lie inside `adpcm`. */
  function DecodeBlockResult(t: Tables, adpcm: seq<byte>, offset: int): (r: Result<seq<byte>>)
    requires ValidTables(t)
    ensures r.Err? <==> offset < 0 || |adpcm| < offset + BLOCK_BYTES ||
                        !(0 <= SignedByte(adpcm[offset + 2]) < |t.stepSize|)
  {
    if offset < 0 || |adpcm| < offset + BLOCK_BYTES then Err(IndexOutOfBounds)
    else DecodeFull(t, adpcm[offset..offset + BLOCK_BYTES])
  }

  /** The samples of a decoded block are the stored first sample followed
      by the decoder's predictor after each code, every one a 16-bit value. */
  lemma DecodedSamples(t: Tables, block: seq<byte>)
    requires ValidTables(t) && |block| == BLOCK_BYTES && DecodeFull(t, block).Ok?
    ensures var s0 := CodecState(Sample16(block[0], block[1]), SignedByte(block[2]));
      && ValidState(t, s0)
      && Samples(DecodeFull(t, block).value) == [s0.predictor] + DecOutputs(t, s0, Unpack(block[4..]))
  {
    var s0 := CodecState(Sample16(block[0], block[1]), SignedByte(block[2]));
    var outs := DecOutputs(t, s0, Unpack(block[4..]));
    DecOutputsInRange(t, s0, Unpack(block[4..]));
    SamplesOfPcm16(outs);
    var r := block[..2] + Pcm16(outs);
    assert r[2..] == Pcm16(outs);
  }

  // ---- The imperative `decodeBlock`.

  /** The codes read so far from byte 4 on: whole bytes before `inPos`,
      and the low half of the byte at `inPos` when its high half is next. */
  function NibblesRead(block: seq<byte>, inPos: int, highNibble: bool): (codes: seq<int>)
    requires 4 <= inPos <= |block| && (highNibble ==> inPos < |block|)
    ensures |codes| == 2 * (inPos - 4) + (if highNibble then 1 else 0) && Nibbles(codes)
  {
    Unpack(block[4..inPos]) + (if highNibble then [block[inPos] % 16] else [])
  }

  /** After `i` samples: the codes read so far. */
  ghost predicate CodesRead(block: seq<byte>, i: int, inPos: int, highNibble: bool, codes: seq<int>) {
    && |block| == BLOCK_BYTES && 1 <= i <= BLOCK_SAMPLES
    && 4 <= inPos <= BLOCK_BYTES && (highNibble ==> inPos < BLOCK_BYTES)
    && codes == NibblesRead(block, inPos, highNibble) && |codes| == i - 1
  }

  /** After `i` samples: the decoder state for `codes`, and the first `2i`
      bytes of output. */
  ghost predicate Output(t: Tables, s0: CodecState, head: seq<byte>, i: int, codes: seq<int>,
                         s: CodecState, out: seq<byte>)
    requires ValidTables(t) && ValidState(t, s0)
  {
    && Nibbles(codes) && |codes| == i - 1 && 1 <= i && 2 * i <= |out| == PCM_BLOCK_BYTES
    && s == DecState(t, s0, codes)
    && out[..2 * i] == head + Pcm16(DecOutputs(t, s0, codes))
  }

  ghost predicate Decoded(t: Tables, s0: CodecState, block: seq<byte>, i: int, inPos: int,
                          highNibble: bool, codes: seq<int>, s: CodecState, out: seq<byte>)
    requires ValidTables(t) && ValidState(t, s0)
  {
    CodesRead(block, i, inPos, highNibble, codes) && Output(t, s0, block[..2], i, codes, s, out)
  }

  /** The next code comes from the high half of the byte at `inPos`, then
      moves on, or from its low half. */
  lemma NibblesReadNext(block: seq<byte>, inPos: int, highNibble: bool)
    requires 4 <= inPos < |block|
    ensures highNibble ==>
      NibblesRead(block, inPos + 1, false) == NibblesRead(block, inPos, true) + [block[inPos] / 16]
    ensures !highNibble ==>
      NibblesRead(block, inPos, true) == NibblesRead(block, inPos, false) + [block[inPos] % 16]
  {
    assert block[4..inPos + 1][..inPos - 4] == block[4..inPos];
  }

  /** One more code: the decoder update, and the new sample's two bytes
      appended to the output. */
  lemma DecodedStep(t: Tables, s0: CodecState, block: seq<byte>, i: int, inPos: int,
                    highNibble: bool, codes: seq<int>, s: CodecState, out: seq<byte>,
                    code: int, inPos': int, highNibble': bool, s': CodecState, out': seq<byte>)
    requires ValidTables(t) && ValidState(t, s0)
    requires Decoded(t, s0, block, i, inPos, highNibble, codes, s, out) && i < BLOCK_SAMPLES
    requires 4 <= inPos' <= BLOCK_BYTES && (highNibble' ==> inPos' < BLOCK_BYTES)
    requires NibblesRead(block, inPos', highNibble') == codes + [code] && 0 <= code < 16
    requires ValidState(t, s) && s' == DecoderUpdate(t, s, SignExtend4(code))
    requires |out'| == PCM_BLOCK_BYTES
    requires out'[..2 * i + 2] == out[..2 * i] + [LowByte(s'.predictor), HighByte(s'.predictor)]
    ensures Decoded(t, s0, block, i + 1, inPos', highNibble', codes + [code], s', out')
  {
    OutputStep(t, s0, block[..2], i, codes, s, out, code, s', out');
  }

  lemma OutputStep(t: Tables, s0: CodecState, head: seq<byte>, i: int, codes: seq<int>,
                   s: CodecState, out: seq<byte>, code: int, s': CodecState, out': seq<byte>)
    requires ValidTables(t) && ValidState(t, s0)
    requires Output(t, s0, head, i, codes, s, out) && i < BLOCK_SAMPLES && 0 <= code < 16
    requires ValidState(t, s) && s' == DecoderUpdate(t, s, SignExtend4(code))
    requires |out'| == PCM_BLOCK_BYTES
    requires out'[..2 * i + 2] == out[..2 * i] + [LowByte(s'.predictor), HighByte(s'.predictor)]
    ensures Output(t, s0, head, i + 1, codes + [code], s', out')
  {
    DecSnoc(t, s0, codes, code);
    AppendSample(head, DecOutputs(t, s0, codes), s'.predictor, out[..2 * i], out'[..2 * i + 2]);
  }

  /** Two bytes of one more sample after the PCM of the earlier ones. */
  lemma AppendSample(head: seq<byte>, outs: seq<int>, p: int, out: seq<byte>, out': seq<byte>)
    requires out == head + Pcm16(outs) && out' == out + [LowByte(p), HighByte(p)]
    ensures out' == head + Pcm16(outs + [p])
  {
    Pcm16Snoc(outs, p);
  }

  /** One pass of the sample loop of `decodeBlock`: the next nibble,
      sign-extended, the decoder update, and the new sample written. */
  method DecodeNext(t: Tables, block: seq<byte>, data: array<byte>, ghost s0: CodecState,
                    i: int, inPos: int, highNibble: bool, s: CodecState, ghost codes: seq<int>)
    returns (code: int, inPos': int, highNibble': bool, s': CodecState)
    requires ValidTables(t) && ValidState(t, s0)
    requires Decoded(t, s0, block, i, inPos, highNibble, codes, s, data[..]) && i < BLOCK_SAMPLES
    modifies data
    ensures Decoded(t, s0, block, i + 1, inPos', highNibble', codes + [code], s', data[..])
  {
    NibbleSlot(i, inPos, highNibble);
    NibblesReadNext(block, inPos, highNibble);
    if highNibble {
      code := block[inPos] / 16;
      inPos', highNibble' := inPos + 1, false;
    } else {
      code := block[inPos] % 16;
      inPos', highNibble' := inPos, true;
    }
    var delta := SignExtend4(code);
    s' := DecoderUpdate(t, s, delta);
    ghost var out := data[..];
    PutSample(data, i, s'.predictor);
    DecodedStep(t, s0, block, i, inPos, highNibble, codes, s, out, code, inPos', highNibble', s', data[..]);
  }

  /** Sample `i` written little-endian at bytes `2i` and `2i + 1`
      (`data[outPos++] = ...` twice). */
  method PutSample(data: array<byte>, i: int, p: int)
    requires 0 <= i && 2 * i + 1 < data.Length
    modifies data
    ensures data[..2 * i + 2] == old(data[..2 * i]) + [LowByte(p), HighByte(p)]
  {
    data[2 * i] := LowByte(p);
    data[2 * i + 1] := HighByte(p);
  }

  /** Before the loop: the first sample copied, no codes read. */
  lemma DecodedStart(t: Tables, s0: CodecState, block: seq<byte>, out: seq<byte>)
    requires ValidTables(t) && ValidState(t, s0)
    requires |block| == BLOCK_BYTES && |out| == PCM_BLOCK_BYTES && out[..2] == block[..2]
    ensures Decoded(t, s0, block, 1, 4, false, [], s0, out)
  {
    assert block[4..4] == [];
  }

  /** Once all 1017 samples are out, the output is `DecodeFull`'s. */
  lemma DecodedBlock(t: Tables, s0: CodecState, block: seq<byte>, i: int, inPos: int,
                     highNibble: bool, codes: seq<int>, s: CodecState, out: seq<byte>)
    requires ValidTables(t) && ValidState(t, s0) && i == BLOCK_SAMPLES
    requires Decoded(t, s0, block, i, inPos, highNibble, codes, s, out)
    requires s0 == CodecState(Sample16(block[0], block[1]), SignedByte(block[2]))
    ensures DecodeFull(t, block) == Ok(out)
  {
    NibbleSlot(i, inPos, highNibble);
    assert block[4..inPos] == block[4..];
    assert codes == Unpack(block[4..]);
    assert out[..2 * i] == out;
  }

  /** The sample loop of `decodeBlock`: a nibble per sample, low half
      first, from byte 4 on. */
  method DecodeSamples(t: Tables, block: seq<byte>, data: array<byte>, s0: CodecState)
    requires ValidTables(t) && ValidState(t, s0) && |block| == BLOCK_BYTES
    requires s0 == CodecState(Sample16(block[0], block[1]), SignedByte(block[2]))
    requires data.Length == PCM_BLOCK_BYTES && data[..2] == block[..2]
    modifies data
    ensures DecodeFull(t, block) == Ok(data[..])
  {
    DecodedStart(t, s0, block, data[..]);
    var inPos := 4;
    var highNibble := false;
    var s := s0;
    ghost var codes: seq<int> := [];
    var i := 1;
    while i < BLOCK_SAMPLES
      invariant Decoded(t, s0, block, i, inPos, highNibble, codes, s, data[..])
    {
      var code;
      code, inPos, highNibble, s := DecodeNext(t, block, data, s0, i, inPos, highNibble, s, codes);
      codes := codes + [code];
      i := i + 1;
    }
    DecodedBlock(t, s0, block, i, inPos, highNibble, codes, s, data[..]);
  }

  /** `decodeBlock`: the block's first sample copied verbatim, its initial
      step index read as a signed byte, then the sample loop. Reads outside
      `adpcm`, and a step index outside the table, raise the index
      exception. */
  method DecodeBlock(t: Tables, adpcm: seq<byte>, offset: int) returns (r: Result<seq<byte>>)
    requires ValidTables(t)
    ensures r == DecodeBlockResult(t, adpcm, offset)
  {
    if offset < 0 || |adpcm| < offset + BLOCK_BYTES {
      return Err(IndexOutOfBounds);
    }
    var block := adpcm[offset..offset + BLOCK_BYTES];
    var data := new byte[PCM_BLOCK_BYTES];
    data[0] := block[0];
    data[1] := block[1];
    var lastOutput := Sample16(data[0], data[1]);
    var stepIndex := SignedByte(block[2]);
    if !(0 <= stepIndex < |t.stepSize|) {
      return Err(IndexOutOfBounds);
    }
    assert data[..2] == block[..2];
    DecodeSamples(t, block, data, CodecState(lastOutput, stepIndex));
    r := Ok(data[..]);
  }

  // ---- Round trip with the encoder.

  /** What the decoder makes of `EncodeFull(t, pcm)`: the first sample's
      bytes, then the encoder's own reconstructed predictors. */
  function Reconstructed(t: Tables, pcm: seq<byte>): (r: seq<byte>)
    requires ValidTables(t) && |pcm| == PCM_BLOCK_BYTES
    ensures |r| == PCM_BLOCK_BYTES && r[..2] == pcm[..2]
  {
    var xs := Samples(pcm);
    pcm[..2] + Pcm16(EncPredictions(t, StartState(t, xs), xs[1..]))
  }

  /** Decoding an encoded block gives exactly the encoder's reconstruction:
      the first sample unchanged, then the predictor the encoder tracked
      after each later sample. */
  lemma DecodeOfEncodeFull(t: Tables, pcm: seq<byte>)
    requires ValidTables(t) && |pcm| == PCM_BLOCK_BYTES
    ensures DecodeBlockResult(t, EncodeFull(t, pcm).data, 0) == Ok(Reconstructed(t, pcm))
    ensures var xs := Samples(pcm);
      Samples(Reconstructed(t, pcm)) == [xs[0]] + EncPredictions(t, StartState(t, xs), xs[1..])
  {
    var xs := Samples(pcm);
    var s0 := StartState(t, xs);
    var block := EncodeFull(t, pcm).data;
    EncodedBlockFields(t, pcm);
    assert block[0..0 + BLOCK_BYTES] == block;
    assert DecodeFull(t, block) == Ok(block[..2] + Pcm16(DecOutputs(t, s0, Unpack(block[4..]))));
    DecodeOfEncode(t, s0, xs[1..]);
    DecodedSamples(t, block);
  }

  /** An encoded block is its four header bytes followed by packed
      codes. */
  lemma EncodedBlockData(t: Tables, pcm: seq<byte>)
    requires ValidTables(t) && |pcm| == PCM_BLOCK_BYTES
    ensures var xs := Samples(pcm); var s0 := StartState(t, xs); var codes := EncCodes(t, s0, xs[1..]);
      && Nibbles(codes) && |codes| == 1016
      && EncodeFull(t, pcm).data == [pcm[0], pcm[1], s0.index, 0] + Pack(codes)
  {
    var xs := Samples(pcm);
    EncCodesAreNibbles(t, StartState(t, xs), xs[1..]);
  }

  /** The fields of an encoded block as the decoder reads them: the first
      sample's bytes, the start index (a non-negative byte) and the codes. */
  lemma EncodedBlockFields(t: Tables, pcm: seq<byte>)
    requires ValidTables(t) && |pcm| == PCM_BLOCK_BYTES
    ensures var xs := Samples(pcm); var s0 := StartState(t, xs); var block := EncodeFull(t, pcm).data;
      && |block| == BLOCK_BYTES && block[..2] == pcm[..2]
      && Sample16(block[0], block[1]) == s0.predictor && SignedByte(block[2]) == s0.index
      && Nibbles(EncCodes(t, s0, xs[1..])) && Unpack(block[4..]) == EncCodes(t, s0, xs[1..])
  {
    var xs := Samples(pcm);
    var s0 := StartState(t, xs);
    var codes := EncCodes(t, s0, xs[1..]);
    EncodedBlockData(t, pcm);
    var packed := Pack(codes);
    var block := EncodeFull(t, pcm).data;
    assert block[4..] == packed;
    UnpackOfPack(codes);
    SampleAt(pcm, 0);
  }

  // ---- `decode()`: one block per call from a WAV stream.

  /** `read(b, pos, len - pos)` repeated until `len` bytes are in or the
      stream ends: all of them, or everything that was left. */
  method ReadFully(stream: ByteStream, len: nat) returns (got: seq<byte>)
    requires len > 0
    modifies stream
    ensures |got| == Min(len, |old(stream.rest)|)
    ensures old(stream.rest) == got + stream.rest && stream.closed == old(stream.closed)
  {
    got := [];
    var eof := false;
    while !eof && |got| < len
      invariant |got| <= len && old(stream.rest) == got + stream.rest
      invariant stream.closed == old(stream.closed)
      invariant eof ==> stream.rest == []
      decreases len - |got|, if eof then 0 else 1
    {
      var r := stream.Read(len - |got|);
      if r.Eof? {
        eof := true;
      } else {
        got := got + r.data;
      }
    }
  }

  /** What one call of `decode()` does, given the header buffer (absent
      before the first call) and the bytes left in the stream. */
  datatype Step = Step(result: Result<Option<seq<byte>>>, header: Option<seq<byte>>,
                       rest: seq<byte>, closes: bool)

  const HEADER_EOF := "Unexpected EOF in ADPCM header"
  const NOT_ADPCM := "Does not appear to be ADPCM WAV file"
  const BLOCK_EOF := "Unexpected EOF in ADPCM decoding"

  /** The block part of `decode()`: end of stream at a block boundary
      closes the stream and returns no block; a partial block is an error;
      a whole block is decoded. */
  function BlockStep(t: Tables, header: Option<seq<byte>>, rest: seq<byte>): (st: Step)
    requires ValidTables(t)
    ensures st.header == header
    ensures st.closes <==> rest == []
    ensures st.result.Ok? && st.result.value.Some? ==>
      |rest| >= BLOCK_BYTES && st.rest == rest[BLOCK_BYTES..] && |st.result.value.value| == PCM_BLOCK_BYTES
  {
    if rest == [] then Step(Ok(None), header, [], true)
    else if |rest| < BLOCK_BYTES then Step(Err(AudioError(BLOCK_EOF)), header, [], false)
    else
      var r := match DecodeBlockResult(t, rest[..BLOCK_BYTES], 0)
               case Ok(pcm) => Ok(Some(pcm))
               case Err(e) => Err(e);
      Step(r, header, rest[BLOCK_BYTES..], false)
  }

  /** `decode()`: on the first call the 60-byte header, whose byte 20 must
      be the format tag 17, then one block. The header buffer is set before
      it is read and checked, so it stays set after either header error. */
  function DecodeStep(t: Tables, header: Option<seq<byte>>, rest: seq<byte>): (st: Step)
    requires ValidTables(t)
    ensures st.header.Some?
    ensures header.None? && |rest| < HEADER_BYTES ==>
      st.result == Err(AudioError(HEADER_EOF)) && st.rest == [] && |st.header.value| == HEADER_BYTES
    ensures header.None? && |rest| >= HEADER_BYTES && rest[20] != 17 ==>
      st.result == Err(AudioError(NOT_ADPCM)) && st.rest == rest[HEADER_BYTES..]
    ensures header.Some? ==> st == BlockStep(t, header, rest)
  {
    if header.Some? then BlockStep(t, header, rest)
    else if |rest| < HEADER_BYTES then
      Step(Err(AudioError(HEADER_EOF)), Some(rest + Zeros(HEADER_BYTES - |rest|)), [], false)
    else if rest[20] != 17 then
      Step(Err(AudioError(NOT_ADPCM)), Some(rest[..HEADER_BYTES]), rest[HEADER_BYTES..], false)
    else BlockStep(t, Some(rest[..HEADER_BYTES]), rest[HEADER_BYTES..])
  }

  /** `ADPCMDecoder` with its stream (`init`) and header buffer. */
  class Decoder {
    var stream: ByteStream
    /** `header`: None while it is still null. */
    var header: Option<seq<byte>>

    /** A new decoder after `init(source)`. */
    constructor (source: ByteStream)
      ensures stream == source && header.None?
    {
      stream := source;
      header := None;
    }

    /** `decode()`: the next block as 16 kHz PCM, `None` at the end of the
        stream, or the exception raised. */
    method Decode(t: Tables) returns (r: Result<Option<seq<byte>>>)
      requires ValidTables(t)
      modifies this, stream
      ensures stream == old(stream)
      ensures var st := DecodeStep(t, old(header), old(stream.rest));
        && r == st.result && header == st.header && stream.rest == st.rest
        && stream.closed == (old(stream.closed) || st.closes)
    {
      if header.None? {
        var got := ReadFully(stream, HEADER_BYTES);
        if |got| < HEADER_BYTES {
          assert got == old(stream.rest);
          header := Some(got + Zeros(HEADER_BYTES - |got|));
          return Err(AudioError(HEADER_EOF));
        }
        header := Some(got);
        // Byte 20 is the format type
        if got[20] != 17 {
          return Err(AudioError(NOT_ADPCM));
        }
      }
      var input := ReadFully(stream, BLOCK_BYTES);
      if |input| == 0 {
        stream.Close();
        return Ok(None);
      }
      if |input| < BLOCK_BYTES {
        return Err(AudioError(BLOCK_EOF));
      }
      var decoded := DecodeBlock(t, input, 0);
      match decoded {
        case Ok(pcm) => r := Ok(Some(pcm));
        case Err(e) => r := Err(e);
      }
    }
  }

  // ---- Reading back what `writeToWav` wrote.

  /** `blocks` are the encoder's blocks for the PCM blocks `pcms`. */
  predicate EncodedFrom(t: Tables, blocks: seq<Block>, pcms: seq<seq<byte>>)
    requires ValidTables(t)
  {
    && |blocks| == |pcms|
    && forall i :: 0 <= i < |pcms| ==> |pcms[i]| == PCM_BLOCK_BYTES && blocks[i] == EncodeFull(t, pcms[i])
  }

  /** The blocks' bytes, first block first. */
  lemma {:induction false} ConcatFront(blocks: seq<Block>)
    requires blocks != []
    ensures ConcatData(blocks) == blocks[0].data + ConcatData(blocks[1..])
  {
    var n := |blocks| - 1;
    var init, tail := blocks[..n], blocks[1..];
    assert ConcatData(blocks) == ConcatData(init) + blocks[n].data;
    if n > 0 {
      ConcatFront(init);
      assert init[1..] == tail[..n - 1] && init[0] == blocks[0] && tail[n - 1] == blocks[n];
      assert ConcatData(tail) == ConcatData(init[1..]) + blocks[n].data;
    } else {
      assert init == [] && tail == [];
    }
  }

  /** Positioned at a block boundary of encoded blocks, `decode()` returns
      the decoder's reconstruction of the first block and moves past it;
      with no blocks left it returns no block and closes the stream. */
  lemma DecodeNextBlock(t: Tables, header: seq<byte>, blocks: seq<Block>, pcms: seq<seq<byte>>)
    requires ValidTables(t) && EncodedFrom(t, blocks, pcms)
    ensures var st := DecodeStep(t, Some(header), ConcatData(blocks));
      && (blocks == [] ==> st.result == Ok(None) && st.closes)
      && (blocks != [] ==> st.result == Ok(Some(Reconstructed(t, pcms[0])))
                           && st.rest == ConcatData(blocks[1..]) && !st.closes)
  {
    if blocks != [] {
      ConcatFront(blocks);
      DecodeOfEncodeFull(t, pcms[0]);
      BlockStepOf(t, Some(header), blocks[0].data, ConcatData(blocks[1..]), Reconstructed(t, pcms[0]));
    }
  }

  /** A whole block followed by more bytes: `decode()` returns the block
      decoded and leaves the rest. */
  lemma BlockStepOf(t: Tables, header: Option<seq<byte>>, b: seq<byte>, more: seq<byte>, pcm: seq<byte>)
    requires ValidTables(t) && |b| == BLOCK_BYTES && DecodeBlockResult(t, b, 0) == Ok(pcm)
    ensures BlockStep(t, header, b + more) == Step(Ok(Some(pcm)), header, more, false)
  {
    assert (b + more)[..BLOCK_BYTES] == b;
    assert (b + more)[BLOCK_BYTES..] == more;
  }

  /** The first `decode()` on a file `writeToWav` wrote accepts its header
      and returns the first block's reconstruction, leaving the remaining
      blocks in the stream. */
  lemma DecodeWavFile(t: Tables, blocks: seq<Block>, pcms: seq<seq<byte>>)
    requires ValidTables(t) && EncodedFrom(t, blocks, pcms) && blocks != []
    requires HeaderSamplesInRange(|blocks| * BLOCK_SAMPLES)
    ensures WavFile(blocks).Ok?
    ensures var st := DecodeStep(t, None, WavFile(blocks).value);
      && st.result == Ok(Some(Reconstructed(t, pcms[0])))
      && st.rest == ConcatData(blocks[1..])
  {
    WavFileOfBlocks(blocks);
    var f := WavFile(blocks).value;
    var header := WavHeader(Wrap32(|blocks| * BLOCK_SAMPLES)).0;
    WavHeaderTag(Wrap32(|blocks| * BLOCK_SAMPLES));
    assert f[20] == header[20];
    DecodeNextBlock(t, f[..HEADER_BYTES], blocks, pcms);
  }
}
