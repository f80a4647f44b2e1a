/** The IMA ADPCM per-sample rules shared by the encoder and the decoder:
    quantising a difference to a 4-bit code, and the predictor and step-index
    update both sides apply after each code. */
module AdpcmCodec {
  import opened Bytes

  /** Samples in one block (`ADPCMEncoder.BLOCKSAMPLES`). */
  const BLOCK_SAMPLES: int := 1017
  /** Bytes in one encoded block (`ADPCMEncoder.BLOCKBYTES`). */
  const BLOCK_BYTES: int := (BLOCK_SAMPLES - 1) / 2 + 4
  /** Bytes of 16-bit PCM that make one block. */
  const PCM_BLOCK_BYTES: int := BLOCK_SAMPLES * 2
  const SAMPLE_RATE: int := 16000

  lemma BlockBytesIs512()
    ensures BLOCK_BYTES == 512 && PCM_BLOCK_BYTES == 2034
  {
  }

  /** The two tables of `ADPCM` (`STEPSIZE`, `STEPINCREMENT_MAGNITUDE`).
      Their values are not part of this model; only their shape is. */
  datatype Tables = Tables(stepSize: seq<int>, indexIncrement: seq<int>)

  /** The shape every use relies on: positive, increasing step sizes, few
      enough that an index fits a non-negative Java byte, and one increment
      per code magnitude 0..7. */
  predicate ValidTables(t: Tables) {
    && 1 <= |t.stepSize| <= 128
    && |t.indexIncrement| == 8
    && (forall i :: 0 <= i < |t.stepSize| ==> 1 <= t.stepSize[i] <= 0x7fff)
    && (forall i, j :: 0 <= i < j < |t.stepSize| ==> t.stepSize[i] < t.stepSize[j])
  }

  /** The predictor (`lastOutput`) and the step index (`stepIndex`). */
  datatype CodecState = CodecState(predictor: int, index: int)

  predicate ValidState(t: Tables, s: CodecState) {
    InInt16(s.predictor) && 0 <= s.index < |t.stepSize|
  }

  /** `valueAdjust`: step/8 always, plus step, step/2 and step/4 for bits
      2, 1 and 0 of the magnitude. */
  function Adjustment(step: int, magnitude: int): (a: int)
    requires step >= 1 && 0 <= magnitude < 8
    ensures 0 <= a < 2 * step
  {
    var s1 := step / 2;
    var s2 := s1 / 2;
    (if magnitude / 4 == 1 then step else 0)
    + (if (magnitude / 2) % 2 == 1 then s1 else 0)
    + (if magnitude % 2 == 1 then s2 else 0)
    + s2 / 2
  }

  /** Adds the adjustment clamped at 0x7fff, or subtracts it clamped at
      -0x8000, then moves the step index by the increment for the magnitude,
      clamped to the table. */
  function Apply(t: Tables, s: CodecState, negative: bool, magnitude: int): (s': CodecState)
    requires ValidTables(t) && ValidState(t, s) && 0 <= magnitude < 8
    ensures ValidState(t, s')
  {
    var adjust := Adjustment(t.stepSize[s.index], magnitude);
    var p := if negative then Max(s.predictor - adjust, -0x8000)
             else Min(s.predictor + adjust, 0x7fff);
    var k := s.index + t.indexIncrement[magnitude];
    CodecState(p, if k < 0 then 0 else if k >= |t.stepSize| then |t.stepSize| - 1 else k)
  }

  /** The encoder's 4-bit code for `target`: magnitude
      min(7, 4|difference|/step), bit 3 set for a negative difference. */
  function Quantize(t: Tables, s: CodecState, target: int): (code: int)
    requires ValidTables(t) && ValidState(t, s)
    ensures 0 <= code < 16
    ensures code >= 8 <==> target < s.predictor
  {
    var difference := target - s.predictor;
    var scaled: nat := Abs(difference) * 4;
    var quotient: nat := scaled / t.stepSize[s.index];
    var magnitude := Min(7, quotient);
    if difference < 0 then magnitude + 8 else magnitude
  }

  /** The encoder's update after emitting the unsigned code `code`
      (`deltaMagnitude = delta & 7`, negative when that differs from `delta`). */
  function EncoderUpdate(t: Tables, s: CodecState, code: int): (s': CodecState)
    requires ValidTables(t) && ValidState(t, s) && 0 <= code < 16
    ensures ValidState(t, s')
  {
    var magnitude := code % 8;
    Apply(t, s, magnitude != code, magnitude)
  }

  /** The decoder's update for a sign-extended delta in -8..7
      (`deltaMagnitude = delta & 7`, which Euclidean `% 8` matches). */
  function DecoderUpdate(t: Tables, s: CodecState, delta: int): (s': CodecState)
    requires ValidTables(t) && ValidState(t, s) && -8 <= delta < 8
    ensures ValidState(t, s')
  {
    var magnitude := delta % 8;
    Apply(t, s, magnitude != delta, magnitude)
  }

  /** Both sides apply the same update: the decoder, given the encoder's
      code sign-extended, lands in the encoder's state. */
  lemma UpdatesAgree(t: Tables, s: CodecState, code: int)
    requires ValidTables(t) && ValidState(t, s) && 0 <= code < 16
    ensures DecoderUpdate(t, s, SignExtend4(code)) == EncoderUpdate(t, s, code)
  {
    var d := SignExtend4(code);
    assert d % 8 == code % 8;
    assert (d % 8 != d) == (code % 8 != code);
  }

  /** The adjustment moves the predictor towards the target: a non-negative
      code never lowers it and a negative one never raises it. */
  lemma UpdateDirection(t: Tables, s: CodecState, target: int)
    requires ValidTables(t) && ValidState(t, s)
    ensures var s' := EncoderUpdate(t, s, Quantize(t, s, target));
      (target >= s.predictor ==> s'.predictor >= s.predictor) &&
      (target < s.predictor ==> s'.predictor <= s.predictor)
  {
  }

  // ---- Whole sequences, defined from the back so that loops can follow them.

  /** The state after encoding `xs` from `s0`. */
  function EncState(t: Tables, s0: CodecState, xs: seq<int>): (s: CodecState)
    requires ValidTables(t) && ValidState(t, s0)
    ensures ValidState(t, s)
  {
    if xs == [] then s0
    else
      var s := EncState(t, s0, xs[..|xs| - 1]);
      EncoderUpdate(t, s, Quantize(t, s, xs[|xs| - 1]))
  }

  /** The codes the encoder emits for `xs`, one per sample. */
  function EncCodes(t: Tables, s0: CodecState, xs: seq<int>): (codes: seq<int>)
    requires ValidTables(t) && ValidState(t, s0)
    ensures |codes| == |xs|
  {
    if xs == [] then []
    else
      var prefix := xs[..|xs| - 1];
      EncCodes(t, s0, prefix) + [Quantize(t, EncState(t, s0, prefix), xs[|xs| - 1])]
  }

  /** The encoder's reconstructed predictor after each sample of `xs`. */
  function EncPredictions(t: Tables, s0: CodecState, xs: seq<int>): (ps: seq<int>)
    requires ValidTables(t) && ValidState(t, s0)
    ensures |ps| == |xs|
  {
    if xs == [] then []
    else EncPredictions(t, s0, xs[..|xs| - 1]) + [EncState(t, s0, xs).predictor]
  }

  /** Encoding one more sample of `xs` (those from `from` up to `n`) takes
      one more encoder step. */
  lemma EncExtend(t: Tables, s0: CodecState, xs: seq<int>, from: nat, n: nat)
    requires ValidTables(t) && ValidState(t, s0) && from <= n < |xs|
    ensures var s := EncState(t, s0, xs[from..n]);
      && EncState(t, s0, xs[from..n + 1]) == EncoderUpdate(t, s, Quantize(t, s, xs[n]))
      && EncCodes(t, s0, xs[from..n + 1]) == EncCodes(t, s0, xs[from..n]) + [Quantize(t, s, xs[n])]
  {
    assert xs[from..n + 1] == xs[from..n] + [xs[n]];
    EncSnoc(t, s0, xs[from..n], xs[n]);
  }

  /** Encoding `ys` and then `y`. */
  lemma EncSnoc(t: Tables, s0: CodecState, ys: seq<int>, y: int)
    requires ValidTables(t) && ValidState(t, s0)
    ensures var s := EncState(t, s0, ys);
      && EncState(t, s0, ys + [y]) == EncoderUpdate(t, s, Quantize(t, s, y))
      && EncCodes(t, s0, ys + [y]) == EncCodes(t, s0, ys) + [Quantize(t, s, y)]
  {
    assert (ys + [y])[..|ys|] == ys;
  }

  predicate Nibbles(codes: seq<int>) {
    forall i :: 0 <= i < |codes| ==> 0 <= codes[i] < 16
  }

  /** The state after decoding the 4-bit codes `codes` from `s0`. */
  function DecState(t: Tables, s0: CodecState, codes: seq<int>): (s: CodecState)
    requires ValidTables(t) && ValidState(t, s0) && Nibbles(codes)
    ensures ValidState(t, s)
  {
    if codes == [] then s0
    else DecoderUpdate(t, DecState(t, s0, codes[..|codes| - 1]), SignExtend4(codes[|codes| - 1]))
  }

  /** The samples the decoder outputs for `codes`, one per code. */
  function DecOutputs(t: Tables, s0: CodecState, codes: seq<int>): (out: seq<int>)
    requires ValidTables(t) && ValidState(t, s0) && Nibbles(codes)
    ensures |out| == |codes|
  {
    if codes == [] then []
    else DecOutputs(t, s0, codes[..|codes| - 1]) + [DecState(t, s0, codes).predictor]
  }

  /** Decoding `codes` and then `c`. */
  lemma DecSnoc(t: Tables, s0: CodecState, codes: seq<int>, c: int)
    requires ValidTables(t) && ValidState(t, s0) && Nibbles(codes) && 0 <= c < 16
    ensures Nibbles(codes + [c])
    ensures DecState(t, s0, codes + [c]) == DecoderUpdate(t, DecState(t, s0, codes), SignExtend4(c))
    ensures DecOutputs(t, s0, codes + [c]) == DecOutputs(t, s0, codes) + [DecState(t, s0, codes + [c]).predictor]
  {
    assert (codes + [c])[..|codes|] == codes;
  }

  /** Every code the encoder emits is a 4-bit code whose bit 3 says whether
      the sample lay below the predictor. */
  lemma {:induction false} EncCodesAreNibbles(t: Tables, s0: CodecState, xs: seq<int>)
    requires ValidTables(t) && ValidState(t, s0)
    ensures Nibbles(EncCodes(t, s0, xs))
  {
    if xs != [] {
      EncCodesAreNibbles(t, s0, xs[..|xs| - 1]);
    }
  }

  /** Decoding what the encoder emitted retraces the encoder's states. */
  lemma {:induction false} DecStateOfEncCodes(t: Tables, s0: CodecState, xs: seq<int>)
    requires ValidTables(t) && ValidState(t, s0)
    ensures Nibbles(EncCodes(t, s0, xs))
    ensures DecState(t, s0, EncCodes(t, s0, xs)) == EncState(t, s0, xs)
  {
    EncCodesAreNibbles(t, s0, xs);
    if xs != [] {
      var prefix := xs[..|xs| - 1];
      var codes := EncCodes(t, s0, xs);
      assert codes[..|codes| - 1] == EncCodes(t, s0, prefix);
      DecStateOfEncCodes(t, s0, prefix);
      var s := EncState(t, s0, prefix);
      UpdatesAgree(t, s, Quantize(t, s, xs[|xs| - 1]));
    }
  }

  /** Round trip: decoding the encoder's codes gives exactly the predictor
      sequence the encoder reconstructed while encoding. */
  lemma {:induction false} DecodeOfEncode(t: Tables, s0: CodecState, xs: seq<int>)
    requires ValidTables(t) && ValidState(t, s0)
    ensures Nibbles(EncCodes(t, s0, xs))
    ensures DecOutputs(t, s0, EncCodes(t, s0, xs)) == EncPredictions(t, s0, xs)
  {
    EncCodesAreNibbles(t, s0, xs);
    if xs != [] {
      var prefix := xs[..|xs| - 1];
      var codes := EncCodes(t, s0, xs);
      assert codes[..|codes| - 1] == EncCodes(t, s0, prefix);
      DecodeOfEncode(t, s0, prefix);
      DecStateOfEncCodes(t, s0, xs);
    }
  }

  /** Every decoded sample is a 16-bit value. */
  lemma {:induction false} DecOutputsInRange(t: Tables, s0: CodecState, codes: seq<int>)
    requires ValidTables(t) && ValidState(t, s0) && Nibbles(codes)
    ensures forall i :: 0 <= i < |codes| ==> InInt16(DecOutputs(t, s0, codes)[i])
  {
    if codes != [] {
      DecOutputsInRange(t, s0, codes[..|codes| - 1]);
    }
  }
}
