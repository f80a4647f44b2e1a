# ouaudioapplets core in Dafny

A Dafny model of the core of the Open University audio applets: an audio
recorder that encodes microphone input as IMA ADPCM WAV, and a streaming
player that downloads such a file, decodes it block by block and plays it on
JavaSound or on the native Mac audio library.

What the model covers, one module per part of the program:

- **ADPCM codec and WAV serialiser** (`AdpcmCodec`, `AdpcmEncoder`,
  `AdpcmDecoder`, `AdpcmRecording`):
  - the 1017-sample / 512-byte block format;
  - the 60-byte WAV header;
  - the block encoder and decoder as loops over arrays, proved against
    functions over sequences;
  - the streaming `decode()` with its header and short-read handling;
  - the recording's block list.

  The shared predictor update is proved identical on both sides, so decoding
  an encoded block returns exactly the encoder's reconstruction.
- **Streaming player** (`StreamPlayerCore`):
  - the downloaded block list and its data size;
  - the `BlockInputStream` cursor;
  - the decoded-audio queue with its five-block backpressure;
  - coalescing of short decoded blocks;
  - the state machine;
  - the integer part of the readiness gate.
- **`MarkResetStream`** (`MarkReset`, over the `Streams` model of a Java
  `InputStream`). The mark/replay buffer is a class over arrays, proved
  against a specification on values, and the unit-test scenarios are
  replayed on that specification.
- **Native Mac code**:
  - the playback byte ring (`PlaybackRingBuffer`);
  - the recording buffer ring (`RecordingRingBuffer`);
  - the JNI device slot table with its data copying (`AudioJni`).
- **Playback devices**:
  - the `Format` arithmetic in Java `int` semantics (`PlaybackFormat`);
  - the flag guards and playback-thread start and wait rules of the
    JavaSound (`JavaSoundPlayback`) and Mac (`MacPlayback`) devices.
- **Recording chunkers**:
  - `RecordPage.recordingBlock` (`RecordPageBuffer`);
  - the recorder in `StreamPlayerUI` (`StreamRecorder`).

  Both are proved to produce the blocks of one common specification
  (`Chunking`), which is independent of how the audio is split into
  callbacks. The upload that `StreamPlayerUI` builds is proved to be the
  same WAV file that saving the recording produces.

Conventions:

- Bytes are `0..255` (`Bytes.byte`), and Java's sign extension is written
  out (`SignedByte`).
- Java `int` overflow is `Wrap32` and truncating division is `JavaDiv`.
- Thrown exceptions are `Err` results.
- Native calls to the audio hardware are returned as lists of calls, not
  made.
- The ADPCM step-size and index-increment tables are a parameter with a
  validity predicate. `ADPCM.java` is not part of this model. The predicate
  allows 1 to 128 increasing step sizes in `1..32767` and one increment for
  each of the 8 code magnitudes.

## Model

| member | source | states |
|---|---|---|
| Bytes.SignedByte | src/uk/ac/open/audio/adpcm/ADPCMDecoder.java:48 | Java's `(int)` of a byte lies in -128..127 and is negative exactly when bit 7 is set |
| Bytes.SignedByteBits | src/uk/ac/open/audio/streaming/MarkResetStream.java:152 | sign extension keeps the byte's bit pattern modulo 256 |
| Bytes.SignExtend4 | src/uk/ac/open/audio/adpcm/ADPCMDecoder.java:57-63 | the `(x<<28)>>28` extension of a nibble lies in -8..7 and is negative exactly when bit 3 is set |
| Bytes.SignExtend4Bits | src/uk/ac/open/audio/adpcm/ADPCMDecoder.java:57-63 | the extended nibble keeps its 4-bit pattern |
| Bytes.Sample16 | src/uk/ac/open/audio/adpcm/ADPCMEncoder.java:212 | a little-endian byte pair read as `lo & 0xff \| hi << 8` is a signed 16-bit sample |
| Bytes.Sample16Bits | src/uk/ac/open/audio/adpcm/ADPCMEncoder.java:235 | that sample keeps the 16-bit pattern `lo + 256*hi` |
| Bytes.Le16RoundTrip | src/uk/ac/open/audio/adpcm/ADPCMEncoder.java:146-152 | reading back the two bytes `write2Byte` emits gives the value modulo 2^16 |
| Bytes.Le32RoundTrip | src/uk/ac/open/audio/adpcm/ADPCMEncoder.java:136-144 | reading back the four bytes `write4Byte` emits gives the value modulo 2^32 |
| Bytes.Le32Value | src/uk/ac/open/audio/adpcm/ADPCMEncoder.java:136-144 | a value that fits 32 bits reads back unchanged |
| Bytes.Le16Value | src/uk/ac/open/audio/adpcm/ADPCMEncoder.java:146-152 | a value that fits 16 bits reads back unchanged |
| Bytes.Pcm16 | src/uk/ac/open/audio/adpcm/ADPCMDecoder.java:110-111 | writing each sample as low then high byte yields two bytes per sample |
| Bytes.Sample16OfBytes | src/uk/ac/open/audio/adpcm/ADPCMDecoder.java:110-111 | a 16-bit sample written as two bytes reads back as the same sample |
| Bytes.SamplesOfPcm16 | src/uk/ac/open/audio/adpcm/ADPCMDecoder.java:110-111 | decoding the written PCM bytes recovers every 16-bit sample, in order |
| Bytes.SetRegion | mac/AudioJNI.cpp:167 | copying `data` at `pos` leaves the prefix before `pos`, puts `data` right after it and leaves every byte after the copied region unchanged |
| AdpcmCodec.BlockBytesIs512 | src/uk/ac/open/audio/adpcm/ADPCMEncoder.java:30-40 | a block holds 1017 samples: 2034 PCM bytes encode to 512 bytes |
| AdpcmCodec.Adjustment | src/uk/ac/open/audio/adpcm/ADPCMEncoder.java:277-284 | the predictor adjustment is non-negative and below twice the step |
| AdpcmCodec.Apply | src/uk/ac/open/audio/adpcm/ADPCMEncoder.java:286-296 | clamping keeps the predictor a 16-bit sample and the step index inside the table |
| AdpcmCodec.Quantize | src/uk/ac/open/audio/adpcm/ADPCMEncoder.java:239-244 | the code is a nibble whose bit 3 is set exactly when the target lies below the predictor |
| AdpcmCodec.EncoderUpdate | src/uk/ac/open/audio/adpcm/ADPCMEncoder.java:257-296 | the encoder's update keeps the codec state valid |
| AdpcmCodec.DecoderUpdate | src/uk/ac/open/audio/adpcm/ADPCMDecoder.java:67-108 | the decoder's update keeps the codec state valid |
| AdpcmCodec.UpdatesAgree | src/uk/ac/open/audio/adpcm/ADPCMDecoder.java:67-108 | given the encoder's code sign-extended, the decoder lands in exactly the encoder's next state |
| AdpcmCodec.UpdateDirection | src/uk/ac/open/audio/adpcm/ADPCMEncoder.java:239-292 | each step moves the predictor towards the target: never down for a target at or above it, never up for one below |
| AdpcmCodec.EncCodes | src/uk/ac/open/audio/adpcm/ADPCMEncoder.java:233-297 | the encoder emits one code per sample |
| AdpcmCodec.EncPredictions | src/uk/ac/open/audio/adpcm/ADPCMEncoder.java:233-297 | the encoder reconstructs one predictor per sample |
| AdpcmCodec.DecOutputs | src/uk/ac/open/audio/adpcm/ADPCMDecoder.java:52-112 | the decoder outputs one sample per code |
| AdpcmCodec.EncCodesAreNibbles | src/uk/ac/open/audio/adpcm/ADPCMEncoder.java:242-255 | every emitted code fits a nibble |
| AdpcmCodec.DecStateOfEncCodes | src/uk/ac/open/audio/adpcm/ADPCMDecoder.java:52-112 | decoding the encoder's codes retraces the encoder's predictor and step index |
| AdpcmCodec.DecodeOfEncode | src/uk/ac/open/audio/adpcm/ADPCMDecoder.java:52-112 | round trip: decoding the emitted codes yields exactly the predictors the encoder reconstructed |
| AdpcmCodec.DecOutputsInRange | src/uk/ac/open/audio/adpcm/ADPCMDecoder.java:98-104 | every decoded sample is a 16-bit value |
| AdpcmEncoder.BlockCount | src/uk/ac/open/audio/adpcm/ADPCMEncoder.java:105 | the block count is the ceiling of samples / 1017: enough blocks for every sample and no spare block |
| AdpcmEncoder.WavHeader | src/uk/ac/open/audio/adpcm/ADPCMEncoder.java:102-128 | the header is exactly 60 bytes and the returned count is the block count |
| AdpcmEncoder.WavHeaderParts | src/uk/ac/open/audio/adpcm/ADPCMEncoder.java:109-126 | the header is the RIFF chunk, the `fmt ` chunk, the `fact` chunk and the `data` chunk start, in that order |
| AdpcmEncoder.FmtChunkKind | src/uk/ac/open/audio/adpcm/ADPCMEncoder.java:112-115 | the `fmt ` chunk has length 20, format tag 17 (IMA ADPCM) and one channel |
| AdpcmEncoder.FmtChunkRates | src/uk/ac/open/audio/adpcm/ADPCMEncoder.java:116-118 | 16000 samples per second, 8055 average bytes per second, blocks aligned at 512 bytes |
| AdpcmEncoder.FmtChunkCoding | src/uk/ac/open/audio/adpcm/ADPCMEncoder.java:119-121 | 4 bits per sample, 2 extra bytes, 1017 samples per block |
| AdpcmEncoder.WavHeaderTag | src/uk/ac/open/audio/adpcm/ADPCMDecoder.java:144-148 | byte 20 of every header written is 17, the byte the decoder checks |
| AdpcmEncoder.RiffChunkFields | src/uk/ac/open/audio/adpcm/ADPCMEncoder.java:109-111 | the RIFF chunk names `RIFF` and `WAVE` and records 52 plus the data size |
| AdpcmEncoder.FactChunkFields | src/uk/ac/open/audio/adpcm/ADPCMEncoder.java:122-124 | the `fact` chunk has length 4 and records the sample count |
| AdpcmEncoder.DataChunkFields | src/uk/ac/open/audio/adpcm/ADPCMEncoder.java:125-126 | the `data` chunk start records the data size |
| AdpcmEncoder.DataBytesInRange | src/uk/ac/open/audio/adpcm/ADPCMEncoder.java:105-106 | for sample counts where no `int` overflows, blocks * 512 needs no wrap-around |
| AdpcmEncoder.WavHeaderRiffSize | src/uk/ac/open/audio/adpcm/ADPCMEncoder.java:110 | the header records a RIFF size of 52 + blocks * 512 |
| AdpcmEncoder.WavHeaderSampleCount | src/uk/ac/open/audio/adpcm/ADPCMEncoder.java:124 | the header records the sample count it was given |
| AdpcmEncoder.WavHeaderDataSize | src/uk/ac/open/audio/adpcm/ADPCMEncoder.java:106-126 | the header records a data size of blocks * 512 |
| AdpcmEncoder.WavHeaderExample | src/uk/ac/open/audio/adpcm/ADPCMEncoder.java:105-127 | 2034 samples give 2 blocks, 1024 data bytes and a RIFF size of 1076 |
| AdpcmEncoder.WholeBlocksCount | src/uk/ac/open/audio/adpcm/ADPCMEncoder.java:54-56 | a header for n * 1017 samples returns n blocks, so the consistency check in `writeToWav` never fires |
| AdpcmEncoder.WavFile | src/uk/ac/open/audio/adpcm/ADPCMEncoder.java:48-65 | a file that is written starts with the header for `n * 1017` samples |
| AdpcmEncoder.WavFileOfBlocks | src/uk/ac/open/audio/adpcm/ADPCMEncoder.java:48-65 | for whole blocks the file is written; after the header come exactly the blocks' bytes in order, 60 + 512n bytes in all |
| AdpcmEncoder.Pack | src/uk/ac/open/audio/adpcm/ADPCMEncoder.java:246-255 | packing two nibbles per byte halves the length |
| AdpcmEncoder.NibbleSlot | src/uk/ac/open/audio/adpcm/ADPCMEncoder.java:246-255 | the next nibble always lands inside the block, and after the last sample exactly 512 bytes are filled, so the length check never fires |
| AdpcmEncoder.FirstAbove | src/uk/ac/open/audio/adpcm/ADPCMEncoder.java:222-225 | the search stops at the first step size above the difference, or at the table end when there is none |
| AdpcmEncoder.InitialIndex | src/uk/ac/open/audio/adpcm/ADPCMEncoder.java:218-227 | the initial step index lies inside the table and is at least 0 |
| AdpcmEncoder.InitialIndexIsClosest | src/uk/ac/open/audio/adpcm/ADPCMEncoder.java:218-227 | the initial step index picks the largest step size not above the first difference (or 0), every later step size exceeding it |
| AdpcmEncoder.InitialStepIndex | src/uk/ac/open/audio/adpcm/ADPCMEncoder.java:221-226 | the search loop computes exactly that initial index |
| AdpcmEncoder.SeqMax | src/uk/ac/open/audio/adpcm/ADPCMEncoder.java:215-236 | the maximum level is one of the samples and bounds them all |
| AdpcmEncoder.SeqMin | src/uk/ac/open/audio/adpcm/ADPCMEncoder.java:216-237 | the minimum level is one of the samples and bounds them all from below |
| AdpcmEncoder.PadBlock | src/uk/ac/open/audio/adpcm/ADPCMEncoder.java:191-198 | a short input is kept as the prefix of 2034 bytes, the rest zero |
| AdpcmEncoder.StartState | src/uk/ac/open/audio/adpcm/ADPCMEncoder.java:212-227 | the encoder starts from the first sample with a valid initial step index |
| AdpcmEncoder.EncodeBlockResult | src/uk/ac/open/audio/adpcm/ADPCMEncoder.java:188-203 | `encodeBlock` fails with `IllegalArgumentException` exactly when the input is longer than 2034 bytes |
| AdpcmEncoder.EncodeBlock | src/uk/ac/open/audio/adpcm/ADPCMEncoder.java:188-303 | the method pads or rejects its input and returns the block the specification defines |
| AdpcmEncoder.EncodeFullBlock | src/uk/ac/open/audio/adpcm/ADPCMEncoder.java:205-302 | filling the 512-byte array in place yields the first sample, the initial index, a blank byte and packed codes, with the extreme levels |
| AdpcmEncoder.PutNibble | src/uk/ac/open/audio/adpcm/ADPCMEncoder.java:246-255 | one code goes into the low half of a fresh byte or the high half of the pending one; the four header bytes stay unchanged |
| AdpcmEncoder.EncodedStart | src/uk/ac/open/audio/adpcm/ADPCMEncoder.java:212-216 | before the loop, only the first sample has been taken, verbatim, as predictor and both extremes |
| AdpcmEncoder.EncodedStep | src/uk/ac/open/audio/adpcm/ADPCMEncoder.java:235-296 | one loop turn appends the quantised code, applies the encoder update and widens the extremes |
| AdpcmEncoder.EncodedAll | src/uk/ac/open/audio/adpcm/ADPCMEncoder.java:233-297 | after the loop the codes are those of every sample after the first, and the extremes are the samples' maximum and minimum |
| AdpcmEncoder.PackedBlock | src/uk/ac/open/audio/adpcm/ADPCMEncoder.java:246-255 | a block holding all 1016 codes is its four header bytes followed by packed codes |
| AdpcmEncoder.EncodedBlock | src/uk/ac/open/audio/adpcm/ADPCMEncoder.java:205-302 | the filled array and the extremes make exactly the specified block |
| AdpcmEncoder.EncodeNext | src/uk/ac/open/audio/adpcm/ADPCMEncoder.java:235-296 | one sample is encoded: its nibble written, the state updated, the extremes widened |
| AdpcmEncoder.EncodeSamples | src/uk/ac/open/audio/adpcm/ADPCMEncoder.java:232-297 | the sample loop leaves the array holding the specified block |
| AdpcmDecoder.Unpack | src/uk/ac/open/audio/adpcm/ADPCMDecoder.java:55-65 | every byte yields two 4-bit codes, low half first |
| AdpcmDecoder.UnpackAt | src/uk/ac/open/audio/adpcm/ADPCMDecoder.java:55-65 | code 2k is the low half of byte k and code 2k+1 its high half |
| AdpcmDecoder.UnpackOfPack | src/uk/ac/open/audio/adpcm/ADPCMDecoder.java:55-65 | unpacking the encoder's packed bytes gives back its codes |
| AdpcmDecoder.PackOfUnpack | src/uk/ac/open/audio/adpcm/ADPCMEncoder.java:246-255 | packing the unpacked codes gives back the bytes |
| AdpcmDecoder.DecodeFull | src/uk/ac/open/audio/adpcm/ADPCMDecoder.java:39-115 | a block fails exactly when its step-index byte, read as a Java byte, lies outside the table; otherwise the output is 2034 bytes starting with the block's first two bytes |
| AdpcmDecoder.DecodeBlockResult | src/uk/ac/open/audio/adpcm/ADPCMDecoder.java:39-49 | `decodeBlock` fails exactly when the 512 bytes at `offset` do not lie in the array or the step index is out of the table |
| AdpcmDecoder.DecodedSamples | src/uk/ac/open/audio/adpcm/ADPCMDecoder.java:44-111 | decoded sample 0 is the stored first sample, followed by the decoder's predictor after each of the 1016 codes |
| AdpcmDecoder.NibblesRead | src/uk/ac/open/audio/adpcm/ADPCMDecoder.java:51-65 | the codes read so far number two per whole byte plus one for a byte whose high half is next |
| AdpcmDecoder.NibblesReadNext | src/uk/ac/open/audio/adpcm/ADPCMDecoder.java:55-65 | the next code is the high half of the current byte, which then moves on, or its low half |
| AdpcmDecoder.DecodedStep | src/uk/ac/open/audio/adpcm/ADPCMDecoder.java:52-112 | one loop turn applies the decoder update and appends the new sample's two bytes |
| AdpcmDecoder.DecodeNext | src/uk/ac/open/audio/adpcm/ADPCMDecoder.java:54-111 | one pass of the loop reads and sign-extends the next nibble, updates the state and writes the sample |
| AdpcmDecoder.PutSample | src/uk/ac/open/audio/adpcm/ADPCMDecoder.java:110-111 | sample i is written low byte then high byte at positions 2i and 2i+1, the earlier output unchanged |
| AdpcmDecoder.DecodedStart | src/uk/ac/open/audio/adpcm/ADPCMDecoder.java:41-51 | before the loop the first sample is copied and no code is read |
| AdpcmDecoder.DecodedBlock | src/uk/ac/open/audio/adpcm/ADPCMDecoder.java:52-114 | once 1017 samples are out, the array holds the specified decoded block |
| AdpcmDecoder.DecodeSamples | src/uk/ac/open/audio/adpcm/ADPCMDecoder.java:51-112 | the sample loop fills the 2034-byte array with the specified decoded block |
| AdpcmDecoder.DecodeBlock | src/uk/ac/open/audio/adpcm/ADPCMDecoder.java:39-115 | the method returns the decoded block, or the index exception, exactly as specified |
| AdpcmDecoder.Reconstructed | src/uk/ac/open/audio/adpcm/ADPCMDecoder.java:44-111 | the encoder's reconstruction is 2034 bytes and starts with the first sample's bytes |
| AdpcmDecoder.DecodeOfEncodeFull | src/uk/ac/open/audio/adpcm/ADPCMDecoder.java:39-115 | round trip: decoding an encoded block never fails and yields the first sample followed by the encoder's reconstructed predictors |
| AdpcmDecoder.EncodedBlockData | src/uk/ac/open/audio/adpcm/ADPCMEncoder.java:211-255 | an encoded block is the first sample's two bytes, the initial index, a zero, then the 1016 codes packed |
| AdpcmDecoder.EncodedBlockFields | src/uk/ac/open/audio/adpcm/ADPCMDecoder.java:44-49 | the decoder reads back from an encoded block the encoder's first sample, its start index (a non-negative byte) and its codes |
| AdpcmDecoder.ReadFully | src/uk/ac/open/audio/adpcm/ADPCMDecoder.java:152-171 | repeated short reads deliver `len` bytes or all that was left, in stream order |
| AdpcmDecoder.BlockStep | src/uk/ac/open/audio/adpcm/ADPCMDecoder.java:151-175 | the stream is closed exactly when it is already at its end; a returned block consumes 512 bytes and is 2034 PCM bytes |
| AdpcmDecoder.DecodeStep | src/uk/ac/open/audio/adpcm/ADPCMDecoder.java:125-181 | the first call reads the 60-byte header: end of stream inside it and a byte 20 other than 17 are errors; later calls decode one block |
| AdpcmDecoder.Decoder.constructor | src/uk/ac/open/audio/adpcm/ADPCMDecoder.java:117-123 | `init` keeps the stream and no header has been read |
| AdpcmDecoder.Decoder.Decode | src/uk/ac/open/audio/adpcm/ADPCMDecoder.java:125-181 | `decode()` returns what the specification gives and leaves the header and the stream as it says |
| AdpcmDecoder.DecodeNextBlock | src/uk/ac/open/audio/adpcm/ADPCMDecoder.java:152-175 | on a stream of encoded blocks `decode()` returns the next block's reconstruction, or null and closes at a block boundary |
| AdpcmDecoder.BlockStepOf | src/uk/ac/open/audio/adpcm/ADPCMDecoder.java:152-175 | a whole block followed by more bytes is decoded and the rest is left |
| AdpcmDecoder.DecodeWavFile | src/uk/ac/open/audio/adpcm/ADPCMDecoder.java:129-175 | the first `decode()` on a file `writeToWav` wrote accepts its header and returns the first block's reconstruction |
| AdpcmRecording.BlockTimeIsSampleTime | src/uk/ac/open/audio/adpcm/ADPCMRecording.java:54-66 | `(1017 * index) / 16` is the start of block `index` in ms at 16 kHz, and later blocks start later |
| AdpcmRecording.BlockRange | src/uk/ac/open/audio/adpcm/ADPCMRecording.java:74-86 | for 0 <= start <= size the range is `blocks[start..]` cut to `count`, min(count, size-start) blocks; otherwise the negative-size or iterator error |
| AdpcmRecording.WholeRange | src/uk/ac/open/audio/adpcm/ADPCMRecording.java:104 | the range from 0 of length `size` is every block, as `save` uses it |
| AdpcmRecording.Recording.constructor | src/uk/ac/open/audio/adpcm/ADPCMRecording.java:32 | a new recording holds no blocks |
| AdpcmRecording.Recording.AddBlock | src/uk/ac/open/audio/adpcm/ADPCMRecording.java:38-41 | the block is appended at the end |
| AdpcmRecording.Recording.Clear | src/uk/ac/open/audio/adpcm/ADPCMRecording.java:46-49 | the recording is left empty |
| AdpcmRecording.Recording.Time | src/uk/ac/open/audio/adpcm/ADPCMRecording.java:54-57 | `getTime` is `getBlockTime(size)` |
| AdpcmRecording.Recording.GetBlocks | src/uk/ac/open/audio/adpcm/ADPCMRecording.java:74-86 | the iterator loops return the specified range and leave the list unchanged |
| AdpcmRecording.Recording.Skip | src/uk/ac/open/audio/adpcm/ADPCMRecording.java:79-80 | skipping succeeds exactly when `start` blocks exist |
| AdpcmRecording.Recording.Copy | src/uk/ac/open/audio/adpcm/ADPCMRecording.java:81-84 | copying yields the next `count` blocks in order, or `NoSuchElementException` when they run out |
| AdpcmRecording.Recording.AllBlocks | src/uk/ac/open/audio/adpcm/ADPCMRecording.java:92-95 | every block in insertion order |
| AdpcmRecording.Recording.Save | src/uk/ac/open/audio/adpcm/ADPCMRecording.java:102-105 | the saved bytes are the WAV file of all blocks |
| StreamPlayerCore.DownloadBlock | src/uk/ac/open/audio/streaming/StreamPlayer.java:290-324 | one downloader round: a full 2048-byte block while at least 2048 bytes remain; otherwise the final block (none when nothing was left, else a partial non-empty one) and the stream closed; the bytes are taken from the front of the input in order |
| StreamPlayerCore.FullBlocksSize | src/uk/ac/open/audio/streaming/StreamPlayer.java:554-565 | full blocks hold 2048 bytes each, so n of them hold n * 2048 |
| StreamPlayerCore.DataSizeIsTotal | src/uk/ac/open/audio/streaming/StreamPlayer.java:554-565 | for the blocks the downloader builds, `getDataSize` is the total number of bytes downloaded |
| StreamPlayerCore.RemainingStart | src/uk/ac/open/audio/streaming/StreamPlayer.java:592 | a fresh cursor has every downloaded byte left |
| StreamPlayerCore.RemainingGrows | src/uk/ac/open/audio/streaming/StreamPlayer.java:433 | a block added to the list is added to what every cursor has left |
| StreamPlayerCore.BlockInputStream.constructor | src/uk/ac/open/audio/streaming/StreamPlayer.java:590-592 | a new stream starts at the first byte of the first block with `totalPos` 0 |
| StreamPlayerCore.BlockInputStream.Read | src/uk/ac/open/audio/streaming/StreamPlayer.java:616-672 | -1 exactly when nothing is unread and the download has finished; a wait when nothing is unread before then; otherwise min(len, unread) bytes, the next ones of the concatenated blocks in order, with `totalPos` grown by the count |
| StreamPlayerCore.Gather | src/uk/ac/open/audio/streaming/StreamPlayer.java:634-670 | the copy loop takes min(len, left) bytes from the cursor on and moves the cursor just past them |
| StreamPlayerCore.ReadDelivers | src/uk/ac/open/audio/streaming/StreamPlayer.java:616-672 | the delivered bytes are the concatenation's bytes from `totalPos` on, and what is left follows them |
| StreamPlayerCore.CursorSurvivesAdd | src/uk/ac/open/audio/streaming/StreamPlayer.java:621-631 | a block added while a reader waits keeps its cursor valid and extends what it has left |
| StreamPlayerCore.Coalesce | src/uk/ac/open/audio/streaming/StreamPlayer.java:765-801 | decoder results are joined in order, empty ones skipped, until 4608 bytes are reached or the end; a failure yields no audio; an end with nothing joined yields none |
| StreamPlayerCore.Transition | src/uk/ac/open/audio/streaming/StreamPlayer.java:443-499 | the state changes of `addBlock` here, of the timer (537-543), `hasNextAudio` (681-684) and the decoder thread (750-757, 834-845): `READYTOPLAY` with a final block goes to `FULLYLOADED`; `WAITBEFOREPLAY` with ready reports `READYTOPLAY`, then `FULLYLOADED` if final; `READYTOPLAY` not ready goes to `WAITBEFOREPLAY`; decoder end from `BUFFEREMPTY` or `WAITBEFOREPLAY` ends in `FULLYLOADED`; `hasNextAudio` enters `BUFFEREMPTY` exactly when fully loaded with an empty queue before the end; a full queue moves `BUFFEREMPTY` back to `FULLYLOADED` and leaves any other state; the timer firing reports `READYTOPLAY` then `FULLYLOADED`; `close` changes nothing |
| StreamPlayerCore.LeavesWaitOnlyWhenReady | src/uk/ac/open/audio/streaming/StreamPlayer.java:480-491 | a block moves a player out of `WAITBEFOREPLAY` only when it is ready |
| StreamPlayerCore.TransitionReported | src/uk/ac/open/audio/streaming/StreamPlayer.java:160-165 | every state change goes through `setState`: the last report is the new state, and no report means no change |
| StreamPlayerCore.ClosedNeverEntered | src/uk/ac/open/audio/streaming/StreamPlayer.java:108-120 | as written, no sequence of events, `close` included, reaches `CLOSED` from another state |
| StreamPlayerCore.ClosedAfterClose | src/uk/ac/open/audio/streaming/StreamPlayer.java:868-883 | with `close` entering `CLOSED`, the player is closed exactly when it started closed or `close` was called |
| StreamPlayerCore.StaticDelay | src/uk/ac/open/audio/streaming/StreamPlayer.java:341-400 | the static delay is never negative, and is 0 once downloaded bytes reach `bytesLength` with samples decoded |
| StreamPlayerCore.UnknownLengthCountsAsDownloaded | src/uk/ac/open/audio/streaming/StreamPlayer.java:350-353 | as written, an unknown length (-1) counts as fully downloaded as soon as anything is decoded |
| StreamPlayerCore.StaticDelayKnownLength | src/uk/ac/open/audio/streaming/StreamPlayer.java:347-353 | the corrected delay is never negative |
| StreamPlayerCore.KnownLengthDelay | src/uk/ac/open/audio/streaming/StreamPlayer.java:350-353 | the corrected delay agrees with the original for a known length, and for an unknown length is the estimate alone |
| StreamPlayerCore.PlaybackDelay | src/uk/ac/open/audio/streaming/StreamPlayer.java:571-585 | the delay is `UNKNOWN` or non-negative, and 0 only with at least 2 blocks, more than 4410 samples decoded and a known playback rate; past that gate it is the static delay as written, for the bytes downloaded so far |
| StreamPlayerCore.UnknownLengthReadyAtGate | src/uk/ac/open/audio/streaming/StreamPlayer.java:571-585 | as written, with an unknown length the delay is 0 as soon as the gate opens (2 blocks, more than 4410 samples, a known rate), whatever the estimate |
| StreamPlayerCore.ReadyWhenDownloaded | src/uk/ac/open/audio/streaming/StreamPlayer.java:571-585 | once the gate is open and every byte of a known length is in, the player is ready |
| StreamPlayerCore.StreamPlayer.constructor | src/uk/ac/open/audio/streaming/StreamPlayer.java:232-243 | a new player has nothing downloaded or decoded and waits before play |
| StreamPlayerCore.StreamPlayer.AddBlock | src/uk/ac/open/audio/streaming/StreamPlayer.java:407-500 | the block is appended, `downloadFinished` follows `finished`, and the state follows the transition whose `ready` is the playback delay being 0; so the player leaves `WAITBEFOREPLAY` only with at least 2 blocks, more than 4410 samples decoded and a known rate; the timer starts when the final block leaves it still waiting; `getDataSize` counts every byte |
| StreamPlayerCore.StreamPlayer.HasNextAudio | src/uk/ac/open/audio/streaming/StreamPlayer.java:679-686 | true exactly when `getNextAudio` will not throw; a fully loaded player with an empty queue before the end moves to `BUFFEREMPTY` |
| StreamPlayerCore.StreamPlayer.GetNextAudio | src/uk/ac/open/audio/streaming/StreamPlayer.java:694-707 | throws exactly when `hasNextAudio` would be false; returns and removes the queue head, or null once playback has finished |
| StreamPlayerCore.StreamPlayer.StartDecoder | src/uk/ac/open/audio/streaming/StreamPlayer.java:712-723 | a new decoder clears the queue and the counts and reads the blocks from the first byte |
| StreamPlayerCore.StreamPlayer.AwaitRoom | src/uk/ac/open/audio/streaming/StreamPlayer.java:748-763 | the decoder proceeds exactly when the queue has room and the player is open, stops once closed, and a wait moves `BUFFEREMPTY` to `FULLYLOADED` |
| StreamPlayerCore.StreamPlayer.Deliver | src/uk/ac/open/audio/streaming/StreamPlayer.java:803-848 | audio is queued and counted as length/4 samples (32-bit); no audio ends playback with the decoder-end transition; the queue never exceeds 5 blocks |
| StreamPlayerCore.StreamPlayer.DecoderFailed | src/uk/ac/open/audio/streaming/StreamPlayer.java:794-800 | as written, a failing `decode()` ends playback and reports nothing to the handler |
| StreamPlayerCore.StreamPlayer.DecoderFailedReported | src/uk/ac/open/audio/streaming/StreamPlayer.java:852-855 | the corrected failure path ends playback and reports the error to `streamError` |
| StreamPlayerCore.StreamPlayer.DecoderRound | src/uk/ac/open/audio/streaming/StreamPlayer.java:745-849 | one decoder round: joined audio of at least 4608 bytes or up to the end is queued; a failing `decode()` ends playback without a report to the handler and without a state change, as written (see Findings); the end finishes playback |
| StreamPlayerCore.StreamPlayer.TimerTick | src/uk/ac/open/audio/streaming/StreamPlayer.java:519-551 | the timer keeps running until the player closes or the playback delay is 0; only then does it report `READYTOPLAY` then `FULLYLOADED`, which needs at least 2 blocks, more than 4410 samples decoded and a known rate |
| StreamPlayerCore.StreamPlayer.Close | src/uk/ac/open/audio/streaming/StreamPlayer.java:868-883 | as written, `close` sets the close flag, which ends the threads, but leaves the state as it was and reports nothing (see Findings) |
| MarkReset.MarkSpec | src/uk/ac/open/audio/streaming/MarkResetStream.java:32-40 | `mark` starts an empty recording whose buffer holds at least `readlimit` bytes; a replay under way is left as it was |
| MarkReset.ResetSpec | src/uk/ac/open/audio/streaming/MarkResetStream.java:43-56 | `reset` succeeds exactly while marking; otherwise it throws `IOException("Not marking")` |
| MarkReset.Record | src/uk/ac/open/audio/streaming/MarkResetStream.java:103-136 | the mark survives a read exactly when the bytes taken fit the mark buffer; the replay and the limit are untouched |
| MarkReset.ReadInOrder | src/uk/ac/open/audio/streaming/MarkResetStream.java:71-139 | `read(b, off, len)` delivers at most `len` bytes, the pending replay then the original's bytes in order, and keeps the rest pending; -1 exactly at the real end of the stream, otherwise the count delivered |
| MarkReset.PassThrough | src/uk/ac/open/audio/streaming/MarkResetStream.java:121-123 | with no mark and no replay, reads pass the original stream through and change nothing |
| MarkReset.ReadKeepsMark | src/uk/ac/open/audio/streaming/MarkResetStream.java:101-136 | after any read the recording still equals the bytes read since the mark followed by what is pending, and the mark survives exactly while those bytes fit the limit |
| MarkReset.ResetRewinds | src/uk/ac/open/audio/streaming/MarkResetStream.java:43-51 | `reset` replays exactly the bytes read since the mark, followed by what was still pending, and the mark then holds with nothing read since |
| MarkReset.ResetTwice | src/uk/ac/open/audio/streaming/MarkResetStream.java:43-51 | a second `reset` replays the same bytes as the first |
| MarkReset.MarkStarts | src/uk/ac/open/audio/streaming/MarkResetStream.java:32-40 | `mark` outside a replay starts a mark with nothing read since |
| MarkReset.MarkDuringReplayForgets | src/uk/ac/open/audio/streaming/MarkResetStream.java:32-40 | as written, a `mark` during a replay records none of the replayed bytes, so a later `reset` does not go back to the mark |
| MarkReset.MarkKeepingReplaySpec | src/uk/ac/open/audio/streaming/MarkResetStream.java:32-40 | the corrected `mark` keeps the pending replay and makes the buffer large enough |
| MarkReset.MarkKeepingReplayStarts | src/uk/ac/open/audio/streaming/MarkResetStream.java:32-40 | the corrected `mark` starts a mark with nothing read since, replay or not, and agrees with the original outside a replay |
| MarkReset.ReadByteSpec | src/uk/ac/open/audio/streaming/MarkResetStream.java:148-174 | `read()` fails exactly when a replay is under way with nothing left in it |
| MarkReset.ReadByteInOrder | src/uk/ac/open/audio/streaming/MarkResetStream.java:148-174 | `read()` returns the next replayed byte sign-extended, or the original's next byte (recorded while it fits), or -1 at the end, and keeps the mark |
| MarkReset.ReplayedFFLooksLikeEnd | src/uk/ac/open/audio/streaming/MarkResetStream.java:152 | as written, a replayed byte 0xFF comes back as -1, the end-of-stream value |
| MarkReset.EmptyReplayFails | src/uk/ac/open/audio/streaming/MarkResetStream.java:43-51 | as written, `reset` straight after `mark` leaves an empty replay that `read()` indexes, an `ArrayIndexOutOfBoundsException` |
| MarkReset.ReadByteUnsignedInOrder | src/uk/ac/open/audio/streaming/MarkResetStream.java:148-174 | the corrected `read()` returns a replayed byte as 0..255 or the original's next byte, -1 only when neither exists, and keeps the mark |
| MarkReset.NextByte | src/uk/ac/open/audio/streaming/MarkResetStream.java:160 | the original's `read()` gives its first byte, or -1 exactly at its end |
| MarkReset.MarkResetStream.Current | src/uk/ac/open/audio/streaming/MarkResetStream.java:31-68 | the stream's fields always describe a consistent state |
| MarkReset.MarkResetStream.constructor | src/uk/ac/open/audio/streaming/MarkResetStream.java:31-68 | a new stream has no mark and no replay |
| MarkReset.MarkResetStream.Mark | src/uk/ac/open/audio/streaming/MarkResetStream.java:32-40 | with no buffer allocated yet, a negative `readlimit` fails with `NegativeArraySizeException` and changes nothing; otherwise the buffer holds at least `readlimit` bytes, recording restarts from position 0 and the fields follow `mark` as specified |
| MarkReset.MarkResetStream.Reset | src/uk/ac/open/audio/streaming/MarkResetStream.java:43-56 | the recording is copied into a new replay buffer when marking; otherwise `IOException` and no change |
| MarkReset.MarkResetStream.Keep | src/uk/ac/open/audio/streaming/MarkResetStream.java:103-136 | the bytes taken from the original are appended to the mark buffer while they fit, otherwise the mark is abandoned |
| MarkReset.MarkResetStream.Read | src/uk/ac/open/audio/streaming/MarkResetStream.java:71-139 | the fields and the result follow `read(b, off, len)` as specified, and the bytes taken from the original are the front of its stream |
| MarkReset.MarkResetStream.ReadPastReplay | src/uk/ac/open/audio/streaming/MarkResetStream.java:88-119 | the rest of the replay and then the original's bytes, recorded as specified |
| MarkReset.MarkResetStream.ReadByte | src/uk/ac/open/audio/streaming/MarkResetStream.java:148-174 | the fields and the result follow `read()` as specified, and the original advances only outside a replay |
| MarkReset.MarkResetStream.MarkKeepingReplay | src/uk/ac/open/audio/streaming/MarkResetStream.java:32-40 | the corrected `mark` records the pending replay first |
| MarkReset.MarkResetStream.ReadByteUnsigned | src/uk/ac/open/audio/streaming/MarkResetStream.java:148-174 | the corrected `read()` follows its specification |
| MarkReset.MarkResetStream.Available | src/uk/ac/open/audio/streaming/MarkResetStream.java:65-68 | `available()` is at least the pending replay and at most the replay plus what the original has left |
| MarkReset.MarkResetStream.Close | src/uk/ac/open/audio/streaming/MarkResetStream.java:59-62 | `close()` closes the original stream and changes nothing else |
| MarkReset.BasicSteps | test/uk/ac/open/audio/streaming/TestMarkResetStream.java:28-40 | `testBasic`: without mark and reset the bytes of a ten-byte stream arrive in order, then -1 |
| MarkReset.MarkSimpleSteps | test/uk/ac/open/audio/streaming/TestMarkResetStream.java:74-92 | `testMarkSimple`: after reading one byte, marking and reading 2..7, `reset` rewinds to byte 2 |
| MarkReset.MarkSimpleReplaySteps | test/uk/ac/open/audio/streaming/TestMarkResetStream.java:74-92 | `testMarkSimple`: the replay gives 2, 3, 4, 5, then 6, then the rest of the stream, then -1 |
| MarkReset.MultiResetSteps | test/uk/ac/open/audio/streaming/TestMarkResetStream.java:94-117 | `testMultiReset`: marking after five bytes and reading three sets up the replay |
| MarkReset.MultiResetReplaySteps | test/uk/ac/open/audio/streaming/TestMarkResetStream.java:94-117 | `testMultiReset`: each reset replays the same three bytes through `read()` and through `read(b, off, len)` |
| MarkReset.ReadMoreSteps | test/uk/ac/open/audio/streaming/TestMarkResetStream.java:119-144 | `testResetAndReadMore`: reading past the replay extends the marked region |
| MarkReset.ReadMoreAgainSteps | test/uk/ac/open/audio/streaming/TestMarkResetStream.java:119-144 | `testResetAndReadMore`: after the second reset, one byte through `read()` and five more, the last of them new |
| MarkReset.ReadMoreEndSteps | test/uk/ac/open/audio/streaming/TestMarkResetStream.java:119-144 | `testResetAndReadMore`: a third reset still rewinds to the mark and the reads run to the end of the stream |
| MarkReset.FailedResetSteps | test/uk/ac/open/audio/streaming/TestMarkResetStream.java:146-174 | `testFailedReset`: `reset` without a mark throws, and reading past the mark limit abandons the mark so `reset` throws again |
| PlaybackRingBuffer.WritePosAsWritten | mac/PlaybackDevice.cpp:180-189 | as written, `FinishAdd` advances the write position by `bytes` modulo the size, but may leave it at the size itself |
| PlaybackRingBuffer.WritePosAfterAdd | mac/PlaybackDevice.cpp:180-189 | the corrected `FinishAdd` advances the write position by `bytes` modulo the size and always indexes the buffer |
| PlaybackRingBuffer.ReadPosAfterFill | mac/PlaybackDevice.cpp:266-282 | a read advances the read position by `bytes` modulo the size, wrapping to 0 at the end |
| PlaybackRingBuffer.WrapAtEndReportsFull | mac/PlaybackDevice.cpp:180-189 | as written, two 5-byte adds and reads on a 10-byte ring leave an empty ring reported as holding 10 bytes; wrapping at the end reports 0 |
| PlaybackRingBuffer.RingBytes | mac/PlaybackDevice.cpp:191-202 | the unplayed bytes number `GetUnplayedSize` |
| PlaybackRingBuffer.TakeFront | mac/PlaybackDevice.cpp:266-282 | reading `n` bytes takes the oldest unplayed ones and moves the read position past them |
| PlaybackRingBuffer.AddBack | mac/PlaybackDevice.cpp:180-189 | committing `n` written bytes appends them to the unplayed ones |
| PlaybackRingBuffer.OutsideRing | mac/PlaybackDevice.cpp:148-178 | writing outside the unplayed bytes leaves them unchanged |
| PlaybackRingBuffer.Put | mac/AudioJNI.cpp:336-341 | one `memcpy` puts `data` at `pos` and leaves the rest of the buffer unchanged |
| PlaybackRingBuffer.StoredOnce | mac/PlaybackDevice.cpp:163-171 | a write before the end of the buffer leaves the unplayed bytes alone and can be read back at the write position |
| PlaybackRingBuffer.WrappedWrite | mac/PlaybackDevice.cpp:173-177 | a write that crosses the end puts its first part at the end and its second part at the front, the middle untouched |
| PlaybackRingBuffer.StoredTwice | mac/PlaybackDevice.cpp:173-177 | such a split write leaves the unplayed bytes alone and reads back, wrapping, at the write position |
| PlaybackRingBuffer.PlaybackRing.constructor | mac/PlaybackDevice.cpp:17-23 | a new ring holds 1.5 s of 16-bit audio, both positions at 0, nothing unplayed |
| PlaybackRingBuffer.PlaybackRing.UnplayedSize | mac/PlaybackDevice.cpp:191-202 | `GetUnplayedSize` counts the unplayed bytes, always fewer than the buffer size |
| PlaybackRingBuffer.PlaybackRing.RegionFor | mac/PlaybackDevice.cpp:163-177 | the region starts at the write position, its two parts sum to `bytes`, and there is no second part exactly when the write fits before the end |
| PlaybackRingBuffer.PlaybackRing.RequestAdd | mac/PlaybackDevice.cpp:148-178 | refuses exactly when the unplayed bytes plus `bytes` reach the buffer size, so one byte always stays free; otherwise returns the write region |
| PlaybackRingBuffer.PlaybackRing.Store | mac/AudioJNI.cpp:336-341 | copying into the region leaves the unplayed bytes unchanged and puts `data` at the write position, wrapping |
| PlaybackRingBuffer.PlaybackRing.FinishAdd | mac/PlaybackDevice.cpp:180-189 | the corrected `FinishAdd` of the first Findings row (wrapping at `>=`): the write position advances by `bytes` modulo the size, staying below the size, and the stored bytes join the unplayed ones |
| PlaybackRingBuffer.PlaybackRing.Take | mac/PlaybackDevice.cpp:266-282 | the oldest `bytes` unplayed bytes go to the target and leave the ring; the read position moves past them |
| PlaybackRingBuffer.PlaybackRing.CopyOut | mac/PlaybackDevice.cpp:266-282 | one copy when the bytes lie before the end, two when they cross it, together the span at the read position |
| PlaybackRingBuffer.PlaybackRing.FillBuffer | mac/PlaybackDevice.cpp:243-283 | exactly `bytes` bytes are written: min(bytes, unplayed) oldest bytes in order, then zeros |
| PlaybackRingBuffer.PlaybackRing.Underrun | mac/PlaybackDevice.cpp:251-263 | on underrun everything unplayed is taken by the recursive call and the rest of the target is zeroed |
| PlaybackRingBuffer.PlaybackRing.Reset | mac/PlaybackDevice.cpp:212-223 | both positions go to 0, emptying the ring, only when the hardware reset succeeds; otherwise "Error resetting" and no change |
| RecordingRingBuffer.Window | mac/RecordingDevice.cpp:264-276 | a window of `count` buffers from `from`, wrapping |
| RecordingRingBuffer.WindowSnoc | mac/RecordingDevice.cpp:254-259 | a window grows at its far end |
| RecordingRingBuffer.WindowFrame | mac/RecordingDevice.cpp:248-250 | rendering into the buffer just past the window leaves the pending buffers unchanged |
| RecordingRingBuffer.RecordingRing.Pending | mac/RecordingDevice.cpp:264-276 | fewer than n buffers are ever pending |
| RecordingRingBuffer.RecordingRing.constructor | mac/RecordingDevice.cpp:24-30 | a new ring has both indices at 0 and nothing pending |
| RecordingRingBuffer.RecordingRing.NumBuffers | mac/RecordingDevice.h:64 | there is at least one buffer |
| RecordingRingBuffer.RecordingRing.InputProc | mac/RecordingDevice.cpp:248-259 | the rendered buffer becomes the newest pending one; when n-1 were pending the oldest is dropped |
| RecordingRingBuffer.RecordingRing.RetrieveBuffer | mac/RecordingDevice.cpp:264-276 | NULL exactly when nothing is pending; otherwise the oldest pending buffer, which leaves the ring |
| AudioJni.DeviceTable.constructor | mac/AudioJNI.cpp:26-28 | both global tables start with all 16 slots empty |
| AudioJni.DeviceTable.Init | mac/AudioJNI.cpp:57-89 | for `recordingInit` here and `playbackInit` (236-268) alike: the lowest empty slot is taken; with all 16 full, "No more ... devices available" and no change; when the device's `Init` fails the slot is emptied again and its message raised |
| AudioJni.DeviceTable.Check | mac/AudioJNI.cpp:46-55 | for `CheckRecordingDevice` here and `CheckPlaybackDevice` (224-233) alike: ids below 0, of 16 or more, or of an empty slot are rejected with "Invalid device ID"; otherwise the slot's device |
| AudioJni.DeviceTable.Close | mac/AudioJNI.cpp:206-218 | for `recordingClose` here and `playbackClose` (391-403) alike: a valid id's slot is emptied and no other slot changes; an invalid id changes nothing |
| AudioJni.Devices | mac/AudioJNI.cpp:27-28 | every device in a slot is among the table's devices |
| AudioJni.RecordingInit | mac/AudioJNI.cpp:57-89 | a new, empty recording ring goes into the lowest empty slot; a failure leaves the table unchanged |
| AudioJni.PlaybackInit | mac/AudioJNI.cpp:236-268 | a new, empty playback ring goes into the lowest empty slot; a failure leaves the table unchanged |
| AudioJni.RecordingGetData | mac/AudioJNI.cpp:129-172 | every pending buffer, concatenated in retrieval order, after which none is pending; an invalid id is rejected |
| AudioJni.Drain | mac/AudioJNI.cpp:140-155 | `RetrieveBuffer` until NULL collects every pending buffer in order, and `samples` is their total size |
| AudioJni.FlattenPrefix | mac/AudioJNI.cpp:164-169 | the copy offsets never pass the total size, so every `SetByteArrayRegion` lies inside the output |
| AudioJni.PlaybackAddData | mac/AudioJNI.cpp:307-348 | an invalid id is rejected; the add succeeds exactly when the array is pinned and the ring has room, and then the data joins the unplayed bytes in order; otherwise nothing is committed |
| AudioJni.PlaybackGetUnplayedSize | mac/AudioJNI.cpp:350-359 | the number of unplayed bytes of a valid device; an invalid id is rejected |
| PlaybackFormat.Channels | src/uk/ac/open/audio/PlaybackDevice.java:31-36 | every format has one or two channels |
| PlaybackFormat.SampleRate | src/uk/ac/open/audio/PlaybackDevice.java:51-55 | 16000 Hz for 16 kHz mono, 44100 Hz for the two 44.1 kHz formats |
| PlaybackFormat.IsStereo | src/uk/ac/open/audio/PlaybackDevice.java:57-61 | stereo exactly for the 44.1 kHz stereo format, the only one with two channels |
| PlaybackFormat.BytesPerFrame | src/uk/ac/open/audio/PlaybackDevice.java:83-87 | a frame is one 16-bit sample per channel: 2 or 4 bytes |
| PlaybackFormat.BytesPerSecond | src/uk/ac/open/audio/PlaybackDevice.java:71 | the byte rate is rate times frame size: 32000, 88200 or 176400 |
| PlaybackFormat.ConvertBytesToMs | src/uk/ac/open/audio/PlaybackDevice.java:63-73 | the result is an `int`; for byte counts whose `bytes * 1000` fits, it is the floor of the milliseconds the bytes last |
| PlaybackFormat.JavaSoundBufferSize | src/uk/ac/open/audio/PlaybackDevice.java:75-81 | the JavaSound buffer holds exactly one and a half seconds of audio |
| PlaybackFormat.ConvertFramesToMs | src/uk/ac/open/audio/PlaybackDevice.java:89-97 | the result is an `int` product divided by the rate; when `frames * 1000` fits, it is the floor of the milliseconds the frames last |
| PlaybackFormat.FramesAndBytesAgree | src/uk/ac/open/audio/PlaybackDevice.java:69-97 | frames and the bytes they occupy convert to the same milliseconds |
| PlaybackFormat.BytesToMsWraps | src/uk/ac/open/audio/PlaybackDevice.java:72 | past 2147483 bytes the `int` product wraps and the estimate turns negative |
| JavaSoundPlayback.JavaSoundDevice.constructor | src/uk/ac/open/audio/JavaSoundPlaybackDevice.java:31-79 | a new device is neither playing nor paused and has no player; the latency is the `latency` property, or 50 ms without it |
| JavaSoundPlayback.JavaSoundDevice.Play | src/uk/ac/open/audio/JavaSoundPlaybackDevice.java:87-97 | `play` refuses a second player with "Already playing" while one is running; otherwise a player starts |
| JavaSoundPlayback.JavaSoundDevice.PlayerFinished | src/uk/ac/open/audio/JavaSoundPlaybackDevice.java:221-228 | when the player thread ends, normally or not, `currentPlayer` is cleared |
| JavaSoundPlayback.JavaSoundDevice.Start | src/uk/ac/open/audio/JavaSoundPlaybackDevice.java:233-242 | `start` throws "Already playing" on a playing device, otherwise sets `playing` |
| JavaSoundPlayback.JavaSoundDevice.Stop | src/uk/ac/open/audio/JavaSoundPlaybackDevice.java:244-256 | `stop` does nothing when not playing, otherwise clears both flags; either way the device ends neither playing nor paused |
| JavaSoundPlayback.JavaSoundDevice.Close | src/uk/ac/open/audio/JavaSoundPlaybackDevice.java:289-294 | `close` stops the device first |
| JavaSoundPlayback.JavaSoundDevice.Pause | src/uk/ac/open/audio/JavaSoundPlaybackDevice.java:296-305 | `pause` throws "Not currently playing" unless playing, and otherwise sets `paused` |
| JavaSoundPlayback.JavaSoundDevice.Resume | src/uk/ac/open/audio/JavaSoundPlaybackDevice.java:307-316 | `resume` throws "Not currently paused" unless paused, and otherwise clears `paused` |
| JavaSoundPlayback.JavaSoundDevice.WaitForEnd | src/uk/ac/open/audio/JavaSoundPlaybackDevice.java:258-287 | `waitForEnd` (guards at 260-271) answers with the shared guard: it throws when not playing, and when called from the player thread; otherwise it returns |
| PlaybackFormat.WaitForEndGuard | src/uk/ac/open/audio/PlaybackDevice.java:183 | the guard both devices put before `waitForEnd`: "Not playing" when nothing plays, the player-thread error when the player thread calls it, success exactly otherwise |
| JavaSoundPlayback.BlockTimeMs | src/uk/ac/open/audio/JavaSoundPlaybackDevice.java:168-169 | the current block's time is an `int`, 0 for the final null block |
| JavaSoundPlayback.WaitsWhenAhead | src/uk/ac/open/audio/JavaSoundPlaybackDevice.java:199-218 | without wrap-around, the thread waits exactly when the queued audio lasts at least block time + latency + 11 ms, and then for a positive time |
| JavaSoundPlayback.SentFrames | src/uk/ac/open/audio/JavaSoundPlaybackDevice.java:175 | the frames sent are never negative |
| JavaSoundPlayback.StartPoint | src/uk/ac/open/audio/JavaSoundPlaybackDevice.java:128-197 | for blocks followed by null, the line starts exactly once: after the first block for which sent ms exceed block ms plus latency, or at the null block when none does |
| MacPlayback.MacDevice.constructor | src/uk/ac/open/audio/MacPlaybackDevice.java:28-45 | a new device is neither playing nor paused and has no player |
| MacPlayback.MacDevice.Pause | src/uk/ac/open/audio/MacPlaybackDevice.java:86-100 | `pause` throws "Not currently playing" on an idle device and "Already paused" on a paused one, making no native call; otherwise it stops the native device and sets `paused`; a paused device is always a playing one |
| MacPlayback.MacDevice.Play | src/uk/ac/open/audio/MacPlaybackDevice.java:102-113 | `play` refuses a second player with "Already playing" while one is running; otherwise a player starts |
| MacPlayback.MacDevice.PlayerFinished | src/uk/ac/open/audio/MacPlaybackDevice.java:309-316 | when the player thread ends, normally or not, `currentPlayer` is cleared |
| MacPlayback.MacDevice.Resume | src/uk/ac/open/audio/MacPlaybackDevice.java:129-139 | `resume` throws "Not currently paused" unless paused; otherwise it clears `paused` and starts the native device again |
| MacPlayback.MacDevice.Start | src/uk/ac/open/audio/MacPlaybackDevice.java:141-150 | `start` throws "Already playing" on a playing device without a native call; otherwise it starts the native device and sets `playing` |
| MacPlayback.MacDevice.Stop | src/uk/ac/open/audio/MacPlaybackDevice.java:152-167 | `stop` does nothing to an idle device; a playing device is stopped (unless already paused) and then reset, and both flags are cleared |
| MacPlayback.MacDevice.WaitForEnd | src/uk/ac/open/audio/MacPlaybackDevice.java:169-198 | `waitForEnd` (guards at 171-182) answers with the shared guard: it succeeds exactly when the device is playing and the caller is not the player thread, with "Not playing" and the player-thread message as the two errors |
| MacPlayback.LatencyIsFiftyMs | src/uk/ac/open/audio/MacPlaybackDevice.java:240 | `latencyBytes` is 50 ms of 16-bit audio at the device's rate and channels, rounded down; 8820 bytes at 44.1 kHz stereo |
| MacPlayback.StartsIffLong | src/uk/ac/open/audio/MacPlaybackDevice.java:264-293 | before the device starts nothing is played, so the start rule fires for some block exactly when the clip's total length exceeds `latencyBytes` |
| MacPlayback.StartPoint | src/uk/ac/open/audio/MacPlaybackDevice.java:240-302 | the thread as written starts the device at most once, exactly when the start rule fires for some block; when it never fires, `drain` finds the whole clip unplayed |
| MacPlayback.ShortClipNeverStarts | src/uk/ac/open/audio/MacPlaybackDevice.java:285 | a clip no longer than `latencyBytes` never starts the device, so `drain` waits on an unplayed size nothing decreases; a single 1000-byte block at 44.1 kHz stereo is one |
| MacPlayback.StartPointWithFinal | src/uk/ac/open/audio/MacPlaybackDevice.java:279-301 | with the final `null` block also starting the device, every clip starts the device exactly once |
| RecordPageBuffer.RecordPage.constructor | src/uk/ac/open/audiorecorder/RecordPage.java:97-98 | the page starts with a one-block (2034-byte) buffer and nothing pending |
| RecordPageBuffer.RecordPage.RecordingBlock | src/uk/ac/open/audiorecorder/RecordPage.java:100-129 | after each piece the recording has gained exactly the encoded blocks of every complete 2034-byte chunk of the pending bytes plus the piece, and the buffer holds the remainder; when recording stops, a non-empty remainder is appended as one zero-padded block and nothing stays pending |
| RecordPageBuffer.RecordPage.TakePiece | src/uk/ac/open/audiorecorder/RecordPage.java:103-116 | one pass of the copy loop moves at least one byte and keeps the loop invariant: buffer = remainder of the bytes taken so far, recording = their complete chunks' blocks |
| RecordPageBuffer.RecordPage.BufferFilled | src/uk/ac/open/audiorecorder/RecordPage.java:110-115 | a buffer filled by the copy goes to the recording as one block and the buffer starts over with nothing pending |
| RecordPageBuffer.RecordPage.Flush | src/uk/ac/open/audiorecorder/RecordPage.java:118-128 | on stop the rest of the buffer is zeroed and the buffer goes to the recording as the padded final block of what was pending |
| RecordPageBuffer.RecordPage.CopyIn | src/uk/ac/open/audiorecorder/RecordPage.java:105-108 | `System.arraycopy` into the buffer appends exactly the copied bytes to the pending ones |
| RecordPageBuffer.RecordPage.AddBuffer | src/uk/ac/open/audiorecorder/RecordPage.java:112 | encoding a full buffer appends its block to the recording |
| RecordPageBuffer.AppendFills | src/uk/ac/open/audiorecorder/RecordPage.java:105-115 | bytes that complete the pending remainder to a full buffer add exactly one block, made of the remainder and those bytes, and leave nothing pending |
| RecordPageBuffer.AppendWaits | src/uk/ac/open/audiorecorder/RecordPage.java:105-110 | bytes that leave the buffer short of full add no block and join the remainder |
| Chunking.Chunks | src/uk/ac/open/audio/streaming/StreamPlayerUI.java:809-828 | every chunk the recorders cut is exactly 2034 bytes (one block of 1017 samples) |
| Chunking.Leftover | src/uk/ac/open/audio/streaming/StreamPlayerUI.java:812-823 | the remainder is shorter than one chunk and no longer than the input |
| Chunking.EncodeAll | src/uk/ac/open/audiorecorder/RecordPage.java:112 | one block per chunk, in order |
| Chunking.FinalBlock | src/uk/ac/open/audio/streaming/StreamPlayerUI.java:830-837 | recording stops with one last block when a remainder is pending and none otherwise |
| Chunking.EncodeChunk | src/uk/ac/open/audio/adpcm/ADPCMEncoder.java:188-199 | `encodeBlock` on exactly 2034 bytes pads nothing and cannot fail |
| Chunking.ChunksLength | src/uk/ac/open/audio/streaming/StreamPlayerUI.java:809-828 | `n` bytes make `n / 2034` chunks and leave `n % 2034` bytes |
| Chunking.ChunksAndLeftover | src/uk/ac/open/audio/streaming/StreamPlayerUI.java:809-823 | the chunks followed by the remainder are exactly the input: no byte is lost, duplicated or reordered |
| Chunking.ChunksSplit | src/uk/ac/open/audio/streaming/StreamPlayerUI.java:800-823 | carrying the remainder into the next piece gives the same chunks and remainder as chunking all the audio at once, so how the device splits its callbacks does not change the recording |
| Chunking.ChunkFills | src/uk/ac/open/audiorecorder/RecordPage.java:105-115 | a piece that completes the remainder to 2034 bytes adds exactly one chunk and leaves nothing |
| Chunking.OneChunk | src/uk/ac/open/audio/adpcm/ADPCMEncoder.java:188-199 | exactly 2034 bytes are one chunk with no remainder |
| Chunking.OneBlock | src/uk/ac/open/audiorecorder/RecordPage.java:112 | exactly 2034 bytes encode to one block |
| Chunking.ChunkWaits | src/uk/ac/open/audiorecorder/RecordPage.java:105-110 | a piece that leaves the remainder short of a chunk adds no chunk and joins the remainder |
| Chunking.EncodeAllSnoc | src/uk/ac/open/audio/streaming/StreamPlayerUI.java:826 | encoding one more chunk appends exactly its block |
| StreamRecorder.Datas | src/uk/ac/open/audio/streaming/StreamPlayerUI.java:826 | one queued byte array per block, in order |
| StreamRecorder.OverlapOf | src/uk/ac/open/audio/streaming/StreamPlayerUI.java:814-822 | `recordingOverlap` is `null` exactly when no bytes remain, and otherwise holds the remainder |
| StreamRecorder.StreamPlayerUI.constructor | src/uk/ac/open/audio/streaming/StreamPlayerUI.java:79-87 | a new window is not closing, has no overlap and an empty queue |
| StreamRecorder.StreamPlayerUI.RecordingBlock | src/uk/ac/open/audio/streaming/StreamPlayerUI.java:791-870 | a closing window ignores the piece; otherwise the queue gains the blocks of every complete chunk of overlap + piece and the remainder becomes the overlap; on stop a non-empty remainder is queued as a padded block, and the upload is the WAV header for all queued blocks followed by their bytes, leaving queue and overlap empty |
| StreamRecorder.StreamPlayerUI.ChunkAll | src/uk/ac/open/audio/streaming/StreamPlayerUI.java:809-828 | the chunking loop queues the block of every complete chunk of the input and returns the remainder |
| StreamRecorder.StreamPlayerUI.Finish | src/uk/ac/open/audio/streaming/StreamPlayerUI.java:830-849 | on stop a pending overlap is queued as one padded block and the queue is drained behind the header into the upload |
| StreamRecorder.StreamPlayerUI.QueueChunk | src/uk/ac/open/audio/streaming/StreamPlayerUI.java:826-827 | one pass of the chunking loop queues the chunk's block and keeps chunks-done + chunks-to-come and the remainder unchanged |
| StreamRecorder.StreamPlayerUI.Drain | src/uk/ac/open/audio/streaming/StreamPlayerUI.java:844-849 | the upload is the header for `size * 1017` samples and then every queued block, oldest first; the queue ends empty |
| StreamRecorder.QueueStep | src/uk/ac/open/audio/streaming/StreamPlayerUI.java:826-827 | the chunk at `pos` is the next chunk of the input, the remainder is unchanged, and the queue gains its block's bytes |
| StreamRecorder.NextChunk | src/uk/ac/open/audio/streaming/StreamPlayerUI.java:812-827 | the chunks of the input from `pos` are the one at `pos` followed by those after it |
| StreamRecorder.QueueBlock | src/uk/ac/open/audio/streaming/StreamPlayerUI.java:826 | queuing one more chunk's block appends its bytes |
| StreamRecorder.FinalData | src/uk/ac/open/audio/streaming/StreamPlayerUI.java:833-836 | the padded last block queues the bytes of `encodeBlock` on the zero-padded remainder |
| StreamRecorder.DatasFlatten | src/uk/ac/open/audio/streaming/StreamPlayerUI.java:846-849 | draining the queue into the upload lays out the blocks' data one after another, as the WAV writer does |
| StreamRecorder.UploadIsWavFile | src/uk/ac/open/audio/streaming/StreamPlayerUI.java:844-849 | the upload is byte for byte the WAV file that saving a recording of the same blocks produces |

## Left out

- Threads and monitors: the Downloader, AudioDecoder, timer, `PlayThread` and recording threads, and `wait`/`notifyAll`. Each operation is one atomic step taken under the object's lock, and a wait is an outcome the caller repeats. Only the integer decision rules of the playback threads are modelled.
- Real time: the timer's delay, the `wait(10)` polls, the `sleep` in the JavaSound thread, and the clock readings used by the download statistics.
- Floating point: the speed tiers and the 1.3 crossover of the static `getAppropriatePlaybackDelay`, `recentBytesPerSecondDownload`, `averageBytesPerSecondPlayback` and the percentages. Their result enters the model as an integer `estimate` parameter.
- `ADPCM.STEPSIZE` and `STEPINCREMENT_MAGNITUDE` are not part of this model. They are a parameter restricted by `AdpcmCodec.ValidTables`, so the proofs hold for any tables of that shape.
- `AudioUtil.convert` and the resampling it does are not part of this model. `AdpcmDecoder.Decoder.Decode` returns the 16 kHz PCM, and the Mac playback rules take the converted block lengths as input.
- The MP3 decoder, `getBeep`, and all painting and UI glue (wizard pages, buttons, progress display, applet parameters).
- I/O: the HTTP download and the `Uploader`. The file writes of `writeToWav` and `encodeToWav` are left out; `AdpcmEncoder.WavFile` is the byte sequence `writeToWav` writes.
- Hardware and foreign calls:
  - CoreAudio setup;
  - the hardware `Start`/`Stop`/`Reset` calls (their success is a parameter);
  - the JavaSound line;
  - the JNIEnv array APIs;
  - the mutex wrappers.
- The native getters `recordingGetRate`, `recordingIsStereo`, `playbackGetRate` and `playbackIsStereo`, and the native `recordingStart`/`Stop`/`Reset` and `playbackStart`/`Stop`/`Reset` wrappers: each only checks the id (`AudioJni.DeviceTable.Check`) and forwards to the hardware.
- `AudioJni.DeviceTable.Init`: when the device's own `Init` fails, the source empties the slot and raises the Java exception, but still returns the slot index to C (mac/AudioJNI.cpp:88, 267). The model returns the error instead, since Java sees only the exception.
- The render callback's conversion into the CoreAudio buffer list, and the recording callback's rendering into a buffer: only the ring positions and bytes are modelled.
- C `UInt32` arithmetic on ring positions is modelled as unbounded integers. The rings are smaller than 2^31 bytes, so no position sum wraps.
- `MarkReset.MarkResetStream.Read`: the caller's array `b` and offset `off` are not modelled; the bytes read are returned. Negative `len` is not modelled.
- `markSupported` (a constant `true`).
- The single-byte `read()` of `BlockInputStream` (StreamPlayer.java:595-602) is not modelled. It returns `data[0]` as a signed Java `byte`, so the byte 0xFF reads as -1, the end-of-stream value: the same slip as the `MarkResetStream.java:152` finding. Only `read(byte[],int,int)` is modelled.
- `MarkReset.MarkResetStream.ReadByte`: after the failing index into an empty replay, the source has already advanced `replayPos`. The model reports the error and leaves the stream unchanged.
- `AdpcmDecoder.DecodeBlock`: the header's step index is not checked by the source. An out-of-range index, and a read past the end of the input, are modelled as the `IndexOutOfBounds` error the Java array access raises, rather than as a precondition.
- The "latency" system property of the JavaSound device is an optional integer parameter. Parsing it (`Integer.parseInt` and its exception) is not modelled.
- `add` of both playback devices (conversion and native or line write), and `close` of the Mac device (`stop` then `playbackClose`): these are sequences of foreign calls.
- `MacPlayback.MacDevice.WaitForEnd` and `JavaSoundPlayback.JavaSoundDevice.WaitForEnd` state only the guards. The waiting for the player thread and `drain()`'s polling are not modelled.
- `JavaSoundPlayback.WaitsWhenAhead` assumes the ms values fit a Java `int` without wrap-around.
- StreamPlayer.java:445 computes the download statistics from `data.size()-1*BUFFERSIZE` (operator precedence). This only affects the floating-point statistics, which are not modelled.
- `StreamPlayerCore.StreamPlayer.AddBlock`: the artificial test delay (`ARTIFICIALDELAY`) is not modelled.
- `StreamPlayerCore.DownloadBlock`: the downloader's check of the close flag (StreamPlayer.java:299-302), which ends the thread after a read, is not modelled; one round always reads.
- `AdpcmEncoder.EncodeBlockResult` and `AdpcmEncoder.EncodeBlock` take the input slice itself rather than `(data, offset, length)`. The `System.arraycopy` range checks and the exception for a negative length are not modelled.
- Reflection factories (`PlaybackDevice.construct`, `RecordingDevice.construct`).

## Findings

| source | as written | input that shows it | evidently intended | confidence | as-written member | corrected member |
|---|---|---|---|---|---|---|
| mac/PlaybackDevice.cpp:185 | `FinishAdd` wraps the write position only when it passes `fBufferSize`, so it can rest on `fBufferSize` itself; once `FillBuffer` wraps the read position to 0, `GetUnplayedSize` reports a full ring for an empty one | a 10-byte ring: add 5, play 5, add 5, play 5; both positions end at the buffer's ends, 10 bytes are reported unplayed, so adds are refused until playback has replayed those 10 stale bytes | wrap when the position reaches `fBufferSize` (`>=`), keeping it in `[0, size)` | high, not executed | PlaybackRingBuffer.WrapAtEndReportsFull | PlaybackRingBuffer.PlaybackRing.FinishAdd |
| src/uk/ac/open/audio/MacPlaybackDevice.java:285 | the device is started only when more than `latencyBytes` are unplayed after an add, and the final `null` block adds nothing | 44.1 kHz stereo, one 1000-byte block (`latencyBytes` is 8820): the device never starts and `drain()` polls forever | start on the final `null` block too, as the JavaSound device does | high, not executed | MacPlayback.ShortClipNeverStarts | MacPlayback.StartPointWithFinal |
| src/uk/ac/open/audio/streaming/StreamPlayer.java:350 | the "fully downloaded" test `bytesDownloaded >= bytesLength` also holds for an unknown length (-1) | `bytesLength` = -1, nothing downloaded, one sample decoded: delay 0 instead of the 999999 ms estimate | apply the test only to a known length | medium, not executed | StreamPlayerCore.UnknownLengthCountsAsDownloaded | StreamPlayerCore.KnownLengthDelay |
| src/uk/ac/open/audio/streaming/StreamPlayer.java:119 | `CLOSED` is declared but no code assigns it, so a closed player keeps reporting its last state | any state followed by `close()` | `close()` enters `CLOSED`, which is final | medium, not executed | StreamPlayerCore.ClosedNeverEntered | StreamPlayerCore.ClosedAfterClose |
| src/uk/ac/open/audio/streaming/StreamPlayer.java:794-800 | a throw from `decode()` is only logged and marks play finished; `streamError` (852-855) is never called, so the handler sees a normal end | a corrupt block that makes `decode()` throw | report the error to the handler | medium, not executed | StreamPlayerCore.StreamPlayer.DecoderFailed | StreamPlayerCore.StreamPlayer.DecoderFailedReported |
| src/uk/ac/open/audio/streaming/MarkResetStream.java:152 | a replayed byte is returned as a signed Java `byte` | replaying the byte 0xFF returns -1, the end-of-stream value | return `replayBuffer[i] & 0xff` | high, not executed | MarkReset.ReplayedFFLooksLikeEnd | MarkReset.ReadByteUnsignedInOrder |
| src/uk/ac/open/audio/streaming/MarkResetStream.java:152 | `reset()` straight after `mark()` starts a replay of 0 bytes, which `read()` then indexes | `mark(10)`, `reset()`, `read()`: `ArrayIndexOutOfBoundsException` | an empty replay is finished at once | high, not executed | MarkReset.EmptyReplayFails | MarkReset.MarkResetStream.ReadByteUnsigned |
| src/uk/ac/open/audio/streaming/MarkResetStream.java:32-40 | `mark()` during a replay starts an empty recording, although the bytes the replay still delivers come after the mark point | stream 1,2,3 marked, read, reset; read 1; `mark(100)`; read 2,3; `reset()`: nothing is replayed instead of 2,3 | the new mark starts with the replay's remaining bytes | medium, not executed | MarkReset.MarkDuringReplayForgets | MarkReset.MarkResetStream.MarkKeepingReplay |
