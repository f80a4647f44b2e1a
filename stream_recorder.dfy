/** The player window's recorder: audio pieces from the recording device are
    cut into 2034-byte chunks, each chunk is encoded straight away and its
    ADPCM bytes queued; an incomplete tail waits as the "overlap" for the
    next piece. When recording stops, the overlap is encoded as one padded
    block and the queue is drained behind a WAV header into the upload. */
module StreamRecorder {
  import opened Bytes
  import opened AdpcmCodec
  import opened AdpcmEncoder
  import opened Chunking

  /** The data bytes of each block, in order. */
  function Datas(blocks: seq<Block>): (r: seq<seq<byte>>)
    ensures |r| == |blocks|
  {
    if blocks == [] then [] else Datas(blocks[..|blocks| - 1]) + [blocks[|blocks| - 1].data]
  }

  /** The pending overlap as bytes; `null` is none. */
  function OverlapBytes(overlap: Option<seq<byte>>): seq<byte> {
    if overlap.Some? then overlap.value else []
  }

  /** The overlap field for a remainder: `null` when it is empty. */
  function OverlapOf(rest: seq<byte>): (overlap: Option<seq<byte>>)
    ensures OverlapBytes(overlap) == rest
    ensures overlap.Some? ==> overlap.value != []
  {
    if rest == [] then None else Some(rest)
  }

  /** The upload: the WAV header for `|queued| * 1017` samples (an `int`
      product) and then every queued block's bytes. */
  function Upload(queued: seq<seq<byte>>): seq<byte> {
    WavHeader(Wrap32(|queued| * BLOCK_SAMPLES)).0 + Flatten(queued)
  }

  class StreamPlayerUI {
    /** Set once the window is closing; later pieces are ignored. */
    var close: bool
    /** `recordingOverlap`: the bytes after the last complete chunk. */
    var recordingOverlap: Option<seq<byte>>
    /** `recordedData`: the bytes of every encoded block not yet uploaded. */
    var recordedData: seq<seq<byte>>

    constructor ()
      ensures !close && recordingOverlap == None && recordedData == []
    {
      close := false;
      recordingOverlap := None;
      recordedData := [];
    }

    /** `recordingBlock`: unless the window is closing, the overlap and the
        first `bytes` bytes of `data` are chunked; every complete chunk's
        block is queued and the remainder becomes the overlap. When
        `stopped`, a non-empty remainder is queued as a padded block too,
        and the queue is emptied into the upload, which is returned. */
    method RecordingBlock(t: Tables, data: seq<byte>, bytes: int, stopped: bool)
        returns (upload: Option<seq<byte>>)
      requires ValidTables(t) && 0 <= bytes <= |data|
      modifies this
      ensures close == old(close)
      ensures old(close) ==> upload == None && recordingOverlap == old(recordingOverlap)
                             && recordedData == old(recordedData)
      ensures !old(close) ==>
        var pending := OverlapBytes(old(recordingOverlap)) + data[..bytes];
        var queued := old(recordedData) + Datas(EncodeChunks(t, pending));
        if stopped then
          && recordingOverlap == None && recordedData == []
          && upload == Some(Upload(queued + Datas(FinalBlock(t, Leftover(pending)))))
        else
          && recordingOverlap == OverlapOf(Leftover(pending)) && recordedData == queued
          && upload == None
    {
      upload := None;
      if close {
        return;
      }
      var input, length := data, bytes;
      if recordingOverlap.Some? {
        var includingOverlap := recordingOverlap.value + data[..bytes];
        input, length := includingOverlap, |includingOverlap|;
      }
      assert input[..length] == OverlapBytes(recordingOverlap) + data[..bytes];
      var rest := ChunkAll(t, input, length);
      recordingOverlap := OverlapOf(rest);
      if stopped {
        var u := Finish(t, rest);
        upload := Some(u);
      }
    }

    /** The chunking loop: the block of every complete chunk of
        `input[..length]` is queued; the remainder is returned. */
    method ChunkAll(t: Tables, input: seq<byte>, length: int) returns (rest: seq<byte>)
      requires ValidTables(t) && 0 <= length <= |input|
      modifies this`recordedData
      ensures recordedData == old(recordedData) + Datas(EncodeChunks(t, input[..length]))
      ensures rest == Leftover(input[..length])
    {
      ghost var queued0 := recordedData;
      var pos := 0;
      ghost var done: seq<seq<byte>> := [];
      assert input[..length][0..] == input[..length];
      while length - pos >= PCM_BLOCK_BYTES
        invariant 0 <= pos <= length <= |input|
        invariant forall i :: 0 <= i < |done| ==> |done[i]| == PCM_BLOCK_BYTES
        invariant done + Chunks(input[pos..length]) == Chunks(input[..length])
        invariant Leftover(input[pos..length]) == Leftover(input[..length])
        invariant recordedData == queued0 + Datas(EncodeAll(t, done))
        decreases length - pos
      {
        var next := pos + PCM_BLOCK_BYTES;
        done := QueueChunk(t, input, pos, next, length, done, queued0);
        pos := next;
      }
      rest := input[pos..length];
      assert Chunks(rest) == [] && Leftover(rest) == rest;
      assert done + [] == done;
    }

    /** Recording stopped: a pending overlap is queued as one padded block,
        then the queue is drained into the upload. */
    method Finish(t: Tables, ghost rest: seq<byte>) returns (upload: seq<byte>)
      requires ValidTables(t) && |rest| < PCM_BLOCK_BYTES && recordingOverlap == OverlapOf(rest)
      modifies this`recordedData, this`recordingOverlap
      ensures recordingOverlap == None && recordedData == []
      ensures upload == Upload(old(recordedData) + Datas(FinalBlock(t, rest)))
    {
      if recordingOverlap.Some? {
        var r := EncodeBlock(t, recordingOverlap.value);
        FinalData(t, rest, r.value);
        recordedData := recordedData + [r.value.data];
        recordingOverlap := None;
      } else {
        assert Datas(FinalBlock(t, rest)) == [];
        assert recordedData + [] == recordedData;
      }
      upload := Drain(t);
    }

    /** One pass of the chunking loop: the chunk at `pos` is encoded and its
        bytes queued. */
    method QueueChunk(t: Tables, input: seq<byte>, pos: int, next: int, length: int,
                      ghost done: seq<seq<byte>>, ghost queued0: seq<seq<byte>>)
        returns (ghost done': seq<seq<byte>>)
      requires ValidTables(t) && 0 <= pos && next == pos + PCM_BLOCK_BYTES <= length <= |input|
      requires forall i :: 0 <= i < |done| ==> |done[i]| == PCM_BLOCK_BYTES
      requires recordedData == queued0 + Datas(EncodeAll(t, done))
      modifies this`recordedData
      ensures forall i :: 0 <= i < |done'| ==> |done'[i]| == PCM_BLOCK_BYTES
      ensures recordedData == queued0 + Datas(EncodeAll(t, done'))
      ensures done' + Chunks(input[next..length]) == done + Chunks(input[pos..length])
      ensures Leftover(input[next..length]) == Leftover(input[pos..length])
    {
      var chunk := input[pos..next];
      var b := EncodeChunk(t, chunk);
      done' := done + [chunk];
      QueueStep(t, input, pos, next, length, done, queued0, b);
      recordedData := recordedData + [b.data];
    }

    /** Writes the header for the queued blocks, then moves every queued
        block's bytes into the upload, first queued first, leaving the queue
        empty. */
    method Drain(t: Tables) returns (upload: seq<byte>)
      modifies this`recordedData
      ensures recordedData == [] && upload == Upload(old(recordedData))
    {
      upload := WavHeader(Wrap32(|recordedData| * BLOCK_SAMPLES)).0;
      ghost var all := recordedData;
      assert upload + Flatten(recordedData) == Upload(all);
      while recordedData != []
        invariant upload + Flatten(recordedData) == Upload(all)
        decreases |recordedData|
      {
        ghost var before := upload;
        FlattenFront(recordedData);
        upload := upload + recordedData[0];
        Associative(before, recordedData[0], Flatten(recordedData[1..]));
        recordedData := recordedData[1..];
      }
      assert Flatten([]) == [] && upload + [] == upload;
    }
  }

  /** One chunk taken off the front of `input[pos..length]` and queued:
      the chunks seen so far grow by it, the chunks still to come lose it,
      the remainder is unchanged, and the queue gains its block's bytes. */
  lemma QueueStep(t: Tables, input: seq<byte>, pos: int, next: int, length: int,
                  done: seq<seq<byte>>, queued0: seq<seq<byte>>, b: Block)
    requires ValidTables(t) && 0 <= pos && next == pos + PCM_BLOCK_BYTES <= length <= |input|
    requires forall i :: 0 <= i < |done| ==> |done[i]| == PCM_BLOCK_BYTES
    requires b == EncodeFull(t, input[pos..next])
    ensures forall i :: 0 <= i < |done| + 1 ==> |(done + [input[pos..next]])[i]| == PCM_BLOCK_BYTES
    ensures (done + [input[pos..next]]) + Chunks(input[next..length]) == done + Chunks(input[pos..length])
    ensures Leftover(input[next..length]) == Leftover(input[pos..length])
    ensures queued0 + Datas(EncodeAll(t, done + [input[pos..next]]))
         == (queued0 + Datas(EncodeAll(t, done))) + [b.data]
  {
    NextChunk(input, pos, next, length, done);
    QueueBlock(t, done, input[pos..next], queued0, b);
  }

  /** The chunks of `input[pos..length]` are the one at `pos` and those
      after it; the remainder is the same. */
  lemma NextChunk(input: seq<byte>, pos: int, next: int, length: int, done: seq<seq<byte>>)
    requires 0 <= pos && next == pos + PCM_BLOCK_BYTES <= length <= |input|
    ensures (done + [input[pos..next]]) + Chunks(input[next..length]) == done + Chunks(input[pos..length])
    ensures Leftover(input[next..length]) == Leftover(input[pos..length])
  {
    var rest, c := input[pos..length], input[pos..next];
    assert rest[..PCM_BLOCK_BYTES] == c;
    assert rest[PCM_BLOCK_BYTES..] == input[next..length];
    assert Chunks(rest) == [c] + Chunks(input[next..length]);
    Associative(done, [c], Chunks(input[next..length]));
  }

  /** The queue after one more chunk's block. */
  lemma QueueBlock(t: Tables, done: seq<seq<byte>>, c: seq<byte>, queued0: seq<seq<byte>>, b: Block)
    requires ValidTables(t) && |c| == PCM_BLOCK_BYTES && b == EncodeFull(t, c)
    requires forall i :: 0 <= i < |done| ==> |done[i]| == PCM_BLOCK_BYTES
    ensures forall i :: 0 <= i < |done| + 1 ==> |(done + [c])[i]| == PCM_BLOCK_BYTES
    ensures queued0 + Datas(EncodeAll(t, done + [c])) == (queued0 + Datas(EncodeAll(t, done))) + [b.data]
  {
    EncodeAllSnoc(t, done, c);
    DatasSnoc(EncodeAll(t, done), b);
    Associative(queued0, Datas(EncodeAll(t, done)), [b.data]);
  }

  /** The bytes queued for the padded last block. */
  lemma FinalData(t: Tables, rest: seq<byte>, b: Block)
    requires ValidTables(t) && 0 < |rest| < PCM_BLOCK_BYTES && b == EncodeFull(t, PadBlock(rest))
    ensures Datas(FinalBlock(t, rest)) == [b.data]
  {
    assert Datas([b]) == Datas([]) + [b.data];
  }

  lemma DatasSnoc(blocks: seq<Block>, b: Block)
    ensures Datas(blocks + [b]) == Datas(blocks) + [b.data]
  {
    assert (blocks + [b])[..|blocks|] == blocks;
  }

  lemma FlattenFront(parts: seq<seq<byte>>)
    requires parts != []
    ensures Flatten(parts) == parts[0] + Flatten(parts[1..])
  {
    assert parts == [parts[0]] + parts[1..];
    FlattenCons(parts[0], parts[1..]);
  }

  /** The queued bytes of a sequence of blocks are the blocks' data one
      after another, as the WAV writer lays them out. */
  lemma {:induction false} DatasFlatten(blocks: seq<Block>)
    ensures Flatten(Datas(blocks)) == ConcatData(blocks)
  {
    if blocks != [] {
      var init := blocks[..|blocks| - 1];
      DatasFlatten(init);
      assert Datas(blocks)[..|blocks| - 1] == Datas(init);
    }
  }

  /** The upload built from the queued bytes of some blocks is the WAV file
      the recording of those blocks would be saved as. */
  lemma UploadIsWavFile(blocks: seq<Block>)
    requires HeaderSamplesInRange(|blocks| * BLOCK_SAMPLES)
    ensures WavFile(blocks) == Ok(Upload(Datas(blocks)))
  {
    WavFileOfBlocks(blocks);
    DatasFlatten(blocks);
  }
}
