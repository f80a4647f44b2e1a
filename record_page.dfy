/** The recording page's buffering: audio arrives from the recording device
    in pieces of any length; the page collects them in a one-block buffer,
    encodes and appends every full buffer to the recording, and when
    recording stops pads a partly filled buffer with silence and appends
    that too. */
module RecordPageBuffer {
  import opened Bytes
  import opened AdpcmCodec
  import opened AdpcmEncoder
  import opened AdpcmRecording
  import opened Chunking

  class RecordPage {
    /** One block of 16-bit PCM; its first `bufferPos` bytes are pending. */
    var buffer: array<byte>
    var bufferPos: int
    /** The recording the page appends to. */
    var adpcm: Recording

    ghost predicate Valid()
      reads this
    {
      buffer.Length == PCM_BLOCK_BYTES && 0 <= bufferPos < PCM_BLOCK_BYTES
    }

    constructor (adpcm: Recording)
      ensures Valid() && bufferPos == 0 && this.adpcm == adpcm
    {
      buffer := new byte[PCM_BLOCK_BYTES];
      bufferPos := 0;
      this.adpcm := adpcm;
    }

    /** `recordingBlock`: the first `bytes` bytes of `data` join the pending
        bytes; the recording gains the blocks of every complete chunk of the
        pending bytes, and, when `stopped`, the padded remainder as a last
        block, after which nothing is pending. */
    method RecordingBlock(t: Tables, data: seq<byte>, bytes: int, stopped: bool)
      requires ValidTables(t) && Valid() && 0 <= bytes <= |data|
      modifies this`bufferPos, buffer, adpcm
      ensures Valid()
      ensures var pending := old(buffer[..bufferPos]) + data[..bytes];
        && adpcm.blocks == old(adpcm.blocks) + EncodeChunks(t, pending)
             + (if stopped then FinalBlock(t, Leftover(pending)) else [])
        && buffer[..bufferPos] == if stopped then [] else Leftover(pending)
    {
      ghost var p0 := buffer[..bufferPos];
      ghost var blocks0 := adpcm.blocks;
      assert Leftover(p0) == p0 && Chunks(p0) == [];
      assert data[..0] == [] && p0 + [] == p0;
      var inPos := 0;
      while inPos < bytes
        invariant 0 <= inPos <= bytes && Valid()
        invariant buffer[..bufferPos] == Leftover(p0 + data[..inPos])
        invariant adpcm.blocks == blocks0 + EncodeChunks(t, p0 + data[..inPos])
        decreases bytes - inPos
      {
        inPos := TakePiece(t, data, inPos, bytes, p0, blocks0);
      }
      assert data[..inPos] == data[..bytes];
      if bufferPos != 0 && stopped {
        Flush(t);
      }
    }

    /** One pass of the copy loop: as much of `data[inPos..bytes]` as fits
        joins the buffer, and a full buffer goes to the recording; `next` is
        the new `inPos`. */
    method TakePiece(t: Tables, data: seq<byte>, inPos: int, bytes: int,
                     ghost head: seq<byte>, ghost blocks0: seq<Block>) returns (next: int)
      requires ValidTables(t) && Valid() && 0 <= inPos < bytes <= |data|
      requires buffer[..bufferPos] == Leftover(head + data[..inPos])
      requires adpcm.blocks == blocks0 + EncodeChunks(t, head + data[..inPos])
      modifies this`bufferPos, buffer, adpcm
      ensures Valid() && inPos < next <= bytes
      ensures buffer[..bufferPos] == Leftover(head + data[..next])
      ensures adpcm.blocks == blocks0 + EncodeChunks(t, head + data[..next])
    {
      var length := Min(PCM_BLOCK_BYTES - bufferPos, bytes - inPos);
      next := inPos + length;
      ghost var pending := head + data[..inPos];
      CopyIn(data, inPos, next);
      if bufferPos == PCM_BLOCK_BYTES {
        BufferFilled(t, data, inPos, next, head, blocks0);
      } else {
        AppendWaits(t, head, data, inPos, next);
      }
    }

    /** The copy filled the buffer with the pending bytes: the buffer's block
        goes to the recording and the buffer starts over. */
    method BufferFilled(t: Tables, data: seq<byte>, inPos: int, next: int,
                        ghost head: seq<byte>, ghost blocks0: seq<Block>)
      requires ValidTables(t) && 0 <= inPos <= next <= |data|
      requires buffer.Length == bufferPos == PCM_BLOCK_BYTES
      requires buffer[..bufferPos] == Leftover(head + data[..inPos]) + data[inPos..next]
      requires adpcm.blocks == blocks0 + EncodeChunks(t, head + data[..inPos])
      modifies this`bufferPos, adpcm
      ensures Valid() && bufferPos == 0 && Leftover(head + data[..next]) == []
      ensures adpcm.blocks == blocks0 + EncodeChunks(t, head + data[..next])
    {
      AppendFills(t, head, data, inPos, next, blocks0);
      AddBuffer(t, Leftover(head + data[..inPos]) + data[inPos..next]);
      bufferPos := 0;
    }

    /** Recording stopped with bytes pending: the rest of the buffer is
        cleared, the buffer goes to the recording, and nothing is pending. */
    method Flush(t: Tables)
      requires ValidTables(t) && Valid() && bufferPos != 0
      modifies this`bufferPos, buffer, adpcm
      ensures Valid() && bufferPos == 0
      ensures adpcm.blocks == old(adpcm.blocks) + FinalBlock(t, old(buffer[..bufferPos]))
    {
      ghost var rest := buffer[..bufferPos];
      // Clear rest of buffer
      while bufferPos < PCM_BLOCK_BYTES
        invariant |rest| <= bufferPos <= PCM_BLOCK_BYTES == buffer.Length
        invariant buffer[..|rest|] == rest
        invariant forall i :: |rest| <= i < bufferPos ==> buffer[i] == 0
        modifies this`bufferPos, buffer
      {
        buffer[bufferPos] := 0;
        bufferPos := bufferPos + 1;
      }
      assert buffer[..] == PadBlock(rest);
      AddBuffer(t, PadBlock(rest));
      bufferPos := 0;
    }

    /** `System.arraycopy(data, from, buffer, bufferPos, to - from)` and the
        advance of `bufferPos`. */
    method CopyIn(data: seq<byte>, from: int, to: int)
      requires buffer.Length == PCM_BLOCK_BYTES && 0 <= bufferPos
      requires 0 <= from <= to <= |data| && bufferPos + (to - from) <= PCM_BLOCK_BYTES
      modifies this`bufferPos, buffer
      ensures bufferPos == old(bufferPos) + (to - from)
      ensures buffer[..bufferPos] == old(buffer[..bufferPos]) + data[from..to]
    {
      forall i | 0 <= i < to - from {
        buffer[bufferPos + i] := data[from + i];
      }
      bufferPos := bufferPos + (to - from);
    }

    /** `getRecording().addBlock(ADPCMEncoder.encodeBlock(buffer, 0, buffer.length))`. */
    method AddBuffer(t: Tables, ghost full: seq<byte>)
      requires ValidTables(t) && buffer.Length == PCM_BLOCK_BYTES && buffer[..PCM_BLOCK_BYTES] == full
      modifies adpcm
      ensures adpcm.blocks == old(adpcm.blocks) + [EncodeFull(t, full)]
    {
      var input := buffer[..];
      assert input == full;
      var r := EncodeBlock(t, input);
      assert PadBlock(input) == input;
      adpcm.AddBlock(r.value);
    }
  }

  /** Taking the next bytes of `data` extends the bytes taken so far. */
  lemma PrefixGrows(head: seq<byte>, data: seq<byte>, i: int, j: int)
    requires 0 <= i <= j <= |data|
    ensures (head + data[..i]) + data[i..j] == head + data[..j]
  {
    assert data[..i] + data[i..j] == data[..j];
  }

  /** The pending bytes `head + data[..i]` grow by `data[i..j]` and fill
      the buffer: the recording gains exactly the buffer's block and nothing
      is pending. */
  lemma AppendFills(t: Tables, head: seq<byte>, data: seq<byte>, i: int, j: int, blocks0: seq<Block>)
    requires ValidTables(t) && 0 <= i <= j <= |data|
    requires |Leftover(head + data[..i])| + (j - i) == PCM_BLOCK_BYTES
    ensures blocks0 + EncodeChunks(t, head + data[..j])
         == (blocks0 + EncodeChunks(t, head + data[..i])) + [EncodeFull(t, Leftover(head + data[..i]) + data[i..j])]
    ensures Leftover(head + data[..j]) == []
  {
    var pending, piece := head + data[..i], data[i..j];
    PrefixGrows(head, data, i, j);
    ChunkFills(pending, piece);
    EncodeAllSnoc(t, Chunks(pending), Leftover(pending) + piece);
    Associative(blocks0, EncodeChunks(t, pending), [EncodeFull(t, Leftover(pending) + piece)]);
  }

  /** The pending bytes `head + data[..i]` grow by `data[i..j]` and stay
      short of a block: nothing is encoded and the new bytes are pending
      too. */
  lemma AppendWaits(t: Tables, head: seq<byte>, data: seq<byte>, i: int, j: int)
    requires ValidTables(t) && 0 <= i <= j <= |data|
    requires |Leftover(head + data[..i])| + (j - i) < PCM_BLOCK_BYTES
    ensures EncodeChunks(t, head + data[..j]) == EncodeChunks(t, head + data[..i])
    ensures Leftover(head + data[..j]) == Leftover(head + data[..i]) + data[i..j]
  {
    PrefixGrows(head, data, i, j);
    ChunkWaits(head + data[..i], data[i..j]);
  }
}
