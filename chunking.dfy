/** How both recorders cut a stream of 16-bit PCM, delivered in pieces of
    any length, into 2034-byte blocks for the encoder: every complete block
    is encoded as soon as it is in, the remainder waits for the next piece,
    and when recording stops a non-empty remainder is zero-padded into one
    last block. */
module Chunking {
  import opened Bytes
  import opened AdpcmCodec
  import opened AdpcmEncoder

  /** The complete 2034-byte chunks of `pcm`, in order. */
  function Chunks(pcm: seq<byte>): (chunks: seq<seq<byte>>)
    ensures forall i :: 0 <= i < |chunks| ==> |chunks[i]| == PCM_BLOCK_BYTES
  {
    if |pcm| < PCM_BLOCK_BYTES then [] else [pcm[..PCM_BLOCK_BYTES]] + Chunks(pcm[PCM_BLOCK_BYTES..])
  }

  /** The bytes after the last complete chunk. */
  function Leftover(pcm: seq<byte>): (rest: seq<byte>)
    ensures |rest| <= |pcm| && |rest| < PCM_BLOCK_BYTES
  {
    if |pcm| < PCM_BLOCK_BYTES then pcm else Leftover(pcm[PCM_BLOCK_BYTES..])
  }

  /** Each chunk encoded, in order. */
  function EncodeAll(t: Tables, chunks: seq<seq<byte>>): (blocks: seq<Block>)
    requires ValidTables(t) && forall i :: 0 <= i < |chunks| ==> |chunks[i]| == PCM_BLOCK_BYTES
    ensures |blocks| == |chunks|
  {
    if chunks == [] then []
    else EncodeAll(t, chunks[..|chunks| - 1]) + [EncodeFull(t, chunks[|chunks| - 1])]
  }

  /** The blocks encoded from the complete chunks of `pcm`. */
  function EncodeChunks(t: Tables, pcm: seq<byte>): seq<Block>
    requires ValidTables(t)
  {
    EncodeAll(t, Chunks(pcm))
  }

  /** The last block written when recording stops: the remainder padded
      with zeros, or nothing when there is no remainder. */
  function FinalBlock(t: Tables, rest: seq<byte>): (blocks: seq<Block>)
    requires ValidTables(t) && |rest| < PCM_BLOCK_BYTES
    ensures |blocks| == if rest == [] then 0 else 1
  {
    if rest == [] then [] else [EncodeFull(t, PadBlock(rest))]
  }

  /** `encodeBlock` on exactly one chunk: no padding, no error. */
  method EncodeChunk(t: Tables, chunk: seq<byte>) returns (b: Block)
    requires ValidTables(t) && |chunk| == PCM_BLOCK_BYTES
    ensures b == EncodeFull(t, chunk)
  {
    var r := EncodeBlock(t, chunk);
    assert PadBlock(chunk) == chunk;
    b := r.value;
  }

  /** One chunk fewer once the first chunk is taken; none in a short
      remainder. */
  lemma ChunkCount(n: nat)
    ensures n < PCM_BLOCK_BYTES ==> n / PCM_BLOCK_BYTES == 0 && n % PCM_BLOCK_BYTES == n
    ensures n >= PCM_BLOCK_BYTES ==>
      && (n - PCM_BLOCK_BYTES) / PCM_BLOCK_BYTES == n / PCM_BLOCK_BYTES - 1
      && (n - PCM_BLOCK_BYTES) % PCM_BLOCK_BYTES == n % PCM_BLOCK_BYTES
  {
    var k := n / PCM_BLOCK_BYTES;
    assert n == 2034 * k + n % 2034;
    if n >= 2034 {
      ModUnique(n - 2034, 2034, k - 1, n % 2034);
    } else {
      ModUnique(n, 2034, 0, n);
    }
  }

  /** `pcm` makes `|pcm| / 2034` chunks and leaves `|pcm| % 2034` bytes. */
  lemma {:induction false} ChunksLength(pcm: seq<byte>)
    ensures |Chunks(pcm)| == |pcm| / PCM_BLOCK_BYTES
    ensures |Leftover(pcm)| == |pcm| % PCM_BLOCK_BYTES
  {
    var n := |pcm|;
    ChunkCount(n);
    if n >= PCM_BLOCK_BYTES {
      var tail := pcm[PCM_BLOCK_BYTES..];
      ChunksLength(tail);
      assert |tail| == n - PCM_BLOCK_BYTES;
      assert |Chunks(pcm)| == 1 + |Chunks(tail)|;
      assert Leftover(pcm) == Leftover(tail);
    }
  }

  /** The chunks and the remainder put back together are the input. */
  lemma {:induction false} ChunksAndLeftover(pcm: seq<byte>)
    ensures Flatten(Chunks(pcm)) + Leftover(pcm) == pcm
  {
    if |pcm| >= PCM_BLOCK_BYTES {
      var head, tail := pcm[..PCM_BLOCK_BYTES], pcm[PCM_BLOCK_BYTES..];
      ChunksAndLeftover(tail);
      assert Chunks(pcm) == [head] + Chunks(tail);
      assert Leftover(pcm) == Leftover(tail);
      FlattenCons(head, Chunks(tail));
      Associative(head, Flatten(Chunks(tail)), Leftover(tail));
      assert head + tail == pcm;
    } else {
      assert Flatten(Chunks(pcm)) == [];
    }
  }

  /** Feeding the remainder of one piece and the next piece to the chunker
      gives the chunks and the remainder of chunking both pieces at once:
      how the audio is split into callbacks does not change the blocks. */
  lemma {:induction false} ChunksSplit(p1: seq<byte>, p2: seq<byte>)
    ensures Chunks(p1) + Chunks(Leftover(p1) + p2) == Chunks(p1 + p2)
    ensures Leftover(Leftover(p1) + p2) == Leftover(p1 + p2)
  {
    if |p1| >= PCM_BLOCK_BYTES {
      var p := p1 + p2;
      var tail := p1[PCM_BLOCK_BYTES..];
      var first := [p1[..PCM_BLOCK_BYTES]];
      assert p[..PCM_BLOCK_BYTES] == p1[..PCM_BLOCK_BYTES];
      assert p[PCM_BLOCK_BYTES..] == tail + p2;
      ChunksSplit(tail, p2);
      assert Chunks(p1) == first + Chunks(tail);
      assert Chunks(p) == first + Chunks(tail + p2);
      assert Leftover(p1) == Leftover(tail);
      Associative(first, Chunks(tail), Chunks(Leftover(tail) + p2));
    } else {
      assert Leftover(p1) == p1 && Chunks(p1) == [];
    }
  }

  /** Adding `piece` to a pending remainder that it completes: one more
      chunk, and nothing remains. */
  lemma ChunkFills(pcm: seq<byte>, piece: seq<byte>)
    requires |Leftover(pcm)| + |piece| == PCM_BLOCK_BYTES
    ensures Chunks(pcm + piece) == Chunks(pcm) + [Leftover(pcm) + piece]
    ensures Leftover(pcm + piece) == []
  {
    var joined := Leftover(pcm) + piece;
    ChunksSplit(pcm, piece);
    OneChunk(joined);
  }

  /** Exactly one chunk's worth of bytes is one chunk with no remainder. */
  lemma OneChunk(c: seq<byte>)
    requires |c| == PCM_BLOCK_BYTES
    ensures Chunks(c) == [c] && Leftover(c) == []
  {
    assert c[..PCM_BLOCK_BYTES] == c && c[PCM_BLOCK_BYTES..] == [];
    assert Chunks(c) == [c] + Chunks([]);
  }

  /** Exactly one chunk's worth of bytes encodes to its one block. */
  lemma OneBlock(t: Tables, c: seq<byte>)
    requires ValidTables(t) && |c| == PCM_BLOCK_BYTES
    ensures EncodeChunks(t, c) == [EncodeFull(t, c)]
  {
    OneChunk(c);
    assert EncodeAll(t, [c]) == EncodeAll(t, []) + [EncodeFull(t, c)];
  }

  /** Adding `piece` to a pending remainder that stays short of a chunk:
      no chunk, and the piece joins the remainder. */
  lemma ChunkWaits(pcm: seq<byte>, piece: seq<byte>)
    requires |Leftover(pcm)| + |piece| < PCM_BLOCK_BYTES
    ensures Chunks(pcm + piece) == Chunks(pcm)
    ensures Leftover(pcm + piece) == Leftover(pcm) + piece
  {
    ChunksSplit(pcm, piece);
  }

  lemma Associative<T>(a: seq<T>, b: seq<T>, c: seq<T>)
    ensures (a + b) + c == a + (b + c)
  {
  }

  /** Encoding one more chunk appends its block. */
  lemma EncodeAllSnoc(t: Tables, chunks: seq<seq<byte>>, c: seq<byte>)
    requires ValidTables(t) && |c| == PCM_BLOCK_BYTES
    requires forall i :: 0 <= i < |chunks| ==> |chunks[i]| == PCM_BLOCK_BYTES
    ensures EncodeAll(t, chunks + [c]) == EncodeAll(t, chunks) + [EncodeFull(t, c)]
  {
    assert (chunks + [c])[..|chunks|] == chunks;
  }
}
