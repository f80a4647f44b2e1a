/** `ADPCMRecording`: the encoded blocks of one recording, in the order they
    were recorded. */
module AdpcmRecording {
  import opened Bytes
  import opened AdpcmCodec
  import opened AdpcmEncoder

  /** `getBlockTime(index)`: the start of block `index` in milliseconds,
      `(1017 * index) / 16` in Java `int` arithmetic. */
  function BlockTime(index: int): (ms: int)
    requires InInt32(index)
  {
    JavaDiv(Wrap32(BLOCK_SAMPLES * index), 16)
  }

  /** While `1017 * index` fits in an `int`, the block start is the time
      of `1017 * index` samples at 16 kHz, rounded down to a millisecond,
      and later blocks start later. */
  lemma BlockTimeIsSampleTime(index: int)
    requires 0 <= index && BLOCK_SAMPLES * (index + 1) < 0x8000_0000
    ensures BlockTime(index) == (1000 * (BLOCK_SAMPLES * index)) / SAMPLE_RATE
    ensures BlockTime(index) < BlockTime(index + 1)
  {
    var x := BLOCK_SAMPLES * index;
    assert Wrap32(x) == x && Wrap32(x + BLOCK_SAMPLES) == x + BLOCK_SAMPLES;
    assert 1000 * x == 16000 * (x / 16) + 1000 * (x % 16);
    ModUnique(1000 * x, 16000, x / 16, 1000 * (x % 16));
    assert BLOCK_SAMPLES * (index + 1) == x + BLOCK_SAMPLES;
  }

  /** `getBlocks(start, count)`: `count` is cut to what lies after `start`
      when `start + count` (as an `int`) passes the end; a negative count
      fails allocating the result, and running the iterator off the end
      fails in `next()`. */
  function BlockRange(blocks: seq<Block>, start: int, count: int): (r: Result<seq<Block>>)
    requires |blocks| < 0x8000_0000 && InInt32(start) && InInt32(count)
    ensures 0 <= start <= |blocks| && 0 <= count && start + count < 0x8000_0000 ==>
      r == Ok(blocks[start..Min(start + count, |blocks|)])
    ensures r.Ok? ==> |r.value| == if Wrap32(start + count) > |blocks| then |blocks| - start else count
  {
    var n := |blocks|;
    var c := if Wrap32(start + count) > n then Wrap32(n - start) else count;
    var skip := Max(start, 0);
    if c < 0 then Err(NegativeArraySize)
    else if skip + c > n then Err(NoSuchElement)
    else Ok(blocks[skip..skip + c])
  }

  /** The range from block 0 of length `|blocks|` is every block. */
  lemma WholeRange(blocks: seq<Block>)
    requires |blocks| < 0x8000_0000
    ensures BlockRange(blocks, 0, |blocks|) == Ok(blocks)
  {
    assert blocks[0..|blocks|] == blocks;
  }

  class Recording {
    /** `blocks`, first recorded first. */
    var blocks: seq<Block>

    constructor ()
      ensures blocks == []
    {
      blocks := [];
    }

    /** `addBlock`: appends at the end. */
    method AddBlock(block: Block)
      modifies this
      ensures blocks == old(blocks) + [block]
    {
      blocks := blocks + [block];
    }

    /** `clear`: leaves no blocks. */
    method Clear()
      modifies this
      ensures blocks == []
    {
      blocks := [];
    }

    /** `getTime`: the recording's length in milliseconds, the start time of
        the block that would come next. */
    method Time() returns (ms: int)
      requires |blocks| < 0x8000_0000
      ensures ms == BlockTime(|blocks|)
    {
      ms := JavaDiv(Wrap32(BLOCK_SAMPLES * |blocks|), 16);
    }

    /** `getBlocks(start, count)`: skips `start` blocks through the
        iterator, then copies `count` of them; the list is left as it was. */
    method GetBlocks(start: int, count: int) returns (r: Result<seq<Block>>)
      requires |blocks| < 0x8000_0000 && InInt32(start) && InInt32(count)
      ensures r == BlockRange(blocks, start, count)
    {
      var n := |blocks|;
      var c := count;
      if Wrap32(start + count) > n {
        c := Wrap32(n - start);
      }
      if c < 0 {
        return Err(NegativeArraySize);
      }
      var skipped := Skip(start);
      if !skipped {
        return Err(NoSuchElement);
      }
      r := Copy(Max(start, 0), c);
    }

    /** The iterator moved past `start` blocks; false when it runs out. */
    method Skip(start: int) returns (ok: bool)
      ensures ok == (start <= |blocks|)
    {
      var next := 0;  // the iterator's position
      while next < start
        invariant 0 <= next <= Max(start, 0) && next <= |blocks|
      {
        if next == |blocks| {
          return false;
        }
        next := next + 1;
      }
      return true;
    }

    /** `count` blocks copied from the iterator at `from`; `NoSuchElement`
        when it runs out first. */
    method Copy(from: int, count: int) returns (r: Result<seq<Block>>)
      requires 0 <= from <= |blocks| && 0 <= count
      ensures r == if from + count > |blocks| then Err(NoSuchElement) else Ok(blocks[from..from + count])
    {
      var next := from;
      var result: seq<Block> := [];
      var dest := 0;
      while dest < count
        invariant 0 <= dest <= count && next == from + dest <= |blocks|
        invariant result == blocks[from..next]
      {
        if next == |blocks| {
          return Err(NoSuchElement);
        }
        result := result + [blocks[next]];
        next := next + 1;
        dest := dest + 1;
      }
      r := Ok(result);
    }

    /** `getBlocks()`: every block, in the order they were added. */
    method AllBlocks() returns (r: seq<Block>)
      ensures r == blocks
    {
      r := blocks;
    }

    /** `save`: the bytes `writeToWav` writes for all the blocks. */
    method Save() returns (r: Result<seq<byte>>)
      requires |blocks| < 0x8000_0000
      ensures r == WavFile(blocks)
    {
      var all := GetBlocks(0, |blocks|);
      WholeRange(blocks);
      r := WavFile(all.value);
    }
  }
}
