/** The sequential core of `StreamPlayer` (streaming/StreamPlayer.java):
    the downloaded blocks and the decoder's cursor over them, the bounded
    queue of decoded audio with `hasNextAudio` / `getNextAudio`, the
    coalescing of decoder output, the state machine reported to the
    handler, and the integer part of the readiness estimate. The threads
    are not modelled: each method is one step a thread takes while it holds
    the player's lock, and a wait is an outcome the caller repeats. */
module StreamPlayerCore {
  import opened Bytes
  import opened Streams

  /** `UNKNOWN`: a length or delay that is not known. */
  const UNKNOWN: int := -1
  /** `BUFFERSIZE`: the size of a downloaded block. */
  const BUFFER_SIZE: int := 2048
  /** `AUDIOBLOCKBUFFER`: how many decoded blocks the queue holds. */
  const AUDIO_BLOCK_BUFFER: int := 5
  /** `MINSAMPLESBEFORESTART`: 100 ms of audio at 44.1 kHz. */
  const MIN_SAMPLES_BEFORE_START: int := 4410
  /** `MINDECODEDBLOCKSIZE`: decoder results are joined up to this size. */
  const MIN_DECODED_BLOCK_SIZE: int := 4608

  datatype State = WaitBeforePlay | ReadyToPlay | FullyLoaded | BufferEmpty | Closed

  // ---------------------------------------------------------------------
  // Downloaded blocks

  /** The shape of the block list the downloader builds: every block holds
      2048 bytes, except that once the download has finished the last one
      may be shorter; no block is empty. */
  predicate Downloaded(data: seq<seq<byte>>, finished: bool) {
    forall i :: 0 <= i < |data| ==>
      0 < |data[i]| <= BUFFER_SIZE && (|data[i]| == BUFFER_SIZE || (finished && i == |data| - 1))
  }

  /** One pass of the downloader's outer loop: `read` into a fresh
      2048-byte buffer until it is full or the stream ends. A full buffer
      is handed over as a block that is not the last; at the end of the
      stream the partial buffer, or nothing when it is empty, is the final
      block, and the stream is closed. */
  method DownloadBlock(input: ByteStream) returns (block: Option<seq<byte>>, finished: bool)
    modifies input
    ensures old(input.rest) == (if block.Some? then block.value else []) + input.rest
    ensures finished <==> |old(input.rest)| < BUFFER_SIZE
    ensures !finished ==> block.Some? && |block.value| == BUFFER_SIZE
    ensures finished ==> (input.rest == [] && input.closed &&
      (block.None? <==> old(input.rest) == []) &&
      (block.Some? ==> 0 < |block.value| < BUFFER_SIZE))
  {
    var buffer := new byte[BUFFER_SIZE];
    var pos := 0;
    while pos != BUFFER_SIZE
      invariant 0 <= pos <= BUFFER_SIZE
      invariant old(input.rest) == buffer[..pos] + input.rest
      decreases BUFFER_SIZE - pos
    {
      var read := input.Read(BUFFER_SIZE - pos);
      if read.Eof? {
        input.Close();
        if pos != 0 {
          return Some(buffer[..pos]), true;
        }
        return None, true;
      }
      var next := pos + |read.data|;
      SetRegion(buffer, pos, next, read.data);
      pos := next;
    }
    assert buffer[..] == buffer[..BUFFER_SIZE];
    block, finished := Some(buffer[..]), false;
  }

  /** `getDataSize`: `(n - 1) * 2048` plus the length of the last block, in
      Java `int` arithmetic, or 0 without blocks. */
  function DataSize(data: seq<seq<byte>>): int {
    if |data| >= 1 then Wrap32(Wrap32((|data| - 1) * BUFFER_SIZE) + |data[|data| - 1]|) else 0
  }

  /** Full blocks hold 2048 bytes each. */
  lemma {:induction false} FullBlocksSize(data: seq<seq<byte>>)
    requires forall i :: 0 <= i < |data| ==> |data[i]| == BUFFER_SIZE
    ensures |Flatten(data)| == |data| * BUFFER_SIZE
    decreases |data|
  {
    if data != [] {
      FullBlocksSize(data[..|data| - 1]);
    }
  }

  /** For the blocks the downloader builds (and less than 2 GiB of them)
      `getDataSize` is the number of bytes downloaded. */
  lemma DataSizeIsTotal(data: seq<seq<byte>>, finished: bool)
    requires Downloaded(data, finished) && |Flatten(data)| < 0x8000_0000
    ensures DataSize(data) == |Flatten(data)|
  {
    if data != [] {
      var init := data[..|data| - 1];
      assert forall i :: 0 <= i < |init| ==> init[i] == data[i];
      FullBlocksSize(init);
    }
  }

  // ---------------------------------------------------------------------
  // The decoder's cursor over the blocks

  /** The bytes from block `blockPos`, offset `innerPos`, to the end of the
      blocks. */
  function Remaining(data: seq<seq<byte>>, blockPos: int, innerPos: int): seq<byte>
    requires 0 <= blockPos <= |data|
    requires blockPos < |data| ==> 0 <= innerPos <= |data[blockPos]|
    decreases |data| - blockPos
  {
    if blockPos == |data| then [] else data[blockPos][innerPos..] + Remaining(data, blockPos + 1, 0)
  }

  /** What is left from the start of block `k` is the concatenation of
      the blocks from `k` on. */
  lemma {:induction false} RemainingFrom(data: seq<seq<byte>>, k: int)
    requires 0 <= k <= |data|
    ensures Remaining(data, k, 0) == Flatten(data[k..])
    decreases |data| - k
  {
    if k < |data| {
      RemainingFrom(data, k + 1);
      assert data[k..] == [data[k]] + data[k + 1..];
      FlattenCons(data[k], data[k + 1..]);
      assert data[k][0..] == data[k];
    }
  }

  /** From the start, everything is left. */
  lemma RemainingStart(data: seq<seq<byte>>)
    ensures Remaining(data, 0, 0) == Flatten(data)
  {
    RemainingFrom(data, 0);
    assert data[0..] == data;
  }

  /** A block added to the list is added to what every cursor has left. */
  lemma {:induction false} RemainingGrows(data: seq<seq<byte>>, block: seq<byte>, blockPos: int, innerPos: int)
    requires 0 <= blockPos <= |data|
    requires blockPos < |data| ==> 0 <= innerPos <= |data[blockPos]|
    requires blockPos == |data| ==> innerPos == 0
    ensures Remaining(data + [block], blockPos, innerPos) == Remaining(data, blockPos, innerPos) + block
    decreases |data| - blockPos
  {
    var more := data + [block];
    if blockPos < |data| {
      RemainingGrows(data, block, blockPos + 1, 0);
      assert more[blockPos] == data[blockPos];
      calc {
        Remaining(more, blockPos, innerPos);
        data[blockPos][innerPos..] + Remaining(more, blockPos + 1, 0);
        data[blockPos][innerPos..] + (Remaining(data, blockPos + 1, 0) + block);
        (data[blockPos][innerPos..] + Remaining(data, blockPos + 1, 0)) + block;
      }
    } else {
      assert Remaining(more, blockPos + 1, 0) == [];
      assert block[0..] == block;
    }
  }

  /** The concatenation of the blocks grows by the block added. */
  lemma FlattenSnoc(data: seq<seq<byte>>, block: seq<byte>)
    ensures Flatten(data + [block]) == Flatten(data) + block
  {
    assert (data + [block])[..|data|] == data;
  }

  /** What `read(b, off, len)` does: returns -1, would wait for the
      downloader, or delivers bytes. */
  datatype ReadOutcome = EndOfData | MustWait | Bytes(bytes: seq<byte>)

  /** `BlockInputStream`: a position in the block list (block index, offset
      in the block) and the count of bytes delivered so far. */
  class BlockInputStream {
    var blockPos: int
    var innerPos: int
    var totalPos: int

    /** The cursor sits inside a block, or just past the last one, and
        everything from `totalPos` on in the concatenated blocks is what
        it has left. */
    ghost predicate ValidFor(data: seq<seq<byte>>)
      reads this
    {
      0 <= blockPos <= |data| && 0 <= innerPos &&
      (blockPos < |data| ==> innerPos < |data[blockPos]|) &&
      (blockPos == |data| ==> innerPos == 0) &&
      0 <= totalPos <= |Flatten(data)| &&
      Flatten(data)[totalPos..] == Remaining(data, blockPos, innerPos)
    }

    /** The bytes the cursor has not delivered. */
    ghost function Unread(data: seq<seq<byte>>): seq<byte>
      requires ValidFor(data)
      reads this
    {
      Remaining(data, blockPos, innerPos)
    }

    /** A new stream starts at the first byte of the first block. */
    constructor(ghost data: seq<seq<byte>>)
      requires forall i :: 0 <= i < |data| ==> data[i] != []
      ensures ValidFor(data) && Unread(data) == Flatten(data) && totalPos == 0
    {
      blockPos, innerPos, totalPos := 0, 0, 0;
      RemainingStart(data);
      assert Flatten(data)[0..] == Flatten(data);
    }

    /** `read(b, off, len)` over the blocks `data` while the download has
        (`downloadFinished`) or has not finished: -1 only when every block
        has been read and the download is over; a wait when every block has
        been read but more may come; otherwise the next `min(len, left)`
        bytes of the concatenated blocks, in order, with `totalPos` moved
        past them. */
    method Read(data: seq<seq<byte>>, downloadFinished: bool, len: int) returns (r: ReadOutcome)
      requires ValidFor(data) && Downloaded(data, downloadFinished) && 0 <= len
      modifies this
      ensures ValidFor(data)
      ensures r == EndOfData <==> old(Unread(data)) == [] && downloadFinished
      ensures r == MustWait <==> old(Unread(data)) == [] && !downloadFinished
      ensures !r.Bytes? ==> blockPos == old(blockPos) && innerPos == old(innerPos) && totalPos == old(totalPos)
      ensures r.Bytes? ==>
        r.bytes == old(Unread(data))[..Min(len, |old(Unread(data))|)] &&
        Unread(data) == old(Unread(data))[|r.bytes|..] &&
        totalPos == old(totalPos) + |r.bytes| &&
        r.bytes == Flatten(data)[old(totalPos)..totalPos]
    {
      if blockPos == |data| {
        return if downloadFinished then EndOfData else MustWait;
      }
      ghost var unread := Unread(data);
      var got, bp, ip := Gather(data, blockPos, innerPos, len);
      ReadDelivers(data, totalPos, unread, got, Remaining(data, bp, ip));
      blockPos, innerPos, totalPos := bp, ip, totalPos + |got|;
      r := Bytes(got);
    }
  }

  /** The copying loop of `read(b, off, len)`, from block `blockPos`,
      offset `innerPos`: whole rests of blocks are taken while they are
      shorter than what is still wanted, then the part wanted of the next
      block. Returns the bytes taken and where the cursor ends: the next
      `min(len, left)` bytes are taken. */
  method Gather(data: seq<seq<byte>>, blockPos: int, innerPos: int, len: int)
    returns (got: seq<byte>, bp: int, ip: int)
    requires 0 <= blockPos < |data| && 0 <= innerPos < |data[blockPos]| && 0 <= len
    requires forall i :: 0 <= i < |data| ==> data[i] != []
    ensures 0 <= bp <= |data| && 0 <= ip
    ensures bp < |data| ==> ip < |data[bp]|
    ensures bp == |data| ==> ip == 0
    ensures got + Remaining(data, bp, ip) == Remaining(data, blockPos, innerPos)
    ensures |got| == Min(len, |Remaining(data, blockPos, innerPos)|)
  {
    ghost var unread := Remaining(data, blockPos, innerPos);
    bp, ip := blockPos, innerPos;
    got := [];
    var want := len;
    var done := false;
    while bp < |data| && !done
      invariant 0 <= bp <= |data| && 0 <= ip
      invariant bp < |data| ==> ip < |data[bp]|
      invariant bp == |data| ==> ip == 0
      invariant got + Remaining(data, bp, ip) == unread
      invariant |got| + want == len && 0 <= want
      invariant done ==> want == 0
      invariant !done ==> 0 < want || (got == [] && bp < |data|)
      decreases |data| - bp, if done then 0 else 1
    {
      var current := data[bp];
      var available := |current| - ip;
      if available >= want {
        var next := ip + want;
        TakePart(data, bp, ip, next, got);
        got := got + current[ip..next];
        want := 0;
        if next == |current| {
          RemainingAtEnd(data, bp);
          bp, ip := bp + 1, 0;
        } else {
          ip := next;
        }
        done := true;
      } else {
        TakeWhole(data, bp, ip, got);
        got := got + current[ip..];
        want := want - available;
        bp, ip := bp + 1, 0;
      }
    }
    if !done {
      assert got + [] == got;
    }
  }

  /** Taking the rest of the current block moves the cursor to the next
      block and keeps what was taken plus what is left. */
  lemma TakeWhole(data: seq<seq<byte>>, bp: int, ip: int, got: seq<byte>)
    requires 0 <= bp < |data| && 0 <= ip <= |data[bp]|
    ensures (got + data[bp][ip..]) + Remaining(data, bp + 1, 0) == got + Remaining(data, bp, ip)
  {
    assert (got + data[bp][ip..]) + Remaining(data, bp + 1, 0) ==
      got + (data[bp][ip..] + Remaining(data, bp + 1, 0));
  }

  /** Taking part of the current block, up to `next`, keeps what was taken
      plus what is left. */
  lemma TakePart(data: seq<seq<byte>>, bp: int, ip: int, next: int, got: seq<byte>)
    requires 0 <= bp < |data| && 0 <= ip <= next <= |data[bp]|
    ensures (got + data[bp][ip..next]) + Remaining(data, bp, next) == got + Remaining(data, bp, ip)
  {
    RemainingSplit(data, bp, ip, next);
    assert (got + data[bp][ip..next]) + Remaining(data, bp, next) ==
      got + (data[bp][ip..next] + Remaining(data, bp, next));
  }

  /** What is left from `innerPos` is the bytes up to `next`, then what
      is left from `next`. */
  lemma RemainingSplit(data: seq<seq<byte>>, blockPos: int, innerPos: int, next: int)
    requires 0 <= blockPos < |data| && 0 <= innerPos <= next <= |data[blockPos]|
    ensures Remaining(data, blockPos, innerPos) ==
      data[blockPos][innerPos..next] + Remaining(data, blockPos, next)
  {
    var current := data[blockPos];
    var after := Remaining(data, blockPos + 1, 0);
    SliceSplit(current, innerPos, next);
    calc {
      Remaining(data, blockPos, innerPos);
      current[innerPos..] + after;
      (current[innerPos..next] + current[next..]) + after;
      current[innerPos..next] + (current[next..] + after);
      current[innerPos..next] + Remaining(data, blockPos, next);
    }
  }

  lemma SliceSplit(s: seq<byte>, i: int, j: int)
    requires 0 <= i <= j <= |s|
    ensures s[i..] == s[i..j] + s[j..]
  {
  }

  /** At the end of a block nothing of it is left. */
  lemma RemainingAtEnd(data: seq<seq<byte>>, blockPos: int)
    requires 0 <= blockPos < |data|
    ensures Remaining(data, blockPos, |data[blockPos]|) == Remaining(data, blockPos + 1, 0)
  {
    assert data[blockPos][|data[blockPos]|..] == [];
  }

  /** What was delivered and what is left after it split the unread bytes,
      which begin at `start` in the concatenation. */
  lemma ReadDelivers(data: seq<seq<byte>>, start: int, unread: seq<byte>, got: seq<byte>, rest: seq<byte>)
    requires 0 <= start <= |Flatten(data)| && Flatten(data)[start..] == unread
    requires got + rest == unread
    ensures rest == unread[|got|..] && got == unread[..|got|]
    ensures start + |got| <= |Flatten(data)| && Flatten(data)[start + |got|..] == rest
    ensures got == Flatten(data)[start..start + |got|]
  {
    assert unread[..|got|] == got;
    assert Flatten(data)[start..][..|got|] == Flatten(data)[start..start + |got|];
  }

  /** A block added to the list keeps every cursor valid; what it has left
      grows by the block. */
  lemma CursorSurvivesAdd(data: seq<seq<byte>>, block: seq<byte>, blockPos: int, innerPos: int, totalPos: int)
    requires 0 <= blockPos <= |data| && 0 <= innerPos
    requires blockPos < |data| ==> innerPos < |data[blockPos]|
    requires blockPos == |data| ==> innerPos == 0
    requires 0 <= totalPos <= |Flatten(data)| && Flatten(data)[totalPos..] == Remaining(data, blockPos, innerPos)
    ensures totalPos <= |Flatten(data + [block])|
    ensures Flatten(data + [block])[totalPos..] == Remaining(data + [block], blockPos, innerPos)
    ensures Remaining(data + [block], blockPos, innerPos) == Remaining(data, blockPos, innerPos) + block
  {
    FlattenSnoc(data, block);
    RemainingGrows(data, block, blockPos, innerPos);
    assert (Flatten(data) + block)[totalPos..] == Flatten(data)[totalPos..] + block;
  }

  // ---------------------------------------------------------------------
  // Coalescing decoder output

  /** One result of the decoder's `decode()`: audio (possibly empty), the
      end of the audio (`null`), or a thrown exception. */
  datatype Decoded = Audio(bytes: seq<byte>) | EndOfAudio | Failure(error: Exception)

  /** The audio of the given results, in order. */
  function Joined(outputs: seq<Decoded>): seq<byte> {
    if outputs == [] then []
    else
      var last := outputs[|outputs| - 1];
      Joined(outputs[..|outputs| - 1]) + (if last.Audio? then last.bytes else [])
  }

  /** The results a decoder will produce from now on end with the end of
      the audio or a failure. */
  predicate Ends(outputs: seq<Decoded>) {
    |outputs| > 0 && !outputs[|outputs| - 1].Audio?
  }

  lemma JoinedStep(outputs: seq<Decoded>, k: int)
    requires 0 <= k < |outputs|
    ensures Joined(outputs[..k + 1]) ==
      Joined(outputs[..k]) + (if outputs[k].Audio? then outputs[k].bytes else [])
  {
    assert outputs[..k + 1][..k] == outputs[..k];
  }

  /** The inner loop of the decoder thread: `decode()` is called (`used`
      times) until it returns `null`, throws, or the audio gathered reaches
      4608 bytes. Empty results are skipped; the rest are joined in order.
      The result is `null` when nothing was gathered, and discarded after a
      failure. */
  method Coalesce(outputs: seq<Decoded>) returns (audio: Option<seq<byte>>, used: nat)
    requires Ends(outputs)
    ensures 0 < used <= |outputs|
    ensures forall j :: 0 <= j < used - 1 ==> outputs[j].Audio?
    ensures |Joined(outputs[..used - 1])| < MIN_DECODED_BLOCK_SIZE
    ensures !outputs[used - 1].Audio? || |Joined(outputs[..used])| >= MIN_DECODED_BLOCK_SIZE
    ensures outputs[used - 1].Failure? ==> audio.None?
    ensures !outputs[used - 1].Failure? ==>
      audio == if Joined(outputs[..used]) == [] then None else Some(Joined(outputs[..used]))
  {
    var gathered: seq<byte> := [];
    used := 0;
    while true
      invariant 0 <= used < |outputs|
      invariant forall j :: 0 <= j < used ==> outputs[j].Audio?
      invariant gathered == Joined(outputs[..used]) && |gathered| < MIN_DECODED_BLOCK_SIZE
      decreases |outputs| - used
    {
      var result := outputs[used];
      JoinedStep(outputs, used);
      used := used + 1;
      if !result.Audio? {
        assert Joined(outputs[..used]) == gathered + [] == gathered;
      }
      if result.EndOfAudio? {
        return if gathered == [] then None else Some(gathered), used;
      }
      if result.Failure? {
        return None, used;
      }
      if |result.bytes| == 0 {
        assert gathered + result.bytes == gathered;
        continue;
      }
      gathered := gathered + result.bytes;
      if |gathered| >= MIN_DECODED_BLOCK_SIZE {
        return Some(gathered), used;
      }
    }
  }

  // ---------------------------------------------------------------------
  // States reported to the handler

  /** What moves the state: a downloaded block (whether it is the last and
      whether the estimate said "ready"), a `hasNextAudio` call (queue empty,
      `playFinished`), the decoder finding the queue full, the decoder
      reaching the end, the retry timer finding the player ready, and
      `close`. */
  datatype Trigger =
    | BlockAdded(finished: bool, ready: bool)
    | AudioChecked(queueEmpty: bool, playFinished: bool)
    | QueueFull
    | DecoderEnded
    | TimerFired
    | CloseCalled

  /** The new state and the states passed to `streamChangedState`, in
      order. */
  datatype Step = Step(state: State, reported: seq<State>)

  /** The state changes as written (`addBlock`, `hasNextAudio`, the decoder
      thread, the timer; `close` changes no state). */
  function Transition(s: State, t: Trigger): (step: Step)
    ensures s == ReadyToPlay && t.BlockAdded? && t.finished ==> step.state == FullyLoaded
    ensures s == WaitBeforePlay && t.BlockAdded? && t.ready ==>
      step.reported == [ReadyToPlay] + (if t.finished then [FullyLoaded] else [])
    ensures s == ReadyToPlay && t == BlockAdded(false, false) ==> step.state == WaitBeforePlay
    ensures t == DecoderEnded && (s == BufferEmpty || s == WaitBeforePlay) ==> step.state == FullyLoaded
    ensures t.AudioChecked? ==> (step.state == BufferEmpty <==>
      s == BufferEmpty || (s == FullyLoaded && t.queueEmpty && !t.playFinished))
    ensures t == QueueFull ==> step.state == (if s == BufferEmpty then FullyLoaded else s)
    ensures t == TimerFired ==> step.state == FullyLoaded && step.reported == [ReadyToPlay, FullyLoaded]
    ensures t == CloseCalled ==> step.state == s && step.reported == []
  {
    match t
    case BlockAdded(finished, ready) =>
      if finished && s == ReadyToPlay then Step(FullyLoaded, [FullyLoaded])
      else if s == WaitBeforePlay && ready then
        (if finished then Step(FullyLoaded, [ReadyToPlay, FullyLoaded]) else Step(ReadyToPlay, [ReadyToPlay]))
      else if s == ReadyToPlay && !ready then Step(WaitBeforePlay, [WaitBeforePlay])
      else Step(s, [])
    case AudioChecked(queueEmpty, playFinished) =>
      if queueEmpty && s == FullyLoaded && !playFinished then Step(BufferEmpty, [BufferEmpty]) else Step(s, [])
    case QueueFull =>
      if s == BufferEmpty then Step(FullyLoaded, [FullyLoaded]) else Step(s, [])
    case DecoderEnded =>
      if s == BufferEmpty then Step(FullyLoaded, [FullyLoaded])
      else if s == WaitBeforePlay then Step(FullyLoaded, [ReadyToPlay, FullyLoaded])
      else Step(s, [])
    case TimerFired => Step(FullyLoaded, [ReadyToPlay, FullyLoaded])
    case CloseCalled => Step(s, [])
  }

  /** A block moves a waiting player on only when it is ready. */
  lemma LeavesWaitOnlyWhenReady(s: State, finished: bool, ready: bool)
    ensures s == WaitBeforePlay && Transition(s, BlockAdded(finished, ready)).state != WaitBeforePlay ==> ready
  {
  }

  /** Every change is reported: the handler's last report is the new
      state, and without a report the state is unchanged. */
  lemma TransitionReported(s: State, t: Trigger)
    ensures Transition(s, t).reported == [] ==> Transition(s, t).state == s
    ensures Transition(s, t).reported != [] ==>
      Transition(s, t).state == Transition(s, t).reported[|Transition(s, t).reported| - 1]
  {
  }

  /** The states reached from `s` by the given triggers, as written. */
  function Run(s: State, triggers: seq<Trigger>): State
    decreases |triggers|
  {
    if triggers == [] then s else Run(Transition(s, triggers[0]).state, triggers[1..])
  }

  /** `CLOSED` is declared but never entered: from any other state, no
      sequence of events, `close` included, reaches it. */
  lemma {:induction false} ClosedNeverEntered(s: State, triggers: seq<Trigger>)
    requires s != Closed
    ensures Run(s, triggers) != Closed
    decreases |triggers|
  {
    if triggers != [] {
      ClosedNeverEntered(Transition(s, triggers[0]).state, triggers[1..]);
    }
  }

  /** The state changes with `close` entering `CLOSED`, which is final
      (the timer and decoder threads end on `close`). */
  function TransitionWithClose(s: State, t: Trigger): Step {
    if s == Closed then Step(Closed, [])
    else if t == CloseCalled then Step(Closed, [Closed])
    else Transition(s, t)
  }

  /** The states reached with `close` entering `CLOSED`. */
  function RunWithClose(s: State, triggers: seq<Trigger>): State
    decreases |triggers|
  {
    if triggers == [] then s else RunWithClose(TransitionWithClose(s, triggers[0]).state, triggers[1..])
  }

  /** With `close` entering `CLOSED`, the player is closed exactly when it
      started closed or `close` was among the events. */
  lemma {:induction false} ClosedAfterClose(s: State, triggers: seq<Trigger>)
    ensures RunWithClose(s, triggers) == Closed <==> s == Closed || CloseCalled in triggers
    decreases |triggers|
  {
    if triggers != [] {
      var t := triggers[0];
      var next := TransitionWithClose(s, t).state;
      ClosedAfterClose(next, triggers[1..]);
      assert triggers == [t] + triggers[1..];
      if s != Closed && t != CloseCalled {
        ClosedNeverEntered(s, [t]);
        assert Run(next, []) == next;
      }
    }
  }

  // ---------------------------------------------------------------------
  // Readiness

  /** The static `getAppropriatePlaybackDelay` as written: 0 when at least
      `bytesLength` bytes are downloaded and something was decoded;
      otherwise the estimate of its floating-point branches
      (`estimate`, 999999 when none applies) raised to at least 0. */
  function StaticDelay(bytesDownloaded: int, bytesLength: int, totalSamplesDecoded: int, estimate: int): (ms: int)
    ensures ms >= 0
    ensures bytesDownloaded >= bytesLength && totalSamplesDecoded > 0 ==> ms == 0
  {
    if bytesDownloaded >= bytesLength && totalSamplesDecoded > 0 then 0 else Max(estimate, 0)
  }

  /** With an unknown length (-1) any download counts as complete: the
      delay is 0 as soon as one sample is decoded, even with nothing
      downloaded and an estimate of 999999 ms. */
  lemma UnknownLengthCountsAsDownloaded(bytesDownloaded: int, totalSamplesDecoded: int, estimate: int)
    requires bytesDownloaded >= 0 && totalSamplesDecoded > 0
    ensures StaticDelay(bytesDownloaded, UNKNOWN, totalSamplesDecoded, estimate) == 0
    ensures StaticDelay(0, UNKNOWN, 1, 999999) == 0
  {
  }

  /** The static delay with the "fully downloaded" test applied only to a
      known length. */
  function StaticDelayKnownLength(bytesDownloaded: int, bytesLength: int, totalSamplesDecoded: int, estimate: int): (ms: int)
    ensures ms >= 0
  {
    if bytesLength != UNKNOWN && bytesDownloaded >= bytesLength && totalSamplesDecoded > 0 then 0
    else Max(estimate, 0)
  }

  /** The corrected delay agrees with the original for known lengths, and
      for an unknown length is the estimate alone. */
  lemma KnownLengthDelay(bytesDownloaded: int, bytesLength: int, totalSamplesDecoded: int, estimate: int)
    ensures bytesLength != UNKNOWN ==>
      StaticDelayKnownLength(bytesDownloaded, bytesLength, totalSamplesDecoded, estimate) ==
      StaticDelay(bytesDownloaded, bytesLength, totalSamplesDecoded, estimate)
    ensures bytesLength == UNKNOWN ==>
      StaticDelayKnownLength(bytesDownloaded, bytesLength, totalSamplesDecoded, estimate) == Max(estimate, 0)
    ensures StaticDelayKnownLength(0, UNKNOWN, 1, 999999) == 999999
  {
  }

  /** The instance `getAppropriatePlaybackDelay`: `UNKNOWN` unless there are
      two blocks, more than 4410 decoded samples and a playback rate
      (`rateKnown`); then the static delay, as written, for the bytes
      downloaded so far, whose floating-point estimate is `estimate`. */
  function PlaybackDelay(data: seq<seq<byte>>, bytesLength: int, totalSamplesDecoded: int, rateKnown: bool, estimate: int): (ms: int)
    ensures ms == UNKNOWN || ms >= 0
    ensures ms == 0 ==> |data| >= 2 && totalSamplesDecoded > MIN_SAMPLES_BEFORE_START && rateKnown
  {
    if |data| >= 2 && totalSamplesDecoded > MIN_SAMPLES_BEFORE_START && rateKnown
    then StaticDelay(DataSize(data), bytesLength, totalSamplesDecoded, estimate)
    else UNKNOWN
  }

  /** Once the gate is open and every byte of a known length is in, the
      player is ready whatever the estimate. */
  lemma ReadyWhenDownloaded(data: seq<seq<byte>>, bytesLength: int, totalSamplesDecoded: int, estimate: int)
    requires Downloaded(data, true) && |Flatten(data)| < 0x8000_0000
    requires |data| >= 2 && totalSamplesDecoded > MIN_SAMPLES_BEFORE_START
    requires bytesLength != UNKNOWN && |Flatten(data)| >= bytesLength
    ensures PlaybackDelay(data, bytesLength, totalSamplesDecoded, true, estimate) == 0
  {
    DataSizeIsTotal(data, true);
  }

  /** Past the gate, a stream of unknown length is ready at once, whatever
      the estimate says about the download speed. */
  lemma UnknownLengthReadyAtGate(data: seq<seq<byte>>, finished: bool, totalSamplesDecoded: int, estimate: int)
    requires Downloaded(data, finished) && |Flatten(data)| < 0x8000_0000
    requires |data| >= 2 && totalSamplesDecoded > MIN_SAMPLES_BEFORE_START
    ensures PlaybackDelay(data, UNKNOWN, totalSamplesDecoded, true, estimate) == 0
  {
    DataSizeIsTotal(data, finished);
  }

  // ---------------------------------------------------------------------
  // The player

  /** What the decoder thread's wait for room in the queue decides. */
  datatype Gate = Proceeds | Waits | Stops

  class StreamPlayer {
    /** The expected length in bytes, or `UNKNOWN`. */
    const length: int
    /** The downloaded blocks (`data`, without their timings). */
    var data: seq<seq<byte>>
    var downloadFinished: bool
    var playFinished: bool
    /** The decoded audio waiting to be played (`nextAudio`, without the
        percentages). */
    var nextAudio: seq<seq<byte>>
    var totalSamplesDecoded: int
    var currentState: State
    /** `close`, which also stands for the decoder's `shouldClose()`. */
    var close: bool
    /** Whether an `AnnoyingTimer` is running. */
    var timerRunning: bool

    /** The blocks have the downloader's shape, the queue holds at most 5
        blocks, none of them empty, and the sample count is an `int`. */
    ghost predicate Valid()
      reads this
    {
      Downloaded(data, downloadFinished) &&
      |nextAudio| <= AUDIO_BLOCK_BUFFER &&
      (forall i :: 0 <= i < |nextAudio| ==> nextAudio[i] != []) &&
      InInt32(totalSamplesDecoded)
    }

    /** Whether `getNextAudio` returns without throwing. */
    predicate AudioAvailable()
      reads this
    {
      playFinished || nextAudio != []
    }

    /** A new player: nothing downloaded or decoded, waiting before play. */
    constructor(length: int)
      ensures Valid() && this.length == length
      ensures data == [] && nextAudio == [] && !downloadFinished && !playFinished
      ensures currentState == WaitBeforePlay && totalSamplesDecoded == 0 && !close && !timerRunning
    {
      this.length := length;
      data := [];
      downloadFinished, playFinished := false, false;
      nextAudio := [];
      totalSamplesDecoded := 0;
      currentState := WaitBeforePlay;
      close, timerRunning := false, false;
    }

    /** Whether `getAppropriatePlaybackDelay()` is 0 now, `rateKnown` and
        `estimate` standing for the floating-point averages. */
    predicate Ready(rateKnown: bool, estimate: int)
      reads this`data, this`totalSamplesDecoded
      ensures Ready(rateKnown, estimate) ==>
        |data| >= 2 && totalSamplesDecoded > MIN_SAMPLES_BEFORE_START && rateKnown
    {
      PlaybackDelay(data, length, totalSamplesDecoded, rateKnown, estimate) == 0
    }

    /** `addBlock(block, finished)`: the block is appended, the download is
        marked finished, and the state moves as `Transition` says with the
        readiness of the player after the add; when the last block arrives
        before the player is ready the retry timer starts. A player leaves
        `WAITBEFOREPLAY` only past the gate of two blocks, more than 4410
        decoded samples and a known rate. `getDataSize` then counts every
        byte downloaded. */
    method AddBlock(block: Option<seq<byte>>, finished: bool, rateKnown: bool, estimate: int) returns (reported: seq<State>)
      requires Valid() && !downloadFinished
      requires !finished ==> block.Some? && |block.value| == BUFFER_SIZE
      requires finished && block.Some? ==> 0 < |block.value| < BUFFER_SIZE
      modifies this`data, this`downloadFinished, this`currentState, this`timerRunning
      ensures Valid()
      ensures data == old(data) + (if block.Some? then [block.value] else [])
      ensures downloadFinished == finished
      ensures Step(currentState, reported) ==
        Transition(old(currentState), BlockAdded(finished, Ready(rateKnown, estimate)))
      ensures timerRunning ==
        (old(timerRunning) || (old(currentState) == WaitBeforePlay && finished && !Ready(rateKnown, estimate)))
      ensures old(currentState) == WaitBeforePlay && currentState != WaitBeforePlay ==>
        |data| >= 2 && totalSamplesDecoded > MIN_SAMPLES_BEFORE_START && rateKnown
      ensures |Flatten(data)| < 0x8000_0000 ==> DataSize(data) == |Flatten(data)|
    {
      AppendBlock(block, finished);
      var ready := Ready(rateKnown, estimate);
      reported := BlockStateStep(finished, ready);
    }

    /** The download bookkeeping that starts `addBlock`. */
    method AppendBlock(block: Option<seq<byte>>, finished: bool)
      requires Valid() && !downloadFinished
      requires !finished ==> block.Some? && |block.value| == BUFFER_SIZE
      requires finished && block.Some? ==> 0 < |block.value| < BUFFER_SIZE
      modifies this`data, this`downloadFinished
      ensures Valid()
      ensures data == old(data) + (if block.Some? then [block.value] else [])
      ensures downloadFinished == finished
      ensures |Flatten(data)| < 0x8000_0000 ==> DataSize(data) == |Flatten(data)|
    {
      if block.Some? {
        data := data + [block.value];
      }
      if finished {
        downloadFinished := true;
      }
      if |Flatten(data)| < 0x8000_0000 {
        DataSizeIsTotal(data, downloadFinished);
      }
    }

    /** The state change and timer start that end `addBlock`. */
    method BlockStateStep(finished: bool, ready: bool) returns (reported: seq<State>)
      modifies this`currentState, this`timerRunning
      ensures Step(currentState, reported) == Transition(old(currentState), BlockAdded(finished, ready))
      ensures timerRunning == (old(timerRunning) || (old(currentState) == WaitBeforePlay && finished && !ready))
      ensures old(currentState) == WaitBeforePlay && currentState != WaitBeforePlay ==> ready
    {
      LeavesWaitOnlyWhenReady(currentState, finished, ready);
      var step := Transition(currentState, BlockAdded(finished, ready));
      if currentState == WaitBeforePlay && finished && !ready {
        timerRunning := true;
      }
      currentState, reported := step.state, step.reported;
    }

    /** `hasNextAudio`: whether audio is available, moving a fully loaded
        player whose queue has run dry (before the end) to `BUFFEREMPTY`. */
    method HasNextAudio() returns (r: bool, reported: seq<State>)
      modifies this`currentState
      ensures r == AudioAvailable()
      ensures Step(currentState, reported) ==
        Transition(old(currentState), AudioChecked(nextAudio == [], playFinished))
    {
      var step := Transition(currentState, AudioChecked(nextAudio == [], playFinished));
      currentState, reported := step.state, step.reported;
      r := playFinished || nextAudio != [];
    }

    /** `getNextAudio`: the oldest queued block, removed from the queue;
        `null` at the end; an exception exactly when `hasNextAudio` would
        have said false. */
    method GetNextAudio() returns (r: Result<Option<seq<byte>>>)
      requires Valid()
      modifies this`nextAudio
      ensures Valid()
      ensures r.Err? <==> !old(AudioAvailable())
      ensures r.Err? ==> r.error == AudioError("No more audio available")
      ensures old(nextAudio) == [] ==> nextAudio == [] && (playFinished ==> r == Ok(None))
      ensures old(nextAudio) != [] ==> r == Ok(Some(old(nextAudio)[0])) && nextAudio == old(nextAudio)[1..]
    {
      if nextAudio == [] {
        if playFinished {
          return Ok(None);
        }
        return Err(AudioError("No more audio available"));
      }
      r := Ok(Some(nextAudio[0]));
      nextAudio := nextAudio[1..];
    }

    /** The `AudioDecoder` constructor (also `rewind`): the end flag, the
        sample count and the queue are cleared, and the decoder reads the
        blocks from the first byte. */
    method StartDecoder() returns (input: BlockInputStream)
      requires Valid()
      modifies this`playFinished, this`totalSamplesDecoded, this`nextAudio
      ensures Valid() && !playFinished && totalSamplesDecoded == 0 && nextAudio == []
      ensures fresh(input) && input.ValidFor(data) && input.Unread(data) == Flatten(data)
    {
      playFinished := false;
      totalSamplesDecoded := 0;
      nextAudio := [];
      input := new BlockInputStream(data);
    }

    /** The decoder thread's wait for room: it waits while 5 blocks are
        queued (moving a `BUFFEREMPTY` player back to `FULLYLOADED`), and
        stops once the player is closed. */
    method AwaitRoom() returns (gate: Gate, reported: seq<State>)
      modifies this`currentState
      ensures gate == Proceeds <==> !close && |nextAudio| < AUDIO_BLOCK_BUFFER
      ensures gate == Stops <==> close
      ensures gate == Waits ==>
        Step(currentState, reported) == Transition(old(currentState), QueueFull)
      ensures gate != Waits ==> currentState == old(currentState) && reported == []
    {
      if |nextAudio| >= AUDIO_BLOCK_BUFFER && !close {
        var step := Transition(currentState, QueueFull);
        currentState, reported := step.state, step.reported;
        return Waits, reported;
      }
      gate, reported := if close then Stops else Proceeds, [];
    }

    /** The end of a decoder round that produced `audio`: the sample count
        grows by a quarter of its length (`int` arithmetic) and the block is
        queued; `null` ends playback and moves the state as
        `DecoderEnded`. */
    method Deliver(audio: Option<seq<byte>>) returns (reported: seq<State>)
      requires Valid() && |nextAudio| < AUDIO_BLOCK_BUFFER
      requires audio.Some? ==> audio.value != []
      modifies this`totalSamplesDecoded, this`nextAudio, this`currentState, this`playFinished
      ensures Valid()
      ensures audio.Some? ==>
        totalSamplesDecoded == Wrap32(old(totalSamplesDecoded) + |audio.value| / 4) &&
        nextAudio == old(nextAudio) + [audio.value] &&
        playFinished == old(playFinished) && currentState == old(currentState) && reported == []
      ensures audio.None? ==>
        totalSamplesDecoded == old(totalSamplesDecoded) && nextAudio == old(nextAudio) && playFinished &&
        Step(currentState, reported) == Transition(old(currentState), DecoderEnded)
    {
      if audio.Some? {
        totalSamplesDecoded := Wrap32(totalSamplesDecoded + |audio.value| / 4);
        nextAudio := nextAudio + [audio.value];
        return [];
      }
      var step := Transition(currentState, DecoderEnded);
      currentState, reported := step.state, step.reported;
      playFinished := true;
    }

    /** A failing `decode()` as written: the stack trace is printed and
        playback ends, but the handler hears nothing (no `streamError`, no
        state change). */
    method DecoderFailed(e: Exception) returns (errors: seq<Exception>)
      requires Valid()
      modifies this`playFinished
      ensures Valid() && playFinished && errors == []
    {
      playFinished := true;
      errors := [];
    }

    /** A failing `decode()` reported to the handler's `streamError`, as
        every other decoder-thread exception is. */
    method DecoderFailedReported(e: Exception) returns (errors: seq<Exception>)
      requires Valid()
      modifies this`playFinished
      ensures Valid() && playFinished && errors == [e]
    {
      playFinished := true;
      errors := [e];
    }

    /** One round of the decoder thread after the wait for room, with the
        decoder's next results `outputs`: they are coalesced; a failure ends
        playback without a report to the handler; otherwise the joined audio is queued,
        or, when there is none, playback ends. */
    method DecoderRound(outputs: seq<Decoded>) returns (used: nat, reported: seq<State>, errors: seq<Exception>)
      requires Valid() && |nextAudio| < AUDIO_BLOCK_BUFFER && Ends(outputs)
      modifies this`totalSamplesDecoded, this`nextAudio, this`currentState, this`playFinished
      ensures Valid() && 0 < used <= |outputs|
      ensures forall j :: 0 <= j < used - 1 ==> outputs[j].Audio?
      ensures |Joined(outputs[..used - 1])| < MIN_DECODED_BLOCK_SIZE
      ensures outputs[used - 1].Failure? ==>
        errors == [] && playFinished && reported == [] &&
        nextAudio == old(nextAudio) && currentState == old(currentState)
      ensures !outputs[used - 1].Failure? && Joined(outputs[..used]) != [] ==>
        nextAudio == old(nextAudio) + [Joined(outputs[..used])] && errors == [] && reported == [] &&
        currentState == old(currentState)
      ensures !outputs[used - 1].Failure? && Joined(outputs[..used]) == [] ==>
        nextAudio == old(nextAudio) && errors == [] && playFinished &&
        Step(currentState, reported) == Transition(old(currentState), DecoderEnded)
    {
      var audio;
      audio, used := Coalesce(outputs);
      if outputs[used - 1].Failure? {
        errors := DecoderFailed(outputs[used - 1].error);
        return used, [], errors;
      }
      reported := Deliver(audio);
      errors := [];
    }

    /** One wake-up of the `AnnoyingTimer`: it ends when the player is
        closed; when `getAppropriatePlaybackDelay()` is 0 it reports
        `READYTOPLAY` then `FULLYLOADED` and ends, which needs two blocks,
        more than 4410 decoded samples and a known rate. */
    method TimerTick(rateKnown: bool, estimate: int) returns (reported: seq<State>)
      requires timerRunning
      modifies this`currentState, this`timerRunning
      ensures timerRunning == (!close && !Ready(rateKnown, estimate))
      ensures !close && Ready(rateKnown, estimate) ==>
        Step(currentState, reported) == Transition(old(currentState), TimerFired)
      ensures close || !Ready(rateKnown, estimate) ==> currentState == old(currentState) && reported == []
      ensures reported != [] ==> |data| >= 2 && totalSamplesDecoded > MIN_SAMPLES_BEFORE_START && rateKnown
    {
      var ready := Ready(rateKnown, estimate);
      if close {
        timerRunning := false;
        return [];
      }
      if ready {
        var step := Transition(currentState, TimerFired);
        currentState, reported := step.state, step.reported;
        timerRunning := false;
        return;
      }
      reported := [];
    }

    /** `close` as written: the flag is set, which ends the threads, but the
        state is left as it was and nothing is reported (`CLOSED` is never
        entered). */
    method Close() returns (reported: seq<State>)
      modifies this`close
      ensures close && reported == []
      ensures Step(currentState, reported) == Transition(currentState, CloseCalled)
    {
      close := true;
      reported := [];
    }
  }
}
