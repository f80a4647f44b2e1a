/** `MarkResetStream`: mark/reset support added to an input stream by
    recording the bytes read after `mark` and replaying them after
    `reset`. The stream's state is specified by a `View`; the class keeps
    the source's flags, positions and buffers and is proved against it. */
module MarkReset {
  import opened Bytes
  import opened Streams

  /** What the stream holds between calls: whether a mark is active, the
      capacity of the mark buffer (`limit`), the bytes recorded since the
      mark, whether a replay is under way and the bytes it has still to
      deliver. */
  datatype View = View(marking: bool, limit: nat, marked: seq<byte>, replaying: bool, replay: seq<byte>)

  /** A freshly wrapped stream: no mark buffer, nothing to replay. */
  const Fresh: View := View(false, 0, [], false, [])

  /** The recorded bytes fit their buffer; nothing is recorded without a
      mark, nothing is pending without a replay. */
  predicate Consistent(v: View) {
    |v.marked| <= v.limit && (!v.marking ==> v.marked == []) && (!v.replaying ==> v.replay == [])
  }

  /** `since` is what was read after the mark: the mark's recording is
      those bytes followed by what the replay has still to deliver, so a
      reset goes back exactly to the mark. */
  predicate MarkHolds(v: View, since: seq<byte>) {
    v.marking ==> v.marked == since + v.replay
  }

  /** `mark(readlimit)`, as written: a larger buffer when the current one
      is too small, and the recording restarts; a replay under way goes on. */
  function MarkSpec(v: View, readlimit: int): (w: View)
    ensures w.marking && w.marked == [] && w.limit >= readlimit
    ensures w.replaying == v.replaying && w.replay == v.replay
  {
    View(true, if v.limit < readlimit then readlimit else v.limit, [], v.replaying, v.replay)
  }

  /** `reset()`: without a mark, "Not marking"; otherwise the recording
      becomes the replay. */
  function ResetSpec(v: View): (r: Result<View>)
    ensures r.Ok? <==> v.marking
    ensures r.Err? ==> r.error == IOError("Not marking")
  {
    if v.marking then Ok(v.(replaying := true, replay := v.marked)) else Err(IOError("Not marking"))
  }

  /** The recording of bytes taken from the original stream: appended
      while they fit the mark buffer, otherwise the mark is abandoned. */
  function Record(v: View, got: seq<byte>): (w: View)
    ensures w.replaying == v.replaying && w.replay == v.replay && w.limit == v.limit
    ensures w.marking <==> v.marking && (got == [] || |v.marked| + |got| <= v.limit)
  {
    if !v.marking || got == [] then v
    else if |v.marked| + |got| <= v.limit then v.(marked := v.marked + got)
    else v.(marking := false, marked := [])
  }

  /** How many bytes `read(b, off, len)` asks the original stream for:
      none when the replay covers the request, the shortfall otherwise. */
  function Asked(v: View, len: nat): nat {
    if v.replaying && |v.replay| >= len then 0
    else if v.replaying then len - |v.replay|
    else len
  }

  /** What one read returns: the stream afterwards, the `int` result and
      the bytes placed in the caller's array. */
  datatype Delivery = Delivery(view: View, result: int, bytes: seq<byte>)

  /** `read(b, off, len)` when the original stream hands over `got` for
      the `Asked(v, len)` bytes requested of it (`got == []` for -1, or
      when it is not asked). */
  function ReadSpec(v: View, len: nat, got: seq<byte>): Delivery {
    if v.replaying && |v.replay| >= len then
      Delivery(v.(replaying := len < |v.replay|, replay := v.replay[len..]), len, v.replay[..len])
    else if v.replaying then
      Delivery(Record(v.(replaying := false, replay := []), got), |v.replay| + |got|, v.replay + got)
    else
      Delivery(Record(v, got), if got != [] then |got| else if len == 0 then 0 else -1, got)
  }

  /** What an `InputStream` hands over when asked for `want` bytes of
      `rest`: at most that many, and something whenever something is
      left and something was asked for. */
  predicate Fetched(rest: seq<byte>, want: nat, got: seq<byte>) {
    |got| <= want && got <= rest && (want > 0 && rest != [] ==> got != [])
  }

  /** Reading keeps the stream in order: what the replay had pending,
      then what came from the original, is what was delivered followed by
      what is still pending. -1 comes only at the real end of the stream. */
  lemma ReadInOrder(v: View, len: nat, rest: seq<byte>, got: seq<byte>)
    requires Consistent(v) && Fetched(rest, Asked(v, len), got)
    ensures var d := ReadSpec(v, len, got);
      Consistent(d.view) && v.replay + got == d.bytes + d.view.replay &&
      |d.bytes| <= len &&
      (d.result == -1 <==> len > 0 && !v.replaying && rest == []) &&
      (d.result != -1 ==> d.result == |d.bytes|)
  {
    var d := ReadSpec(v, len, got);
    if v.replaying && |v.replay| >= len {
      assert v.replay == v.replay[..len] + v.replay[len..];
    }
  }

  /** With no mark and no replay, reads pass the original stream through
      and change nothing. */
  lemma PassThrough(v: View, len: nat, got: seq<byte>)
    requires Consistent(v) && !v.marking && !v.replaying
    ensures ReadSpec(v, len, got) == Delivery(v, if got != [] then |got| else if len == 0 then 0 else -1, got)
  {
  }

  /** Reading keeps the mark: the bytes read since the mark grow by what
      was delivered, and the mark survives exactly while they fit its
      buffer. */
  lemma ReadKeepsMark(v: View, since: seq<byte>, len: nat, got: seq<byte>)
    requires Consistent(v) && MarkHolds(v, since) && |got| <= Asked(v, len)
    ensures var d := ReadSpec(v, len, got);
      MarkHolds(d.view, since + d.bytes) &&
      (d.view.marking <==> v.marking && |since + d.bytes| <= v.limit)
  {
    var d := ReadSpec(v, len, got);
    if v.replaying && |v.replay| >= len {
      assert v.replay == v.replay[..len] + v.replay[len..];
      if v.marking {
        assert since + d.bytes + d.view.replay == since + v.replay;
      }
    } else if v.replaying && v.marking {
      assert since + d.bytes == since + v.replay + got;
    }
  }

  /** `reset` with an active mark goes back to the mark: what comes next
      is everything read since the mark followed by what was pending, and
      the mark then holds with nothing read since. */
  lemma ResetRewinds(v: View, since: seq<byte>)
    requires Consistent(v) && MarkHolds(v, since) && v.marking
    ensures ResetSpec(v).Ok?
    ensures var w := ResetSpec(v).value;
      Consistent(w) && w.replay == since + v.replay && MarkHolds(w, []) && w.limit == v.limit
  {
  }

  /** A second `reset` replays the same bytes as the first. */
  lemma ResetTwice(v: View)
    requires ResetSpec(v).Ok?
    ensures ResetSpec(ResetSpec(v).value) == ResetSpec(v)
  {
  }

  /** `mark` outside a replay starts a mark with nothing read since. */
  lemma MarkStarts(v: View, readlimit: int)
    requires Consistent(v) && !v.replaying
    ensures Consistent(MarkSpec(v, readlimit)) && MarkHolds(MarkSpec(v, readlimit), [])
  {
  }

  /** As written, `mark` during a replay records nothing of what the
      replay still delivers: after one replayed byte, a mark, two more
      replayed bytes and a reset, nothing is replayed, although the mark
      was placed before those two bytes. */
  lemma MarkDuringReplayForgets()
    ensures var v := View(true, 100, [1, 2, 3], true, [2, 3]);
      var w := MarkSpec(v, 100);
      !MarkHolds(w, []) &&
      ReadSpec(w, 2, []).bytes == [2, 3] &&
      ResetSpec(ReadSpec(w, 2, []).view) == Ok(View(true, 100, [], true, []))
  {
    var v := View(true, 100, [1, 2, 3], true, [2, 3]);
    var w := MarkSpec(v, 100);
    assert w.replay[..2] == [2, 3];
  }

  /** `mark` corrected: the recording starts with what the replay has
      still to deliver, since those bytes come after the mark point, and
      the buffer is made large enough for them. */
  function MarkKeepingReplaySpec(v: View, readlimit: int): (w: View)
    ensures w.limit >= readlimit && w.replaying == v.replaying && w.replay == v.replay
  {
    var room := if v.limit < readlimit then readlimit else v.limit;
    View(true, if room < |v.replay| then |v.replay| else room, v.replay, v.replaying, v.replay)
  }

  /** The corrected `mark` starts a mark with nothing read since, replay
      or not, and agrees with the original outside a replay. */
  lemma MarkKeepingReplayStarts(v: View, readlimit: int)
    requires Consistent(v)
    ensures Consistent(MarkKeepingReplaySpec(v, readlimit)) && MarkHolds(MarkKeepingReplaySpec(v, readlimit), [])
    ensures !v.replaying ==> MarkKeepingReplaySpec(v, readlimit) == MarkSpec(v, readlimit)
  {
  }

  /** What `read()` returns: the stream afterwards and the value. */
  datatype ByteRead = ByteRead(view: View, value: int)

  /** `read()` as written, where `next` is what the original's `read()`
      would return (-1 at its end): a replayed byte is returned
      sign-extended, and an empty replay is indexed anyway. */
  function ReadByteSpec(v: View, next: int): (r: Result<ByteRead>)
    requires -1 <= next < 256
    ensures r.Err? <==> v.replaying && v.replay == []
  {
    if v.replaying then
      if v.replay == [] then Err(IndexOutOfBounds)
      else Ok(ByteRead(v.(replaying := |v.replay| > 1, replay := v.replay[1..]), SignedByte(v.replay[0])))
    else if next == -1 then Ok(ByteRead(v, -1))
    else Ok(ByteRead(Record(v, [next as byte]), next))
  }

  /** Apart from the empty replay, `read()` as written takes bytes in
      order and keeps the mark; only a replayed byte's value is off, being
      sign-extended. */
  lemma ReadByteInOrder(v: View, since: seq<byte>, rest: seq<byte>)
    requires Consistent(v) && MarkHolds(v, since) && !(v.replaying && v.replay == [])
    ensures ReadByteSpec(v, NextByte(rest)).Ok?
    ensures var d := ReadByteSpec(v, NextByte(rest)).value;
      Consistent(d.view) &&
      (v.replay != [] ==> d.value == SignedByte(v.replay[0]) && d.view.replay == v.replay[1..] &&
                          MarkHolds(d.view, since + [v.replay[0]])) &&
      (v.replay == [] && rest != [] ==> d.value == rest[0] && d.view.replay == [] &&
                                        MarkHolds(d.view, since + [rest[0]])) &&
      (v.replay == [] && rest == [] ==> d.value == -1 && d.view == v)
  {
    if v.replay != [] {
      assert v.replay == [v.replay[0]] + v.replay[1..];
    }
  }

  /** A replayed byte 0xFF comes back as -1, the end-of-stream value. */
  lemma ReplayedFFLooksLikeEnd()
    ensures ReadByteSpec(View(true, 1, [255], true, [255]), 7) ==
      Ok(ByteRead(View(true, 1, [255], false, []), -1))
  {
    assert [255][1..] == [];
  }

  /** `reset` straight after `mark` leaves an empty replay that `read()`
      indexes. */
  lemma EmptyReplayFails(v: View, readlimit: int, next: int)
    requires -1 <= next < 256
    ensures ResetSpec(MarkSpec(v, readlimit)).Ok?
    ensures ReadByteSpec(ResetSpec(MarkSpec(v, readlimit)).value, next) == Err(IndexOutOfBounds)
  {
  }

  /** `read()` corrected: a replayed byte as 0..255, and an empty replay
      treated as finished. */
  function ReadByteUnsignedSpec(v: View, next: int): (r: ByteRead)
    requires -1 <= next < 256
  {
    if v.replaying && v.replay != [] then
      ByteRead(v.(replaying := |v.replay| > 1, replay := v.replay[1..]), v.replay[0])
    else if next == -1 then ByteRead(v.(replaying := false, replay := []), -1)
    else ByteRead(Record(v.(replaying := false, replay := []), [next as byte]), next)
  }

  /** The corrected `read()` keeps the stream in order and keeps the mark:
      it returns the next pending byte, else the original's next byte, as
      0..255, and -1 only when neither exists. */
  lemma ReadByteUnsignedInOrder(v: View, since: seq<byte>, rest: seq<byte>)
    requires Consistent(v) && MarkHolds(v, since)
    ensures var next: int := if rest == [] then -1 else rest[0];
      var d := ReadByteUnsignedSpec(v, next);
      var taken := if v.replay != [] || rest == [] then [] else [rest[0]];
      Consistent(d.view) &&
      (d.value == -1 <==> v.replay == [] && rest == []) &&
      (d.value != -1 ==> 0 <= d.value < 256 && v.replay + taken == [d.value as byte] + d.view.replay &&
                         MarkHolds(d.view, since + [d.value as byte]))
  {
    var next: int := if rest == [] then -1 else rest[0];
    var d := ReadByteUnsignedSpec(v, next);
    if v.replay != [] {
      assert v.replay == [v.replay[0]] + v.replay[1..];
    }
  }

  /** What the original's `read()` returns on `rest`: its first byte, or
      -1 at its end. */
  function NextByte(rest: seq<byte>): (n: int)
    ensures -1 <= n < 256 && (n == -1 <==> rest == [])
  {
    if rest == [] then -1 else rest[0]
  }

  /** The stream itself, over the wrapped stream `original`. A `null`
      buffer is held as an empty array; `markAllocated` says whether
      `markBuffer` is non-null. */
  class MarkResetStream {
    const original: ByteStream
    var marking: bool
    var markAllocated: bool
    var markBuffer: array<byte>
    var markPos: int
    var replaying: bool
    var replayBuffer: array<byte>
    var replayPos: int

    ghost predicate Valid()
      reads this
    {
      0 <= markPos <= markBuffer.Length && 0 <= replayPos <= replayBuffer.Length &&
      markBuffer != replayBuffer && (!markAllocated ==> markBuffer.Length == 0)
    }

    /** The stream's state as a `View`. */
    ghost function Current(): (v: View)
      requires Valid()
      reads this, markBuffer, replayBuffer
      ensures Consistent(v)
    {
      View(marking, markBuffer.Length, if marking then markBuffer[..markPos] else [],
           replaying, if replaying then replayBuffer[replayPos..] else [])
    }

    constructor(original: ByteStream)
      ensures Valid() && Current() == Fresh && this.original == original
    {
      this.original := original;
      marking := false;
      markAllocated := false;
      markBuffer := new byte[0];
      markPos := 0;
      replaying := false;
      replayBuffer := new byte[0];
      replayPos := 0;
    }

    /** `mark(readlimit)`: the buffer is allocated when there is none yet
        or it is too small, which fails for a negative `readlimit` when
        there is none yet; otherwise the recording restarts. */
    method Mark(readlimit: int) returns (r: Result<()>)
      requires Valid()
      modifies this
      ensures Valid()
      ensures !old(markAllocated) && readlimit < 0 ==>
        r == Err(NegativeArraySize) && !markAllocated && Current() == old(Current())
      ensures old(markAllocated) || readlimit >= 0 ==>
        r == Ok(()) && markAllocated && Current() == MarkSpec(old(Current()), readlimit)
    {
      if !markAllocated || markBuffer.Length < readlimit {
        if readlimit < 0 {
          return Err(NegativeArraySize);
        }
        markBuffer := new byte[readlimit];
        markAllocated := true;
      }
      marking := true;
      markPos := 0;
      r := Ok(());
    }

    /** `reset()`: the recording is copied into a new replay buffer. */
    method Reset() returns (r: Result<()>)
      requires Valid()
      modifies this
      ensures Valid()
      ensures ResetSpec(old(Current())).Ok? ==> r == Ok(()) && Current() == ResetSpec(old(Current())).value
      ensures ResetSpec(old(Current())).Err? ==>
        r == Err(ResetSpec(old(Current())).error) && Current() == old(Current())
    {
      if !marking {
        return Err(IOError("Not marking"));
      }
      var copy := new byte[markPos];
      SetRegion(copy, 0, markPos, markBuffer[..markPos]);
      replaying := true;
      replayBuffer := copy;
      replayPos := 0;
      r := Ok(());
    }

    /** The recording step shared by both reads, for the `data` just taken
        from the original stream. */
    method Keep(data: seq<byte>)
      requires Valid() && data != []
      modifies this`marking, this`markPos, markBuffer
      ensures Valid() && Current() == Record(old(Current()), data)
    {
      if marking {
        if markPos + |data| <= markBuffer.Length {
          SetRegion(markBuffer, markPos, markPos + |data|, data);
          markPos := markPos + |data|;
        } else {
          marking := false;
        }
      }
    }

    /** `read(b, off, len)`; the bytes placed in `b` from `off` on are
        returned, and `got` is what the original stream handed over. */
    method Read(len: nat) returns (result: int, bytes: seq<byte>, ghost got: seq<byte>)
      requires Valid()
      modifies this, original, markBuffer
      ensures Valid() && original.closed == old(original.closed)
      ensures Fetched(old(original.rest), Asked(old(Current()), len), got)
      ensures old(original.rest) == got + original.rest
      ensures Delivery(Current(), result, bytes) == ReadSpec(old(Current()), len, got)
    {
      if replaying {
        if replayBuffer.Length - replayPos >= len {
          bytes := replayBuffer[replayPos..replayPos + len];
          replayPos := replayPos + len;
          if replayPos == replayBuffer.Length {
            replaying := false;
          }
          return len, bytes, [];
        }
        result, bytes, got := ReadPastReplay(len);
        return;
      }
      var fetched := original.Read(len);
      var data := if fetched.Chunk? then fetched.data else [];
      got := data;
      result := if fetched.Eof? then -1 else |data|;
      bytes := data;
      if data != [] {
        Keep(data);
      }
    }

    /** The part of `read(b, off, len)` where the replay does not cover
        the request: the rest of the replay, then the original stream. */
    method ReadPastReplay(len: nat) returns (result: int, bytes: seq<byte>, ghost got: seq<byte>)
      requires Valid() && replaying && replayBuffer.Length - replayPos < len
      modifies this, original, markBuffer
      ensures Valid() && original.closed == old(original.closed)
      ensures Fetched(old(original.rest), Asked(old(Current()), len), got)
      ensures old(original.rest) == got + original.rest
      ensures Delivery(Current(), result, bytes) == ReadSpec(old(Current()), len, got)
    {
      var left := replayBuffer.Length - replayPos;
      var head := replayBuffer[replayPos..];
      var fetched := original.Read(len - left);
      var data := if fetched.Chunk? then fetched.data else [];
      got := data;
      if data == [] {
        result := left;
      } else {
        result := left + |data|;
        Keep(data);
      }
      bytes := head + data;
      replaying := false;
    }

    /** `read()`, as written: a replayed byte sign-extended, and an empty
        replay indexed anyway. */
    method ReadByte() returns (r: Result<int>)
      requires Valid()
      modifies this, original, markBuffer
      ensures Valid() && original.closed == old(original.closed)
      ensures var e := ReadByteSpec(old(Current()), NextByte(old(original.rest)));
        (e.Ok? ==> r == Ok(e.value.value) && Current() == e.value.view) &&
        (e.Err? ==> r == Err(e.error) && Current() == old(Current()))
      ensures original.rest == if old(replaying) || old(original.rest) == [] then old(original.rest)
                               else old(original.rest)[1..]
    {
      if replaying {
        if replayPos == replayBuffer.Length {
          return Err(IndexOutOfBounds);
        }
        var b := replayBuffer[replayPos];
        replayPos := replayPos + 1;
        if replayPos == replayBuffer.Length {
          replaying := false;
        }
        return Ok(SignedByte(b));
      }
      var next := original.ReadByte();
      if marking && next != -1 {
        if markPos < markBuffer.Length {
          markBuffer[markPos] := next;
          markPos := markPos + 1;
        } else {
          marking := false;
        }
      }
      r := Ok(next);
    }

    /** `mark` corrected: the replay still pending is recorded first. */
    method MarkKeepingReplay(readlimit: int)
      requires Valid()
      modifies this, markBuffer
      ensures Valid() && Current() == MarkKeepingReplaySpec(old(Current()), readlimit)
    {
      var pending := if replaying then replayBuffer[replayPos..] else [];
      var room := if markBuffer.Length < readlimit then readlimit else markBuffer.Length;
      if room < |pending| {
        room := |pending|;
      }
      if markBuffer.Length < room {
        markBuffer := new byte[room];
      }
      SetRegion(markBuffer, 0, |pending|, pending);
      markAllocated := true;
      marking := true;
      markPos := |pending|;
    }

    /** `read()` corrected: a replayed byte as 0..255, and an empty replay
        treated as finished. */
    method ReadByteUnsigned() returns (r: int)
      requires Valid()
      modifies this, original, markBuffer
      ensures Valid() && original.closed == old(original.closed)
      ensures var d := ReadByteUnsignedSpec(old(Current()), NextByte(old(original.rest)));
        r == d.value && Current() == d.view
      ensures original.rest == if old(Current()).replay != [] || old(original.rest) == [] then old(original.rest)
                               else old(original.rest)[1..]
    {
      if replaying && replayPos < replayBuffer.Length {
        r := replayBuffer[replayPos];
        replayPos := replayPos + 1;
        if replayPos == replayBuffer.Length {
          replaying := false;
        }
        return;
      }
      replaying := false;
      r := original.ReadByte();
      if marking && r != -1 {
        if markPos < markBuffer.Length {
          markBuffer[markPos] := r;
          markPos := markPos + 1;
        } else {
          marking := false;
        }
      }
    }

    /** `available()`: the original's estimate plus the replay still
        pending. */
    method Available() returns (n: int)
      requires Valid()
      ensures |Current().replay| <= n <= |Current().replay| + |original.rest|
    {
      var fromOriginal := original.Available();
      n := fromOriginal + if replaying then replayBuffer.Length - replayPos else 0;
    }

    /** `close()` closes the original stream and nothing else. */
    method Close()
      requires Valid()
      modifies original
      ensures original.closed && original.rest == old(original.rest)
      ensures Current() == old(Current())
    {
      original.Close();
    }
  }

  /** The calls a session makes, as in the unit tests. */
  datatype Call = ReadOne | ReadInto(len: nat) | MarkAt(readlimit: int) | ResetCall

  /** What each call gives back. */
  datatype Answer = Value(value: int) | Count(result: int, bytes: seq<byte>) | Marked | Rewound | Thrown(error: Exception)

  /** One call's outcome: the stream afterwards, what the original
      stream still holds, and the answer. */
  datatype Turn = Turn(view: View, rest: seq<byte>, answer: Answer)

  /** One call on a stream over a `ByteArrayInputStream` holding `rest`,
      which always hands over as much as it is asked for and has. */
  function Step(v: View, rest: seq<byte>, call: Call): Turn {
    match call
    case ReadOne =>
      (match ReadByteSpec(v, if rest == [] then -1 else rest[0])
        case Ok(d) => Turn(d.view, if v.replaying || rest == [] then rest else rest[1..], Value(d.value))
        case Err(e) => Turn(v, rest, Thrown(e)))
    case ReadInto(len) =>
      var want := Asked(v, len);
      var got := if want <= |rest| then rest[..want] else rest;
      var d := ReadSpec(v, len, got);
      Turn(d.view, rest[|got|..], Count(d.result, d.bytes))
    case MarkAt(n) => Turn(MarkSpec(v, n), rest, Marked)
    case ResetCall =>
      (match ResetSpec(v)
        case Ok(w) => Turn(w, rest, Rewound)
        case Err(e) => Turn(v, rest, Thrown(e)))
  }

  /** `testBasic`: without mark and reset the bytes of a ten-byte stream
      arrive in order, then -1. */
  lemma BasicSteps(input: seq<byte>)
    requires |input| == 10
    ensures Step(Fresh, input, ReadOne) == Turn(Fresh, input[1..], Value(input[0]))
    ensures Step(Fresh, input[1..], ReadInto(3)) == Turn(Fresh, input[4..], Count(3, input[1..4]))
    ensures Step(Fresh, input[4..], ReadInto(5)) == Turn(Fresh, input[9..], Count(5, input[4..9]))
    ensures Step(Fresh, input[9..], ReadInto(5)) == Turn(Fresh, [], Count(1, input[9..]))
    ensures Step(Fresh, [], ReadOne) == Turn(Fresh, [], Value(-1))
    ensures Step(Fresh, [], ReadInto(5)) == Turn(Fresh, [], Count(-1, []))
  {
    assert input[1..][..3] == input[1..4] && input[1..][3..] == input[4..];
    assert input[4..][..5] == input[4..9] && input[4..][5..] == input[9..];
  }

  /** `testMarkSimple`: after one byte, a mark, six more bytes and a
      reset, the six bytes come again (a single replayed byte through
      `read()`, sign-extended), then the rest of the stream, then -1. */
  lemma MarkSimpleSteps(input: seq<byte>)
    requires |input| == 10
    ensures Step(Fresh, input[1..], MarkAt(100)) == Turn(View(true, 100, [], false, []), input[1..], Marked)
    ensures Step(View(true, 100, [], false, []), input[1..], ReadOne) ==
      Turn(View(true, 100, input[1..2], false, []), input[2..], Value(input[1]))
    ensures Step(View(true, 100, input[1..2], false, []), input[2..], ReadInto(5)) ==
      Turn(View(true, 100, input[1..7], false, []), input[7..], Count(5, input[2..7]))
    ensures Step(View(true, 100, input[1..7], false, []), input[7..], ResetCall) ==
      Turn(View(true, 100, input[1..7], true, input[1..7]), input[7..], Rewound)
  {
    assert input[1..2] + input[2..7] == input[1..7];
    assert input[2..][..5] == input[2..7] && input[2..][5..] == input[7..];
  }

  /** `testMarkSimple`, continued: the replay, then the rest of the
      stream, then -1. */
  lemma MarkSimpleReplaySteps(input: seq<byte>)
    requires |input| == 10
    ensures Step(View(true, 100, input[1..7], true, input[1..7]), input[7..], ReadInto(4)) ==
      Turn(View(true, 100, input[1..7], true, input[5..7]), input[7..], Count(4, input[1..5]))
    ensures Step(View(true, 100, input[1..7], true, input[5..7]), input[7..], ReadOne) ==
      Turn(View(true, 100, input[1..7], true, input[6..7]), input[7..], Value(SignedByte(input[5])))
    ensures Step(View(true, 100, input[1..7], true, input[6..7]), input[7..], ReadInto(5)) ==
      Turn(View(true, 100, input[1..], false, []), [], Count(4, input[6..]))
    ensures Step(View(true, 100, input[1..], false, []), [], ReadOne) ==
      Turn(View(true, 100, input[1..], false, []), [], Value(-1))
    ensures Step(View(true, 100, input[1..], false, []), [], ReadInto(5)) ==
      Turn(View(true, 100, input[1..], false, []), [], Count(-1, []))
  {
    assert input[1..7][..4] == input[1..5] && input[1..7][4..] == input[5..7];
    assert input[5..7][1..] == input[6..7];
    assert input[1..7] + input[7..] == input[1..] && input[6..7] + input[7..] == input[6..];
  }

  /** `testMultiReset`: a mark after five bytes, three bytes read, and
      every later reset replays those three, through `read()` or
      `read(b, off, len)` alike. */
  lemma MultiResetSteps(input: seq<byte>)
    requires |input| == 10
    ensures Step(Fresh, input, ReadInto(5)) == Turn(Fresh, input[5..], Count(5, input[..5]))
    ensures Step(Fresh, input[5..], MarkAt(100)) == Turn(View(true, 100, [], false, []), input[5..], Marked)
    ensures Step(View(true, 100, [], false, []), input[5..], ReadInto(3)) ==
      Turn(View(true, 100, input[5..8], false, []), input[8..], Count(3, input[5..8]))
    ensures Step(View(true, 100, input[5..8], false, []), input[8..], ResetCall) ==
      Turn(View(true, 100, input[5..8], true, input[5..8]), input[8..], Rewound)
  {
    assert input[..5] + input[5..] == input;
    assert input[5..][..3] == input[5..8] && input[5..][3..] == input[8..];
  }

  /** `testMultiReset`, continued: the replay through `read()`, and again
      through `read(b, off, len)`. */
  lemma MultiResetReplaySteps(input: seq<byte>)
    requires |input| == 10
    ensures Step(View(true, 100, input[5..8], true, input[5..8]), input[8..], ReadOne) ==
      Turn(View(true, 100, input[5..8], true, input[6..8]), input[8..], Value(SignedByte(input[5])))
    ensures Step(View(true, 100, input[5..8], true, input[6..8]), input[8..], ReadOne) ==
      Turn(View(true, 100, input[5..8], true, input[7..8]), input[8..], Value(SignedByte(input[6])))
    ensures Step(View(true, 100, input[5..8], true, input[7..8]), input[8..], ReadOne) ==
      Turn(View(true, 100, input[5..8], false, []), input[8..], Value(SignedByte(input[7])))
    ensures Step(View(true, 100, input[5..8], true, input[5..8]), input[8..], ReadInto(3)) ==
      Turn(View(true, 100, input[5..8], false, []), input[8..], Count(3, input[5..8]))
  {
    assert input[5..8][1..] == input[6..8] && input[6..8][1..] == input[7..8];
    assert input[5..8][..3] == input[5..8];
  }

  /** `testResetAndReadMore`: reading past the replay extends the marked
      region, so each reset goes back to the start again. */
  lemma ReadMoreSteps(input: seq<byte>)
    requires |input| == 10
    ensures Step(View(true, 100, [], false, []), input, ReadInto(3)) ==
      Turn(View(true, 100, input[..3], false, []), input[3..], Count(3, input[..3]))
    ensures Step(View(true, 100, input[..3], true, input[..3]), input[3..], ReadInto(5)) ==
      Turn(View(true, 100, input[..5], false, []), input[5..], Count(5, input[..5]))
  {
    assert input[3..][..2] == input[3..5] && input[3..][2..] == input[5..];
    assert input[..3] + input[3..5] == input[..5];
  }

  /** `testResetAndReadMore`, continued: after the second reset, one byte
      through `read()` and five more, the last of them new. */
  lemma ReadMoreAgainSteps(input: seq<byte>)
    requires |input| == 10
    ensures Step(View(true, 100, input[..5], true, input[..5]), input[5..], ReadOne) ==
      Turn(View(true, 100, input[..5], true, input[1..5]), input[5..], Value(SignedByte(input[0])))
    ensures Step(View(true, 100, input[..5], true, input[1..5]), input[5..], ReadInto(5)) ==
      Turn(View(true, 100, input[..6], false, []), input[6..], Count(5, input[1..6]))
  {
    assert input[..5][1..] == input[1..5];
    assert input[5..][..1] == input[5..6] && input[5..][1..] == input[6..];
    assert input[..5] + input[5..6] == input[..6] && input[1..5] + input[5..6] == input[1..6];
  }

  /** `testResetAndReadMore`, continued: the last reset replays six bytes,
      five of them through one read and the sixth ahead of the rest of
      the stream. */
  lemma ReadMoreEndSteps(input: seq<byte>)
    requires |input| == 10
    ensures Step(View(true, 100, input[..6], false, []), input[6..], ResetCall) ==
      Turn(View(true, 100, input[..6], true, input[..6]), input[6..], Rewound)
    ensures Step(View(true, 100, input[..6], true, input[..6]), input[6..], ReadInto(5)) ==
      Turn(View(true, 100, input[..6], true, input[5..6]), input[6..], Count(5, input[..5]))
    ensures Step(View(true, 100, input[..6], true, input[5..6]), input[6..], ReadInto(5)) ==
      Turn(View(true, 100, input, false, []), [], Count(5, input[5..]))
  {
    assert input[..6][..5] == input[..5] && input[..6][5..] == input[5..6];
    assert input[6..][..4] == input[6..];
    assert input[..6] + input[6..] == input && input[5..6] + input[6..] == input[5..];
  }

  /** `testFailedReset`: a reset without a mark fails; a mark of two
      bytes survives two bytes read, and is abandoned by a replaying read
      that takes one more byte from the original stream. */
  lemma FailedResetSteps(input: seq<byte>)
    requires |input| == 10
    ensures Step(Fresh, input, ResetCall) == Turn(Fresh, input, Thrown(IOError("Not marking")))
    ensures Step(Fresh, input, MarkAt(2)) == Turn(View(true, 2, [], false, []), input, Marked)
    ensures Step(View(true, 2, [], false, []), input, ReadInto(2)) ==
      Turn(View(true, 2, input[..2], false, []), input[2..], Count(2, input[..2]))
    ensures Step(View(true, 2, input[..2], false, []), input[2..], ResetCall) ==
      Turn(View(true, 2, input[..2], true, input[..2]), input[2..], Rewound)
    ensures Step(View(true, 2, input[..2], true, input[..2]), input[2..], ReadInto(3)) ==
      Turn(View(false, 2, [], false, []), input[3..], Count(3, input[..3]))
    ensures Step(View(false, 2, [], false, []), input[3..], ResetCall) ==
      Turn(View(false, 2, [], false, []), input[3..], Thrown(IOError("Not marking")))
  {
    assert input[2..][..1] == input[2..3] && input[2..][1..] == input[3..];
    assert input[..2] + input[2..3] == input[..3];
  }
}
