/** `JavaSoundPlaybackDevice`: the `playing` / `paused` / `currentPlayer`
    flags with the guards of the methods that change them, and the integer
    rules its playback thread uses to start the line and to pace itself. */
module JavaSoundPlayback {
  import opened Bytes
  import opened PlaybackFormat

  /** `PLAYLATENCYMS` when the `latency` system property is not set. */
  const DEFAULT_PLAY_LATENCY_MS: int := 50

  /** The device's flags. `hasPlayer` is `currentPlayer != null`; the
      JavaSound line itself is not modelled. */
  class JavaSoundDevice {
    const format: Format
    const latencyMs: int
    var playing: bool
    var paused: bool
    var hasPlayer: bool

    /** Only a playing device is ever paused. */
    ghost predicate Valid()
      reads this
    {
      paused ==> playing
    }

    /** A new device is neither playing nor paused and has no player;
        `latencyProperty` is the parsed `latency` system property. */
    constructor(format: Format, latencyProperty: Option<int>)
      requires latencyProperty.Some? ==> InInt32(latencyProperty.value)
      ensures Valid() && !playing && !paused && !hasPlayer
      ensures this.format == format
      ensures latencyMs == if latencyProperty.Some? then latencyProperty.value else DEFAULT_PLAY_LATENCY_MS
    {
      this.format := format;
      latencyMs := if latencyProperty.Some? then latencyProperty.value else DEFAULT_PLAY_LATENCY_MS;
      playing := false;
      paused := false;
      hasPlayer := false;
    }

    /** `play`: a second player is refused while one is running. */
    method Play() returns (r: Result<()>)
      modifies this`hasPlayer
      ensures hasPlayer
      ensures r == if old(hasPlayer) then Err(IllegalState("Already playing")) else Ok(())
    {
      if hasPlayer {
        return Err(IllegalState("Already playing"));
      }
      hasPlayer := true;
      r := Ok(());
    }

    /** The end of the player thread, normal or not: `currentPlayer` is
        cleared. */
    method PlayerFinished()
      modifies this`hasPlayer
      ensures !hasPlayer
    {
      hasPlayer := false;
    }

    /** `start`: fails on a playing device, else sets `playing`. */
    method Start() returns (r: Result<()>)
      requires Valid()
      modifies this`playing
      ensures Valid() && playing
      ensures r == if old(playing) then Err(IllegalState("Already playing")) else Ok(())
    {
      if playing {
        return Err(IllegalState("Already playing"));
      }
      playing := true;
      r := Ok(());
    }

    /** `stop`: nothing happens when not playing; otherwise both flags are
        cleared. Either way the device ends neither playing nor paused. */
    method Stop()
      requires Valid()
      modifies this`playing, this`paused
      ensures Valid() && !playing && !paused
    {
      if !playing {
        return;
      }
      playing := false;
      paused := false;
    }

    /** `close` stops the device first. */
    method Close()
      requires Valid()
      modifies this`playing, this`paused
      ensures Valid() && !playing && !paused
    {
      Stop();
    }

    /** `pause`: only a playing device can be paused; pausing a paused
        device is allowed and changes nothing. */
    method Pause() returns (r: Result<()>)
      requires Valid()
      modifies this`paused
      ensures Valid()
      ensures r == if old(playing) then Ok(()) else Err(IllegalState("Not currently playing"))
      ensures paused == (old(paused) || old(playing))
    {
      if !playing {
        return Err(IllegalState("Not currently playing"));
      }
      paused := true;
      r := Ok(());
    }

    /** `resume`: only a paused device can be resumed. */
    method Resume() returns (r: Result<()>)
      requires Valid()
      modifies this`paused
      ensures Valid() && !paused
      ensures r == if old(paused) then Ok(()) else Err(IllegalState("Not currently paused"))
    {
      if !paused {
        return Err(IllegalState("Not currently paused"));
      }
      paused := false;
      r := Ok(());
    }

    /** The guards of `waitForEnd`; `fromPlayer` says whether the caller is
        the player thread itself. When it returns normally the caller has
        waited for the player to finish or for the line to drain, which is
        not modelled. */
    method WaitForEnd(fromPlayer: bool) returns (r: Result<()>)
      ensures r == WaitForEndGuard(playing, hasPlayer, fromPlayer)
    {
      if !playing {
        return Err(IllegalState("Not playing"));
      }
      if hasPlayer && fromPlayer {
        return Err(IllegalState("Cannot call waitForEnd from within player thread!"));
      }
      r := Ok(());
    }
  }

  /** A block length the player thread can be handed: a Java array
      length. */
  predicate BlockLength(n: int) {
    0 <= n < 0x8000_0000
  }

  /** `blockTime`: the duration of the current block in ms, 0 for the
      final `null` block. */
  function BlockTimeMs(f: Format, block: Option<int>): (ms: int)
    requires block.Some? ==> BlockLength(block.value)
    ensures InInt32(ms)
    ensures block.None? ==> ms == 0
  {
    if block.None? then 0 else ConvertBytesToMs(f, block.value)
  }

  /** The rule that starts the line: not yet started, and either more
      audio has been sent than the current block plus the latency, or the
      handler has returned the final `null` block. `sentFrames` is a
      `long` cast to `int`, and `blockTime + latency` an `int` sum. */
  predicate StartsLine(f: Format, latency: int, started: bool, sentFrames: int, block: Option<int>)
    requires InInt32(latency) && (block.Some? ==> BlockLength(block.value))
  {
    !started &&
    (ConvertFramesToMs(f, Wrap32(sentFrames)) > Wrap32(BlockTimeMs(f, block) + latency) || block.None?)
  }

  /** `delay`: the ms of sent audio the line has not yet played, less the
      current block's time and the latency. */
  function Delay(f: Format, latency: int, sentFrames: int, framePosition: int, blockTime: int): int
    requires InInt32(latency) && InInt32(blockTime)
  {
    ConvertFramesToMs(f, Wrap32(sentFrames - framePosition)) - Wrap32(blockTime + latency)
  }

  /** The thread waits only when `delay` is more than 10 ms. */
  predicate Waits(f: Format, latency: int, sentFrames: int, framePosition: int, blockTime: int)
    requires InInt32(latency) && InInt32(blockTime)
  {
    Delay(f, latency, sentFrames, framePosition, blockTime) > 10
  }

  /** Without wrap-around, the thread waits exactly when the audio queued
      in the line lasts at least `blockTime + latency + 11` ms, and then
      for a positive time (`Object.wait(0)` would wait without limit). */
  lemma WaitsWhenAhead(f: Format, latency: int, sentFrames: int, framePosition: int, blockTime: int)
    requires InInt32(latency) && InInt32(blockTime) && InInt32(blockTime + latency)
    requires 0 <= sentFrames - framePosition && (sentFrames - framePosition) * 1000 < 0x8000_0000
    ensures Waits(f, latency, sentFrames, framePosition, blockTime) <==>
      (sentFrames - framePosition) * 1000 >= (blockTime + latency + 11) * SampleRate(f)
    ensures Waits(f, latency, sentFrames, framePosition, blockTime) ==>
      Delay(f, latency, sentFrames, framePosition, blockTime) > 0
  {
    var queued := sentFrames - framePosition;
    var ms := ConvertFramesToMs(f, queued);
    var r := SampleRate(f);
    var target := blockTime + latency + 11;
    assert ms * r <= queued * 1000 < (ms + 1) * r;
    if ms >= target {
      assert ms * r >= target * r;
    } else {
      assert (ms + 1) * r <= target * r;
    }
  }

  /** The frames sent for blocks of the given lengths: each adds
      `length / bytesPerFrame`. */
  function SentFrames(f: Format, blocks: seq<int>): (frames: int)
    requires forall i :: 0 <= i < |blocks| ==> BlockLength(blocks[i])
    ensures frames >= 0
  {
    if blocks == [] then 0
    else
      var last := blocks[|blocks| - 1];
      assert BlockLength(last);
      SentFrames(f, blocks[..|blocks| - 1]) + last / BytesPerFrame(f)
  }

  /** Sending block `i` adds its frames to those of the blocks before it. */
  lemma SentFramesStep(f: Format, blocks: seq<int>, i: int)
    requires 0 <= i < |blocks|
    requires forall i :: 0 <= i < |blocks| ==> BlockLength(blocks[i])
    ensures SentFrames(f, blocks[..i + 1]) == SentFrames(f, blocks[..i]) + blocks[i] / BytesPerFrame(f)
  {
    assert blocks[..i + 1][..i] == blocks[..i];
  }

  /** Whether the start rule holds right after block `i` has been sent. */
  predicate FiresAt(f: Format, latency: int, blocks: seq<int>, i: int)
    requires InInt32(latency) && 0 <= i < |blocks|
    requires forall i :: 0 <= i < |blocks| ==> BlockLength(blocks[i])
  {
    StartsLine(f, latency, false, SentFrames(f, blocks[..i + 1]), Some(blocks[i]))
  }

  /** The start decisions of `PlayThread.run` for a handler that hands
      over blocks of the given lengths and then `null` (nobody stops the
      device meanwhile). The line is started exactly once: after the first
      block for which the rule fires, or at the final `null` block
      (`at == |blocks|`) when it never does. */
  method StartPoint(f: Format, latency: int, blocks: seq<int>) returns (starts: nat, at: int)
    requires InInt32(latency)
    requires forall i :: 0 <= i < |blocks| ==> BlockLength(blocks[i])
    ensures starts == 1 && 0 <= at <= |blocks|
    ensures forall j :: 0 <= j < at ==> !FiresAt(f, latency, blocks, j)
    ensures at < |blocks| ==> FiresAt(f, latency, blocks, at)
  {
    var started := false;
    var sentFrames := 0;
    starts, at := 0, |blocks|;
    var i := 0;
    while i < |blocks|
      invariant 0 <= i <= |blocks|
      invariant sentFrames == SentFrames(f, blocks[..i])
      invariant starts == if started then 1 else 0
      invariant 0 <= at <= |blocks|
      invariant started ==> at < i && FiresAt(f, latency, blocks, at)
      invariant !started ==> at == |blocks|
      invariant forall j :: 0 <= j < i && j < at ==> !FiresAt(f, latency, blocks, j)
    {
      var length := blocks[i];
      SentFramesStep(f, blocks, i);
      sentFrames := sentFrames + length / BytesPerFrame(f);
      var fires := StartsLine(f, latency, started, sentFrames, Some(length));
      assert fires == (!started && FiresAt(f, latency, blocks, i));
      if fires {
        started := true;
        starts := starts + 1;
        at := i;
      }
      i := i + 1;
    }
    if StartsLine(f, latency, started, sentFrames, None) {
      started := true;
      starts := starts + 1;
    }
  }
}
