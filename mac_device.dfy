/** `MacPlaybackDevice`: the `playing` / `paused` / `currentPlayer` flags
    with their guards, and the byte-count rules its playback thread uses to
    fetch blocks and to start the native device. */
module MacPlayback {
  import opened Bytes
  import opened PlaybackFormat

  /** `MACLATENCY`, in milliseconds. */
  const MAC_LATENCY_MS: int := 50

  /** The native calls a flag change makes, in the order made. */
  datatype NativeCall = PlaybackStart | PlaybackStop | PlaybackReset

  /** The device's flags. `hasPlayer` is `currentPlayer != null`. The
      native calls are returned rather than made. */
  class MacDevice {
    var playing: bool
    var paused: bool
    var hasPlayer: bool

    /** Only a playing device is ever paused. */
    ghost predicate Valid()
      reads this
    {
      paused ==> playing
    }

    constructor()
      ensures Valid() && !playing && !paused && !hasPlayer
    {
      playing := false;
      paused := false;
      hasPlayer := false;
    }

    /** `pause`: only a playing device that is not yet paused can be
        paused; the native device is stopped. */
    method Pause() returns (r: Result<()>, calls: seq<NativeCall>)
      requires Valid()
      modifies this`paused
      ensures Valid()
      ensures !old(playing) ==> r == Err(IllegalState("Not currently playing")) && calls == [] && !paused
      ensures old(playing) && old(paused) ==> r == Err(IllegalState("Already paused")) && calls == [] && paused
      ensures old(playing) && !old(paused) ==> r == Ok(()) && calls == [PlaybackStop] && paused
    {
      if !playing {
        return Err(IllegalState("Not currently playing")), [];
      }
      if paused {
        return Err(IllegalState("Already paused")), [];
      }
      paused := true;
      r, calls := Ok(()), [PlaybackStop];
    }

    /** `play`: a second player is refused while one is running. */
    method Play() returns (r: Result<()>)
      modifies this`hasPlayer
      ensures hasPlayer
      ensures r == if old(hasPlayer) then Err(IllegalState("Already playing")) else Ok(())
    {
      if hasPlayer {
        return Err(IllegalState("Already playing"));
      }
      hasPlayer := true;
      r := Ok(());
    }

    /** The end of the player thread, normal or not: `currentPlayer` is
        cleared. */
    method PlayerFinished()
      modifies this`hasPlayer
      ensures !hasPlayer
    {
      hasPlayer := false;
    }

    /** `resume`: only a paused device can be resumed; the native device
        is started again. */
    method Resume() returns (r: Result<()>, calls: seq<NativeCall>)
      requires Valid()
      modifies this`paused
      ensures Valid() && !paused
      ensures r == if old(paused) then Ok(()) else Err(IllegalState("Not currently paused"))
      ensures calls == if old(paused) then [PlaybackStart] else []
    {
      if !paused {
        return Err(IllegalState("Not currently paused")), [];
      }
      paused := false;
      r, calls := Ok(()), [PlaybackStart];
    }

    /** `start`: fails on a playing device, else starts the native device
        and sets `playing`. */
    method Start() returns (r: Result<()>, calls: seq<NativeCall>)
      requires Valid()
      modifies this`playing
      ensures Valid() && playing
      ensures r == if old(playing) then Err(IllegalState("Already playing")) else Ok(())
      ensures calls == if old(playing) then [] else [PlaybackStart]
    {
      if playing {
        return Err(IllegalState("Already playing")), [];
      }
      playing := true;
      r, calls := Ok(()), [PlaybackStart];
    }

    /** `stop`: nothing happens when not playing. Otherwise the native
        device is stopped unless pause already stopped it, then always
        reset, and both flags are cleared. */
    method Stop() returns (calls: seq<NativeCall>)
      requires Valid()
      modifies this`playing, this`paused
      ensures Valid() && !playing && !paused
      ensures calls == if !old(playing) then []
                       else if old(paused) then [PlaybackReset]
                       else [PlaybackStop, PlaybackReset]
    {
      if !playing {
        return [];
      }
      calls := if paused then [PlaybackReset] else [PlaybackStop, PlaybackReset];
      playing := false;
      paused := false;
    }

    /** The guards of `waitForEnd`; `fromPlayer` says whether the caller is
        the player thread itself. The wait itself is not modelled. */
    method WaitForEnd(fromPlayer: bool) returns (r: Result<()>)
      ensures r == WaitForEndGuard(playing, hasPlayer, fromPlayer)
    {
      if !playing {
        return Err(IllegalState("Not playing"));
      }
      if hasPlayer && fromPlayer {
        return Err(IllegalState("Cannot call waitForEnd from within player thread!"));
      }
      r := Ok(());
    }
  }

  /** `latencyBytes`: `((sampleRate * (stereo ? 4 : 2)) * MACLATENCY) /
      1000` in Java `int` arithmetic, where `sampleRate` and `stereo` are
      the native device's. */
  function LatencyBytes(sampleRate: int, stereo: bool): (n: int)
    requires InInt32(sampleRate)
  {
    JavaDiv(Wrap32(Wrap32(sampleRate * (if stereo then 4 else 2)) * MAC_LATENCY_MS), 1000)
  }

  /** For any real sample rate `latencyBytes` is the byte size of 50 ms of
      16-bit audio, rounded down: 8820 at 44.1 kHz stereo. */
  lemma LatencyIsFiftyMs(sampleRate: int, stereo: bool)
    requires 0 <= sampleRate <= 1_000_000
    ensures var frame := if stereo then 4 else 2;
      LatencyBytes(sampleRate, stereo) * 1000 <= sampleRate * frame * MAC_LATENCY_MS
      < (LatencyBytes(sampleRate, stereo) + 1) * 1000
    ensures LatencyBytes(44100, true) == 8820
  {
  }

  /** The thread fetches the next block only once the native ring holds
      at most `latencyBytes` unplayed bytes. */
  predicate FetchesBlock(unplayed: int, latencyBytes: int) {
    unplayed <= latencyBytes
  }

  /** The start rule as written: not yet started, and more than
      `latencyBytes` unplayed after the add. */
  predicate StartsDevice(started: bool, unplayed: int, latencyBytes: int) {
    !started && unplayed > latencyBytes
  }

  /** The start rule with the final `null` block also starting the device,
      as the JavaSound player does. */
  predicate StartsDeviceOrFinal(started: bool, unplayed: int, latencyBytes: int, final: bool) {
    !started && (unplayed > latencyBytes || final)
  }

  /** The total length of the blocks. */
  function Total(blocks: seq<nat>): nat {
    if blocks == [] then 0 else Total(blocks[..|blocks| - 1]) + blocks[|blocks| - 1]
  }

  /** Whether the rule as written ever starts the device for a clip whose
      (converted) blocks have the given lengths, starting with `unplayed`
      bytes queued and with nothing played before the start. */
  predicate StartsWithin(latencyBytes: int, unplayed: nat, blocks: seq<nat>)
    decreases |blocks|
  {
    if blocks == [] then StartsDevice(false, unplayed, latencyBytes)
    else (StartsDevice(false, unplayed + blocks[0], latencyBytes)
          || StartsWithin(latencyBytes, unplayed + blocks[0], blocks[1..]))
  }

  /** Before the start nothing is played, so the queue only grows: the
      rule fires at some point exactly when the whole clip is longer than
      `latencyBytes`. */
  lemma {:induction false} StartsIffLong(latencyBytes: int, unplayed: nat, blocks: seq<nat>)
    ensures StartsWithin(latencyBytes, unplayed, blocks) <==> unplayed + Total(blocks) > latencyBytes
    decreases |blocks|
  {
    if blocks != [] {
      StartsIffLong(latencyBytes, unplayed + blocks[0], blocks[1..]);
      TotalFront(blocks);
    }
  }

  lemma {:induction false} TotalFront(blocks: seq<nat>)
    requires blocks != []
    ensures Total(blocks) == blocks[0] + Total(blocks[1..])
    decreases |blocks|
  {
    if |blocks| > 1 {
      var init := blocks[..|blocks| - 1];
      TotalFront(init);
      assert init[1..] == blocks[1..][..|blocks[1..]| - 1];
    }
  }

  /** The start decisions of `PlayThread.run` as written, for a clip whose
      converted blocks have the given lengths, followed by `null`, with
      every add accepted. Until the device starts nothing is played, so
      `unplayed` is the sum of what was added. Returns how often the device
      was started and, when it never was, what `drain()` finds unplayed;
      each block before the start is fetched without waiting. */
  method StartPoint(latencyBytes: int, blocks: seq<nat>) returns (starts: nat, unplayed: nat)
    requires 0 <= latencyBytes
    ensures starts <= 1
    ensures starts == 1 <==> StartsWithin(latencyBytes, 0, blocks)
    ensures starts == 0 ==> unplayed == Total(blocks)
  {
    var started := false;
    unplayed, starts := 0, 0;
    var i := 0;
    while i < |blocks| && !started
      invariant 0 <= i <= |blocks|
      invariant started <==> starts == 1
      invariant starts <= 1
      invariant !started ==> unplayed == Total(blocks[..i]) && FetchesBlock(unplayed, latencyBytes)
      invariant !started ==> (StartsWithin(latencyBytes, 0, blocks) <==> StartsWithin(latencyBytes, unplayed, blocks[i..]))
      invariant started ==> StartsWithin(latencyBytes, 0, blocks)
    {
      assert blocks[..i + 1][..i] == blocks[..i];
      assert blocks[i..][1..] == blocks[i + 1..];
      unplayed := unplayed + blocks[i];
      if StartsDevice(started, unplayed, latencyBytes) {
        started := true;
        starts := starts + 1;
      }
      i := i + 1;
    }
    if !started {
      assert blocks[..i] == blocks;
      // the final null block adds nothing, so the rule cannot fire on it
      assert !StartsDevice(started, unplayed, latencyBytes);
    }
  }

  /** A clip of at most `latencyBytes` bytes is never started: `drain()`
      then polls an unplayed size that nothing decreases. At 44.1 kHz
      stereo a single 1000-byte block is such a clip. */
  lemma ShortClipNeverStarts(latencyBytes: int, blocks: seq<nat>)
    requires 0 < Total(blocks) <= latencyBytes
    ensures !StartsWithin(latencyBytes, 0, blocks)
    ensures !StartsWithin(LatencyBytes(44100, true), 0, [1000])
  {
    StartsIffLong(latencyBytes, 0, blocks);
    StartsIffLong(LatencyBytes(44100, true), 0, [1000]);
    assert Total([1000]) == 1000 by {
      assert [1000][..0] == [];
    }
  }

  /** The start decisions with the final `null` block also starting the
      device: every clip is started exactly once, so `drain()` waits on a
      running device. */
  method StartPointWithFinal(latencyBytes: int, blocks: seq<nat>) returns (starts: nat)
    ensures starts == 1
  {
    var started := false;
    var unplayed := 0;
    starts := 0;
    var i := 0;
    while i < |blocks|
      invariant 0 <= i <= |blocks|
      invariant started <==> starts == 1
      invariant starts <= 1
    {
      unplayed := unplayed + blocks[i];
      if StartsDeviceOrFinal(started, unplayed, latencyBytes, false) {
        started := true;
        starts := starts + 1;
      }
      i := i + 1;
    }
    if StartsDeviceOrFinal(started, unplayed, latencyBytes, true) {
      started := true;
      starts := starts + 1;
    }
  }
}
