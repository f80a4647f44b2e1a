/** The buffer ring of the native Mac recording device (`RecordingDevice`
    in mac/RecordingDevice.cpp): the CoreAudio input callback fills the
    buffer at `recordingIndex`, the JNI layer retrieves finished buffers
    from `playbackIndex`, and when the producer laps the consumer the
    oldest finished buffer is dropped. */
module RecordingRingBuffer {
  import opened Bytes

  /** The index after `i` in a ring of `n`: `(i + 1) % n`. */
  function Next(i: int, n: int): (j: int)
    requires 0 <= i < n
    ensures 0 <= j < n
  {
    if i + 1 == n then 0 else i + 1
  }

  lemma NextIsMod(i: int, n: int)
    requires 0 <= i < n
    ensures (i + 1) % n == Next(i, n)
  {
    ModUnique(i + 1, n, if i + 1 == n then 1 else 0, Next(i, n));
  }

  /** The index `k` places after `i` in a ring of `n`: `(i + k) % n`. */
  function Offset(i: int, k: int, n: int): (j: int)
    requires 0 <= i < n && 0 <= k < n
    ensures 0 <= j < n
  {
    if i + k < n then i + k else i + k - n
  }

  /** The `count` buffers from index `from` on, wrapping at the end. */
  function Window(bufs: seq<seq<byte>>, from: int, count: nat): (w: seq<seq<byte>>)
    requires 0 <= from < |bufs|
    ensures |w| == count
    decreases count
  {
    if count == 0 then [] else [bufs[from]] + Window(bufs, Next(from, |bufs|), count - 1)
  }

  /** A window grows at its far end. */
  lemma {:induction false} WindowSnoc(bufs: seq<seq<byte>>, from: int, count: nat)
    requires 0 <= from < |bufs| && count < |bufs|
    ensures Window(bufs, from, count + 1) == Window(bufs, from, count) + [bufs[Offset(from, count, |bufs|)]]
    decreases count
  {
    if count > 0 {
      WindowSnoc(bufs, Next(from, |bufs|), count - 1);
    }
  }

  /** A window of fewer than `n` buffers does not reach the index just past
      its end, so replacing that buffer leaves the window alone. */
  lemma {:induction false} WindowFrame(bufs: seq<seq<byte>>, from: int, count: nat, i: int, v: seq<byte>)
    requires 0 <= from < |bufs| && count < |bufs| && i == Offset(from, count, |bufs|)
    ensures Window(bufs[i := v], from, count) == Window(bufs, from, count)
    decreases count
  {
    if count > 0 {
      WindowFrame(bufs, Next(from, |bufs|), count - 1, i, v);
    }
  }

  /** `RecordingDevice` with its buffers allocated; the CoreAudio unit and
      the rendering into a buffer are not modelled. */
  class RecordingRing {
    var buffers: array<seq<byte>>
    var recordingIndex: int
    var playbackIndex: int
    /** How many finished buffers wait to be retrieved. */
    ghost var pendingCount: nat

    ghost predicate Valid()
      reads this
    {
      buffers.Length >= 1 &&
      0 <= recordingIndex < buffers.Length && 0 <= playbackIndex < buffers.Length &&
      pendingCount < buffers.Length &&
      recordingIndex == Offset(playbackIndex, pendingCount, buffers.Length)
    }

    /** The finished buffers, oldest first. */
    ghost function Pending(): (p: seq<seq<byte>>)
      requires Valid()
      reads this, buffers
      ensures |p| < buffers.Length
    {
      Window(buffers[..], playbackIndex, pendingCount)
    }

    /** The constructor and the buffer allocation of `Init`: `n` buffers
        (at least one), both indices at 0, nothing pending. */
    constructor(n: int)
      requires n >= 1
      ensures Valid() && fresh(buffers) && buffers.Length == n
      ensures Pending() == []
    {
      buffers := new seq<byte>[n](_ => []);
      recordingIndex := 0;
      playbackIndex := 0;
      pendingCount := 0;
    }

    /** `GetNumBuffers`. */
    function NumBuffers(): (n: int)
      requires Valid()
      reads this
      ensures n >= 1
    {
      buffers.Length
    }

    /** The index part of `InputProc`: the buffer just rendered (`rendered`)
        becomes the newest pending one; when the ring already held `n - 1`
        pending buffers, the oldest is dropped. */
    method InputProc(rendered: seq<byte>)
      requires Valid()
      modifies this`recordingIndex, this`playbackIndex, this`pendingCount, buffers
      ensures Valid()
      ensures Pending() == if |old(Pending())| == buffers.Length - 1
                           then (old(Pending()) + [rendered])[1..]
                           else old(Pending()) + [rendered]
    {
      ghost var bufs := buffers[..];
      buffers[recordingIndex] := rendered;
      assert buffers[..] == bufs[recordingIndex := rendered];
      WindowFrame(bufs, playbackIndex, pendingCount, recordingIndex, rendered);
      WindowSnoc(buffers[..], playbackIndex, pendingCount);
      NextIsMod(recordingIndex, buffers.Length);
      var nextIndex := (recordingIndex + 1) % buffers.Length;
      if playbackIndex == nextIndex {
        NextIsMod(playbackIndex, buffers.Length);
        playbackIndex := (playbackIndex + 1) % buffers.Length;
      } else {
        pendingCount := pendingCount + 1;
      }
      recordingIndex := nextIndex;
    }

    /** `RetrieveBuffer`: nothing when the indices are equal; otherwise the
        oldest pending buffer, which is then no longer pending. */
    method RetrieveBuffer() returns (r: Option<seq<byte>>)
      requires Valid()
      modifies this`playbackIndex, this`pendingCount
      ensures Valid()
      ensures r.None? <==> old(Pending()) == []
      ensures r.Some? ==> r.value == old(Pending())[0] && Pending() == old(Pending())[1..]
      ensures r.None? ==> Pending() == old(Pending())
    {
      if recordingIndex == playbackIndex {
        return None;
      }
      r := Some(buffers[playbackIndex]);
      NextIsMod(playbackIndex, buffers.Length);
      playbackIndex := (playbackIndex + 1) % buffers.Length;
      pendingCount := pendingCount - 1;
    }
  }
}
