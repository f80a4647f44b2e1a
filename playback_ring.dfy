/** The byte ring of the native Mac playback device (`PlaybackDevice` in
    mac/PlaybackDevice.cpp): the JNI layer writes converted audio at
    `writePos`, the CoreAudio render callback consumes it from `readPos`. */
module PlaybackRingBuffer {
  import opened Bytes

  /** Where `RequestAdd` lets the caller write: `size1` bytes from
      `offset1`, then, when `second` is set, `size2` bytes from the front
      of the buffer (`data2 == fBuffer`; `data2 == NULL` otherwise). */
  datatype Region = Region(offset1: int, size1: int, second: bool, size2: int)

  /** `GetUnplayedSize` on raw positions: the write position is unrolled
      past the read position. */
  function UnplayedSizeOf(size: int, readPos: int, writePos: int): (n: int)
    requires 0 <= readPos && 0 <= writePos
  {
    (if writePos < readPos then writePos + size else writePos) - readPos
  }

  /** `FinishAdd` as written: the write position wraps only when it passes
      the end of the buffer, so it can come to rest on `size` itself. */
  function WritePosAsWritten(size: int, writePos: int, bytes: int): int {
    if writePos + bytes > size then writePos + bytes - size else writePos + bytes
  }

  /** `FinishAdd` as intended: a write that reaches the end wraps to the
      front, so the position always indexes the buffer. */
  function WritePosAfterAdd(size: int, writePos: int, bytes: int): (w: int)
    requires 0 <= writePos < size && 0 <= bytes < size
    ensures 0 <= w < size
    ensures w == (writePos + bytes) % size
  {
    var w := if writePos + bytes >= size then writePos + bytes - size else writePos + bytes;
    ModUnique(writePos + bytes, size, if writePos + bytes >= size then 1 else 0, w);
    w
  }

  /** The read position after `FillBuffer` takes `bytes` available bytes:
      a read that reaches the end wraps to 0, one that crosses it
      continues from the front. */
  function ReadPosAfterFill(size: int, readPos: int, bytes: int): int {
    if readPos + bytes <= size then
      (if readPos + bytes == size then 0 else readPos + bytes)
    else bytes - (size - readPos)
  }

  /** With the write position wrapped as written, a ring of 10 bytes that
      has played all it was given (5 + 5 bytes added, 5 + 5 read) ends
      with both positions at the buffer's ends and reports 10 unplayed
      bytes, and every further add is refused as `Insufficient buffer
      space`. Wrapping at `size` reports 0. */
  lemma WrapAtEndReportsFull()
    ensures var w1 := WritePosAsWritten(10, 0, 5);
      var r1 := ReadPosAfterFill(10, 0, 5);
      var w2 := WritePosAsWritten(10, w1, 5);
      var r2 := ReadPosAfterFill(10, r1, 5);
      w2 == 10 && r2 == 0 && UnplayedSizeOf(10, r2, w2) == 10
    ensures var w1 := WritePosAfterAdd(10, 0, 5);
      var r1 := ReadPosAfterFill(10, 0, 5);
      var w2 := WritePosAfterAdd(10, w1, 5);
      var r2 := ReadPosAfterFill(10, r1, 5);
      w2 == 0 && r2 == 0 && UnplayedSizeOf(10, r2, w2) == 0
  {
  }

  /** The ring's unplayed bytes in a buffer `b`, oldest first. */
  function RingBytes(b: seq<byte>, readPos: int, writePos: int): (s: seq<byte>)
    requires 0 <= readPos < |b| && 0 <= writePos < |b|
    ensures |s| == UnplayedSizeOf(|b|, readPos, writePos)
  {
    if readPos <= writePos then b[readPos..writePos] else b[readPos..] + b[..writePos]
  }

  /** The `n` bytes from position `pos` on, continuing at the front. */
  function Span(b: seq<byte>, pos: int, n: int): (s: seq<byte>)
    requires 0 <= pos < |b| && 0 <= n <= |b|
    ensures |s| == n
  {
    if pos + n <= |b| then b[pos..pos + n] else b[pos..] + b[..pos + n - |b|]
  }

  /** Whether buffer index `i` holds an unplayed byte. */
  predicate InRing(readPos: int, writePos: int, i: int) {
    if readPos <= writePos then readPos <= i < writePos else readPos <= i || i < writePos
  }

  /** Taking `n` unplayed bytes takes the oldest ones, the span at the read
      position, and moves the read position past them. */
  lemma TakeFront(b: seq<byte>, readPos: int, writePos: int, n: int)
    requires 0 <= readPos < |b| && 0 <= writePos < |b|
    requires 0 <= n <= UnplayedSizeOf(|b|, readPos, writePos)
    ensures RingBytes(b, readPos, writePos)[..n] == Span(b, readPos, n)
    ensures var r := ReadPosAfterFill(|b|, readPos, n);
      0 <= r < |b| && RingBytes(b, r, writePos) == RingBytes(b, readPos, writePos)[n..]
  {
    var r := ReadPosAfterFill(|b|, readPos, n);
    if readPos <= writePos {
      assert b[readPos..writePos][n..] == b[readPos + n..writePos];
    } else if readPos + n < |b| {
      assert (b[readPos..] + b[..writePos])[n..] == b[readPos + n..] + b[..writePos];
    } else if readPos + n == |b| {
      assert (b[readPos..] + b[..writePos])[n..] == b[..writePos];
    } else {
      assert (b[readPos..] + b[..writePos])[..n] == b[readPos..] + b[..r];
      assert (b[readPos..] + b[..writePos])[n..] == b[r..writePos];
    }
  }

  /** Adding `n` bytes after the unplayed ones appends the span at the
      write position. */
  lemma AddBack(b: seq<byte>, readPos: int, writePos: int, n: int)
    requires 0 <= readPos < |b| && 0 <= writePos < |b|
    requires 0 <= n && UnplayedSizeOf(|b|, readPos, writePos) + n < |b|
    ensures RingBytes(b, readPos, WritePosAfterAdd(|b|, writePos, n)) ==
      RingBytes(b, readPos, writePos) + Span(b, writePos, n)
  {
    var w := WritePosAfterAdd(|b|, writePos, n);
    if readPos <= writePos {
      if writePos + n < |b| {
        assert b[readPos..w] == b[readPos..writePos] + b[writePos..w];
      } else if writePos + n == |b| {
        assert b[readPos..] == b[readPos..writePos] + b[writePos..];
        assert b[..w] == [];
      } else {
        assert b[readPos..] == b[readPos..writePos] + b[writePos..];
      }
    } else {
      assert b[..w] == b[..writePos] + b[writePos..w];
    }
  }

  /** Changing bytes outside the ring leaves the unplayed bytes alone. */
  lemma OutsideRing(b: seq<byte>, b': seq<byte>, readPos: int, writePos: int)
    requires 0 <= readPos < |b| && 0 <= writePos < |b| && |b'| == |b|
    requires forall i :: 0 <= i < |b| && InRing(readPos, writePos, i) ==> b'[i] == b[i]
    ensures RingBytes(b', readPos, writePos) == RingBytes(b, readPos, writePos)
  {
    if readPos <= writePos {
      assert b'[readPos..writePos] == b[readPos..writePos];
    } else {
      assert b'[readPos..] == b[readPos..];
      assert b'[..writePos] == b[..writePos];
    }
  }

  /** One `memcpy`: `data` over `a` from `pos` on. */
  method Put(a: array<byte>, pos: int, data: seq<byte>)
    requires 0 <= pos && pos + |data| <= a.Length
    modifies a
    ensures a[..] == old(a[..pos]) + data + old(a[pos + |data|..])
  {
    forall k | 0 <= k < |data| {
      a[pos + k] := data[k];
    }
  }

  /** A write that does not cross the end of the buffer lands outside the
      unplayed bytes and can be read back at the write position. */
  lemma StoredOnce(b: seq<byte>, b': seq<byte>, readPos: int, writePos: int, data: seq<byte>)
    requires 0 <= readPos < |b| && 0 <= writePos < |b|
    requires UnplayedSizeOf(|b|, readPos, writePos) + |data| < |b| && writePos + |data| <= |b|
    requires b' == b[..writePos] + data + b[writePos + |data|..]
    ensures RingBytes(b', readPos, writePos) == RingBytes(b, readPos, writePos)
    ensures Span(b', writePos, |data|) == data
  {
    forall i | 0 <= i < |b| && InRing(readPos, writePos, i)
      ensures b'[i] == b[i]
    {
      assert i < writePos || writePos + |data| <= i;
    }
    OutsideRing(b, b', readPos, writePos);
    assert b'[writePos..writePos + |data|] == data;
  }

  /** The buffer after both copies of a write that crosses the end: the
      write's second part, the untouched middle, the write's first part. */
  lemma WrappedWrite(b: seq<byte>, b1: seq<byte>, b': seq<byte>, writePos: int, data: seq<byte>)
    requires 0 <= writePos < |b| && |b| - writePos <= |data| <= |b|
    requires |data| - (|b| - writePos) <= writePos
    requires b1 == b[..writePos] + data[..|b| - writePos] + b[|b|..]
    requires b' == [] + data[|b| - writePos..] + b1[|data| - (|b| - writePos)..]
    ensures b' == data[|b| - writePos..] + b[|data| - (|b| - writePos)..writePos] + data[..|b| - writePos]
  {
    var size2 := |data| - (|b| - writePos);
    assert b1[size2..] == b[size2..writePos] + data[..|b| - writePos];
  }

  /** A write that crosses the end fills the tail of the buffer, then its
      front; both parts lie outside the unplayed bytes, which then cannot
      wrap themselves. */
  lemma StoredTwice(b: seq<byte>, b': seq<byte>, readPos: int, writePos: int, data: seq<byte>)
    requires 0 <= readPos < |b| && 0 <= writePos < |b|
    requires UnplayedSizeOf(|b|, readPos, writePos) + |data| < |b| && writePos + |data| > |b|
    requires b' == data[|b| - writePos..] + b[|data| - (|b| - writePos)..writePos] + data[..|b| - writePos]
    ensures RingBytes(b', readPos, writePos) == RingBytes(b, readPos, writePos)
    ensures Span(b', writePos, |data|) == data
  {
    var size2 := |data| - (|b| - writePos);
    assert readPos <= writePos && size2 <= readPos;
    assert b'[readPos..writePos] == b[readPos..writePos];
    assert b'[writePos..] == data[..|b| - writePos];
    assert b'[..size2] == data[|b| - writePos..];
  }

  /** `PlaybackDevice` with its buffer allocated; the CoreAudio unit is
      not modelled. */
  class PlaybackRing {
    var buffer: array<byte>
    var readPos: int
    var writePos: int

    ghost predicate Valid()
      reads this
    {
      0 < buffer.Length < 0x8000_0000 &&
      0 <= readPos < buffer.Length && 0 <= writePos < buffer.Length
    }

    /** The bytes written but not yet played, oldest first. */
    function Unplayed(): (s: seq<byte>)
      requires Valid()
      reads this, buffer
    {
      RingBytes(buffer[..], readPos, writePos)
    }

    /** The constructor and the buffer allocation of `Init`: 1.5 s of
        16-bit audio at the device's rate, with both positions at 0. */
    constructor(sampleRate: int, stereo: bool)
      requires 0 < sampleRate && 6 * sampleRate < 0x8000_0000
      ensures Valid() && fresh(buffer)
      ensures buffer.Length == 3 * sampleRate * (if stereo then 2 else 1)
      ensures Unplayed() == []
    {
      buffer := new byte[3 * sampleRate * (if stereo then 2 else 1)];
      readPos := 0;
      writePos := 0;
    }

    /** `GetUnplayedSize`: the number of unplayed bytes, always less than
        the buffer size. */
    function UnplayedSize(): (n: int)
      requires Valid()
      reads this, buffer
      ensures n == |Unplayed()| && n < buffer.Length
    {
      UnplayedSizeOf(buffer.Length, readPos, writePos)
    }

    /** The region a write of `bytes` at the write position covers. */
    function RegionFor(bytes: int): (r: Region)
      requires Valid() && 0 <= bytes
      reads this
      ensures r.offset1 == writePos && r.size1 + r.size2 == bytes
      ensures !r.second <==> writePos + bytes <= buffer.Length
    {
      if writePos + bytes <= buffer.Length then Region(writePos, bytes, false, 0)
      else Region(writePos, buffer.Length - writePos, true, bytes - (buffer.Length - writePos))
    }

    /** `RequestAdd`: refused unless the bytes fit with one byte to spare,
        so the ring never holds more than `size - 1` bytes; otherwise the
        write region, split in two when it crosses the end. */
    method RequestAdd(bytes: int) returns (r: Result<Region>)
      requires Valid() && 0 <= bytes < 0x8000_0000
      ensures r.Err? <==> UnplayedSize() + bytes >= buffer.Length
      ensures r.Err? ==> r.error == NativeError("Insufficient buffer space")
      ensures r.Ok? ==> r.value == RegionFor(bytes)
    {
      var unrolledReadPos := readPos;
      if unrolledReadPos <= writePos {
        unrolledReadPos := unrolledReadPos + buffer.Length;
      }
      if writePos + bytes >= unrolledReadPos {
        return Err(NativeError("Insufficient buffer space"));
      }
      if writePos + bytes <= buffer.Length {
        return Ok(Region(writePos, bytes, false, 0));
      }
      var size1 := buffer.Length - writePos;
      r := Ok(Region(writePos, size1, true, bytes - size1));
    }

    /** The two `memcpy` calls of `playbackAddData` (mac/AudioJNI.cpp):
        `data` goes into the granted region, which lies outside the
        unplayed bytes, so those are unchanged. */
    method Store(data: seq<byte>)
      requires Valid() && UnplayedSize() + |data| < buffer.Length
      modifies buffer
      ensures Valid()
      ensures Unplayed() == old(Unplayed())
      ensures Span(buffer[..], writePos, |data|) == data
    {
      ghost var b := buffer[..];
      var region := RegionFor(|data|);
      Put(buffer, region.offset1, data[..region.size1]);
      if region.second {
        ghost var b1 := buffer[..];
        Put(buffer, 0, data[region.size1..]);
        WrappedWrite(b, b1, buffer[..], writePos, data);
        StoredTwice(b, buffer[..], readPos, writePos, data);
      } else {
        assert data[..region.size1] == data;
        StoredOnce(b, buffer[..], readPos, writePos, data);
      }
    }

    /** `FinishAdd` with the write position wrapped at the end of the
        buffer (see `WritePosAsWritten` for the code as written): the
        stored bytes join the unplayed ones. */
    method FinishAdd(bytes: int)
      requires Valid() && 0 <= bytes && UnplayedSize() + bytes < buffer.Length
      modifies this`writePos
      ensures Valid()
      ensures writePos == WritePosAfterAdd(buffer.Length, old(writePos), bytes)
      ensures Unplayed() == old(Unplayed()) + Span(buffer[..], old(writePos), bytes)
    {
      AddBack(buffer[..], readPos, writePos, bytes);
      writePos := writePos + bytes;
      if writePos >= buffer.Length {
        writePos := writePos - buffer.Length;
      }
    }

    /** Lines 266-282 of `FillBuffer`, for a request the unplayed bytes
        cover: the oldest `bytes` bytes are copied out and the read
        position moves past them, wrapping at the end. */
    method Take(target: array<byte>, bytes: int)
      requires Valid() && target != buffer
      requires 0 <= bytes <= target.Length && bytes <= UnplayedSize()
      modifies target, this`readPos
      ensures Valid()
      ensures readPos == ReadPosAfterFill(buffer.Length, old(readPos), bytes)
      ensures target[..bytes] == old(Unplayed())[..bytes]
      ensures target[bytes..] == old(target[bytes..])
      ensures Unplayed() == old(Unplayed())[bytes..]
    {
      TakeFront(buffer[..], readPos, writePos, bytes);
      CopyOut(target, bytes);
      if readPos + bytes <= buffer.Length {
        readPos := readPos + bytes;
        if readPos == buffer.Length {
          readPos := 0;
        }
      } else {
        readPos := bytes - (buffer.Length - readPos);
      }
    }

    /** The `memcpy` calls of `FillBuffer`: one when the bytes lie before
        the end of the buffer, two when they cross it. */
    method CopyOut(target: array<byte>, bytes: int)
      requires Valid() && target != buffer && 0 <= bytes <= target.Length && bytes <= buffer.Length
      modifies target
      ensures target[..bytes] == Span(buffer[..], readPos, bytes)
      ensures target[bytes..] == old(target[bytes..])
    {
      if readPos + bytes <= buffer.Length {
        forall i | 0 <= i < bytes {
          target[i] := buffer[readPos + i];
        }
        assert target[..bytes] == buffer[readPos..readPos + bytes];
        return;
      }
      var firstBytes := buffer.Length - readPos;
      forall i | 0 <= i < firstBytes {
        target[i] := buffer[readPos + i];
      }
      forall i | firstBytes <= i < bytes {
        target[i] := buffer[i - firstBytes];
      }
      assert target[..bytes] == buffer[readPos..] + buffer[..bytes - firstBytes];
    }

    /** `FillBuffer`: exactly `bytes` bytes are written to the target; the
        oldest unplayed bytes first, as many as there are, then zeros. */
    method FillBuffer(target: array<byte>, bytes: int)
      requires Valid() && target != buffer && 0 <= bytes <= target.Length
      modifies target, this`readPos
      ensures Valid()
      ensures var n := Min(bytes, |old(Unplayed())|);
        target[..bytes] == old(Unplayed())[..n] + Zeros(bytes - n) &&
        Unplayed() == old(Unplayed())[n..]
      ensures target[bytes..] == old(target[bytes..])
      decreases bytes
    {
      var unrolledWritePos := writePos;
      if unrolledWritePos < readPos {
        unrolledWritePos := unrolledWritePos + buffer.Length;
      }
      if readPos + bytes > unrolledWritePos {
        var available := unrolledWritePos - readPos;
        Underrun(target, bytes, available);
        return;
      }
      Take(target, bytes);
      assert Zeros(0) == [];
    }

    /** Lines 251-263 of `FillBuffer`: everything unplayed is taken by
        the recursive call, and the rest of the target is zeroed. */
    method Underrun(target: array<byte>, bytes: int, available: int)
      requires Valid() && target != buffer && 0 <= bytes <= target.Length
      requires available == UnplayedSize() < bytes
      modifies target, this`readPos
      ensures Valid()
      ensures target[..bytes] == old(Unplayed()) + Zeros(bytes - available)
      ensures Unplayed() == []
      ensures target[bytes..] == old(target[bytes..])
      decreases bytes, 0
    {
      ghost var before := Unplayed();
      if available > 0 {
        FillBuffer(target, available);
      }
      assert target[..available] == before;
      forall i | available <= i < bytes {
        target[i] := 0;
      }
      assert target[..bytes] == target[..available] + target[available..bytes];
      assert target[available..bytes] == Zeros(bytes - available);
    }

    /** `Reset`: both positions go back to 0 only when the hardware reset,
        whose outcome is `hardwareOk`, succeeds; the ring is then empty. */
    method Reset(hardwareOk: bool) returns (error: Option<string>)
      requires Valid()
      modifies this`readPos, this`writePos
      ensures Valid()
      ensures hardwareOk ==> error == None && readPos == 0 && writePos == 0 && Unplayed() == []
      ensures !hardwareOk ==> (error == Some("Error resetting") &&
        readPos == old(readPos) && writePos == old(writePos))
    {
      if !hardwareOk {
        return Some("Error resetting");
      }
      readPos := 0;
      writePos := 0;
      error := None;
    }
  }
}
