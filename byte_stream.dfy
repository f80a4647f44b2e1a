/** A Java `InputStream` as the modelled code sees it: the bytes it has not
    yet delivered, delivered in order, and a short read whenever the stream
    chooses. */
module Streams {
  import opened Bytes

  /** What `read(b, off, len)` reports: -1 at end of stream, or the bytes it
      placed in `b[off..]`. */
  datatype ReadResult = Eof | Chunk(data: seq<byte>)

  class ByteStream {
    /** The bytes the stream will still deliver, in order. */
    var rest: seq<byte>
    /** Whether `close()` has been called. */
    var closed: bool

    constructor (content: seq<byte>)
      ensures rest == content && !closed
    {
      rest := content;
      closed := false;
    }

    /** `read(b, off, len)`: for `len > 0` either -1 (nothing left) or a
        non-empty prefix of what is left, of at most `len` bytes; how many
        bytes arrive is the stream's choice. */
    method Read(len: nat) returns (r: ReadResult)
      modifies this
      ensures closed == old(closed)
      ensures len == 0 ==> r == Chunk([]) && rest == old(rest)
      ensures len > 0 && old(rest) == [] ==> r == Eof && rest == old(rest)
      ensures len > 0 && old(rest) != [] ==>
        r.Chunk? && 1 <= |r.data| <= len && old(rest) == r.data + rest
    {
      if len == 0 {
        r := Chunk([]);
      } else if rest == [] {
        r := Eof;
      } else {
        var n :| 1 <= n <= len && n <= |rest|;
        r := Chunk(rest[..n]);
        rest := rest[n..];
      }
    }

    /** `read()`: the next byte as 0..255, or -1 at end of stream. */
    method ReadByte() returns (v: int)
      modifies this
      ensures closed == old(closed)
      ensures old(rest) == [] ==> v == -1 && rest == old(rest)
      ensures old(rest) != [] ==> v == old(rest)[0] && rest == old(rest)[1..]
    {
      if rest == [] {
        v := -1;
      } else {
        v := rest[0];
        rest := rest[1..];
      }
    }

    /** `available()`: an estimate, never more than what is left. */
    method Available() returns (n: nat)
      ensures n <= |rest|
    {
      n :| n <= |rest|;
    }

    method Close()
      modifies this
      ensures closed && rest == old(rest)
    {
      closed := true;
    }
  }
}
