/** Byte values, the sign extensions the Java code relies on, little-endian
    packing, and the exceptions the modelled code raises. */
module Bytes {

  /** The bit pattern of a Java `byte` or a C `UInt8`, as its unsigned value. */
  type byte = x: int | 0 <= x < 256

  const TWO_16: int := 0x1_0000
  const TWO_32: int := 0x1_0000_0000

  /** What Java's `(int)b` gives for a byte: the value sign-extended from bit 7. */
  function SignedByte(b: byte): (v: int)
    ensures -128 <= v < 128
    ensures v < 0 <==> b >= 128
  {
    if b < 128 then b else b - 256
  }

  /** Sign extension keeps the bit pattern. */
  lemma SignedByteBits(b: byte)
    ensures SignedByte(b) % 256 == b
  {
    if b >= 128 {
      ModUnique(SignedByte(b), 256, -1, b);
    }
  }

  /** A 4-bit code sign-extended from bit 3 (the decoder's `(x<<28)>>28`). */
  function SignExtend4(n: int): (v: int)
    requires 0 <= n < 16
    ensures -8 <= v < 8
    ensures v < 0 <==> n >= 8
  {
    if n < 8 then n else n - 16
  }

  /** Sign extension keeps the 4-bit pattern. */
  lemma SignExtend4Bits(n: int)
    requires 0 <= n < 16
    ensures SignExtend4(n) % 16 == n
  {
    if n >= 8 {
      ModUnique(SignExtend4(n), 16, -1, n);
    }
  }

  /** The 16-bit sample stored little-endian at bytes `lo`, `hi`:
      `(int)lo & 0xff | (int)hi << 8` in Java. */
  function Sample16(lo: byte, hi: byte): (v: int)
    ensures -0x8000 <= v < 0x8000
  {
    lo + 256 * SignedByte(hi)
  }

  /** The sample keeps the 16-bit pattern of its two bytes. */
  lemma Sample16Bits(lo: byte, hi: byte)
    ensures Sample16(lo, hi) % TWO_16 == lo + 256 * hi
  {
    if hi >= 128 {
      ModUnique(Sample16(lo, hi), TWO_16, -1, lo + 256 * hi);
    } else {
      ModUnique(Sample16(lo, hi), TWO_16, 0, lo + 256 * hi);
    }
  }

  /** Whether `v` fits in a signed 16-bit sample. */
  predicate InInt16(v: int) {
    -0x8000 <= v <= 0x7fff
  }

  /** Low byte of `v`: `v & 0xff`. */
  function LowByte(v: int): byte {
    v % 256
  }

  /** Second byte of `v`: `(v >> 8) & 0xff` (an arithmetic shift). */
  function HighByte(v: int): byte {
    (v / 256) % 256
  }

  /** `write2Byte`: bytes k = 0, 1 of `i` are `(i >> 8k) & 0xff`. */
  function Le16(i: int): (r: seq<byte>)
    ensures |r| == 2
  {
    [i % 256, (i / 0x100) % 256]
  }

  /** `write4Byte`: bytes k = 0..3 of `i` are `(i >> 8k) & 0xff`. */
  function Le32(i: int): (r: seq<byte>)
    ensures |r| == 4
  {
    [i % 256, (i / 0x100) % 256, (i / 0x1_0000) % 256, (i / 0x100_0000) % 256]
  }

  /** Reassembles little-endian bytes into an unsigned number. */
  function LeValue(bs: seq<byte>): (v: nat)
    ensures v < Pow256(|bs|)
  {
    if bs == [] then 0 else bs[0] + 256 * LeValue(bs[1..])
  }

  function Pow256(n: nat): (p: nat)
    ensures p >= 1
  {
    if n == 0 then 1 else 256 * Pow256(n - 1)
  }

  /** `i` split into a 256-digit and what lies above it. */
  lemma Digit(i: int)
    ensures i == 256 * (i / 256) + i % 256
  {
  }

  /** Uniqueness of the remainder for a positive constant divisor. */
  lemma ModUnique(i: int, d: int, k: int, x: int)
    requires d > 0 && 0 <= x < d && i == d * k + x
    ensures i % d == x
  {
    var z := k - i / d;
    assert d * z == i % d - x;
  }

  /** Uniqueness of the quotient for a positive divisor. */
  lemma DivUnique(i: int, d: int, k: int, x: int)
    requires d > 0 && 0 <= x < d && i == d * k + x
    ensures i / d == k
  {
    ModUnique(i, d, k, x);
    assert d * (k - i / d) == 0;
  }

  /** Reading back what `write2Byte` wrote gives `i` modulo 2^16. */
  lemma {:induction false} Le16RoundTrip(i: int)
    ensures LeValue(Le16(i)) == i % TWO_16
  {
    var b := Le16(i);
    Digit(i);
    var q1 := i / 256;
    Digit(q1);
    var r0, r1 := i % 256, q1 % 256;
    assert b == [r0, r1];
    assert b[1..][1..] == [];
    assert LeValue(b[1..]) == r1;
    assert LeValue(b) == r0 + 256 * r1;
    ModUnique(i, TWO_16, q1 / 256, r0 + 256 * r1);
  }

  /** Reading back what `write4Byte` wrote gives `i` modulo 2^32. */
  lemma {:induction false} Le32RoundTrip(i: int)
    ensures LeValue(Le32(i)) == i % TWO_32
  {
    var b := Le32(i);
    Digit(i);
    var q1 := i / 256;
    Digit(q1);
    var q2 := q1 / 256;
    Digit(q2);
    var q3 := q2 / 256;
    Digit(q3);
    var r0, r1, r2, r3 := i % 256, q1 % 256, q2 % 256, q3 % 256;
    assert q2 == i / 0x1_0000;
    assert q3 == i / 0x100_0000;
    assert b == [r0, r1, r2, r3];
    assert b[1..][1..][1..][1..] == [];
    assert LeValue(b[1..][1..][1..]) == r3;
    assert LeValue(b[1..][1..]) == r2 + 256 * r3;
    assert LeValue(b[1..]) == r1 + 256 * r2 + 0x1_0000 * r3;
    assert LeValue(b) == r0 + 256 * r1 + 0x1_0000 * r2 + 0x100_0000 * r3;
    ModUnique(i, TWO_32, q3 / 256, LeValue(b));
  }

  /** A value that fits in 32 bits reads back unchanged. */
  lemma Le32Value(i: int)
    requires 0 <= i < TWO_32
    ensures LeValue(Le32(i)) == i
  {
    Le32RoundTrip(i);
    ModUnique(i, TWO_32, 0, i);
  }

  /** A value that fits in 16 bits reads back unchanged. */
  lemma Le16Value(i: int)
    requires 0 <= i < TWO_16
    ensures LeValue(Le16(i)) == i
  {
    Le16RoundTrip(i);
    ModUnique(i, TWO_16, 0, i);
  }

  /** The 16-bit little-endian encoding of each value, one after another
      (`data[outPos++] = (byte)(v & 0xff); data[outPos++] = (byte)((v >> 8) & 0xff)`). */
  function Pcm16(values: seq<int>): (r: seq<byte>)
    ensures |r| == 2 * |values|
  {
    if values == [] then [] else [LowByte(values[0]), HighByte(values[0])] + Pcm16(values[1..])
  }

  /** Writing one more value appends its two bytes. */
  lemma {:induction false} Pcm16Snoc(values: seq<int>, v: int)
    ensures Pcm16(values + [v]) == Pcm16(values) + [LowByte(v), HighByte(v)]
  {
    if values != [] {
      assert (values + [v])[1..] == values[1..] + [v];
      Pcm16Snoc(values[1..], v);
    }
  }

  /** The samples of a little-endian 16-bit PCM byte sequence. */
  function Samples(data: seq<byte>): (r: seq<int>)
    ensures |r| == |data| / 2
  {
    if |data| < 2 then [] else [Sample16(data[0], data[1])] + Samples(data[2..])
  }

  lemma {:induction false} SampleAt(data: seq<byte>, k: int)
    requires 0 <= k && 2 * k + 1 < |data|
    ensures Samples(data)[k] == Sample16(data[2 * k], data[2 * k + 1])
  {
    var rest := data[2..];
    assert Samples(data) == [Sample16(data[0], data[1])] + Samples(rest);
    if k > 0 {
      SampleAt(rest, k - 1);
      assert rest[2 * (k - 1)] == data[2 * k] && rest[2 * (k - 1) + 1] == data[2 * k + 1];
    }
  }

  /** Writing a 16-bit sample and reading it back gives the same sample. */
  lemma Sample16OfBytes(v: int)
    requires InInt16(v)
    ensures Sample16(LowByte(v), HighByte(v)) == v
  {
    var q := v / 256;
    assert v == 256 * q + v % 256;
    assert -128 <= q < 128;
    if q < 0 {
      assert HighByte(v) == q + 256;
    } else {
      assert HighByte(v) == q;
    }
  }

  /** Decoding `Pcm16(values)` recovers `values`, for 16-bit values. */
  lemma {:induction false} SamplesOfPcm16(values: seq<int>)
    requires forall i :: 0 <= i < |values| ==> InInt16(values[i])
    ensures Samples(Pcm16(values)) == values
  {
    if values != [] {
      var p := Pcm16(values);
      assert p[2..] == Pcm16(values[1..]);
      Sample16OfBytes(values[0]);
      SamplesOfPcm16(values[1..]);
    }
  }

  /** The bytes of an ASCII string. */
  function Ascii(s: string): (r: seq<byte>)
    requires forall i :: 0 <= i < |s| ==> s[i] as int < 256
    ensures |r| == |s|
  {
    seq(|s|, i requires 0 <= i < |s| => s[i] as int)
  }

  /** `n` zero bytes. */
  function Zeros(n: nat): (r: seq<byte>)
    ensures |r| == n
    ensures forall i :: 0 <= i < n ==> r[i] == 0
  {
    seq(n, i => 0)
  }

  function Min(a: int, b: int): int { if a <= b then a else b }
  function Max(a: int, b: int): int { if a >= b then a else b }
  function Abs(a: int): nat { if a < 0 then -a else a }

  /** Java's `int` division (truncates toward zero), for a positive divisor. */
  function JavaDiv(a: int, b: int): (q: int)
    requires b > 0
    ensures a >= 0 ==> q == a / b
  {
    if a >= 0 then a / b else -((-a) / b)
  }

  /** Whether `x` is a Java `int`. */
  predicate InInt32(x: int) {
    -0x8000_0000 <= x < 0x8000_0000
  }

  /** Java's 32-bit `int` wrap-around of a mathematical result. */
  function Wrap32(x: int): (r: int)
    ensures -0x8000_0000 <= r < 0x8000_0000
    ensures -0x8000_0000 <= x < 0x8000_0000 ==> r == x
  {
    (x + 0x8000_0000) % TWO_32 - 0x8000_0000
  }

  /** Sequences of bytes, one after another. */
  function Flatten(parts: seq<seq<byte>>): seq<byte> {
    if parts == [] then [] else Flatten(parts[..|parts| - 1]) + parts[|parts| - 1]
  }

  lemma {:induction false} FlattenCons(head: seq<byte>, parts: seq<seq<byte>>)
    ensures Flatten([head] + parts) == head + Flatten(parts)
  {
    if parts != [] {
      var n := |parts| - 1;
      assert ([head] + parts)[..n + 1] == [head] + parts[..n];
      FlattenCons(head, parts[..n]);
    } else {
      assert Flatten([head]) == Flatten([]) + head;
    }
  }

  /** Copies `data` into `output` from index `pos` on (`System.arraycopy`,
      `SetByteArrayRegion`). */
  method SetRegion(output: array<byte>, pos: int, next: int, data: seq<byte>)
    requires 0 <= pos && next == pos + |data| <= output.Length
    modifies output
    ensures output[..next] == old(output[..pos]) + data
    ensures output[next..] == old(output[next..])
  {
    forall k | 0 <= k < |data| {
      output[pos + k] := data[k];
    }
    assert output[..next] == output[..pos] + output[pos..next];
  }

  /** The exceptions (Java) and error strings (C++) of the modelled code. */
  datatype Exception =
    | IllegalArgument(message: string)
    | IllegalState(message: string)
    | AudioError(message: string)
    | IOError(message: string)
    | IndexOutOfBounds
    | NegativeArraySize
    | NoSuchElement
    | InternalError(message: string)
    | NativeError(message: string)

  /** A value, or the exception thrown instead of returning it. */
  datatype Result<+T> = Ok(value: T) | Err(error: Exception)

  datatype Option<+T> = None | Some(value: T)
}
