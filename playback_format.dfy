/** `PlaybackDevice.Format`: the three 16-bit little-endian PCM formats a
    playback device accepts, and the integer unit conversions between
    bytes, frames and milliseconds. */
module PlaybackFormat {
  import opened Bytes

  datatype Format = Mono16kHz | Mono44kHz | Stereo44kHz

  /** The guard both playback devices put in front of `waitForEnd`: it
      fails when nothing is playing, and when the caller is the player
      thread itself, which would otherwise wait for its own end. */
  function WaitForEndGuard(playing: bool, hasPlayer: bool, fromPlayer: bool): (r: Result<()>)
    ensures !playing ==> r == Err(IllegalState("Not playing"))
    ensures playing && hasPlayer && fromPlayer ==>
      r == Err(IllegalState("Cannot call waitForEnd from within player thread!"))
    ensures r.Ok? <==> playing && !(hasPlayer && fromPlayer)
  {
    if !playing then Err(IllegalState("Not playing"))
    else if hasPlayer && fromPlayer then
      Err(IllegalState("Cannot call waitForEnd from within player thread!"))
    else Ok(())
  }

  function Channels(f: Format): (n: int)
    ensures n == 1 || n == 2
  {
    if f == Stereo44kHz then 2 else 1
  }

  const BITS_PER_SAMPLE: int := 16

  /** `getSampleRate`. */
  function SampleRate(f: Format): (rate: int)
    ensures rate == (if f == Mono16kHz then 16000 else 44100)
  {
    match f
    case Mono16kHz => 16000
    case Mono44kHz => 44100
    case Stereo44kHz => 44100
  }

  /** `isStereo`: only the 44.1 kHz stereo format has two channels. */
  function IsStereo(f: Format): (stereo: bool)
    ensures stereo <==> f == Stereo44kHz
  {
    Channels(f) == 2
  }

  /** `getBytesPerFrame`: the frame size, one 16-bit sample per channel. */
  function BytesPerFrame(f: Format): (n: int)
    ensures n == 2 * Channels(f) && (n == 2 || n == 4)
  {
    Channels(f) * BITS_PER_SAMPLE / 8
  }

  /** The byte rate `convertBytesToMs` divides by: a second of audio is
      `SampleRate` frames of `BytesPerFrame` bytes. */
  function BytesPerSecond(f: Format): (n: int)
    ensures n == SampleRate(f) * BytesPerFrame(f)
    ensures n == (match f case Mono16kHz => 32000 case Mono44kHz => 88200 case Stereo44kHz => 176400)
  {
    Channels(f) * SampleRate(f) * BITS_PER_SAMPLE / 8
  }

  /** `convertBytesToMs(bytes)`: `(bytes * 1000) / bytesPerSecond` in Java
      `int` arithmetic, so the product wraps past 2^31 - 1 and the
      quotient truncates toward zero. */
  function ConvertBytesToMs(f: Format, bytes: int): (ms: int)
    requires InInt32(bytes)
    ensures InInt32(ms)
    ensures 0 <= bytes && bytes * 1000 < 0x8000_0000 ==>
      0 <= ms && ms * BytesPerSecond(f) <= bytes * 1000 < (ms + 1) * BytesPerSecond(f)
  {
    JavaDiv(Wrap32(bytes * 1000), BytesPerSecond(f))
  }

  /** `getJavaSoundBufferSize`: `3 * (channels * rate * bits / 16)` bytes,
      which is exactly one and a half seconds of audio. */
  function JavaSoundBufferSize(f: Format): (n: int)
    ensures 2 * n == 3 * BytesPerSecond(f)
  {
    3 * ((Channels(f) * SampleRate(f) * BITS_PER_SAMPLE) / 16)
  }

  /** `convertFramesToMs(frames)`: `(frames * 1000) / frameRate`, computed
      as an `int` (wrapping) before it is widened to `long`; for PCM the
      frame rate is the sample rate. */
  function ConvertFramesToMs(f: Format, frames: int): (ms: int)
    requires InInt32(frames)
    ensures InInt32(ms)
    ensures 0 <= frames && frames * 1000 < 0x8000_0000 ==>
      0 <= ms && ms * SampleRate(f) <= frames * 1000 < (ms + 1) * SampleRate(f)
  {
    JavaDiv(Wrap32(frames * 1000), SampleRate(f))
  }

  /** The two conversions agree: `frames` frames last exactly as long as
      their `frames * BytesPerFrame` bytes, while the byte product does not
      overflow. */
  lemma FramesAndBytesAgree(f: Format, frames: int)
    requires 0 <= frames && frames * BytesPerFrame(f) * 1000 < 0x8000_0000
    ensures ConvertFramesToMs(f, frames) == ConvertBytesToMs(f, frames * BytesPerFrame(f))
  {
    var b, r := BytesPerFrame(f), SampleRate(f);
    var rem := (frames * 1000) % r;
    assert frames * 1000 == r * ((frames * 1000) / r) + rem;
    assert frames * b * 1000 == (r * b) * ((frames * 1000) / r) + rem * b;
    DivUnique(frames * b * 1000, r * b, (frames * 1000) / r, rem * b);
  }

  /** Past 2147483 bytes the `int` product `bytes * 1000` wraps, and the
      estimate turns negative. */
  lemma BytesToMsWraps()
    ensures ConvertBytesToMs(Mono16kHz, 2147484) < 0
  {
    assert Wrap32(2147484 * 1000) == 2147484000 - 0x1_0000_0000;
  }
}
