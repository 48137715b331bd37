/**
 * The small part of Java's byte and stream semantics that the loader relies on:
 * bytes and their signed reading, the narrowing cast `(byte) x`, and one call of
 * `InputStream.read(byte[])`, whose outcome (how many bytes the stream hands over,
 * or an IOException) is chosen by the environment.
 */
module JavaIo {

  /** A byte of a file, as an unsigned value. */
  newtype byte = x: int | 0 <= x < 256

  /** The value a Java `byte` holding these eight bits has (two's complement). */
  function Signed(b: byte): (v: int)
    ensures -128 <= v < 128
    ensures v == b as int || v == b as int - 256
  {
    if b < 128 then b as int else b as int - 256
  }

  /** Java's narrowing conversion `(byte) x`: keep the low eight bits, read them as two's complement. */
  function JavaByteCast(x: int): (v: int)
    ensures -128 <= v < 128
    ensures (x - v) % 256 == 0
  {
    var low := x % 256;
    if low < 128 then low else low - 256
  }

  /** The outcome of a Java call that either returns a value or throws an IOException. */
  datatype IoResult<T> = Ok(value: T) | IOException

  /**
   * What the stream does on one `read` call: hand over at most `max(n, 1)` bytes, or
   * throw. `Deliver(0)` still hands over one byte when one is there, since `read`
   * blocks until at least one byte is available. A stream may hand over fewer bytes
   * than are available (a short read).
   */
  datatype Reply = Deliver(n: nat) | Throw

  /** The effect of one `read(b)`: the bytes stored at the front of `b`, the end of the stream, or an exception. */
  datatype ReadResult = Bytes(data: seq<byte>) | EndOfStream | ReadFailed

  function Min(a: int, b: int): int { if a <= b then a else b }

  function Max(a: int, b: int): int { if a <= b then b else a }

  /**
   * `read(b)` with `b.length == len` on a stream whose remaining bytes are `source`:
   * a zero-length buffer reads nothing; otherwise the call blocks until at least one
   * byte is there, returns -1 at the end of the stream, and never reads past `len`.
   */
  function Read(source: seq<byte>, len: nat, reply: Reply): (r: ReadResult)
    ensures r.ReadFailed? <==> reply.Throw?
    ensures r.EndOfStream? <==> reply.Deliver? && len > 0 && source == []
    ensures r.Bytes? ==> |r.data| <= len && r.data <= source
    ensures r.Bytes? && len > 0 ==> |r.data| >= 1
    ensures reply.Deliver? && reply.n >= len && !r.EndOfStream? ==> r == Bytes(source[..Min(len, |source|)])
  {
    match reply
    case Throw => ReadFailed
    case Deliver(n) =>
      if len == 0 then Bytes([])
      else if |source| == 0 then EndOfStream
      else Bytes(source[..Min(Min(Max(n, 1), len), |source|)])
  }

  /** The `int` that `read` returns: the number of bytes stored, or -1 at the end of the stream. */
  function ReadLength(r: ReadResult): int
    requires !r.ReadFailed?
  {
    match r
    case Bytes(data) => |data|
    case EndOfStream => -1
  }

  /** A freshly allocated Java `byte[size]`: all zero. */
  function Zeros(size: nat): seq<byte>
  {
    seq(size, _ => 0 as byte)
  }

  /** The contents of a `new byte[size]` after the read `r` into it. */
  function Buffer(size: nat, r: ReadResult): (b: seq<byte>)
    ensures |b| == size
    ensures r.Bytes? && |r.data| <= size ==> b[..|r.data|] == r.data
  {
    if r.Bytes? && |r.data| <= size then r.data + Zeros(size - |r.data|) else Zeros(size)
  }
}
