/**
 * Format sniffing and probe capture of the loader: the gzip test on the first two
 * bytes (the ID1/ID2 fields of section 2.3.1 of RFC 1952) and the single bounded
 * read that captures the probe, raw for plain sources and decoded for gzip ones.
 */
module Sniff {
  import opened JavaIo

  /** `java.util.zip.GZIPInputStream.GZIP_MAGIC`: ID1 in the low byte, ID2 in the next. */
  const GZIP_MAGIC: int := 0x8b1f

  /** The bound on the probe, the buffer size the constructor passes. */
  const PROBE_SIZE: nat := 10_000

  /**
   * The gzip decoder, left abstract: what a `GZIPInputStream` over the given bytes
   * yields, or IOException when its constructor rejects the header.
   */
  type Decoder = seq<byte> -> IoResult<seq<byte>>

  /**
   * `checkIfIsGzipped` on a stream positioned at the start of `source`: read into a
   * two-byte array and compare each element, as a Java byte, with the two bytes of
   * GZIP_MAGIC (`GZIP_MAGIC >> 8` is `GZIP_MAGIC / 256`, the value being positive).
   * An IOException is caught and answers false.
   */
  function CheckIfIsGzipped(source: seq<byte>, reply: Reply): (gzipped: bool)
    ensures gzipped <==>
      reply.Deliver? && reply.n >= 2 && |source| >= 2 && source[0] == 0x1F && source[1] == 0x8B
  {
    var r := Read(source, 2, reply);
    if r.ReadFailed? then false
    else
      var header := Buffer(2, r);
      ReadLength(r) == 2
      && Signed(header[0]) == JavaByteCast(GZIP_MAGIC)
      && Signed(header[1]) == JavaByteCast(GZIP_MAGIC / 256)
  }

  /**
   * `loadProbe`: one read of at most `buffSize` bytes; what was read, if anything,
   * is the probe. An empty source gives an empty probe; an IOException propagates.
   */
  function LoadProbe(source: seq<byte>, buffSize: nat, reply: Reply): (probe: IoResult<seq<byte>>)
    ensures probe.IOException? <==> reply.Throw?
    ensures probe.Ok? ==> |probe.value| <= buffSize && probe.value <= source
    ensures probe.Ok? && source == [] ==> probe.value == []
    ensures probe.Ok? && source != [] && buffSize > 0 ==> probe.value != []
    ensures reply.Deliver? && reply.n >= buffSize ==> probe == Ok(source[..Min(buffSize, |source|)])
  {
    var r := Read(source, buffSize, reply);
    if r.ReadFailed? then IOException
    else
      var read := ReadLength(r);
      if read > 0 then Ok(Buffer(buffSize, r)[..read]) else Ok([])
  }

  /**
   * `ungzip`: open a gzip decoder over the stream (its constructor reads the header
   * and may throw) and keep what one read of at most `size` decoded bytes gives.
   */
  function Ungzip(source: seq<byte>, decoder: Decoder, size: nat, reply: Reply): (probe: IoResult<seq<byte>>)
    ensures probe.Ok? <==> decoder(source).Ok? && reply.Deliver?
    ensures probe.Ok? ==> |probe.value| <= size && probe.value <= decoder(source).value
    ensures decoder(source).Ok? && reply.Deliver? && reply.n >= size ==>
      probe == Ok(decoder(source).value[..Min(size, |decoder(source).value|)])
  {
    match decoder(source)
    case IOException => IOException
    case Ok(decoded) => LoadProbe(decoded, size, reply)
  }
}
