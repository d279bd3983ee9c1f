/**
 * src/utils/lz4.ts: compress a whole Buffer into a fresh Buffer of
 * compressBound bytes and cut it to the size compress returns.
 *
 * compress returns 0 when it found nothing to compress; it always does so for
 * inputs of 12 bytes or fewer and for inputs in which no 4 bytes repeat within
 * the window. The wrapper as
 * written then returns an empty Buffer, which decodes to nothing. CompressAsWritten
 * models that behaviour; CompressBuffer is the corrected wrapper, which stores such
 * an input as a single literals-only sequence and always decodes back.
 */
module Lz4Buffer {
  import opened Common
  import opened Lz4Format
  import opened Lz4Decode
  import opened Lz4RoundTrip
  import opened Lz4

  /** The block that encodes `src` without any match decodes to `src`. */
  lemma LiteralsOnlyRoundTrip(src: seq<byte>)
    ensures Decode(EncodeLast(src)) == Some(src)
  {
    RoundTrip([], src);
    assert EncodeBlock([], src) == EncodeLast(src);
    assert ExpandFrom([], []) + src == src;
  }

  /** An empty body is not an LZ4 block: it decodes to nothing. */
  lemma EmptyBodyDecodesToNothing()
    ensures Decode([]) == None
  {
    assert DecodeStep([]) == None;
  }

  /** The wrapper exactly as written: inputs compress cannot shrink become an empty body. */
  method CompressAsWritten(src: seq<byte>) returns (r: Result<seq<byte>, Lz4Error>)
    ensures r.Failure? <==> |src| >= MaxInputSize
    ensures r.Failure? ==> r.error == InputTooLarge
    ensures r.Success? ==> r.value == [] || Decode(r.value) == Some(src)
    ensures r.Success? ==> |r.value| + 14 <= CompressBound(|src|)
    ensures |src| <= MfLimit ==> r == Success([]) && Decode(r.value) != Some(src)
    ensures r.Success? && !HasRepeat(src) ==> r.value == [] && Decode(r.value) != Some(src)
    ensures r.Success? ==> (r.value == [] <==> !FindsMatch(src, ZeroTable, 0, FindMatchAttemptsStart))
  {
    var output := new byte[CompressBound(|src|)];
    var compressed := Lz4.Compress(src, output, 0, 0);
    match compressed
    case Failure(e) =>
      r := Failure(e);
    case Success(compressedSize) =>
      // output.slice(0, compressedSize)
      r := Success(output[..compressedSize]);
      if compressedSize == 0 {
        EmptyBodyDecodesToNothing();
      }
  }

  /**
   * The wrapper corrected: when compress returns 0, the input goes out as one
   * literals-only sequence, so every body decodes back to the input.
   */
  method CompressBuffer(src: seq<byte>) returns (r: Result<seq<byte>, Lz4Error>)
    ensures r.Failure? <==> |src| >= MaxInputSize
    ensures r.Failure? ==> r.error == InputTooLarge
    ensures r.Success? ==> Decode(r.value) == Some(src)
    ensures r.Success? ==> |r.value| + 14 <= CompressBound(|src|)
  {
    var output := new byte[CompressBound(|src|)];
    var compressed := Lz4.Compress(src, output, 0, 0);
    match compressed
    case Failure(e) =>
      r := Failure(e);
    case Success(compressedSize) =>
      var size := compressedSize;
      if size == 0 {
        LastCost(src);
        assert src[0..] == src;
        ghost var before := output[..];
        size := EmitLast(output, 0, src, 0);
        WrittenSlice(output[..], before, 0, size, EncodeLast(src));
        LiteralsOnlyRoundTrip(src);
      }
      r := Success(output[..size]);
  }
}
