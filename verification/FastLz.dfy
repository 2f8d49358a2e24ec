/** The public functions of PS/at_simplified/fastlz.c, and what they do to each other. */
module FastLz {
  import opened Bytes
  import opened FastLzFormat
  import opened FastLzDecoder
  import opened FastLzEncoder
  import opened FastLzParse

  /** The level fastlz_compress chooses. */
  function ChosenLevel(n: nat): Level {
    if n < 65536 then One else Two
  }

  /** fastlz_compress */
  method FastLzCompress(input: seq<byte>, hash: nat -> Slot, htabOk: bool, output: array<byte>)
    returns (r: int, ghost ts: seq<Token>)
    requires |input| > 0 ==> Roomy(|input|, output.Length)
    modifies output
    ensures !htabOk ==> r == -1
    ensures htabOk && |input| == 0 ==> r == 0
    ensures htabOk && |input| > 0 ==>
      && 0 < r <= |input| + |input| / 32 + 1
      && Represents(StreamLevel(ChosenLevel(|input|), |input|), ts, input, output[..r])
      && ts == Parse(ChosenLevel(|input|), input, hash)
  {
    hide Represents;
    if |input| < 65536 {
      r, ts := Compress(One, input, hash, htabOk, output);
    } else {
      r, ts := Compress(Two, input, hash, htabOk, output);
    }
  }

  /** fastlz_compress_level */
  method FastLzCompressLevel(level: int, input: seq<byte>, hash: nat -> Slot, htabOk: bool, output: array<byte>)
    returns (r: int, ghost ts: seq<Token>)
    requires |input| > 0 ==> Roomy(|input|, output.Length)
    modifies output
    ensures level != 1 && level != 2 ==> r == 0
    ensures (level == 1 || level == 2) && !htabOk ==> r == -1
    ensures (level == 1 || level == 2) && htabOk && |input| == 0 ==> r == 0
    ensures (level == 1 || level == 2) && htabOk && |input| > 0 ==>
      && 0 < r <= |input| + |input| / 32 + 1
      && Represents(StreamLevel(if level == 1 then One else Two, |input|), ts, input, output[..r])
      && ts == Parse(if level == 1 then One else Two, input, hash)
  {
    hide Represents;
    if level == 1 {
      r, ts := Compress(One, input, hash, htabOk, output);
    } else if level == 2 {
      r, ts := Compress(Two, input, hash, htabOk, output);
    } else {
      r, ts := 0, [];
    }
  }

  /**
   Compressing at either level, with any hash function, and decompressing with
   fastlz_decompress is the identity when `maxout` admits the text, and is
   refused when it does not. The scratch buffer may be as small as n + n/32 + 1.
   */
  method RoundTrip(level: int, input: seq<byte>, hash: nat -> Slot, packed: array<byte>, restored: array<byte>,
                   maxout: nat)
    returns (size: nat)
    requires level == 1 || level == 2
    requires |input| > 0 && Roomy(|input|, packed.Length)
    requires maxout <= restored.Length && packed != restored
    modifies packed, restored
    ensures |input| <= maxout ==> size == |input| && restored[..size] == input
    ensures |input| > maxout ==> size == 0
    ensures restored[maxout..] == old(restored[maxout..])
  {
    hide Represents, Decompressed;
    var r, ts := FastLzCompressLevel(level, input, hash, true, packed);
    DecompressRestores(StreamLevel(if level == 1 then One else Two, |input|), ts, input, packed[..r], packed[..r],
      maxout);
    var ret := FastLzDecompress(packed[..r], r, restored, maxout);
    size := ret.size;
  }
}
