/**
 The radio payload framing of PS/at_simplified/at_simplified.c: a one-byte header
 whose lowest bit says whether the rest is FastLZ-compressed.
 */
module Payload {
  import opened Bytes
  import opened FastLzFormat
  import opened FastLzDecoder
  import opened FastLzEncoder
  import opened FastLzParse
  import opened FastLz

  const HEADER_LEN := 1
  const COMPRESS_BUFFER_FACTOR := 2
  const DECOMPRESS_MAX_LEN := 1024

  /** `int` converted to `unsigned int`, as C does when the two are compared. */
  function AsUnsigned(x: int): (r: nat)
    requires -0x8000_0000 <= x < 0x8000_0000
  {
    if x < 0 then x + 0x1_0000_0000 else x
  }

  /** The header with its is_compress bit set to `flag`. */
  function WithFlag(header: byte, flag: bool): (r: byte)
    ensures (r % 2 == 1) == flag && r / 2 == header / 2
  {
    header / 2 * 2 + (if flag then 1 else 0)
  }

  ghost predicate IsCompressed(payload: seq<byte>, packed: seq<byte>, ts: seq<Token>) {
    Represents(StreamLevel(ChosenLevel(|payload|), |payload|), ts, payload, packed)
  }

  /** `message` carries `payload`: verbatim, or as a shorter compressed stream. */
  ghost predicate Carries(message: seq<byte>, payload: seq<byte>) {
    && HEADER_LEN <= |message| <= HEADER_LEN + |payload|
    && if message[0] % 2 == 1
       then
         && |message| < HEADER_LEN + |payload|
         && exists ts :: IsCompressed(payload, message[HEADER_LEN..], ts)
       else message[HEADER_LEN..] == payload
  }

  /** Some compressed form of the payload has this length. */
  ghost predicate Compresses(payload: seq<byte>, length: int) {
    exists packed, ts :: |packed| == length && IsCompressed(payload, packed, ts)
  }

  datatype Delivery = Delivered(bytes: seq<byte>) | Dropped | Overrun

  /** at_wiota_recv_callback as a function of the message and of the allocation. */
  function Received(message: seq<byte>, mallocOk: bool): (d: Delivery) {
    if |message| < HEADER_LEN then Dropped
    else if message[0] % 2 == 0 then Delivered(message[HEADER_LEN..])
    else if !mallocOk then Dropped
    else
      match Decompressed(message[HEADER_LEN..], |message| - HEADER_LEN, DECOMPRESS_MAX_LEN)
      case Done(out) => if |out| > 0 then Delivered(out) else Dropped
      case Reject => Dropped
      case OverRead => Overrun
  }

  /** rt_memcpy behind the header. */
  method Overwrite(buf: array<byte>, data: seq<byte>)
    requires HEADER_LEN + |data| <= buf.Length
    modifies buf
    ensures buf[0] == old(buf[0])
    ensures buf[..HEADER_LEN + |data|][HEADER_LEN..] == data
  {
    forall k | 0 <= k < |data| { buf[HEADER_LEN + k] := data[k]; }
    ghost var written := buf[..HEADER_LEN + |data|][HEADER_LEN..];
    forall k | 0 <= k < |data| ensures written[k] == data[k] {
      assert written[k] == buf[HEADER_LEN + k];
    }
  }

  /**
   at_wiota_compress_and_pack: `buf` holds the header and the payload, which is
   replaced by its compressed form when that is shorter. The two flags say whether
   the scratch buffer and the compressor's hash table could be allocated.
   */
  method CompressAndPack(buf: array<byte>, hash: nat -> Slot, mallocOk: bool, htabOk: bool)
    returns (status: int, outputLen: nat, compressedLen: int)
    requires HEADER_LEN <= buf.Length <= 0x4000_0000
    modifies buf
    ensures status == if mallocOk then 0 else -2
    ensures !mallocOk ==> buf[..] == old(buf[..])
    ensures mallocOk ==> outputLen <= buf.Length && Carries(buf[..outputLen], old(buf[HEADER_LEN..]))
    ensures mallocOk ==> buf[0] / 2 == old(buf[0]) / 2
    ensures mallocOk && !htabOk ==> buf[0] % 2 == 0
    ensures mallocOk && buf[0] % 2 == 0 ==> outputLen == buf.Length
    ensures mallocOk && htabOk && HEADER_LEN < buf.Length ==> Compresses(old(buf[HEADER_LEN..]), compressedLen)
    ensures mallocOk && htabOk ==> (buf[0] % 2 == 1 <==> 0 <= compressedLen < buf.Length - HEADER_LEN)
    ensures mallocOk && buf[0] % 2 == 1 ==> outputLen == HEADER_LEN + compressedLen
  {
    hide Represents;
    outputLen, compressedLen := 0, 0;
    if !mallocOk { return -2, outputLen, compressedLen; }
    status := 0;
    var payload := buf[HEADER_LEN..];
    var compData := new byte[|payload| * COMPRESS_BUFFER_FACTOR];
    ghost var ts;
    compressedLen, ts := FastLzCompress(payload, hash, htabOk, compData);
    if htabOk && payload != [] {
      assert IsCompressed(payload, compData[..compressedLen], ts);
    }
    if AsUnsigned(compressedLen) < |payload| {
      var packed := compData[..compressedLen];
      buf[0] := WithFlag(buf[0], true);
      Overwrite(buf, packed);
      outputLen := HEADER_LEN + compressedLen;
    } else {
      buf[0] := WithFlag(buf[0], false);
      outputLen := HEADER_LEN + |payload|;
      assert buf[..outputLen][HEADER_LEN..] == payload;
    }
  }

  /** at_wiota_recv_callback up to the bytes handed to the AT server. */
  method ReceiveCallback(message: seq<byte>, mallocOk: bool) returns (d: Delivery)
    ensures d == Received(message, mallocOk)
  {
    if |message| < HEADER_LEN { return Dropped; }
    var dataLen := |message| - HEADER_LEN;
    var recvData := message[HEADER_LEN..];
    if message[0] % 2 == 1 {
      if !mallocOk { return Dropped; }
      var decompressData := new byte[DECOMPRESS_MAX_LEN](_ => 0);
      var ret := FastLzDecompress(recvData, dataLen, decompressData, DECOMPRESS_MAX_LEN);
      if ret.ReadPastEnd? { return Overrun; }
      if ret.size > 0 {
        recvData := decompressData[..ret.size];
      } else {
        return Dropped;
      }
    }
    d := Delivered(recvData);
  }

  /**
   Every packed message is received as the payload it carries, except that a
   compressed one is dropped exactly when its payload is longer than the
   receiver's buffer or the receiver cannot allocate that buffer.
   */
  lemma EndToEnd(message: seq<byte>, payload: seq<byte>, mallocOk: bool)
    requires Carries(message, payload)
    ensures Received(message, mallocOk) ==
            if message[0] % 2 == 1 && (!mallocOk || |payload| > DECOMPRESS_MAX_LEN) then Dropped
            else Delivered(payload)
  {
    hide Represents, Decompressed;
    if message[0] % 2 == 1 {
      var level, packed := StreamLevel(ChosenLevel(|payload|), |payload|), message[HEADER_LEN..];
      var ts :| IsCompressed(payload, packed, ts);
      DecompressRestores(level, ts, payload, packed, packed, DECOMPRESS_MAX_LEN);
    }
  }
}
