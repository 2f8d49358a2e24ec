/**
 The FastLZ stream format, independent of the code that writes and reads it.

 A stream is a sequence of tokens, either a run of literal bytes or a
 back-reference into the output produced so far. `Expand` gives the meaning of a
 token sequence and `Encode` its byte representation. Level one and level two
 share literals and differ in how back-references are written.
 */
module FastLzFormat {
  import opened Bytes

  datatype Level = One | Two

  datatype Token = Literals(bytes: seq<byte>) | Match(distance: nat, length: nat)

  const MAX_COPY := 32
  const MAX_LEN := 264
  /** Level two: largest distance written in two bytes. */
  const NEAR_LIMIT := 8191

  /** Copying `length` bytes, one at a time, from `distance` bytes back. The
      copied range may overlap the bytes it produces. */
  function CopyBack(out: seq<byte>, distance: nat, length: nat): (r: seq<byte>)
    requires 1 <= distance <= |out|
    ensures |r| == |out| + length
  {
    if length == 0 then out
    else
      var p := CopyBack(out, distance, length - 1);
      p + [p[|p| - distance]]
  }

  /** Copying back is the unique extension that is periodic in the distance. */
  lemma {:induction false} CopyBackPeriodic(out: seq<byte>, distance: nat, length: nat, r: seq<byte>)
    requires 1 <= distance <= |out|
    ensures r == CopyBack(out, distance, length) <==>
            && |r| == |out| + length
            && r[..|out|] == out
            && forall k :: |out| <= k < |r| ==> r[k] == r[k - distance]
  {
    if length > 0 && |r| == |out| + length {
      var r' := r[..|r| - 1];
      CopyBackPeriodic(out, distance, length - 1, r');
      assert r == r' + [r[|r| - 1]];
      if r == CopyBack(out, distance, length) {
        assert r' == CopyBack(out, distance, length - 1);
        assert r[..|out|] == r'[..|out|];
        forall k | |out| <= k < |r| ensures r[k] == r[k - distance] {
          if k < |r'| {
            assert r'[k] == r'[k - distance];
          }
        }
      }
      if && r[..|out|] == out
         && forall k :: |out| <= k < |r| ==> r[k] == r[k - distance] {
        assert r'[..|out|] == out;
        forall k | |out| <= k < |r'| ensures r'[k] == r'[k - distance] {
          assert r[k] == r[k - distance];
        }
      }
    }
  }

  lemma {:induction false} CopyBackSplit(out: seq<byte>, distance: nat, a: nat, b: nat)
    requires 1 <= distance <= |out|
    ensures CopyBack(CopyBack(out, distance, a), distance, b) == CopyBack(out, distance, a + b)
  {
    if b > 0 {
      CopyBackSplit(out, distance, a, b - 1);
    }
  }

  /** The shape of a token the given level can write. */
  predicate ValidToken(level: Level, t: Token) {
    match t
    case Literals(bytes) => 1 <= |bytes| <= MAX_COPY
    case Match(distance, length) =>
      match level
      case One => 1 <= distance <= 8192 && 3 <= length <= MAX_LEN
      case Two => 1 <= distance <= NEAR_LIMIT + 65536 && 3 <= length
  }

  function TokenLength(t: Token): (n: nat) {
    match t
    case Literals(bytes) => |bytes|
    case Match(_, length) => length
  }

  /** After `n` bytes of output, every token is valid and every back-reference
      stays inside the output it finds. */
  predicate WellFormed(level: Level, n: nat, ts: seq<Token>)
    decreases |ts|
  {
    ts != [] ==>
    && ValidToken(level, ts[0])
    && (ts[0].Match? ==> ts[0].distance <= n)
    && WellFormed(level, n + TokenLength(ts[0]), ts[1..])
  }

  function ExpandToken(out: seq<byte>, t: Token): (r: seq<byte>)
    requires t.Match? ==> 1 <= t.distance <= |out|
    ensures |r| == |out| + TokenLength(t)
  {
    match t
    case Literals(bytes) => out + bytes
    case Match(distance, length) => CopyBack(out, distance, length)
  }

  /** The output once a token sequence has been applied to `out`. */
  function Expand(level: Level, out: seq<byte>, ts: seq<Token>): (r: seq<byte>)
    requires WellFormed(level, |out|, ts)
    ensures |r| >= |out|
    decreases |ts|
  {
    if ts == [] then out else Expand(level, ExpandToken(out, ts[0]), ts[1..])
  }

  /** A length of 7 or more continues in bytes of 255, ended by a smaller one. */
  function EncodeChain(v: nat): (r: seq<byte>)
    ensures |r| == v / 255 + 1
  {
    if v < 255 then [v] else [255] + EncodeChain(v - 255)
  }

  function EncodeToken(level: Level, t: Token): (r: seq<byte>)
    requires ValidToken(level, t)
    ensures |r| >= 2
    ensures t.Literals? <==> r[0] < 32
  {
    match t
    case Literals(bytes) => [|bytes| - 1] + bytes
    case Match(distance, length) =>
      var d, len := distance - 1, length - 2;
      match level
      case One =>
        if len < 7 then [len * 32 + d / 256, d % 256]
        else [7 * 32 + d / 256, len - 7, d % 256]
      case Two =>
        if d < NEAR_LIMIT then
          if len < 7 then [len * 32 + d / 256, d % 256]
          else [7 * 32 + d / 256] + EncodeChain(len - 7) + [d % 256]
        else
          var far := d - NEAR_LIMIT;
          if len < 7 then [len * 32 + 31, 255, far / 256, far % 256]
          else [7 * 32 + 31] + EncodeChain(len - 7) + [255, far / 256, far % 256]
  }

  function Encode(level: Level, n: nat, ts: seq<Token>): (r: seq<byte>)
    requires WellFormed(level, n, ts)
    ensures ts != [] ==> |r| >= 2 && r[0] == EncodeToken(level, ts[0])[0]
    decreases |ts|
  {
    if ts == [] then []
    else EncodeToken(level, ts[0]) + Encode(level, n + TokenLength(ts[0]), ts[1..])
  }

  /** Appending one token to a well-formed sequence. */
  lemma {:induction false} AppendToken(level: Level, out: seq<byte>, ts: seq<Token>, t: Token)
    requires WellFormed(level, |out|, ts) && ValidToken(level, t)
    requires t.Match? ==> t.distance <= |Expand(level, out, ts)|
    ensures WellFormed(level, |out|, ts + [t])
    ensures Encode(level, |out|, ts + [t]) == Encode(level, |out|, ts) + EncodeToken(level, t)
    ensures Expand(level, out, ts + [t]) == ExpandToken(Expand(level, out, ts), t)
    decreases |ts|
  {
    hide EncodeToken, ExpandToken, TokenLength;
    if ts == [] {
      assert [t][1..] == [];
    } else {
      assert (ts + [t])[0] == ts[0] && (ts + [t])[1..] == ts[1..] + [t];
      var out' := ExpandToken(out, ts[0]);
      AppendToken(level, out', ts[1..], t);
      Regroup(EncodeToken(level, ts[0]), Encode(level, |out'|, ts[1..]), EncodeToken(level, t));
    }
  }

  /** Setting bit 5 of the first byte, which every first control byte has clear. */
  function Marked(level: Level, s: seq<byte>): (r: seq<byte>) {
    if level.Two? && |s| > 0 && s[0] < 32 then [s[0] + 32] + s[1..] else s
  }

  /** `packed` is what a compressor of the given level may produce for `input`:
      an encoding that starts with literals, with the level-two marker on the first byte. */
  ghost predicate Represents(level: Level, ts: seq<Token>, input: seq<byte>, packed: seq<byte>) {
    && WellFormed(level, 0, ts)
    && ts != [] && ts[0].Literals?
    && Expand(level, [], ts) == input
    && packed == Marked(level, Encode(level, 0, ts))
  }
}
