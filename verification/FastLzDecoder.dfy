/**
 The FastLZ decompressor of PS/at_simplified/fastlz.c.

 `mem` is all the memory that can be read from the input pointer on and `length`
 the number of bytes the caller declares. The code checks `length` only between
 tokens and before literals, so the operands of a back-reference can lie beyond
 it; reading beyond `mem` is the outcome `OverRead`.
 */
module FastLzDecoder {
  import opened Bytes
  import opened FastLzFormat

  datatype Outcome = Done(out: seq<byte>) | Reject | OverRead

  /** The operands of a back-reference: the next read position and the token. */
  datatype Operands = Operands(next: nat, token: Token) | Missing

  /** Sum of a 255-chain that starts at `ip`: the next position and the sum. */
  function ReadChain(mem: seq<byte>, ip: nat, sum: nat): (r: (nat, nat))
    decreases |mem| - ip
    ensures r.0 > ip || r.0 > |mem|
    ensures r.1 >= sum
  {
    if ip >= |mem| then (|mem| + 1, sum)
    else if mem[ip] == 255 then ReadChain(mem, ip + 1, sum + 255)
    else (ip + 1, sum + mem[ip])
  }

  /** Level two: a biased length of 6 continues in a chain. */
  function ReadLength(mem: seq<byte>, ip: nat, len: nat): (r: (nat, nat))
    ensures r.0 >= ip || r.0 > |mem|
    ensures r.1 >= len
  {
    if len == 6 then ReadChain(mem, ip, len) else (ip, len)
  }

  /** Level two: the low byte of a near distance, or the escape and a far one. */
  function ReadDistance(mem: seq<byte>, ip: nat, ofs: nat, length: nat): (r: Operands)
    ensures r.Operands? ==> ip < r.next <= |mem| && r.token.Match? && r.token.distance >= 1 && r.token.length == length
  {
    if ip >= |mem| then Missing
    else if mem[ip] == 255 && ofs == 31 * 256 then
      if ip + 2 >= |mem| then Missing
      else Operands(ip + 3, Match(mem[ip + 1] as int * 256 + mem[ip + 2] + NEAR_LIMIT + 1, length))
    else Operands(ip + 1, Match(ofs + mem[ip] + 1, length))
  }

  function ReadOperands(level: Level, mem: seq<byte>, ip: nat, ctrl: byte): (r: Operands)
    requires ctrl >= 32
    ensures r.Operands? ==> ip < r.next <= |mem| && r.token.Match?
    ensures r.Operands? ==> r.token.distance >= 1 && r.token.length >= 3
  {
    var len, ofs := ctrl / 32 - 1, (ctrl % 32) * 256;
    match level
    case One =>
      var next := if len == 6 then ip + 1 else ip;
      if next >= |mem| then Missing
      else
        var len' := if len == 6 then len + mem[ip] else len;
        Operands(next + 1, Match(ofs + mem[next] + 1, len' + 3))
    case Two =>
      var chain := ReadLength(mem, ip, len);
      ReadDistance(mem, chain.0, ofs, chain.1 + 3)
  }

  /** What one iteration of the decompressor's loop leads to. */
  datatype Step = Stop(outcome: Outcome) | Next(ip: nat, ctrl: byte, out: seq<byte>)

  /** The end of an iteration: fetch the next control byte, or finish. */
  function Continue(mem: seq<byte>, length: nat, next: nat, out: seq<byte>): (s: Step)
    requires length <= |mem|
  {
    if next < length then Next(next + 1, mem[next], out) else Stop(Done(out))
  }

  /** One iteration, as a function of what has been read and written. */
  function Iterate(level: Level, mem: seq<byte>, length: nat, maxout: nat,
                   ip: nat, ctrl: byte, out: seq<byte>): (s: Step)
    requires length <= |mem| && ip <= |mem| && |out| <= maxout
    ensures s.Next? ==> ip < s.ip <= |mem| && |out| < |s.out| <= maxout
    ensures s.Stop? && s.outcome.Done? ==> |out| < |s.outcome.out| <= maxout
  {
    if ctrl >= 32 then
      match ReadOperands(level, mem, ip, ctrl)
      case Missing => Stop(OverRead)
      case Operands(next, t) =>
        if |out| + t.length > maxout || t.distance > |out| then Stop(Reject)
        else Continue(mem, length, next, CopyBack(out, t.distance, t.length))
    else
      var next := ip + ctrl + 1;
      if |out| + ctrl + 1 > maxout || next > length then Stop(Reject)
      else Continue(mem, length, next, out + mem[ip..next])
  }

  /** The decompressor's loop from a given point on. */
  function DecodeFrom(level: Level, mem: seq<byte>, length: nat, maxout: nat,
                      ip: nat, ctrl: byte, out: seq<byte>): (r: Outcome)
    requires length <= |mem| && ip <= |mem| && |out| <= maxout
    ensures r.Done? ==> |out| < |r.out| <= maxout
    decreases |mem| - ip
  {
    match Iterate(level, mem, length, maxout, ip, ctrl, out)
    case Stop(outcome) => outcome
    case Next(ip', ctrl', out') => DecodeFrom(level, mem, length, maxout, ip', ctrl', out')
  }

  function Decode(level: Level, mem: seq<byte>, length: nat, maxout: nat): (r: Outcome)
    requires length <= |mem|
    ensures r.Done? ==> 0 < |r.out| <= maxout
  {
    if |mem| == 0 then OverRead
    else DecodeFrom(level, mem, length, maxout, 1, mem[0] % 32, [])
  }

  /** fastlz_decompress: the level is in the top three bits of the first byte. */
  function Decompressed(mem: seq<byte>, length: nat, maxout: nat): (r: Outcome)
    requires length <= |mem|
  {
    if |mem| == 0 then OverRead
    else if mem[0] / 32 == 0 then Decode(One, mem, length, maxout)
    else if mem[0] / 32 == 1 then Decode(Two, mem, length, maxout)
    else Reject
  }

  /* ----- reading back what Encode writes ----- */

  /** `mem` holds `e` at `at`. */
  predicate Holds(mem: seq<byte>, at: nat, e: seq<byte>) {
    at + |e| <= |mem| && forall k :: 0 <= k < |e| ==> mem[at + k] == e[k]
  }

  lemma HoldsParts(mem: seq<byte>, at: nat, a: seq<byte>, b: seq<byte>)
    ensures Holds(mem, at, a + b) <==> Holds(mem, at, a) && Holds(mem, at + |a|, b)
  {
    if Holds(mem, at, a + b) {
      forall k | 0 <= k < |a| ensures mem[at + k] == a[k] {
        assert (a + b)[k] == a[k];
      }
      forall k | 0 <= k < |b| ensures mem[at + |a| + k] == b[k] {
        assert (a + b)[|a| + k] == b[k];
      }
    }
    if Holds(mem, at, a) && Holds(mem, at + |a|, b) {
      forall k | 0 <= k < |a + b| ensures mem[at + k] == (a + b)[k] {
        if k >= |a| { assert mem[at + |a| + (k - |a|)] == b[k - |a|]; }
      }
    }
  }

  lemma {:induction false} ChainRoundTrip(mem: seq<byte>, ip: nat, v: nat, sum: nat)
    requires Holds(mem, ip, EncodeChain(v))
    ensures ReadChain(mem, ip, sum) == (ip + |EncodeChain(v)|, sum + v)
    decreases v
  {
    assert mem[ip] == EncodeChain(v)[0];
    if v >= 255 {
      HoldsParts(mem, ip, [255], EncodeChain(v - 255));
      ChainRoundTrip(mem, ip + 1, v - 255, sum + 255);
    }
  }

  /** What follows the length of an encoded level-two back-reference. */
  function DistanceTail(d: nat): (r: seq<byte>)
    requires d < NEAR_LIMIT + 65536
    ensures |r| == if d < NEAR_LIMIT then 1 else 3
  {
    if d < NEAR_LIMIT then [d % 256]
    else [255, (d - NEAR_LIMIT) / 256, (d - NEAR_LIMIT) % 256]
  }

  /** The high part of the distance, as found in the low five bits of the control byte. */
  function HighPart(d: nat): nat {
    if d < NEAR_LIMIT then d / 256 else 31
  }

  /** A distance reads back as itself: a near one never looks like the escape. */
  lemma DistanceRoundTrip(mem: seq<byte>, at: nat, d: nat, length: nat)
    requires d < NEAR_LIMIT + 65536
    requires Holds(mem, at, DistanceTail(d))
    ensures ReadDistance(mem, at, HighPart(d) * 256, length) ==
            Operands(at + |DistanceTail(d)|, Match(d + 1, length))
  {
    var tail := DistanceTail(d);
    assert mem[at + 0] == tail[0];
    if d >= NEAR_LIMIT {
      assert mem[at + 1] == tail[1] && mem[at + 2] == tail[2];
    }
  }

  lemma OperandsRoundTripOne(mem: seq<byte>, at: nat, t: Token)
    requires ValidToken(One, t) && t.Match?
    requires Holds(mem, at, EncodeToken(One, t))
    ensures mem[at] >= 32
    ensures ReadOperands(One, mem, at + 1, mem[at]) == Operands(at + |EncodeToken(One, t)|, t)
  {
    var e := EncodeToken(One, t);
    assert mem[at + 0] == e[0] && mem[at + 1] == e[1] && mem[at + (|e| - 1)] == e[|e| - 1];
  }

  /** The length part of an encoded level-two back-reference. */
  function LengthChain(len: nat): (r: seq<byte>) {
    if len < 7 then [] else EncodeChain(len - 7)
  }

  /** The three parts of a level-two back-reference. */
  lemma TwoParts(t: Token)
    requires ValidToken(Two, t) && t.Match?
    ensures EncodeToken(Two, t)[0] / 32 == (if t.length - 2 < 7 then t.length - 2 else 7)
    ensures EncodeToken(Two, t)[0] % 32 == HighPart(t.distance - 1)
    ensures EncodeToken(Two, t) ==
            [EncodeToken(Two, t)[0]] + (LengthChain(t.length - 2) + DistanceTail(t.distance - 1))
  {
  }

  /** A length reads back as itself. */
  lemma LengthRoundTrip(mem: seq<byte>, ip: nat, len: nat)
    requires len >= 1
    requires Holds(mem, ip, LengthChain(len))
    ensures ReadLength(mem, ip, (if len < 7 then len else 7) - 1) == (ip + |LengthChain(len)|, len - 1)
  {
    if len >= 7 {
      ChainRoundTrip(mem, ip, len - 7, 6);
    }
  }

  lemma OperandsRoundTripTwo(mem: seq<byte>, at: nat, t: Token)
    requires ValidToken(Two, t) && t.Match?
    requires Holds(mem, at, EncodeToken(Two, t))
    ensures mem[at] >= 32
    ensures ReadOperands(Two, mem, at + 1, mem[at]) == Operands(at + |EncodeToken(Two, t)|, t)
  {
    hide EncodeToken, HighPart, DistanceTail, ReadDistance, LengthChain, ReadLength;
    TwoParts(t);
    var e := EncodeToken(Two, t);
    var d, len := t.distance - 1, t.length - 2;
    assert mem[at + 0] == e[0];
    HoldsParts(mem, at, [e[0]], LengthChain(len) + DistanceTail(d));
    HoldsParts(mem, at + 1, LengthChain(len), DistanceTail(d));
    hide Holds;
    LengthRoundTrip(mem, at + 1, len);
    DistanceRoundTrip(mem, at + 1 + |LengthChain(len)|, d, t.length);
  }

  /** The operands of an encoded back-reference read back as that back-reference;
      in particular a near match never looks like the far escape. */
  lemma OperandsRoundTrip(level: Level, mem: seq<byte>, at: nat, t: Token)
    requires ValidToken(level, t) && t.Match?
    requires Holds(mem, at, EncodeToken(level, t))
    ensures mem[at] >= 32
    ensures ReadOperands(level, mem, at + 1, mem[at]) == Operands(at + |EncodeToken(level, t)|, t)
  {
    match level
    case One => OperandsRoundTripOne(mem, at, t);
    case Two => OperandsRoundTripTwo(mem, at, t);
  }

  /** What decoding a whole token sequence must give under a bound on the output. */
  ghost function Bounded(out: seq<byte>, maxout: nat): Outcome {
    if |out| <= maxout then Done(out) else Reject
  }

  lemma IterateMatch(level: Level, t: Token, mem: seq<byte>, length: nat, maxout: nat, at: nat, out: seq<byte>)
    requires ValidToken(level, t) && t.Match? && t.distance <= |out|
    requires |out| <= maxout
    requires at + |EncodeToken(level, t)| <= |mem| && length <= |mem|
    requires mem[at] == EncodeToken(level, t)[0]
    requires Holds(mem, at + 1, EncodeToken(level, t)[1..])
    ensures Iterate(level, mem, length, maxout, at + 1, mem[at], out) ==
            if |out| + t.length > maxout then Stop(Reject)
            else Continue(mem, length, at + |EncodeToken(level, t)|, CopyBack(out, t.distance, t.length))
  {
    hide EncodeToken, ReadOperands, CopyBack, Continue;
    var e := EncodeToken(level, t);
    forall k | 0 <= k < |e| ensures mem[at + k] == e[k] {
      if k > 0 { assert mem[at + 1 + (k - 1)] == e[1..][k - 1]; }
    }
    OperandsRoundTrip(level, mem, at, t);
  }

  /** One iteration on an encoded token. Only literals must lie before `length`. */
  lemma IterateToken(level: Level, t: Token, mem: seq<byte>, length: nat, maxout: nat, at: nat, ctrl: byte,
                     out: seq<byte>)
    requires ValidToken(level, t) && (t.Match? ==> t.distance <= |out|)
    requires |out| <= maxout
    requires at + |EncodeToken(level, t)| <= |mem| && length <= |mem|
    requires t.Literals? ==> at + |EncodeToken(level, t)| <= length
    requires ctrl == EncodeToken(level, t)[0]
    requires Holds(mem, at + 1, EncodeToken(level, t)[1..]) && (mem[at] == ctrl || t.Literals?)
    ensures Iterate(level, mem, length, maxout, at + 1, ctrl, out) ==
            if |out| + TokenLength(t) > maxout then Stop(Reject)
            else Continue(mem, length, at + |EncodeToken(level, t)|, ExpandToken(out, t))
  {
    if t.Match? {
      IterateMatch(level, t, mem, length, maxout, at, out);
    } else {
      hide CopyBack, ReadOperands, Continue;
      assert EncodeToken(level, t)[1..] == t.bytes;
      assert mem[at + 1..at + 1 + |t.bytes|] == t.bytes;
    }
  }

  /** The declared length ends in the token that ends at `end`: a back-reference
      may straddle it, literals end with it. */
  predicate EndsIn(level: Level, t: Token, end: nat, length: nat)
    requires ValidToken(level, t)
  {
    end - |EncodeToken(level, t)| < length <= end && (t.Literals? ==> end == length)
  }

  /** The memory from `at` on, with `ctrl` for its first byte, holds `e`. */
  predicate HoldsFrom(mem: seq<byte>, at: nat, ctrl: byte, e: seq<byte>) {
    e != [] && ctrl == e[0] && Holds(mem, at + 1, e[1..])
  }

  /** Behind the control byte `ctrl` at `at`, the memory holds the encoding of `ts`,
      and the declared length ends in the last token. */
  predicate Stream(level: Level, ts: seq<Token>, mem: seq<byte>, length: nat, at: nat, ctrl: byte, n: nat)
    decreases |ts|
  {
    && ts != [] && ValidToken(level, ts[0]) && (ts[0].Match? ==> ts[0].distance <= n)
    && var e := EncodeToken(level, ts[0]);
       && HoldsFrom(mem, at, ctrl, e)
       && if |ts| == 1 then EndsIn(level, ts[0], at + |e|, length)
          else
            && at + |e| < length <= |mem|
            && Stream(level, ts[1..], mem, length, at + |e|, mem[at + |e|], n + TokenLength(ts[0]))
  }

  lemma HoldsFromParts(mem: seq<byte>, at: nat, ctrl: byte, a: seq<byte>, b: seq<byte>)
    requires a != [] && b != []
    ensures HoldsFrom(mem, at, ctrl, a + b) <==>
            HoldsFrom(mem, at, ctrl, a) && at + |a| < |mem| && HoldsFrom(mem, at + |a|, mem[at + |a|], b)
  {
    assert (a + b)[1..] == a[1..] + b && b == [b[0]] + b[1..];
    HoldsParts(mem, at + 1, a[1..], b);
    HoldsParts(mem, at + |a|, [b[0]], b[1..]);
    assert Holds(mem, at + |a|, [b[0]]) <==> at + |a| < |mem| && mem[at + |a|] == b[0] by {
      if Holds(mem, at + |a|, [b[0]]) { assert mem[at + |a| + 0] == [b[0]][0]; }
    }
  }

  lemma {:induction false} LastInside(level: Level, n: nat, ts: seq<Token>)
    requires WellFormed(level, n, ts) && ts != []
    ensures ValidToken(level, ts[|ts| - 1])
    ensures |Encode(level, n, ts)| >= |EncodeToken(level, ts[|ts| - 1])|
    decreases |ts|
  {
    hide EncodeToken;
    if |ts| > 1 {
      LastInside(level, n + TokenLength(ts[0]), ts[1..]);
    }
  }

  /** The memory holds the encoding of `ts`, and the declared length ends in its last token. */
  predicate Encoded(level: Level, ts: seq<Token>, mem: seq<byte>, length: nat, at: nat, ctrl: byte, n: nat) {
    && ts != [] && WellFormed(level, n, ts) && ValidToken(level, ts[|ts| - 1])
    && HoldsFrom(mem, at, ctrl, Encode(level, n, ts))
    && EndsIn(level, ts[|ts| - 1], at + |Encode(level, n, ts)|, length)
  }

  /** Where the declared length ends in the last of several tokens, it does not end before. */
  lemma LastStarts(level: Level, ts: seq<Token>, rest: seq<Token>, at: nat, length: nat, n: nat)
    requires |ts| > 1 && rest == ts[1..] && WellFormed(level, n, rest) && ValidToken(level, rest[|rest| - 1])
    requires |Encode(level, n, rest)| >= |EncodeToken(level, rest[|rest| - 1])|
    ensures rest[|rest| - 1] == ts[|ts| - 1]
    ensures EndsIn(level, rest[|rest| - 1], at + |Encode(level, n, rest)|, length) ==> at < length
  {
    hide EncodeToken, Encode, WellFormed;
  }

  /** Taking a stream token by token is holding the encoding of the whole sequence. */
  lemma {:induction false} StreamIsEncoding(level: Level, ts: seq<Token>, mem: seq<byte>, length: nat, at: nat,
                                            ctrl: byte, n: nat)
    requires length <= |mem|
    ensures Stream(level, ts, mem, length, at, ctrl, n) <==> Encoded(level, ts, mem, length, at, ctrl, n)
    decreases |ts|
  {
    hide EncodeToken, HoldsFrom, EndsIn, TokenLength;
    if ts != [] && ValidToken(level, ts[0]) && (ts[0].Match? ==> ts[0].distance <= n) {
      var tok, rest, n' := EncodeToken(level, ts[0]), ts[1..], n + TokenLength(ts[0]);
      var at' := at + |tok|;
      if rest == [] {
        assert WellFormed(level, n', rest);
        assert Encode(level, n, ts) == tok + [] == tok;
      } else {
        if at' < |mem| { StreamIsEncoding(level, rest, mem, length, at', mem[at'], n'); }
        if WellFormed(level, n', rest) {
          HoldsFromParts(mem, at, ctrl, tok, Encode(level, n', rest));
          LastInside(level, n', rest);
          LastStarts(level, ts, rest, at', length, n');
        }
      }
    }
  }

  /** From the control byte of an encoded token sequence on, the loop produces
      the meaning of the sequence, or rejects exactly when that is too long. */
  lemma {:induction false} DecodeRest(level: Level, ts: seq<Token>, mem: seq<byte>, length: nat, maxout: nat,
                                      at: nat, ctrl: byte, out: seq<byte>)
    requires length <= |mem| && |out| <= maxout && at < |mem|
    requires Stream(level, ts, mem, length, at, ctrl, |out|) && WellFormed(level, |out|, ts)
    requires mem[at] == ctrl || ts[0].Literals?
    ensures DecodeFrom(level, mem, length, maxout, at + 1, ctrl, out) == Bounded(Expand(level, out, ts), maxout)
    decreases |ts|
  {
    hide EncodeToken, ExpandToken, Iterate;
    var t, rest := ts[0], ts[1..];
    var tok, out' := EncodeToken(level, t), ExpandToken(out, t);
    var next := at + |tok|;
    IterateToken(level, t, mem, length, maxout, at, ctrl, out);
    if rest == [] {
      assert Expand(level, out', rest) == out';
    } else if |out'| <= maxout {
      DecodeRest(level, rest, mem, length, maxout, next, mem[next], out');
    }
  }

  /**
   Whatever a compressor of either level produced, fastlz_decompress picks the
   right level and returns the original bytes when they fit in `maxout`, and
   rejects the stream when they do not. Bytes after the stream do not matter.
   */
  lemma DecompressRestores(level: Level, ts: seq<Token>, input: seq<byte>, packed: seq<byte>,
                           mem: seq<byte>, maxout: nat)
    requires Represents(level, ts, input, packed)
    requires packed <= mem
    ensures Decompressed(mem, |packed|, maxout) == Bounded(input, maxout)
  {
    hide EncodeToken, Expand, WellFormed, DecodeFrom;
    var e := Encode(level, 0, ts);
    assert packed[1..] == e[1..];
    assert mem[0] == packed[0];
    forall k | 0 <= k < |e[1..]| ensures mem[1 + k] == e[1..][k] {
      assert mem[1 + k] == packed[1 + k] == packed[1..][k];
    }
    LastInside(level, 0, ts);
    StreamIsEncoding(level, ts, mem, |e|, 0, e[0], 0);
    DecodeRest(level, ts, mem, |e|, maxout, 0, e[0], []);
  }

  /* ----- what an accepted stream means ----- */

  /** The bytes of a chain that ends inside the memory are the chain of its sum. */
  lemma {:induction false} ChainBytes(mem: seq<byte>, ip: nat, sum: nat)
    requires ReadChain(mem, ip, sum).0 <= |mem|
    ensures var r := ReadChain(mem, ip, sum); ip < r.0 && mem[ip..r.0] == EncodeChain(r.1 - sum)
    decreases |mem| - ip
  {
    var r := ReadChain(mem, ip, sum);
    if mem[ip] == 255 {
      ChainBytes(mem, ip + 1, sum + 255);
      assert mem[ip..r.0] == [255] + mem[ip + 1..r.0];
    } else {
      assert mem[ip..r.0] == [mem[ip]];
    }
  }

  lemma ChainIsLength(mem: seq<byte>, ip: nat, len: nat)
    requires len <= 6 && ip <= |mem| && ReadLength(mem, ip, len).0 <= |mem|
    ensures
      var r := ReadLength(mem, ip, len);
      && ip <= r.0 && mem[ip..r.0] == LengthChain(r.1 + 1)
      && len == (if r.1 + 1 < 7 then r.1 + 1 else 7) - 1
  {
    if len == 6 {
      ChainBytes(mem, ip, len);
    }
  }

  lemma DistanceBytes(mem: seq<byte>, ip: nat, high: nat, length: nat)
    requires high < 32 && ReadDistance(mem, ip, high * 256, length).Operands?
    ensures
      var r := ReadDistance(mem, ip, high * 256, length);
      && r.token.distance - 1 < NEAR_LIMIT + 65536
      && mem[ip..r.next] == DistanceTail(r.token.distance - 1) && high == HighPart(r.token.distance - 1)
  {
  }

  lemma OperandsBytesOne(mem: seq<byte>, ip: nat, ctrl: byte)
    requires ctrl >= 32 && ReadOperands(One, mem, ip, ctrl).Operands?
    ensures
      var r := ReadOperands(One, mem, ip, ctrl);
      ValidToken(One, r.token) && EncodeToken(One, r.token) == [ctrl] + mem[ip..r.next]
  {
  }

  lemma OperandsBytesTwo(mem: seq<byte>, ip: nat, ctrl: byte)
    requires ctrl >= 32 && ip <= |mem| && ReadOperands(Two, mem, ip, ctrl).Operands?
    ensures
      var r := ReadOperands(Two, mem, ip, ctrl);
      ValidToken(Two, r.token) && EncodeToken(Two, r.token) == [ctrl] + mem[ip..r.next]
  {
    hide EncodeToken, HighPart, DistanceTail, ReadDistance, LengthChain, ReadLength;
    var r := ReadOperands(Two, mem, ip, ctrl);
    var chain := ReadLength(mem, ip, ctrl / 32 - 1);
    ChainIsLength(mem, ip, ctrl / 32 - 1);
    DistanceBytes(mem, chain.0, ctrl % 32, chain.1 + 3);
    TwoParts(r.token);
    assert mem[ip..r.next] == mem[ip..chain.0] + mem[chain.0..r.next];
  }

  /** The operands of any bytes at all are the encoding of the token they give. */
  lemma OperandsAreEncoding(level: Level, mem: seq<byte>, ip: nat, ctrl: byte)
    requires ctrl >= 32 && ip <= |mem| && ReadOperands(level, mem, ip, ctrl).Operands?
    ensures
      var r := ReadOperands(level, mem, ip, ctrl);
      ValidToken(level, r.token) && EncodeToken(level, r.token) == [ctrl] + mem[ip..r.next]
  {
    match level
    case One => OperandsBytesOne(mem, ip, ctrl);
    case Two => OperandsBytesTwo(mem, ip, ctrl);
  }

  /** The token an iteration finds at `ip`, behind its control byte. */
  function TokenAt(level: Level, mem: seq<byte>, ip: nat, ctrl: byte): (t: Token)
    requires if ctrl >= 32 then ReadOperands(level, mem, ip, ctrl).Operands? else ip + ctrl + 1 <= |mem|
  {
    if ctrl >= 32 then ReadOperands(level, mem, ip, ctrl).token else Literals(mem[ip..ip + ctrl + 1])
  }

  lemma SliceHolds(mem: seq<byte>, at: nat, ctrl: byte, next: nat)
    requires at + 1 <= next <= |mem|
    ensures HoldsFrom(mem, at, ctrl, [ctrl] + mem[at + 1..next])
  {
    assert ([ctrl] + mem[at + 1..next])[1..] == mem[at + 1..next];
  }

  /** An iteration on arbitrary bytes goes on only over the encoding of a token, and
      then applies that token. */
  lemma IterateIsToken(level: Level, mem: seq<byte>, length: nat, maxout: nat, at: nat, ctrl: byte, out: seq<byte>)
    requires length <= |mem| && at < |mem| && |out| <= maxout
    requires
      var s := Iterate(level, mem, length, maxout, at + 1, ctrl, out);
      s.Next? || s.outcome.Done?
    ensures if ctrl >= 32 then ReadOperands(level, mem, at + 1, ctrl).Operands? else at + 1 + ctrl + 1 <= length
    ensures
      var s, t := Iterate(level, mem, length, maxout, at + 1, ctrl, out), TokenAt(level, mem, at + 1, ctrl);
      && ValidToken(level, t) && (t.Match? ==> t.distance <= |out|) && (t.Literals? <==> ctrl < 32)
      && HoldsFrom(mem, at, ctrl, EncodeToken(level, t))
      && s == Continue(mem, length, at + |EncodeToken(level, t)|, ExpandToken(out, t))
      && |ExpandToken(out, t)| <= maxout
      && (t.Literals? ==> at + |EncodeToken(level, t)| <= length)
  {
    hide CopyBack, ReadOperands;
    if ctrl >= 32 {
      hide EncodeToken;
      OperandsAreEncoding(level, mem, at + 1, ctrl);
      var r := ReadOperands(level, mem, at + 1, ctrl);
      SliceHolds(mem, at, ctrl, r.next);
    } else {
      SliceHolds(mem, at, ctrl, at + 1 + ctrl + 1);
    }
  }

  lemma PrependToken(level: Level, out: seq<byte>, t: Token, rest: seq<Token>)
    requires ValidToken(level, t) && (t.Match? ==> t.distance <= |out|)
    requires WellFormed(level, |out| + TokenLength(t), rest)
    ensures WellFormed(level, |out|, [t] + rest)
    ensures Expand(level, out, [t] + rest) == Expand(level, ExpandToken(out, t), rest)
  {
    assert ([t] + rest)[1..] == rest;
  }

  /** Whatever the bytes are, an accepted stream is the encoding of a token sequence
      whose meaning is the output. */
  lemma {:induction false} AcceptedIsStream(level: Level, mem: seq<byte>, length: nat, maxout: nat,
                                            at: nat, ctrl: byte, out: seq<byte>) returns (ts: seq<Token>)
    requires length <= |mem| && at < length && |out| <= maxout
    requires DecodeFrom(level, mem, length, maxout, at + 1, ctrl, out).Done?
    ensures Stream(level, ts, mem, length, at, ctrl, |out|) && WellFormed(level, |out|, ts)
    ensures (ts[0].Literals? <==> ctrl < 32)
    ensures Expand(level, out, ts) == DecodeFrom(level, mem, length, maxout, at + 1, ctrl, out).out
    decreases |mem| - at
  {
    hide Iterate, ExpandToken, EncodeToken, HoldsFrom, TokenAt, ReadOperands;
    IterateIsToken(level, mem, length, maxout, at, ctrl, out);
    var t := TokenAt(level, mem, at + 1, ctrl);
    var next, out' := at + |EncodeToken(level, t)|, ExpandToken(out, t);
    var rest := [];
    if next < length {
      rest := AcceptedIsStream(level, mem, length, maxout, next, mem[next], out');
    }
    PrependToken(level, out, t, rest);
    ts := [t] + rest;
    assert ts[1..] == rest;
  }

  /** `mem` is, from its first control byte on, the encoding of `ts`: `length` ends in
      the last token, and the meaning is `out`. */
  predicate Stands(level: Level, ts: seq<Token>, mem: seq<byte>, length: nat, out: seq<byte>)
    requires mem != []
  {
    && Encoded(level, ts, mem, length, 0, mem[0] % 32, 0)
    && ts[0].Literals? && Expand(level, [], ts) == out
  }

  /** No stream of length 0 is accepted: it starts with literals, which must lie inside. */
  lemma FirstFits(level: Level, mem: seq<byte>, length: nat, maxout: nat)
    requires length <= |mem| && mem != [] && Decode(level, mem, length, maxout).Done?
    ensures length > 0
  {
  }

  lemma AcceptedStands(level: Level, mem: seq<byte>, length: nat, maxout: nat) returns (ts: seq<Token>)
    requires length <= |mem| && Decode(level, mem, length, maxout).Done?
    ensures mem != [] && Stands(level, ts, mem, length, Decode(level, mem, length, maxout).out)
  {
    hide DecodeFrom, Expand, WellFormed, Encoded, Stream;
    FirstFits(level, mem, length, maxout);
    ts := AcceptedIsStream(level, mem, length, maxout, 0, mem[0] % 32, []);
    StreamIsEncoding(level, ts, mem, length, 0, mem[0] % 32, 0);
  }

  lemma StandsAccepted(level: Level, ts: seq<Token>, mem: seq<byte>, length: nat, maxout: nat, out: seq<byte>)
    requires length <= |mem| && mem != [] && Stands(level, ts, mem, length, out)
    ensures Decode(level, mem, length, maxout) == Bounded(out, maxout)
  {
    hide DecodeFrom, Expand, WellFormed, Encode, Stream, HoldsFrom, EndsIn;
    StreamIsEncoding(level, ts, mem, length, 0, mem[0] % 32, 0);
    DecodeRest(level, ts, mem, length, maxout, 0, mem[0] % 32, []);
  }

  /**
   Exactly the streams that encode a well-formed token sequence starting with
   literals are accepted, and they give its meaning: any bytes, well formed or not,
   any declared length within the memory.
   */
  lemma AcceptedIffEncoding(level: Level, mem: seq<byte>, length: nat, maxout: nat, out: seq<byte>)
    requires length <= |mem|
    ensures Decode(level, mem, length, maxout) == Done(out) <==>
            mem != [] && |out| <= maxout && exists ts :: Stands(level, ts, mem, length, out)
  {
    hide Stands;
    if Decode(level, mem, length, maxout) == Done(out) {
      var ts := AcceptedStands(level, mem, length, maxout);
    }
    if mem != [] && exists ts :: Stands(level, ts, mem, length, out) {
      var ts :| Stands(level, ts, mem, length, out);
      StandsAccepted(level, ts, mem, length, maxout, out);
    }
  }

  /** The level the top three bits of a first byte stand for. */
  function Marker(level: Level): nat {
    if level.One? then 0 else 1
  }

  /** fastlz_decompress returns bytes exactly for the streams of the level its first byte names. */
  lemma DecompressAccepts(mem: seq<byte>, length: nat, maxout: nat, out: seq<byte>)
    requires length <= |mem|
    ensures Decompressed(mem, length, maxout) == Done(out) <==>
            && mem != [] && |out| <= maxout
            && exists level, ts :: mem[0] / 32 == Marker(level) && Stands(level, ts, mem, length, out)
  {
    hide Stands, Decode;
    AcceptedIffEncoding(One, mem, length, maxout, out);
    AcceptedIffEncoding(Two, mem, length, maxout, out);
  }

  /* ----- the decompressor itself ----- */

  /** What the caller of the C function gets, or the read that leaves `mem`. */
  datatype Return = Returned(size: nat) | ReadPastEnd

  predicate Computes(r: Return, spec: Outcome, output: seq<byte>) {
    match spec
    case Done(out) => r == Returned(|out|) && out <= output
    case Reject => r == Returned(0)
    case OverRead => r == ReadPastEnd
  }

  /** The run copy: `ref == op`, so one byte is repeated `len + 3` times. */
  method CopyRun(output: array<byte>, op0: nat, len0: nat, ghost out: seq<byte>)
    returns (op: nat)
    requires 1 <= op0 && op0 + len0 + 3 <= output.Length
    requires output[..op0] == out
    modifies output
    ensures op == op0 + len0 + 3
    ensures output[..op] == CopyBack(out, 1, len0 + 3)
    ensures output[op..] == old(output[op..])
  {
    op := op0;
    var b := output[op - 1];
    var k := 0;
    while k < len0 + 3
      invariant k <= len0 + 3 && op == op0 + k
      invariant output[op - 1] == b
      invariant output[..op] == CopyBack(out, 1, k)
      invariant output[op0 + len0 + 3..] == old(output[op0 + len0 + 3..])
    {
      output[op] := b;
      assert output[..op + 1] == output[..op] + [b];
      op := op + 1;
      k := k + 1;
    }
  }

  /** The general copy: byte by byte from `ref - 1` on, which may overlap the target. */
  method CopyReference(output: array<byte>, op0: nat, ref0: nat, len0: nat, ghost out: seq<byte>)
    returns (op: nat)
    requires 1 <= ref0 <= op0 && op0 + len0 + 3 <= output.Length
    requires output[..op0] == out
    modifies output
    ensures op == op0 + len0 + 3
    ensures output[..op] == CopyBack(out, op0 - (ref0 - 1), len0 + 3)
    ensures output[op..] == old(output[op..])
  {
    op := op0;
    var ref := ref0 - 1;
    ghost var distance := op0 - ref;
    var k := 0;
    while k < len0 + 3
      invariant k <= len0 + 3 && op == op0 + k && ref == op - distance
      invariant output[..op] == CopyBack(out, distance, k)
      invariant output[op0 + len0 + 3..] == old(output[op0 + len0 + 3..])
    {
      output[op] := output[ref];
      assert output[..op + 1] == output[..op] + [output[..op][op - distance]];
      op := op + 1;
      ref := ref + 1;
      k := k + 1;
    }
  }

  /** Copying literals from the input. */
  method CopyLiterals(mem: seq<byte>, ip: nat, count: nat, output: array<byte>, op0: nat)
    requires ip + count <= |mem| && op0 + count <= output.Length
    modifies output
    ensures output[..op0 + count] == old(output[..op0]) + mem[ip..ip + count]
    ensures output[op0 + count..] == old(output[op0 + count..])
  {
    var k := 0;
    while k < count
      invariant k <= count
      invariant output[..op0 + k] == old(output[..op0]) + mem[ip..ip + k]
      invariant output[op0 + count..] == old(output[op0 + count..])
    {
      output[op0 + k] := mem[ip + k];
      assert output[..op0 + (k + 1)] == output[..op0 + k] + [mem[ip + k]];
      assert mem[ip..ip + (k + 1)] == mem[ip..ip + k] + [mem[ip + k]];
      k := k + 1;
    }
  }

  /** Reading the operands of a back-reference the way the code does: `len` and
      `back` are biased, and `back` counts from `op` down to `ref`. */
  method ReadBack(level: Level, mem: seq<byte>, ip0: nat, ctrl: byte)
    returns (ok: bool, ip: nat, len: nat, back: nat)
    requires ctrl >= 32
    ensures ok == ReadOperands(level, mem, ip0, ctrl).Operands?
    ensures ok ==> ReadOperands(level, mem, ip0, ctrl) == Operands(ip, Match(back + 1, len + 3))
  {
    ip := ip0;
    len := ctrl / 32 - 1;
    var ofs := (ctrl % 32) * 256;
    back := ofs;
    if level.One? {
      if len == 6 {
        if ip >= |mem| { return false, ip, len, back; }
        len := len + mem[ip];
        ip := ip + 1;
      }
      if ip >= |mem| { return false, ip, len, back; }
      back := back + mem[ip];
      return true, ip + 1, len, back;
    }
    if len == 6 {
      var code: byte := 255;
      while code == 255
        invariant ip <= |mem| || ip == ip0
        invariant code == 255 ==> ReadChain(mem, ip, len) == ReadChain(mem, ip0, 6)
        invariant code != 255 ==> (ip, len) == ReadChain(mem, ip0, 6)
        decreases |mem| - ip, code == 255
      {
        if ip >= |mem| { return false, ip, len, back; }
        code := mem[ip];
        len := len + code;
        ip := ip + 1;
      }
    }
    if ip >= |mem| { return false, ip, len, back; }
    var code := mem[ip];
    back := back + code;
    ip := ip + 1;
    if code == 255 && ofs == 31 * 256 {
      if ip + 1 >= |mem| { return false, ip, len, back; }
      ofs := mem[ip] as int * 256 + mem[ip + 1];
      ip := ip + 2;
      back := ofs + NEAR_LIMIT;
    }
    ok := true;
  }

  lemma Beyond(a: seq<byte>, b: seq<byte>, i: nat, j: nat)
    requires i <= j <= |a| == |b| && a[i..] == b[i..]
    ensures a[j..] == b[j..]
  {
    assert a[j..] == a[i..][j - i..];
  }

  /** One iteration of the loop in FASTLZ_DECOMPRESSOR: `loop` says whether there is another. */
  method Round(level: Level, mem: seq<byte>, length: nat, output: array<byte>, maxout: nat,
               ip0: nat, ctrl0: byte, op0: nat)
    returns (failed: Outcome, loop: bool, ip: nat, ctrl: byte, op: nat)
    requires length <= |mem| && ip0 <= |mem| && op0 <= maxout <= output.Length
    modifies output
    ensures op <= maxout && output[maxout..] == old(output[maxout..])
    ensures Iterate(level, mem, length, maxout, ip0, ctrl0, old(output[..op0])) ==
            if !failed.Done? then Stop(failed)
            else if loop then Next(ip, ctrl, output[..op])
            else Stop(Done(output[..op]))
  {
    hide ReadOperands, CopyBack;
    failed, loop, ip, ctrl, op := Done([]), true, ip0, ctrl0, op0;
    ghost var out := output[..op];
    if ctrl >= 32 {
      var ok, next, len, back := ReadBack(level, mem, ip, ctrl);
      if !ok { failed := OverRead; return; }
      ip := next;
      if op + len + 3 > maxout { failed := Reject; return; }
      if op - back - 1 < 0 { failed := Reject; return; }
      if ip < length {
        ctrl := mem[ip];
        ip := ip + 1;
      } else {
        loop := false;
      }
      if back == 0 {
        op := CopyRun(output, op, len, out);
      } else {
        op := CopyReference(output, op, op - back, len, out);
      }
      Beyond(old(output[..]), output[..], op, maxout);
    } else {
      var count := ctrl + 1;
      if op + count > maxout { failed := Reject; return; }
      if ip + count > length { failed := Reject; return; }
      CopyLiterals(mem, ip, count, output, op);
      op := op + count;
      ip := ip + count;
      Beyond(old(output[..]), output[..], op, maxout);
      loop := ip < length;
      if loop {
        ctrl := mem[ip];
        ip := ip + 1;
      }
    }
  }

  /**
   FASTLZ_DECOMPRESSOR. Every write is inside `output[..maxout]` and every copy
   reads bytes already written, for any bytes in `mem`.
   */
  method Decompress(level: Level, mem: seq<byte>, length: nat, output: array<byte>, maxout: nat)
    returns (r: Return)
    requires length <= |mem| && maxout <= output.Length
    modifies output
    ensures Computes(r, Decode(level, mem, length, maxout), output[..])
    ensures r.Returned? ==> r.size <= maxout
    ensures output[maxout..] == old(output[maxout..])
  {
    hide Iterate;
    if |mem| == 0 { return ReadPastEnd; }
    var ip: nat, op: nat := 1, 0;
    var ctrl: byte := mem[0] % 32;
    var loop := true;
    assert output[..op] == [];
    while loop
      invariant op <= maxout
      invariant loop ==> ip <= |mem|
      invariant output[maxout..] == old(output[maxout..])
      invariant Decode(level, mem, length, maxout) ==
                if loop then DecodeFrom(level, mem, length, maxout, ip, ctrl, output[..op]) else Done(output[..op])
      decreases if loop then |mem| + 1 - ip else 0
    {
      var failed;
      failed, loop, ip, ctrl, op := Round(level, mem, length, output, maxout, ip, ctrl, op);
      if failed.OverRead? { return ReadPastEnd; }
      if failed.Reject? { return Returned(0); }
    }
    r := Returned(op);
  }

  /** fastlz_decompress */
  method FastLzDecompress(mem: seq<byte>, length: nat, output: array<byte>, maxout: nat) returns (r: Return)
    requires length <= |mem| && maxout <= output.Length
    modifies output
    ensures Computes(r, Decompressed(mem, length, maxout), output[..])
    ensures r.Returned? ==> r.size <= maxout
    ensures output[maxout..] == old(output[maxout..])
  {
    if |mem| == 0 { return ReadPastEnd; }
    var level := mem[0] / 32 + 1;
    if level == 1 {
      r := Decompress(One, mem, length, output, maxout);
    } else if level == 2 {
      r := Decompress(Two, mem, length, output, maxout);
    } else {
      r := Returned(0);
    }
  }
}
