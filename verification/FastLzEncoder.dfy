/**
 The FastLZ compressor of PS/at_simplified/fastlz.c, both levels.

 The hash of the bytes at a position is a parameter: nothing proved here depends
 on which slot a position falls into. The output buffer is an array, so that the
 bound on its length in `Compress` is a proof that nothing is written beyond it.
 */
module FastLzEncoder {
  import opened Bytes
  import opened FastLzFormat
  import opened FastLzDecoder
  import opened FastLzParse

  /** A buffer of this length holds whatever `n` bytes of input can lead to. */
  predicate Roomy(n: nat, length: nat) {
    n + n / 32 + 1 <= length
  }

  /** Looking for a match at `anchor`; a far one must agree on five bytes. */
  method Probe(level: Level, input: seq<byte>, hash: nat -> Slot, htab: array<nat>, anchor: nat)
    returns (found: bool, distance: nat, len: nat)
    requires 1 <= anchor < |input| - 12
    requires TableBelow(htab[..], anchor)
    modifies htab
    ensures TableBelow(htab[..], anchor + 1)
    ensures htab[..] == Noted(level, input, hash, old(htab[..]), anchor)
    ensures found == Available(level, input, hash, old(htab[..]), anchor)
    ensures found ==> distance == anchor - Candidate(level, input, hash, old(htab[..]), anchor)
    ensures found ==> len == Compared(level, distance) && Repeats(input, anchor, distance, anchor + len)
    ensures found ==> distance < if level.One? then MAX_DISTANCE else MAX_FARDISTANCE
  {
    len := 3;
    if level.Two? && IsRun(input, anchor) {
      return true, 1, len;
    }
    var hval := hash(anchor);
    var ref := htab[hval];
    assert htab[..][hval] < anchor;
    distance := anchor - ref;
    htab[hval] := anchor;
    forall s | 0 <= s < HASH_SIZE ensures htab[..][s] < anchor + 1 {
      assert s != hval ==> htab[..][s] == old(htab[..])[s];
    }
    found := false;
    if distance == 0 || distance >= (if level.One? then MAX_DISTANCE else MAX_FARDISTANCE) { return; }
    if input[ref] != input[anchor] || input[ref + 1] != input[anchor + 1] || input[ref + 2] != input[anchor + 2] {
      return;
    }
    if level.Two? && distance >= NEAR_LIMIT {
      if input[anchor + 3] != input[ref + 3] || input[anchor + 4] != input[ref + 4] { return; }
      len := len + 2;
    }
    found := true;
  }

  /** Extending a run of one byte value. `ref` trails `ip` by one, so the first
      comparison is of a byte already known to match. */
  method ExtendRun(input: seq<byte>, anchor: nat) returns (ip: nat)
    requires anchor < |input| - 12
    requires Repeats(input, anchor, 1, anchor + 3)
    ensures anchor + 4 <= ip <= |input| - 2
    ensures Repeats(input, anchor, 1, ip - 1)
    ensures ip - 1 == Reach(input, 1, anchor + 3, Farthest(|input|, anchor + 3))
  {
    ip := anchor + 3;
    var ref := anchor + 2;
    var x := input[ip - 1];
    assert input[anchor + 1] == x && input[anchor] == x && input[anchor - 1] == x;
    while ip < |input| - 2
      invariant anchor + 3 <= ip <= |input| - 2 && ref == ip - 1
      invariant ip == anchor + 3 ==> input[ref] == x
      invariant forall k :: anchor - 1 <= k < ip - 1 ==> input[k] == x
    {
      if input[ref] != x { break; }
      ref := ref + 1;
      ip := ip + 1;
    }
    ReachIs(input, 1, anchor + 3, Farthest(|input|, anchor + 3), ip - 1);
  }

  /** Where comparing stops is where the search for the end gives up or finds a difference. */
  lemma EndFound(input: seq<byte>, anchor: nat, distance: nat, len: nat, end: nat)
    requires 3 <= len <= 5 && anchor < |input| - 12
    requires Repeats(input, anchor, distance, end)
    requires anchor + len <= end <= Farthest(|input|, anchor + len)
    requires end == Farthest(|input|, anchor + len) || input[end] != input[end - distance]
    ensures end == Reach(input, distance, anchor + len, Farthest(|input|, anchor + len))
  {
    ReachIs(input, distance, anchor + len, Farthest(|input|, anchor + len), end);
  }

  /** Extending a match by comparing bytes: eight without looking at the end of
      the input, then up to two bytes before it. The result is one past the last
      byte compared. */
  method ExtendMatch(input: seq<byte>, anchor: nat, distance: nat, len: nat) returns (ip: nat)
    requires 3 <= len <= 5
    requires anchor < |input| - 12
    requires Repeats(input, anchor, distance, anchor + len)
    ensures anchor + len + 1 <= ip <= |input|
    ensures len == 3 ==> ip <= |input| - 2
    ensures Repeats(input, anchor, distance, ip - 1)
    ensures ip - 1 == Reach(input, distance, anchor + len, Farthest(|input|, anchor + len))
  {
    hide Reach;
    ip := anchor + len;
    var ref := ip - distance;
    var k := 0;
    while k < 8
      invariant k <= 8 && ip == anchor + len + k && ref == ip - distance
      invariant Repeats(input, anchor, distance, ip)
    {
      ref := ref + 1;
      ip := ip + 1;
      if input[ref - 1] != input[ip - 1] {
        EndFound(input, anchor, distance, len, ip - 1);
        return;
      }
      k := k + 1;
    }
    while ip < |input| - 2
      invariant anchor + len + 8 <= ip <= |input|
      invariant ip == anchor + len + 8 || ip <= |input| - 2
      invariant ref == ip - distance
      invariant Repeats(input, anchor, distance, ip)
    {
      ref := ref + 1;
      ip := ip + 1;
      if input[ref - 1] != input[ip - 1] {
        EndFound(input, anchor, distance, len, ip - 1);
        return;
      }
    }
    EndFound(input, anchor, distance, len, ip - 1);
  }

  /** Extending the match found at `anchor`, by the loop for its distance. */
  method Extend(level: Level, input: seq<byte>, ghost hash: nat -> Slot, ghost htab: seq<nat>,
                anchor: nat, distance: nat, len: nat)
    returns (end: nat)
    requires 1 <= anchor < |input| - 12 && TableBelow(htab, anchor)
    requires Available(level, input, hash, htab, anchor)
    requires distance == anchor - Candidate(level, input, hash, htab, anchor)
    requires len == Compared(level, distance) && Repeats(input, anchor, distance, anchor + len)
    ensures end >= 4 && Found(anchor, distance, end - 1) == Take(level, input, hash, htab, anchor)
    ensures Fits(level, input, Found(anchor, distance, end - 1))
  {
    TakeFits(level, input, hash, htab, anchor);
    hide Repeats, TableBelow, Available, Reach, Fits, Candidate;
    if distance == 1 {
      end := ExtendRun(input, anchor);
    } else {
      end := ExtendMatch(input, anchor, distance, len);
    }
  }

  /** `written` is the encoding of tokens that stand for `out`, the first of them literals. */
  ghost predicate Written(level: Level, ts: seq<Token>, written: seq<byte>, out: seq<byte>) {
    && WellFormed(level, 0, ts)
    && Encode(level, 0, ts) == written
    && Expand(level, [], ts) == out
    && (ts != [] ==> ts[0].Literals?)
  }

  lemma WrittenSome(level: Level, ts: seq<Token>, written: seq<byte>, out: seq<byte>)
    requires Written(level, ts, written, out) && ts != []
    ensures |written| >= 2
  {
  }

  lemma WrittenLiterals(level: Level, ts: seq<Token>, written: seq<byte>, out: seq<byte>, bytes: seq<byte>)
    requires Written(level, ts, written, out)
    requires 1 <= |bytes| <= MAX_COPY
    ensures Written(level, ts + [Literals(bytes)], written + ([|bytes| - 1] + bytes), out + bytes)
  {
    hide Expand, WellFormed, Encode;
    AppendToken(level, [], ts, Literals(bytes));
  }

  /** A further piece of a match of which `done` bytes after `out` are already described. */
  lemma WrittenMatch(level: Level, ts: seq<Token>, written: seq<byte>, out: seq<byte>,
                     distance: nat, done: nat, length: nat)
    requires 1 <= distance <= |out|
    requires Written(level, ts, written, CopyBack(out, distance, done))
    requires ValidToken(level, Match(distance, length))
    requires ts != []
    ensures Written(level, ts + [Match(distance, length)], written + EncodeToken(level, Match(distance, length)),
                    CopyBack(out, distance, done + length))
  {
    hide CopyBack, Expand, WellFormed, Encode, EncodeToken;
    AppendToken(level, [], ts, Match(distance, length));
    CopyBackSplit(out, distance, done, length);
  }

  /** Appending bytes to the written part of a buffer. */
  method Put(output: array<byte>, op: nat, bytes: seq<byte>) returns (op': nat)
    requires op + |bytes| <= output.Length
    modifies output
    ensures op' == op + |bytes|
    ensures output[..op'] == old(output[..op]) + bytes
  {
    forall k | 0 <= k < |bytes| {
      output[op + k] := bytes[k];
    }
    op' := op + |bytes|;
  }

  /** Overwriting one byte of the written part of a buffer. */
  method Patch(output: array<byte>, op: nat, i: nat, b: byte)
    requires i < op <= output.Length
    modifies output
    ensures output[..op] == old(output[..op])[i := b]
  {
    output[i] := b;
  }

  /** A piece of a match at level one: the length in the control byte, or in a byte of its own from 7 on. */
  function PieceBytes(distance: nat, len: nat): (r: seq<byte>)
    requires distance < MAX_DISTANCE && 1 <= len <= MAX_LEN - 2
    ensures |r| == if len < 7 then 2 else 3
  {
    if len < 7 then [len * 32 + distance / 256, distance % 256]
    else [7 * 32 + distance / 256, len - 7, distance % 256]
  }

  lemma MatchBytesOne(distance: nat, len: nat)
    requires distance < MAX_DISTANCE && 1 <= len <= MAX_LEN - 2
    ensures EncodeToken(One, Match(distance + 1, len + 2)) == PieceBytes(distance, len)
  {
  }

  /** The tokens so far and the pieces of the rest of a match make up `goal`. */
  ghost predicate PiecesTo(distance: nat, length: nat, ts: seq<Token>, goal: seq<Token>) {
    ts + Pieces(One, distance, length) == goal
  }

  lemma PiecesStep(distance: nat, length: nat, ts: seq<Token>, goal: seq<Token>)
    requires PiecesTo(distance, length, ts, goal)
    ensures length > MAX_LEN ==>
      PiecesTo(distance, length - (MAX_LEN - 2), ts + [Match(distance, MAX_LEN - 2)], goal)
    ensures length <= MAX_LEN ==> ts + [Match(distance, length)] == goal
  {
    if length > MAX_LEN {
      Regroup(ts, [Match(distance, MAX_LEN - 2)], Pieces(One, distance, length - (MAX_LEN - 2)));
    }
  }

  /** The pieces of 262 bytes of a long match at level one; `len` is what is left of its biased length. */
  method EmitFull(output: array<byte>, op0: nat, distance: nat, len0: nat, ghost ts: seq<Token>, ghost out: seq<byte>,
                  ghost goal: seq<Token>)
    returns (op: nat, len: nat, ghost ts': seq<Token>)
    requires len0 >= 1 && distance + 1 < MAX_DISTANCE && distance + 1 <= |out|
    requires op0 <= output.Length
    requires 32 * op0 + 33 * (len0 + 2) < 32 * (output.Length + 1)
    requires Written(One, ts, output[..op0], out) && ts != []
    requires PiecesTo(distance + 1, len0 + 2, ts, goal)
    modifies output
    ensures 1 <= len <= len0 && len <= MAX_LEN - 2 && op0 <= op <= output.Length
    ensures 32 * (op - op0) <= 33 * (len0 - len)
    ensures Written(One, ts', output[..op], CopyBack(out, distance + 1, len0 - len)) && ts' != []
    ensures PiecesTo(distance + 1, len + 2, ts', goal)
  {
    hide Written, EncodeToken, PiecesTo;
    assert CopyBack(out, distance + 1, 0) == out;
    op, len, ts' := op0, len0, ts;
    while len > MAX_LEN - 2
      invariant 1 <= len <= len0 && op0 <= op <= output.Length
      invariant 32 * (op - op0) <= 33 * (len0 - len)
      invariant Written(One, ts', output[..op], CopyBack(out, distance + 1, len0 - len)) && ts' != []
      invariant PiecesTo(distance + 1, len + 2, ts', goal)
    {
      PiecesStep(distance + 1, len + 2, ts', goal);
      WrittenMatch(One, ts', output[..op], out, distance + 1, len0 - len, MAX_LEN - 2);
      MatchBytesOne(distance, MAX_LEN - 4);
      op := Put(output, op, PieceBytes(distance, MAX_LEN - 4));
      ts' := ts' + [Match(distance + 1, MAX_LEN - 2)];
      len := len - (MAX_LEN - 2);
    }
  }

  /** The last piece, which level one writes in two or three bytes. */
  lemma LastPiece(ts: seq<Token>, written: seq<byte>, out: seq<byte>, distance: nat, done: nat, len: nat,
                  goal: seq<Token>)
    requires 1 <= len <= MAX_LEN - 2 && distance + 1 < MAX_DISTANCE && distance + 1 <= |out|
    requires Written(One, ts, written, CopyBack(out, distance + 1, done)) && ts != []
    requires PiecesTo(distance + 1, len + 2, ts, goal)
    ensures Written(One, goal, written + PieceBytes(distance, len), CopyBack(out, distance + 1, done + (len + 2)))
  {
    hide PieceBytes, Written, EncodeToken, CopyBack, PiecesTo;
    PiecesStep(distance + 1, len + 2, ts, goal);
    WrittenMatch(One, ts, written, out, distance + 1, done, len + 2);
    MatchBytesOne(distance, len);
  }

  /** Writing a match with biased `distance` and `len`, at level one in pieces of 262 bytes. */
  method EmitOne(output: array<byte>, op0: nat, distance: nat, len0: nat, ghost ts: seq<Token>, ghost out: seq<byte>,
                 ghost goal: seq<Token>)
    returns (op: nat)
    requires len0 >= 1 && distance + 1 < MAX_DISTANCE && distance + 1 <= |out|
    requires op0 <= output.Length
    requires 32 * op0 + 33 * (len0 + 2) < 32 * (output.Length + 1)
    requires Written(One, ts, output[..op0], out) && ts != []
    requires PiecesTo(distance + 1, len0 + 2, ts, goal)
    modifies output
    ensures op0 <= op < output.Length && 32 * (op - op0) + 32 <= 33 * (len0 + 2)
    ensures Written(One, goal, output[..op], CopyBack(out, distance + 1, len0 + 2))
  {
    hide Written, CopyBack, PiecesTo, PieceBytes;
    var len;
    ghost var ts';
    op, len, ts' := EmitFull(output, op0, distance, len0, ts, out, goal);
    LastPiece(ts', output[..op], out, distance, len0 - len, len, goal);
    op := Put(output, op, PieceBytes(distance, len));
  }

  /** The loop that writes a length in bytes of 255. */
  method PutChain(output: array<byte>, op0: nat, v: nat) returns (op: nat)
    requires op0 + v / 255 + 1 <= output.Length
    modifies output
    ensures op == op0 + v / 255 + 1
    ensures output[..op] == old(output[..op0]) + EncodeChain(v)
  {
    op := op0;
    var len := v;
    while len >= 255
      invariant op0 <= op && op + len / 255 + 1 == op0 + v / 255 + 1
      invariant output[..op] + EncodeChain(len) == old(output[..op0]) + EncodeChain(v)
    {
      ghost var before := output[..op];
      output[op] := 255;
      assert output[..op + 1] == before + [255];
      assert before + EncodeChain(len) == before + [255] + EncodeChain(len - 255);
      op := op + 1;
      len := len - 255;
    }
    ghost var before := output[..op];
    output[op] := len;
    op := op + 1;
    assert output[..op] == before + [len];
  }

  /** The control byte and the length of a level-two match. */
  function LengthBytes(len: nat, high: nat): (r: seq<byte>)
    requires high < 32
    ensures |r| == if len < 7 then 1 else (len - 7) / 255 + 2
  {
    if len < 7 then [len * 32 + high] else [7 * 32 + high] + EncodeChain(len - 7)
  }

  method PutLength(output: array<byte>, op0: nat, len: nat, high: nat) returns (op: nat)
    requires high < 32 && op0 + |LengthBytes(len, high)| <= output.Length
    modifies output
    ensures op == op0 + |LengthBytes(len, high)|
    ensures output[..op] == old(output[..op0]) + LengthBytes(len, high)
  {
    hide EncodeChain;
    if len < 7 {
      op := Put(output, op0, [len * 32 + high]);
    } else {
      Regroup(output[..op0], [7 * 32 + high], EncodeChain(len - 7));
      op := Put(output, op0, [7 * 32 + high]);
      op := PutChain(output, op, len - 7);
    }
  }

  lemma MatchBytesTwo(distance: nat, len: nat)
    requires distance < NEAR_LIMIT + 65536 && 1 <= len
    ensures HighPart(distance) < 32
    ensures EncodeToken(Two, Match(distance + 1, len + 2)) ==
            LengthBytes(len, HighPart(distance)) + DistanceTail(distance)
  {
    TwoParts(Match(distance + 1, len + 2));
  }

  /** Writing a match with biased `distance` and `len` at level two. */
  method EmitTwo(output: array<byte>, op0: nat, distance: nat, len: nat, ghost ts: seq<Token>, ghost out: seq<byte>)
    returns (op: nat, ghost ts': seq<Token>)
    requires len >= 1 && distance + 1 < MAX_FARDISTANCE && distance + 1 <= |out|
    requires distance >= NEAR_LIMIT ==> len >= 3
    requires op0 <= output.Length
    requires 32 * op0 + 33 * (len + 2) < 32 * (output.Length + 1)
    requires Written(Two, ts, output[..op0], out) && ts != []
    modifies output
    ensures op0 <= op < output.Length && 32 * (op - op0) + 32 <= 33 * (len + 2)
    ensures Written(Two, ts', output[..op], CopyBack(out, distance + 1, len + 2))
    ensures ts' == ts + Pieces(Two, distance + 1, len + 2)
  {
    hide Written, EncodeToken, LengthBytes;
    assert CopyBack(out, distance + 1, 0) == out;
    WrittenMatch(Two, ts, output[..op0], out, distance + 1, 0, len + 2);
    MatchBytesTwo(distance, len);
    ts' := ts + [Match(distance + 1, len + 2)];
    ghost var w := output[..op0];
    Regroup(w, LengthBytes(len, HighPart(distance)), DistanceTail(distance));
    if distance < NEAR_LIMIT {
      op := PutLength(output, op0, len, distance / 256);
      op := Put(output, op, [distance % 256]);
    } else {
      var far := distance - NEAR_LIMIT;
      op := PutLength(output, op0, len, 31);
      op := Put(output, op, [255, far / 256, far % 256]);
    }
  }

  /**
   The compressor between two bytes of input. The last `copy` bytes written are
   literals whose count is still the placeholder 31 before them; what comes
   before the placeholder is finished, and no longer than 33/32 of what it stands for.
   */
  ghost predicate Pending(level: Level, ts: seq<Token>, input: seq<byte>, ip: nat, copy: nat, written: seq<byte>) {
    && copy < MAX_COPY && copy <= ip <= |input| && copy + 1 <= |written|
    && written[|written| - copy - 1] == MAX_COPY - 1
    && written[|written| - copy..] == input[ip - copy..ip]
    && Written(level, ts, written[..|written| - copy - 1], input[..ip - copy])
    && 32 * (|written| - copy - 1) <= 33 * (ip - copy)
    && (ts == [] ==> copy >= 1)
  }

  lemma PendingCopy(level: Level, ts: seq<Token>, input: seq<byte>, ip: nat, copy: nat, written: seq<byte>)
    requires Pending(level, ts, input, ip, copy, written)
    ensures copy <= ip && copy < MAX_COPY
  {
  }

  /** What the first and only placeholder means at the start. */
  lemma PendingStart(level: Level, input: seq<byte>)
    requires |input| >= 2
    ensures Pending(level, [], input, 2, 2, [MAX_COPY - 1, input[0], input[1]])
  {
    var w := [MAX_COPY - 1, input[0], input[1]];
    assert w[1..] == input[0..2];
    assert w[..0] == [] && input[..0] == [];
  }

  lemma PendingLiteral(level: Level, ts: seq<Token>, input: seq<byte>, ip: nat, copy: nat, written: seq<byte>)
    requires Pending(level, ts, input, ip, copy, written) && ip < |input|
    ensures copy + 1 < MAX_COPY ==> Pending(level, ts, input, ip + 1, copy + 1, written + [input[ip]])
    ensures copy + 1 == MAX_COPY ==>
      Pending(level, ts + [Literals(input[ip - copy..ip + 1])], input, ip + 1, 0,
        written + [input[ip]] + [MAX_COPY - 1])
  {
    hide Written;
    var p, c := |written| - copy - 1, ip - copy;
    var w := written + [input[ip]];
    assert w[..p] == written[..p];
    assert input[c..ip] + [input[ip]] == input[c..ip + 1];
    assert w[|written| - copy..] == written[|written| - copy..] + [input[ip]];
    assert w[|w| - (copy + 1)..] == w[|written| - copy..];
    if copy + 1 == MAX_COPY {
      var bytes := input[c..ip + 1];
      WrittenLiterals(level, ts, written[..p], input[..c], bytes);
      assert w == written[..p] + ([|bytes| - 1] + bytes);
      assert input[..c] + bytes == input[..ip + 1];
      var w' := w + [MAX_COPY - 1];
      assert w'[..|w|] == w && w'[|w'|..] == [] == input[ip + 1..ip + 1];
      assert (ts + [Literals(bytes)]) != [];
    }
  }

  /** Fixing the pending count, or dropping the placeholder of an empty run. */
  lemma PendingFlush(level: Level, ts: seq<Token>, input: seq<byte>, ip: nat, copy: nat, written: seq<byte>)
    requires Pending(level, ts, input, ip, copy, written)
    ensures copy > 0 ==>
      Written(level, ts + [Literals(input[ip - copy..ip])], written[|written| - copy - 1 := copy - 1], input[..ip])
    ensures copy == 0 ==> Written(level, ts, written[..|written| - 1], input[..ip]) && ts != []
  {
    hide Written;
    if copy > 0 {
      var p, c := |written| - copy - 1, ip - copy;
      var bytes := input[c..ip];
      WrittenLiterals(level, ts, written[..p], input[..c], bytes);
      assert written[p := copy - 1] == written[..p] + ([|bytes| - 1] + bytes);
      assert input[..c] + bytes == input[..ip];
    }
  }

  /** A match that stops before the last compared byte, as back-reference of the text before it. */
  lemma MatchText(input: seq<byte>, anchor: nat, distance: nat, end: nat)
    requires Repeats(input, anchor, distance, end)
    ensures CopyBack(input[..anchor], distance, end - anchor) == input[..end]
  {
    CopyBackPeriodic(input[..anchor], distance, end - anchor, input[..end]);
    assert input[..end][..anchor] == input[..anchor];
  }

  /** What is written after the finished part stays within the buffer the text allows for. */
  lemma Room(finished: nat, consumed: nat, n: nat)
    requires 32 * finished <= 33 * consumed && consumed <= n
    ensures finished + (n - consumed) <= n + n / 32
  {
  }

  /** The room left for a match after the literals before it. */
  lemma MatchRoom(op: nat, anchor: nat, len: nat, n: nat, length: nat)
    requires 32 * op <= 33 * anchor + 32 && anchor + len + 2 <= n && Roomy(n, length)
    ensures op <= length && 32 * op + 33 * (len + 2) < 32 * (length + 1)
  {
  }

  /** One more literal: counted, or closing a full run. */
  ghost predicate Counted(input: seq<byte>, ip: nat, copy: nat, ts: seq<Token>, copy': nat, ts': seq<Token>)
    requires copy <= ip < |input|
  {
    if copy + 1 < MAX_COPY then copy' == copy + 1 && ts' == ts
    else copy' == 0 && ts' == ts + [Literals(input[ip - copy..ip + 1])]
  }

  /** The room for a literal, and for the placeholder after a full run. */
  lemma LiteralRoom(level: Level, ts: seq<Token>, input: seq<byte>, ip: nat, copy: nat, written: seq<byte>, length: nat)
    requires Pending(level, ts, input, ip, copy, written) && ip < |input| && Roomy(|input|, length)
    ensures copy <= ip && copy < MAX_COPY
    ensures |written| < length && (copy + 1 == MAX_COPY ==> |written| + 1 < length)
  {
    hide Written;
    Room(|written| - copy - 1, ip - copy, |input|);
  }

  /** One literal byte, closing the run when it has MAX_COPY of them. */
  method EmitLiteral(level: Level, input: seq<byte>, ip: nat, output: array<byte>, op0: nat, copy0: nat,
                     ghost ts: seq<Token>)
    returns (op: nat, copy: nat, ghost ts': seq<Token>)
    requires ip < |input| && op0 <= output.Length && Roomy(|input|, output.Length)
    requires Pending(level, ts, input, ip, copy0, output[..op0])
    modifies output
    ensures op <= output.Length
    ensures Pending(level, ts', input, ip + 1, copy, output[..op])
    ensures copy0 <= ip && Counted(input, ip, copy0, ts, copy, ts')
  {
    hide Pending, Roomy;
    LiteralRoom(level, ts, input, ip, copy0, output[..op0], output.Length);
    PendingLiteral(level, ts, input, ip, copy0, output[..op0]);
    ghost var w := output[..op0];
    ts' := ts;
    output[op0] := input[ip];
    op := op0 + 1;
    assert output[..op] == w + [input[ip]];
    copy := copy0 + 1;
    if copy == MAX_COPY {
      copy := 0;
      output[op] := MAX_COPY - 1;
      assert output[..op + 1] == w + [input[ip]] + [MAX_COPY - 1];
      op := op + 1;
      ts' := ts + [Literals(input[ip - copy0..ip + 1])];
    }
  }

  /** Fixing the count of the pending literals, or taking back the placeholder. */
  method Flush(level: Level, input: seq<byte>, ip: nat, output: array<byte>, op0: nat, copy: nat, ghost ts: seq<Token>)
    returns (op: nat, ghost ts': seq<Token>)
    requires op0 <= output.Length
    requires Pending(level, ts, input, ip, copy, output[..op0])
    modifies output
    ensures op0 - 1 <= op <= output.Length
    ensures 32 * op <= 33 * ip + 32
    ensures Written(level, ts', output[..op], input[..ip]) && ts' != []
    ensures ts' == ts + Runs(input, ip - copy, ip)
  {
    hide Written;
    PendingFlush(level, ts, input, ip, copy, output[..op0]);
    ghost var w := output[..op0];
    if copy > 0 {
      Patch(output, op0, op0 - copy - 1, copy - 1);
      op := op0;
      ts' := ts + [Literals(input[ip - copy..ip])];
    } else {
      op := op0 - 1;
      assert output[..op] == w[..|w| - 1];
      ts' := ts;
    }
  }

  /** Writing the match of the bytes from `anchor` up to `end - 1`, with biased length and distance. */
  method EmitToken(level: Level, input: seq<byte>, anchor: nat, distance: nat, end: nat,
                   output: array<byte>, op0: nat, ghost ts: seq<Token>)
    returns (op: nat, ghost ts': seq<Token>)
    requires end >= 1 && Fits(level, input, Found(anchor, distance, end - 1))
    requires 32 * op0 <= 33 * anchor + 32 && Roomy(|input|, output.Length)
    requires op0 <= output.Length
    requires Written(level, ts, output[..op0], input[..anchor]) && ts != []
    modifies output
    ensures op < output.Length && 32 * op <= 33 * (end - 1)
    ensures Written(level, ts', output[..op], input[..end - 1]) && ts' != []
    ensures ts' == ts + Pieces(level, distance, end - 1 - anchor)
  {
    hide Written, CopyBack;
    MatchText(input, anchor, distance, end - 1);
    hide Repeats;
    var len := end - 3 - anchor;
    MatchRoom(op0, anchor, len, |input|, output.Length);
    hide Roomy;
    match level {
      case One =>
        ts' := ts + Pieces(One, distance, end - 1 - anchor);
        op := EmitOne(output, op0, distance - 1, len, ts, input[..anchor], ts');
      case Two => op, ts' := EmitTwo(output, op0, distance - 1, len, ts, input[..anchor]);
    }
  }

  lemma PendingMatch(level: Level, ts: seq<Token>, input: seq<byte>, ip: nat, written: seq<byte>)
    requires ip <= |input| && ts != []
    requires Written(level, ts, written, input[..ip]) && 32 * |written| <= 33 * ip
    ensures Pending(level, ts, input, ip, 0, written + [MAX_COPY - 1])
  {
    hide Written;
    var w := written + [MAX_COPY - 1];
    assert w[..|w| - 1] == written;
    assert w[|w|..] == [] == input[ip..ip];
  }

  /** The placeholder for the count of the next run of literals. */
  method OpenRun(level: Level, ghost input: seq<byte>, ghost ip: nat, output: array<byte>, op0: nat,
                 ghost ts: seq<Token>)
    returns (op: nat)
    requires op0 < output.Length && ip <= |input| && ts != []
    requires Written(level, ts, output[..op0], input[..ip]) && 32 * op0 <= 33 * ip
    modifies output
    ensures op == op0 + 1
    ensures Pending(level, ts, input, ip, 0, output[..op])
  {
    hide Written, Pending;
    PendingMatch(level, ts, input, ip, output[..op0]);
    op := Put(output, op0, [MAX_COPY - 1]);
  }

  /** A match: flush the literals, write the match, and start a new run of literals. */
  method EmitMatch(level: Level, input: seq<byte>, anchor: nat, distance: nat, end: nat,
                   output: array<byte>, op0: nat, copy: nat, ghost ts: seq<Token>)
    returns (op: nat, ghost ts': seq<Token>)
    requires op0 <= output.Length && Roomy(|input|, output.Length)
    requires end >= 1 && Fits(level, input, Found(anchor, distance, end - 1))
    requires Pending(level, ts, input, anchor, copy, output[..op0])
    modifies output
    ensures op <= output.Length
    ensures Pending(level, ts', input, end - 1, 0, output[..op])
    ensures ts' == ts + Runs(input, anchor - copy, anchor) + Pieces(level, distance, end - 1 - anchor)
  {
    assert anchor + 4 <= end <= |input| + 1;
    hide Written, Pending, Roomy, Fits;
    op, ts' := Flush(level, input, anchor, output, op0, copy, ts);
    op, ts' := EmitToken(level, input, anchor, distance, end, output, op, ts');
    op := OpenRun(level, input, end - 1, output, op, ts');
  }

  /** The level whose decoder reads the result: short input carries no marker. */
  function StreamLevel(level: Level, n: nat): Level {
    if n < 4 then One else level
  }

  /** `b | (1 << 5)` */
  function OrMarker(b: byte): byte {
    if b / 32 % 2 == 1 then b else b + 32
  }

  /** Entering the two positions at the end of a match into the table. */
  method Rehash(hash: nat -> Slot, htab: array<nat>, ghost ip0: nat, ip: nat)
    requires ip0 < ip && TableBelow(htab[..], ip0 + 1)
    modifies htab
    ensures TableBelow(htab[..], ip + 2)
    ensures htab[..] == Rehashed(hash, old(htab[..]), ip + 2)
  {
    htab[hash(ip)] := ip;
    htab[hash(ip + 1)] := ip + 1;
    forall s | 0 <= s < HASH_SIZE ensures htab[..][s] < ip + 2 {
      assert s != hash(ip) && s != hash(ip + 1) ==> htab[..][s] == old(htab[..])[s];
    }
  }

  /** The tokens so far, and those of the input after them as the search goes on from here, make up `goal`. */
  ghost predicate Towards(level: Level, input: seq<byte>, hash: nat -> Slot, htab: seq<nat>, ip: nat, copy: nat,
                          ts: seq<Token>, goal: seq<Token>)
  {
    && 1 <= ip <= |input| && copy <= ip && TableBelow(htab, ip)
    && var ms := Matches(level, input, hash, htab, ip);
       Ordered(|input|, ip - copy, ms) && ts + Tokens(level, input, ip - copy, ms) == goal
  }

  /** A full run of literals goes out before the next match. */
  lemma TokensLongRun(level: Level, input: seq<byte>, from: nat, ms: seq<Found>)
    requires Ordered(|input|, from + MAX_COPY, ms)
    ensures Ordered(|input|, from, ms) && from + MAX_COPY <= |input|
    ensures Tokens(level, input, from, ms) ==
            [Literals(input[from..from + MAX_COPY])] + Tokens(level, input, from + MAX_COPY, ms)
  {
    hide Pieces;
    OrderedInside(|input|, from + MAX_COPY, ms);
    var first := [Literals(input[from..from + MAX_COPY])];
    if ms != [] {
      var b := Pieces(level, ms[0].distance, ms[0].end - ms[0].anchor);
      var c := Tokens(level, input, ms[0].end, ms[1..]);
      Regroup(first, Runs(input, from + MAX_COPY, ms[0].anchor), b + c);
    }
  }

  lemma TowardsStart(level: Level, input: seq<byte>, hash: nat -> Slot)
    requires |input| >= 4
    ensures TableBelow(FirstTable(), 2)
    ensures Towards(level, input, hash, FirstTable(), 2, 2, [], Parse(level, input, hash))
  {
    hide Matches, Tokens;
    MatchesOrdered(level, input, hash, FirstTable(), 2, 0);
  }

  /** The tokens so far and the literals from `from` on make up `goal`. */
  ghost predicate RunsTo(input: seq<byte>, from: int, ts: seq<Token>, goal: seq<Token>) {
    0 <= from <= |input| && ts + Runs(input, from, |input|) == goal
  }

  lemma TowardsEnd(level: Level, input: seq<byte>, hash: nat -> Slot, htab: seq<nat>, ip: nat, copy: nat,
                   ts: seq<Token>, goal: seq<Token>)
    requires Towards(level, input, hash, htab, ip, copy, ts, goal) && ip >= |input| - 12
    ensures copy <= ip <= |input| && RunsTo(input, ip - copy, ts, goal)
  {
  }

  lemma TowardsLiteral(level: Level, input: seq<byte>, hash: nat -> Slot, htab: seq<nat>, ip: nat, copy: nat,
                       ts: seq<Token>, copy': nat, ts': seq<Token>, goal: seq<Token>)
    requires 1 <= ip < |input| - 12 && copy < MAX_COPY
    requires Towards(level, input, hash, htab, ip, copy, ts, goal)
    requires !Available(level, input, hash, htab, ip)
    requires copy <= ip && Counted(input, ip, copy, ts, copy', ts')
    ensures Towards(level, input, hash, Noted(level, input, hash, htab, ip), ip + 1, copy', ts', goal)
  {
    hide Available, TableBelow;
    var ms := Matches(level, input, hash, htab, ip);
    assert ms == Matches(level, input, hash, Noted(level, input, hash, htab, ip), ip + 1);
    MatchesOrdered(level, input, hash, Noted(level, input, hash, htab, ip), ip + 1, ip + 1);
    if copy + 1 == MAX_COPY {
      TokensLongRun(level, input, ip - copy, ms);
      Regroup(ts, [Literals(input[ip - copy..ip + 1])], Tokens(level, input, ip + 1, ms));
    }
  }

  /** The tokens of the pending literals and of a match are added. */
  ghost predicate Extended(level: Level, input: seq<byte>, copy: nat, ts: seq<Token>, m: Found, ts': seq<Token>) {
    && copy <= m.anchor <= m.end && m.anchor <= |input|
    && ts' == ts + Runs(input, m.anchor - copy, m.anchor) + Pieces(level, m.distance, m.end - m.anchor)
  }

  lemma TowardsMatch(level: Level, input: seq<byte>, hash: nat -> Slot, htab: seq<nat>, ip: nat, copy: nat,
                     ts: seq<Token>, ts': seq<Token>, goal: seq<Token>)
    requires 1 <= ip < |input| - 12
    requires Towards(level, input, hash, htab, ip, copy, ts, goal)
    requires Available(level, input, hash, htab, ip)
    requires Extended(level, input, copy, ts, Take(level, input, hash, htab, ip), ts')
    ensures var m := Take(level, input, hash, htab, ip);
      Towards(level, input, hash, Rehashed(hash, Noted(level, input, hash, htab, ip), m.end), m.end, 0, ts', goal)
  {
    hide Available, Runs, Pieces;
    var m := Take(level, input, hash, htab, ip);
    var htab' := Rehashed(hash, Noted(level, input, hash, htab, ip), m.end);
    var ms, rest := Matches(level, input, hash, htab, ip), Matches(level, input, hash, htab', m.end);
    assert ms[0] == m && ms[1..] == rest;
    var a, b := Runs(input, ip - copy, ip), Pieces(level, m.distance, m.end - ip);
    var c := Tokens(level, input, m.end, rest);
    Regroup(ts, a + b, c);
    Regroup(ts, a, b);
  }

  lemma TableBelowMore(htab: seq<nat>, ip: nat, end: nat)
    requires TableBelow(htab, ip) && ip <= end
    ensures TableBelow(htab, end)
  {
  }

  /** A match that was found: extended, written, and its end entered into the table. */
  method TakeMatch(level: Level, input: seq<byte>, hash: nat -> Slot, htab: array<nat>, ghost was: seq<nat>, ip0: nat,
                   distance: nat, len: nat, output: array<byte>, op0: nat, copy0: nat, ghost ts: seq<Token>)
    returns (ip: nat, op: nat, ghost ts': seq<Token>)
    requires 2 <= ip0 < |input| - 12
    requires op0 <= output.Length && Roomy(|input|, output.Length)
    requires TableBelow(was, ip0) && Available(level, input, hash, was, ip0)
    requires TableBelow(htab[..], ip0 + 1)
    requires distance == ip0 - Candidate(level, input, hash, was, ip0)
    requires len == Compared(level, distance) && Repeats(input, ip0, distance, ip0 + len)
    requires Pending(level, ts, input, ip0, copy0, output[..op0])
    modifies htab, output
    ensures Found(ip0, distance, ip) == Take(level, input, hash, was, ip0)
    ensures op <= output.Length
    ensures TableBelow(htab[..], ip) && TableBelow(old(htab[..]), ip) && htab[..] == Rehashed(hash, old(htab[..]), ip)
    ensures Pending(level, ts', input, ip, 0, output[..op])
    ensures Extended(level, input, copy0, ts, Found(ip0, distance, ip), ts')
  {
    hide Pending, TableBelow, Repeats, Available, Candidate, Fits, Roomy, Runs, Pieces;
    PendingCopy(level, ts, input, ip0, copy0, output[..op0]);
    var end := Extend(level, input, hash, was, ip0, distance, len);
    op, ts' := EmitMatch(level, input, ip0, distance, end, output, op0, copy0, ts);
    TableBelowMore(htab[..], ip0 + 1, end - 1);
    Rehash(hash, htab, ip0, end - 3);
    ip := end - 1;
  }

  /** One iteration of the main loop: a match, or one literal byte. */
  method Advance(level: Level, input: seq<byte>, hash: nat -> Slot, htab: array<nat>, ip0: nat,
                 output: array<byte>, op0: nat, copy0: nat, ghost ts: seq<Token>, ghost goal: seq<Token>)
    returns (ip: nat, op: nat, copy: nat, ghost ts': seq<Token>)
    requires 2 <= ip0 < |input| - 12
    requires op0 <= output.Length && Roomy(|input|, output.Length)
    requires TableBelow(htab[..], ip0)
    requires Pending(level, ts, input, ip0, copy0, output[..op0])
    requires Towards(level, input, hash, htab[..], ip0, copy0, ts, goal)
    modifies htab, output
    ensures ip0 < ip <= |input| && op <= output.Length
    ensures TableBelow(htab[..], ip)
    ensures Pending(level, ts', input, ip, copy, output[..op])
    ensures Towards(level, input, hash, htab[..], ip, copy, ts', goal)
    ensures ip == if Available(level, input, hash, old(htab[..]), ip0)
                  then Take(level, input, hash, old(htab[..]), ip0).end
                  else ip0 + 1
  {
    hide Pending, TableBelow, Repeats, Towards, Available, Candidate, Fits, Roomy, Extended, Counted;
    PendingCopy(level, ts, input, ip0, copy0, output[..op0]);
    ghost var was := htab[..];
    var found, distance, len := Probe(level, input, hash, htab, ip0);
    if found {
      ip, op, ts' := TakeMatch(level, input, hash, htab, was, ip0, distance, len, output, op0, copy0, ts);
      TowardsMatch(level, input, hash, was, ip0, copy0, ts, ts', goal);
      copy := 0;
    } else {
      op, copy, ts' := EmitLiteral(level, input, ip0, output, op0, copy0, ts);
      TowardsLiteral(level, input, hash, was, ip0, copy0, ts, copy, ts', goal);
      ip := ip0 + 1;
    }
  }

  lemma RunsStep(input: seq<byte>, ip: nat, copy: nat, ts: seq<Token>, copy': nat, ts': seq<Token>, goal: seq<Token>)
    requires copy <= ip < |input| && copy < MAX_COPY
    requires RunsTo(input, ip - copy, ts, goal) && Counted(input, ip, copy, ts, copy', ts')
    ensures copy' <= ip + 1 && copy' < MAX_COPY && RunsTo(input, ip + 1 - copy', ts', goal)
  {
    if copy + 1 == MAX_COPY {
      Regroup(ts, [Literals(input[ip - copy..ip + 1])], Runs(input, ip + 1, |input|));
    }
  }

  lemma RunsDone(input: seq<byte>, from: int, ts: seq<Token>, goal: seq<Token>)
    requires RunsTo(input, from, ts, goal)
    ensures 0 <= from <= |input| && ts + Runs(input, from, |input|) == goal
  {
  }

  /** The bytes after the main loop, as literals. */
  method LeftOver(level: Level, input: seq<byte>, ip0: nat, output: array<byte>, op0: nat, copy0: nat,
                  ghost ts: seq<Token>, ghost goal: seq<Token>)
    returns (op: nat)
    requires ip0 <= |input| && op0 <= output.Length && Roomy(|input|, output.Length)
    requires Pending(level, ts, input, ip0, copy0, output[..op0])
    requires RunsTo(input, ip0 - copy0, ts, goal)
    modifies output
    ensures 0 < op <= output.Length && 32 * op <= 33 * |input| + 32
    ensures Written(level, goal, output[..op], input) && goal != []
  {
    hide Pending, RunsTo, Runs, Counted, Written, Roomy;
    PendingCopy(level, ts, input, ip0, copy0, output[..op0]);
    var ip, copy := ip0, copy0;
    op := op0;
    ghost var ts' := ts;
    while ip <= |input| - 1
      invariant ip <= |input| && op <= output.Length
      invariant 0 <= copy <= ip && copy < MAX_COPY
      invariant Pending(level, ts', input, ip, copy, output[..op])
      invariant RunsTo(input, ip - copy, ts', goal)
    {
      ghost var before, count := ts', copy;
      op, copy, ts' := EmitLiteral(level, input, ip, output, op, copy, ts');
      RunsStep(input, ip, count, before, copy, ts', goal);
      ip := ip + 1;
    }
    assert input[..ip] == input;
    RunsDone(input, ip - copy, ts', goal);
    op, ts' := Flush(level, input, ip, output, op, copy, ts');
    WrittenSome(level, goal, output[..op], input);
  }

  /** The table starts with every slot at the first position. */
  method NewTable() returns (htab: array<nat>)
    ensures fresh(htab) && htab[..] == FirstTable()
  {
    htab := new nat[HASH_SIZE];
    var s := 0;
    while s < HASH_SIZE
      invariant 0 <= s <= HASH_SIZE
      invariant forall k :: 0 <= k < s ==> htab[k] == 0
    {
      htab[s] := 0;
      s := s + 1;
    }
  }

  /** The level-two marker in the first byte. */
  method Mark(level: Level, output: array<byte>, r: nat, ghost ts: seq<Token>, ghost input: seq<byte>)
    requires 1 <= r <= output.Length && ts != []
    requires Written(level, ts, output[..r], input)
    modifies output
    ensures Represents(level, ts, input, output[..r])
  {
    ghost var e := output[..r];
    assert output[0] == e[0] < 32;
    if level.Two? {
      output[0] := OrMarker(output[0]);
      assert output[..r] == [e[0] + 32] + e[1..];
    }
  }

  /** Four bytes or more: the main loop, then the rest as literals. */
  method CompressLong(level: Level, input: seq<byte>, hash: nat -> Slot, output: array<byte>)
    returns (r: nat, ghost ts: seq<Token>)
    requires |input| >= 4 && Roomy(|input|, output.Length)
    modifies output
    ensures 0 < r <= |input| + |input| / 32 + 1
    ensures Represents(level, ts, input, output[..r])
    ensures ts == Parse(level, input, hash)
  {
    hide Pending, Written, TableBelow, Repeats, Represents, Towards;
    ghost var goal := Parse(level, input, hash);
    var n := |input|;
    var htab := NewTable();
    var op: nat := Put(output, 0, [MAX_COPY - 1, input[0], input[1]]);
    var ip: nat, copy: nat := 2, 2;
    ts := [];
    PendingStart(level, input);
    assert output[..op] == [MAX_COPY - 1, input[0], input[1]];
    TowardsStart(level, input, hash);
    while ip < n - 12
      invariant 2 <= ip <= n && op <= output.Length
      invariant fresh(htab) && TableBelow(htab[..], ip)
      invariant Pending(level, ts, input, ip, copy, output[..op])
      invariant Towards(level, input, hash, htab[..], ip, copy, ts, goal)
    {
      ip, op, copy, ts := Advance(level, input, hash, htab, ip, output, op, copy, ts, goal);
    }
    TowardsEnd(level, input, hash, htab[..], ip, copy, ts, goal);
    op := LeftOver(level, input, ip, output, op, copy, ts, goal);
    ts := goal;
    Mark(level, output, op, ts, input);
    r := op;
  }

  /** Fewer than four bytes: one run of literals and no marker. */
  method CompressShort(input: seq<byte>, output: array<byte>) returns (r: nat, ghost ts: seq<Token>)
    requires 1 <= |input| < 4 && |input| + 1 <= output.Length
    modifies output
    ensures r == |input| + 1
    ensures Represents(One, ts, input, output[..r])
    ensures ts == Runs(input, 0, |input|)
  {
    output[0] := |input| - 1;
    var ip := 0;
    while ip < |input|
      invariant 0 <= ip <= |input|
      invariant output[..ip + 1] == [|input| - 1] + input[..ip]
    {
      output[ip + 1] := input[ip];
      ip := ip + 1;
      assert output[..ip + 1] == output[..ip] + [input[ip - 1]];
    }
    r := |input| + 1;
    ts := [] + [Literals(input)];
    assert input[..ip] == input;
    AppendToken(One, [], [], Literals(input));
  }

  /**
   FASTLZ_COMPRESSOR at either level, for any hash function. With a buffer of
   n + n/32 + 1 bytes it never writes outside, and the bytes it returns represent
   the input, by the tokens of the greedy parse. An input of one byte value comes
   out as small as the format allows. `htabOk` says whether the hash table could
   be allocated.
   */
  method Compress(level: Level, input: seq<byte>, hash: nat -> Slot, htabOk: bool, output: array<byte>)
    returns (r: int, ghost ts: seq<Token>)
    requires |input| > 0 ==> Roomy(|input|, output.Length)
    modifies output
    ensures !htabOk ==> r == -1 && output[..] == old(output[..])
    ensures htabOk && |input| == 0 ==> r == 0
    ensures htabOk && |input| > 0 ==>
      && 0 < r <= |input| + |input| / 32 + 1
      && Represents(StreamLevel(level, |input|), ts, input, output[..r])
      && ts == Parse(level, input, hash)
    ensures htabOk && |input| >= 15 && Uniform(input) ==> r == UniformSize(level, |input|)
  {
    ts := [];
    if !htabOk { return -1, ts; }
    var n := |input|;
    if n < 4 {
      if n == 0 { return 0, ts; }
      r, ts := CompressShort(input, output);
      return;
    }
    r, ts := CompressLong(level, input, hash, output);
    EncodeSize(level, 0, ts);
    if n >= 15 && Uniform(input) {
      UniformIsSmall(level, input, hash);
    }
  }
}
