/**
 Which tokens the FastLZ compressor chooses, as a function of the input.

 `Matches` is the greedy search: at each position the run or the earlier position
 in the hash slot is taken whenever it agrees, as far as it agrees. `Parse` cuts
 the input into tokens around these matches.
 */
module FastLzParse {
  import opened Bytes
  import opened FastLzFormat

  const HASH_SIZE := 1024
  type Slot = x: int | 0 <= x < HASH_SIZE

  /** Level one: distances from here on are not used. */
  const MAX_DISTANCE := 8192
  /** Level two: distances from here on are not used. */
  const MAX_FARDISTANCE := 65535 + NEAR_LIMIT - 1

  /** The bytes from `anchor` up to `end` are to be copied from `distance` back. */
  datatype Found = Found(anchor: nat, distance: nat, end: nat)

  /** The bytes of `input` from `anchor` on repeat those `distance` before, up to `end`. */
  predicate Repeats(input: seq<byte>, anchor: nat, distance: nat, end: nat) {
    && 1 <= distance <= anchor <= end <= |input|
    && forall k :: anchor <= k < end ==> input[k] == input[k - distance]
  }

  /** Every slot of the hash table holds a position before `ip`. */
  predicate TableBelow(htab: seq<nat>, ip: nat) {
    |htab| == HASH_SIZE && forall s :: 0 <= s < HASH_SIZE ==> htab[s] < ip
  }

  /** Level two looks for a run first: the byte before and three from here on are equal. */
  predicate IsRun(input: seq<byte>, anchor: nat)
    requires 1 <= anchor < |input| - 12
  {
    && input[anchor] == input[anchor - 1]
    && input[anchor - 1] == input[anchor + 1] && input[anchor] == input[anchor + 2]
  }

  /** The earlier position is near enough, and agrees on three bytes or, if far, on five. */
  predicate IsMatch(level: Level, input: seq<byte>, ref: nat, anchor: nat)
    requires ref < anchor < |input| - 12
  {
    && input[ref] == input[anchor] && input[ref + 1] == input[anchor + 1] && input[ref + 2] == input[anchor + 2]
    && match level
       case One => anchor - ref < MAX_DISTANCE
       case Two =>
         && anchor - ref < MAX_FARDISTANCE
         && (anchor - ref >= NEAR_LIMIT ==> input[ref + 3] == input[anchor + 3] && input[ref + 4] == input[anchor + 4])
  }

  /** What the compressor compares the bytes at `ip` with. */
  function Candidate(level: Level, input: seq<byte>, hash: nat -> Slot, htab: seq<nat>, ip: nat): (ref: nat)
    requires 1 <= ip < |input| - 12 && TableBelow(htab, ip)
    ensures ref < ip
  {
    if level.Two? && IsRun(input, ip) then ip - 1 else htab[hash(ip)]
  }

  /** Whether a match is available at `ip`. */
  predicate Available(level: Level, input: seq<byte>, hash: nat -> Slot, htab: seq<nat>, ip: nat)
    requires 1 <= ip < |input| - 12 && TableBelow(htab, ip)
  {
    (level.Two? && IsRun(input, ip)) || IsMatch(level, input, htab[hash(ip)], ip)
  }

  /** The bytes compared before a match is taken. */
  function Compared(level: Level, distance: nat): nat {
    if level.Two? && distance >= NEAR_LIMIT then 5 else 3
  }

  /** Where the search for the end of a match gives up. */
  function Farthest(n: nat, k: nat): int {
    if k + 7 > n - 3 then k + 7 else n - 3
  }

  /** The first position from `k` on that differs from the one `distance` before, at most `stop`. */
  function Reach(input: seq<byte>, distance: nat, k: nat, stop: nat): (end: nat)
    requires 1 <= distance <= k <= stop <= |input|
    ensures k <= end <= stop
    decreases stop - k
  {
    if k < stop && input[k] == input[k - distance] then Reach(input, distance, k + 1, stop) else k
  }

  lemma {:induction false} ReachAgrees(input: seq<byte>, distance: nat, k: nat, stop: nat)
    requires 1 <= distance <= k <= stop <= |input|
    ensures var end := Reach(input, distance, k, stop);
      && (forall i :: k <= i < end ==> input[i] == input[i - distance])
      && (end == stop || input[end] != input[end - distance])
    decreases stop - k
  {
    if k < stop && input[k] == input[k - distance] {
      ReachAgrees(input, distance, k + 1, stop);
    }
  }

  /** Agreeing up to the limit or the first difference pins the end. */
  lemma {:induction false} ReachIs(input: seq<byte>, distance: nat, k: nat, stop: nat, end: nat)
    requires 1 <= distance <= k <= end <= stop <= |input|
    requires forall i :: k <= i < end ==> input[i] == input[i - distance]
    requires end == stop || input[end] != input[end - distance]
    ensures end == Reach(input, distance, k, stop)
    decreases stop - k
  {
    if k < end {
      ReachIs(input, distance, k + 1, stop, end);
    }
  }

  /** The match taken at `ip` when one is available. */
  function Take(level: Level, input: seq<byte>, hash: nat -> Slot, htab: seq<nat>, ip: nat): (m: Found)
    requires 1 <= ip < |input| - 12 && TableBelow(htab, ip)
    ensures m.anchor == ip && ip + 3 <= m.end <= |input|
  {
    var distance := ip - Candidate(level, input, hash, htab, ip);
    var k := ip + Compared(level, distance);
    Found(ip, distance, Reach(input, distance, k, Farthest(|input|, k)))
  }

  /** A match the given level can write. */
  predicate Fits(level: Level, input: seq<byte>, m: Found) {
    && m.anchor + 3 <= m.end && Repeats(input, m.anchor, m.distance, m.end)
    && (level.One? ==> m.distance < MAX_DISTANCE)
    && (level.Two? ==> m.distance < MAX_FARDISTANCE && (m.distance >= NEAR_LIMIT ==> m.end >= m.anchor + 5))
  }

  /** A match that is taken is one, and goes on as long as the bytes agree. */
  lemma TakeFits(level: Level, input: seq<byte>, hash: nat -> Slot, htab: seq<nat>, ip: nat)
    requires 1 <= ip < |input| - 12 && TableBelow(htab, ip)
    requires Available(level, input, hash, htab, ip)
    ensures var m := Take(level, input, hash, htab, ip);
      && Fits(level, input, m)
      && (m.end < |input| - 3 ==> input[m.end] != input[m.end - m.distance])
  {
    var m := Take(level, input, hash, htab, ip);
    var k := ip + Compared(level, m.distance);
    assert forall i :: ip <= i < k ==> input[i] == input[i - m.distance];
    ReachAgrees(input, m.distance, k, Farthest(|input|, k));
  }

  /** The table after looking at `ip`: a run is found without it. */
  function Noted(level: Level, input: seq<byte>, hash: nat -> Slot, htab: seq<nat>, ip: nat): (r: seq<nat>)
    requires 1 <= ip < |input| - 12 && TableBelow(htab, ip)
    ensures TableBelow(r, ip + 1)
  {
    if level.Two? && IsRun(input, ip) then htab else htab[hash(ip) := ip]
  }

  /** The table after a match: the last two positions of it are entered. */
  function Rehashed(hash: nat -> Slot, htab: seq<nat>, end: nat): (r: seq<nat>)
    requires end >= 2 && TableBelow(htab, end)
    ensures TableBelow(r, end)
  {
    htab[hash(end - 2) := end - 2][hash(end - 1) := end - 1]
  }

  /** The greedy search from `ip` on. */
  function Matches(level: Level, input: seq<byte>, hash: nat -> Slot, htab: seq<nat>, ip: nat): (ms: seq<Found>)
    requires ip >= 1 && TableBelow(htab, ip)
    ensures ms != [] ==> ip <= ms[0].anchor
    decreases |input| - ip
  {
    if ip >= |input| - 12 then []
    else
      var noted := Noted(level, input, hash, htab, ip);
      if Available(level, input, hash, htab, ip) then
        var m := Take(level, input, hash, htab, ip);
        [m] + Matches(level, input, hash, Rehashed(hash, noted, m.end), m.end)
      else Matches(level, input, hash, noted, ip + 1)
  }

  /** Literal bytes in runs of MAX_COPY. */
  function Runs(input: seq<byte>, from: nat, to: nat): seq<Token>
    requires from <= to <= |input|
    decreases |input| - from
  {
    if from == to then []
    else if to - from <= MAX_COPY then [Literals(input[from..to])]
    else [Literals(input[from..from + MAX_COPY])] + Runs(input, from + MAX_COPY, to)
  }

  /** A match in the pieces the level can write. */
  function Pieces(level: Level, distance: nat, length: nat): seq<Token> {
    if level.Two? || length <= MAX_LEN then [Match(distance, length)]
    else [Match(distance, MAX_LEN - 2)] + Pieces(level, distance, length - (MAX_LEN - 2))
  }

  /** Matches in order, inside the input. */
  predicate Ordered(n: nat, from: nat, ms: seq<Found>)
    decreases |ms|
  {
    if ms == [] then from <= n
    else from <= ms[0].anchor < ms[0].end && Ordered(n, ms[0].end, ms[1..])
  }

  lemma {:induction false} OrderedInside(n: nat, from: nat, ms: seq<Found>)
    requires Ordered(n, from, ms)
    ensures from <= n
    ensures ms != [] ==> ms[0].anchor <= n
    decreases |ms|
  {
    if ms != [] {
      OrderedInside(n, ms[0].end, ms[1..]);
    }
  }

  lemma {:induction false} MatchesOrdered(level: Level, input: seq<byte>, hash: nat -> Slot, htab: seq<nat>, ip: nat,
                                          from: nat)
    requires 1 <= ip <= |input| && from <= ip && TableBelow(htab, ip)
    ensures Ordered(|input|, from, Matches(level, input, hash, htab, ip))
    decreases |input| - ip
  {
    hide Available, Reach;
    if ip < |input| - 12 {
      var noted := Noted(level, input, hash, htab, ip);
      if Available(level, input, hash, htab, ip) {
        var m := Take(level, input, hash, htab, ip);
        MatchesOrdered(level, input, hash, Rehashed(hash, noted, m.end), m.end, m.end);
      } else {
        MatchesOrdered(level, input, hash, noted, ip + 1, from);
      }
    }
  }

  /** The input from `from` on, cut around the matches. */
  function Tokens(level: Level, input: seq<byte>, from: nat, ms: seq<Found>): seq<Token>
    requires Ordered(|input|, from, ms)
    decreases |ms|
  {
    if ms == [] then Runs(input, from, |input|)
    else
      OrderedInside(|input|, from, ms);
      Runs(input, from, ms[0].anchor) + Pieces(level, ms[0].distance, ms[0].end - ms[0].anchor)
      + Tokens(level, input, ms[0].end, ms[1..])
  }

  /** The table starts with every slot at the first position. */
  function FirstTable(): (htab: seq<nat>)
    ensures TableBelow(htab, 1)
  {
    seq(HASH_SIZE, _ => 0)
  }

  /** The tokens the compressor writes for an input. */
  function Parse(level: Level, input: seq<byte>, hash: nat -> Slot): seq<Token> {
    if |input| < 4 then Runs(input, 0, |input|)
    else
      MatchesOrdered(level, input, hash, FirstTable(), 2, 0);
      Tokens(level, input, 0, Matches(level, input, hash, FirstTable(), 2))
  }

  /** Some match covers the position. */
  predicate Covered(ms: seq<Found>, k: nat)
    decreases |ms|
  {
    ms != [] && (ms[0].anchor <= k < ms[0].end || Covered(ms[1..], k))
  }

  /** Every used slot holds a position that falls into it. */
  predicate Indexed(hash: nat -> Slot, htab: seq<nat>) {
    |htab| == HASH_SIZE && forall s :: 0 <= s < HASH_SIZE && htab[s] != 0 ==> hash(htab[s]) == s
  }

  /** `ref` is no match for `k`, and no position before `k` that was left as a literal shares its slot and is later. */
  ghost predicate Unmatched(level: Level, input: seq<byte>, hash: nat -> Slot, ms: seq<Found>, ip: nat, k: nat,
                            ref: nat)
    requires 1 <= k < |input| - 12
  {
    && ref < k && (ref == 0 || hash(ref) == hash(k))
    && !IsMatch(level, input, ref, k)
    && !(level.Two? && IsRun(input, k))
    && forall q :: ip <= q < k && hash(q) == hash(k) && !Covered(ms, q) ==> q <= ref
  }

  /** No match is missed: a position left as a literal has none in its slot. */
  lemma {:induction false} NoneMissed(level: Level, input: seq<byte>, hash: nat -> Slot, htab: seq<nat>, ip: nat,
                                      k: nat)
    returns (ref: nat)
    requires 1 <= ip <= k < |input| - 12 && TableBelow(htab, ip) && Indexed(hash, htab)
    requires !Covered(Matches(level, input, hash, htab, ip), k)
    ensures htab[hash(k)] <= ref
    ensures Unmatched(level, input, hash, Matches(level, input, hash, htab, ip), ip, k, ref)
    decreases |input| - ip
  {
    hide IsMatch, IsRun, Take, Reach;
    var ms := Matches(level, input, hash, htab, ip);
    var noted := Noted(level, input, hash, htab, ip);
    if Available(level, input, hash, htab, ip) {
      var m := Take(level, input, hash, htab, ip);
      var rest := Matches(level, input, hash, Rehashed(hash, noted, m.end), m.end);
      assert ms[0] == m && ms[1..] == rest;
      ref := NoneMissed(level, input, hash, Rehashed(hash, noted, m.end), m.end, k);
    } else if ip < k {
      ref := NoneMissed(level, input, hash, noted, ip + 1, k);
    } else {
      ref := htab[hash(k)];
    }
  }

  /** Whether the byte at a position is written as a literal. */
  predicate LiteralAt(ts: seq<Token>, k: nat)
    decreases |ts|
  {
    && ts != []
    && if k < TokenLength(ts[0]) then ts[0].Literals? else LiteralAt(ts[1..], k - TokenLength(ts[0]))
  }

  function Length(ts: seq<Token>): (n: nat) {
    if ts == [] then 0 else TokenLength(ts[0]) + Length(ts[1..])
  }

  lemma {:induction false} LiteralAtJoin(a: seq<Token>, b: seq<Token>, k: nat)
    ensures Length(a + b) == Length(a) + Length(b)
    ensures LiteralAt(a + b, k) == if k < Length(a) then LiteralAt(a, k) else LiteralAt(b, k - Length(a))
    decreases |a|
  {
    if a == [] {
      assert a + b == b;
    } else {
      assert (a + b)[0] == a[0] && (a + b)[1..] == a[1..] + b;
      var c := TokenLength(a[0]);
      LiteralAtJoin(a[1..], b, if k < c then 0 else k - c);
    }
  }

  lemma {:induction false} RunsAreLiteral(input: seq<byte>, from: nat, to: nat, k: nat)
    requires from <= to <= |input|
    ensures Length(Runs(input, from, to)) == to - from
    ensures k < to - from ==> LiteralAt(Runs(input, from, to), k)
    decreases |input| - from
  {
    if to - from > MAX_COPY {
      RunsAreLiteral(input, from + MAX_COPY, to, if k < MAX_COPY then 0 else k - MAX_COPY);
    }
  }

  lemma {:induction false} PiecesAreNot(level: Level, distance: nat, length: nat, k: nat)
    ensures Length(Pieces(level, distance, length)) == length
    ensures !LiteralAt(Pieces(level, distance, length), k)
    decreases length
  {
    if level.One? && length > MAX_LEN {
      var c := MAX_LEN - 2;
      PiecesAreNot(level, distance, length - c, if k < c then 0 else k - c);
    }
  }

  /** Matches start in order, so an earlier position is covered by none of them. */
  lemma {:induction false} NotYetCovered(n: nat, from: nat, ms: seq<Found>, k: nat)
    requires Ordered(n, from, ms) && k < from
    ensures !Covered(ms, k)
    decreases |ms|
  {
    if ms != [] {
      NotYetCovered(n, ms[0].end, ms[1..], k);
    }
  }

  /** The literals are the positions no match covers. */
  lemma {:induction false} TokensLiteral(level: Level, input: seq<byte>, from: nat, ms: seq<Found>, k: nat)
    requires Ordered(|input|, from, ms) && from <= k < |input|
    ensures LiteralAt(Tokens(level, input, from, ms), k - from) == !Covered(ms, k)
    decreases |ms|
  {
    hide LiteralAt, Runs, Pieces;
    if ms == [] {
      RunsAreLiteral(input, from, |input|, k - from);
    } else {
      OrderedInside(|input|, from, ms);
      var m := ms[0];
      var a, b := Runs(input, from, m.anchor), Pieces(level, m.distance, m.end - m.anchor);
      var c := Tokens(level, input, m.end, ms[1..]);
      LiteralAtJoin(a + b, c, k - from);
      LiteralAtJoin(a, b, k - from);
      RunsAreLiteral(input, from, m.anchor, k - from);
      PiecesAreNot(level, m.distance, m.end - m.anchor, if k < m.anchor then 0 else k - m.anchor);
      if k < m.end {
        NotYetCovered(|input|, m.end, ms[1..], k);
      } else {
        TokensLiteral(level, input, m.end, ms[1..], k);
      }
    }
  }

  /**
   What is left as a literal in the main loop had no match to offer: the position
   its slot named does not agree with it, and that position is the latest in the
   slot among the literals before. At level two it does not stand in a run either.
   */
  lemma LiteralHasNoMatch(level: Level, input: seq<byte>, hash: nat -> Slot, k: nat)
    requires 2 <= k < |input| - 12 && LiteralAt(Parse(level, input, hash), k)
    ensures !(level.Two? && IsRun(input, k))
    ensures exists ref: nat ::
      && ref < k && (ref == 0 || hash(ref) == hash(k))
      && !IsMatch(level, input, ref, k)
      && forall q :: 2 <= q < k && hash(q) == hash(k) && LiteralAt(Parse(level, input, hash), q) ==> q <= ref
  {
    var ms := Matches(level, input, hash, FirstTable(), 2);
    MatchesOrdered(level, input, hash, FirstTable(), 2, 0);
    TokensLiteral(level, input, 0, ms, k);
    var ref := NoneMissed(level, input, hash, FirstTable(), 2, k);
    forall q | 2 <= q < k && hash(q) == hash(k) && LiteralAt(Parse(level, input, hash), q) ensures q <= ref {
      TokensLiteral(level, input, 0, ms, q);
    }
  }

  /** One byte value throughout. */
  predicate Uniform(input: seq<byte>) {
    forall k :: 1 <= k < |input| ==> input[k] == input[k - 1]
  }

  lemma {:induction false} UniformSame(input: seq<byte>, k: nat)
    requires Uniform(input) && k < |input|
    ensures input[k] == input[0]
  {
    if k > 0 {
      UniformSame(input, k - 1);
    }
  }

  /** The first match in a uniform input takes all but the last three bytes. */
  lemma UniformTake(level: Level, input: seq<byte>, hash: nat -> Slot)
    requires Uniform(input) && |input| >= 15
    ensures Available(level, input, hash, FirstTable(), 2)
    ensures Take(level, input, hash, FirstTable(), 2) == Found(2, if level.One? then 2 else 1, |input| - 3)
  {
    var n, d := |input|, if level.One? then 2 else 1;
    forall k | 0 <= k < n ensures input[k] == input[0] {
      UniformSame(input, k);
    }
    hide Uniform;
    assert input[0] == input[2] == input[1] == input[3] == input[4];
    ReachIs(input, d, 5, Farthest(n, 5), n - 3);
  }

  /** A uniform input is one match between two literals before and three after. */
  lemma UniformParse(level: Level, input: seq<byte>, hash: nat -> Slot)
    requires Uniform(input) && |input| >= 15
    ensures Parse(level, input, hash) ==
            [Literals(input[0..2])] + Pieces(level, if level.One? then 2 else 1, |input| - 5)
            + [Literals(input[|input| - 3..])]
  {
    UniformTake(level, input, hash);
    hide Pieces, Available, Take, Uniform;
    var n, htab := |input|, FirstTable();
    var m := Take(level, input, hash, htab, 2);
    var ms := Matches(level, input, hash, htab, 2);
    assert Matches(level, input, hash, Rehashed(hash, Noted(level, input, hash, htab, 2), m.end), m.end) == [];
    assert ms == [m] && ms[1..] == [];
    assert input[n - 3..n] == input[n - 3..];
    assert Tokens(level, input, n - 3, []) == [Literals(input[n - 3..])];
    assert Runs(input, 0, 2) == [Literals(input[0..2])];
  }

  /** The bytes a token takes. */
  function Cost(level: Level, t: Token): nat {
    match t
    case Literals(bytes) => |bytes| + 1
    case Match(distance, length) =>
      match level
      case One => if length < 9 then 2 else 3
      case Two => (if length < 9 then 2 else (length - 9) / 255 + 3) + (if distance <= NEAR_LIMIT then 0 else 2)
  }

  function Size(level: Level, ts: seq<Token>): nat {
    if ts == [] then 0 else Cost(level, ts[0]) + Size(level, ts[1..])
  }

  lemma {:induction false} EncodeSize(level: Level, n: nat, ts: seq<Token>)
    requires WellFormed(level, n, ts)
    ensures |Encode(level, n, ts)| == Size(level, ts)
    decreases |ts|
  {
    if ts != [] {
      EncodeSize(level, n + TokenLength(ts[0]), ts[1..]);
    }
  }

  lemma {:induction false} SizeJoin(level: Level, a: seq<Token>, b: seq<Token>)
    ensures Size(level, a + b) == Size(level, a) + Size(level, b)
    decreases |a|
  {
    if a == [] {
      assert a + b == b;
    } else {
      assert (a + b)[0] == a[0] && (a + b)[1..] == a[1..] + b;
      SizeJoin(level, a[1..], b);
    }
  }

  /** A long match at level one takes three bytes for each piece of 262, two for a last one under nine. */
  lemma {:induction false} PiecesSize(distance: nat, length: nat)
    requires length >= 3
    ensures Size(One, Pieces(One, distance, length)) ==
            (length - 3) / 262 * 3 + if (length - 3) % 262 < 6 then 2 else 3
    decreases length
  {
    if length > MAX_LEN {
      PiecesSize(distance, length - 262);
      assert (length - 3) / 262 == (length - 262 - 3) / 262 + 1;
      assert Pieces(One, distance, length)[1..] == Pieces(One, distance, length - 262);
    }
  }

  /** What a uniform input of `n` bytes comes to. */
  function UniformSize(level: Level, n: nat): nat
    requires n >= 15
  {
    match level
    case One => 7 + (n - 8) / 262 * 3 + (if (n - 8) % 262 < 6 then 2 else 3)
    case Two => 10 + (n - 14) / 255
  }

  /** Whatever the hash, `n` equal bytes come to about n/87 bytes at level one and n/255 at level two. */
  lemma UniformIsSmall(level: Level, input: seq<byte>, hash: nat -> Slot)
    requires Uniform(input) && |input| >= 15
    ensures Size(level, Parse(level, input, hash)) == UniformSize(level, |input|)
  {
    hide Parse;
    UniformParse(level, input, hash);
    var n := |input|;
    var d := if level.One? then 2 else 1;
    var a, b, c := [Literals(input[0..2])], Pieces(level, d, n - 5), [Literals(input[n - 3..])];
    SizeJoin(level, a + b, c);
    SizeJoin(level, a, b);
    if level.One? {
      PiecesSize(d, n - 5);
    }
  }
}
