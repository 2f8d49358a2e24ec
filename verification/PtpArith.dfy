/** Time arithmetic of packages/ptpv2/ptpv2_arith.c on 32-bit seconds and nanoseconds. */
module PtpArith {
  import opened PtpTypes
  import opened PtpMsg

  const BILLION := 1_000_000_000
  const INT_MAX := 0x7FFF_FFFF

  /** Division as in C: the quotient is truncated toward zero. */
  function TruncDiv(a: int, b: int): (q: int)
    requires b > 0
    ensures a >= 0 ==> 0 <= q && q * b <= a < q * b + b
    ensures a <= 0 ==> q <= 0 && q * b - b < a <= q * b
  {
    if a >= 0 then a / b else -((-a) / b)
  }

  /** A result stored in an Integer32. */
  function Wrap(x: int): (r: i32)
    ensures (r - x) % 0x1_0000_0000 == 0
    ensures -0x8000_0000 <= x < 0x8000_0000 ==> r == x
  {
    (x + 0x8000_0000) % 0x1_0000_0000 - 0x8000_0000
  }

  function Total(t: TimeInternal): (n: int) {
    t.seconds * BILLION + t.nanoseconds
  }

  /** Less than a second of nanoseconds, with the sign of the seconds. */
  predicate Normal(t: TimeInternal) {
    && -BILLION < t.nanoseconds < BILLION
    && (t.seconds > 0 ==> t.nanoseconds >= 0)
    && (t.seconds < 0 ==> t.nanoseconds <= 0)
  }

  /** normalizeTime */
  function Normalize(t: TimeInternal): (r: TimeInternal) {
    var carry := TruncDiv(t.nanoseconds, BILLION);
    var s, n := Wrap(t.seconds + carry), t.nanoseconds - carry * BILLION;
    if s > 0 && n < 0 then TimeInternal(s - 1, n + BILLION)
    else if s < 0 && n > 0 then TimeInternal(s + 1, n - BILLION)
    else TimeInternal(s, n)
  }

  function Add(x: TimeInternal, y: TimeInternal): (r: TimeInternal) {
    Normalize(TimeInternal(Wrap(x.seconds + y.seconds), Wrap(x.nanoseconds + y.nanoseconds)))
  }

  function Sub(x: TimeInternal, y: TimeInternal): (r: TimeInternal) {
    Normalize(TimeInternal(Wrap(x.seconds - y.seconds), Wrap(x.nanoseconds - y.nanoseconds)))
  }

  /** Normalising always gives the normal form, and keeps the total unless the
      carry leaves the range of the seconds. */
  lemma NormalizeCorrect(t: TimeInternal)
    ensures Normal(Normalize(t))
    ensures Total(Normalize(t)) == Total(t) <==>
            -0x8000_0000 <= t.seconds + TruncDiv(t.nanoseconds, BILLION) < 0x8000_0000
  {
    var carry := TruncDiv(t.nanoseconds, BILLION);
    assert -3 < carry < 3;
  }

  lemma SubNormal(x: TimeInternal, y: TimeInternal)
    ensures Normal(Sub(x, y))
  {
    NormalizeCorrect(TimeInternal(Wrap(x.seconds - y.seconds), Wrap(x.nanoseconds - y.nanoseconds)));
  }

  /** The normal form of a total is unique. */
  lemma NormalUnique(a: TimeInternal, b: TimeInternal)
    requires Normal(a) && Normal(b) && Total(a) == Total(b)
    ensures a == b
  {
  }

  /** Seconds and nanoseconds that stay in range, before and after the carry. */
  predicate InRange(seconds: int, nanoseconds: int) {
    -0x8000_0000 <= seconds < 0x8000_0000 && -0x8000_0000 <= seconds + TruncDiv(nanoseconds, BILLION) < 0x8000_0000
  }

  /** What an out-of-range sum of seconds does: the stored total cannot be the true one. */
  lemma WrappedWrong(seconds: int, nanoseconds: i32)
    requires -0x1_0000_0000 <= seconds < 0x1_0000_0000
    requires seconds >= 0x8000_0000 ==> nanoseconds > -BILLION
    requires seconds < -0x8000_0000 ==> nanoseconds <= 0
    requires !(-0x8000_0000 <= seconds < 0x8000_0000)
    ensures Total(Normalize(TimeInternal(Wrap(seconds), nanoseconds))) != seconds * BILLION + nanoseconds
  {
    var carry := TruncDiv(nanoseconds, BILLION);
    assert -3 < carry < 3;
  }

  /** A pair stored in 32-bit fields and normalised keeps its total exactly in range. */
  lemma StoredExact(seconds: int, nanoseconds: i32)
    requires -0x1_0000_0000 <= seconds < 0x1_0000_0000
    requires seconds >= 0x8000_0000 ==> nanoseconds > -BILLION
    requires seconds < -0x8000_0000 ==> nanoseconds <= 0
    ensures
      var r := Normalize(TimeInternal(Wrap(seconds), nanoseconds));
      Normal(r) && (Total(r) == seconds * BILLION + nanoseconds <==> InRange(seconds, nanoseconds))
  {
    hide Normalize, TruncDiv;
    NormalizeCorrect(TimeInternal(Wrap(seconds), nanoseconds));
    if !(-0x8000_0000 <= seconds < 0x8000_0000) {
      WrappedWrong(seconds, nanoseconds);
    }
  }

  /** Sums and differences of normal times are normal, and exact if and only if the
      seconds stay in range before and after the carry. */
  lemma AddSubExact(x: TimeInternal, y: TimeInternal)
    requires Normal(x) && Normal(y)
    ensures Normal(Add(x, y)) && Normal(Sub(x, y))
    ensures Total(Add(x, y)) == Total(x) + Total(y) <==> InRange(x.seconds + y.seconds, x.nanoseconds + y.nanoseconds)
    ensures Total(Sub(x, y)) == Total(x) - Total(y) <==> InRange(x.seconds - y.seconds, x.nanoseconds - y.nanoseconds)
  {
    hide Normalize, InRange, Wrap;
    StoredExact(x.seconds + y.seconds, x.nanoseconds + y.nanoseconds);
    StoredExact(x.seconds - y.seconds, x.nanoseconds - y.nanoseconds);
  }

  /** Adding and taking away again gives the time back wherever both are in range. */
  lemma SubUndoesAdd(x: TimeInternal, y: TimeInternal)
    requires Normal(x) && Normal(y)
    requires InRange(x.seconds + y.seconds, x.nanoseconds + y.nanoseconds)
    requires InRange(Add(x, y).seconds - y.seconds, Add(x, y).nanoseconds - y.nanoseconds)
    ensures Sub(Add(x, y), y) == x
  {
    hide Normalize, Wrap, InRange;
    AddSubExact(x, y);
    AddSubExact(Add(x, y), y);
    NormalUnique(Sub(Add(x, y), y), x);
  }

  /* ----- conversion to and from wire time stamps ----- */

  /** fromInternalTime: a time with a negative part leaves the time stamp as it is. */
  function FromInternal(t: TimeInternal, before: Timestamp): (r: Timestamp) {
    if t.seconds < 0 || t.nanoseconds < 0 then before else Timestamp(0, t.seconds, t.nanoseconds)
  }

  /** toInternalTime: seconds beyond the signed range leave the time as it is. */
  function ToInternal(ts: Timestamp, before: TimeInternal): (r: TimeInternal) {
    if ts.secondsLsb < INT_MAX then TimeInternal(ts.secondsLsb, Wrap(ts.nanoseconds)) else before
  }

  /** A time packed into a message and read back by the receiver is itself when it
      has no negative part and its seconds are below INT_MAX; otherwise the
      receiver is left with something that does not depend on it. */
  lemma TimeOnTheWire(t: TimeInternal, stamp: Timestamp, b: Packet, m: Outgoing, before: TimeInternal)
    requires !m.Announce? && m.time == FromInternal(t, stamp)
    ensures ToInternal(UnpackTimestamp(Pack(b, m)), before) ==
            if 0 <= t.seconds < INT_MAX && 0 <= t.nanoseconds then t
            else if t.seconds == INT_MAX && 0 <= t.nanoseconds then before
            else ToInternal(stamp, before)
  {
    hide Pack, UnpackTimestamp;
    TimestampRoundTrip(b, m);
  }

  /* ----- the functions on storage ----- */

  /** A TimeInternal in memory: the arguments of addTime and subTime may be one cell. */
  class TimeCell {
    var seconds: i32
    var nanoseconds: i32

    function Value(): TimeInternal
      reads this
    {
      TimeInternal(seconds, nanoseconds)
    }

    constructor (t: TimeInternal)
      ensures Value() == t
    {
      seconds, nanoseconds := t.seconds, t.nanoseconds;
    }
  }

  method NormalizeTime(r: TimeCell)
    modifies r
    ensures r.Value() == Normalize(old(r.Value()))
  {
    r.seconds := Wrap(r.seconds + TruncDiv(r.nanoseconds, BILLION));
    r.nanoseconds := r.nanoseconds - TruncDiv(r.nanoseconds, BILLION) * BILLION;
    if r.seconds > 0 && r.nanoseconds < 0 {
      r.seconds := r.seconds - 1;
      r.nanoseconds := r.nanoseconds + BILLION;
    } else if r.seconds < 0 && r.nanoseconds > 0 {
      r.seconds := r.seconds + 1;
      r.nanoseconds := r.nanoseconds - BILLION;
    }
  }

  method AddTime(r: TimeCell, x: TimeCell, y: TimeCell)
    modifies r
    ensures r.Value() == Add(old(x.Value()), old(y.Value()))
  {
    r.seconds := Wrap(x.seconds + y.seconds);
    r.nanoseconds := Wrap(x.nanoseconds + y.nanoseconds);
    NormalizeTime(r);
  }

  method SubTime(r: TimeCell, x: TimeCell, y: TimeCell)
    modifies r
    ensures r.Value() == Sub(old(x.Value()), old(y.Value()))
  {
    r.seconds := Wrap(x.seconds - y.seconds);
    r.nanoseconds := Wrap(x.nanoseconds - y.nanoseconds);
    NormalizeTime(r);
  }
}
