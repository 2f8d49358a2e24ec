/** The clock servo of packages/ptpv2/ptpv2_servo.c in end-to-end mode. */
module PtpServo {
  import opened PtpTypes
  import opened PtpArith
  import opened PtpClocks

  const ADJ_FREQ_MAX := 512000

  function Abs(x: int): (r: nat) {
    if x < 0 then -x else x
  }

  function Pow2(k: nat): (r: nat)
    ensures r >= 1
  {
    if k == 0 then 1 else 2 * Pow2(k - 1)
  }

  /* ----- the one-way delay filter ----- */

  /** The largest stiffness exponent up to `s` that keeps the filter from overflowing. */
  function Stiffness(y: int, s: nat): (r: nat)
    requires s <= 31
    ensures r <= s
  {
    if s > 0 && Abs(y) >= Pow2(31 - s) then Stiffness(y, s - 1) else s
  }

  /** s_exp creeps up to 2^s and is cut back to it. */
  function NextExp(sExp: int, s: nat): (r: int)
    ensures 1 <= r <= Pow2(s)
  {
    if sExp < 1 then 1 else if sExp < Pow2(s) then sExp + 1 else Pow2(s)
  }

  /** s_exp after `k` samples at one stiffness, counted from a restart. */
  function ExpAfter(k: nat, s: nat): int {
    if k == 0 then 0 else NextExp(ExpAfter(k - 1, s), s)
  }

  /** s_exp counts the samples since the restart, up to 2^s. */
  lemma {:induction false} ExpCounts(k: nat, s: nat)
    ensures ExpAfter(k, s) == if k <= Pow2(s) then k else Pow2(s)
  {
    if k > 0 {
      ExpCounts(k - 1, s);
    }
  }

  /** One sample through the filter, with every product and sum stored in 32 bits. */
  function Filtered(f: DelayFilter, ns: i32, s: nat): (r: DelayFilter)
    requires s <= 31
  {
    var k := NextExp(f.sExp, Stiffness(f.y, s));
    var half := Wrap(TruncDiv(ns, 2) + TruncDiv(f.nsecPrev, 2));
    DelayFilter(ns, Wrap(TruncDiv(Wrap((k - 1) * f.y), k) + TruncDiv(half, k)), k)
  }

  /** What happens to the filter: a sample, a delay too large to filter, or initClock. */
  datatype FilterEvent = Sample(ns: i32) | TooLarge | Restart

  function FilterStep(f: DelayFilter, e: FilterEvent, s: nat): (r: DelayFilter)
    requires s <= 31
  {
    match e
    case Sample(ns) => Filtered(f, ns, s)
    case TooLarge => f.(sExp := 0, nsecPrev := 0)
    case Restart => f.(sExp := 0)
  }

  function FilterRun(es: seq<FilterEvent>, s: nat): (r: DelayFilter)
    requires s <= 31
  {
    if es == [] then DelayFilter(0, 0, 0) else FilterStep(FilterRun(es[..|es| - 1], s), es[|es| - 1], s)
  }

  /** Outputs and remembered samples are no larger than the samples. */
  predicate FilterWithin(f: DelayFilter, bound: nat, s: nat) {
    Abs(f.y) <= bound && Abs(f.nsecPrev) <= bound && 0 <= f.sExp <= Pow2(s)
  }

  lemma DoubleProduct(x: nat, y: nat)
    ensures (2 * x) * y == 2 * (x * y)
  {
  }

  lemma {:induction false} PowSplit(a: nat, b: nat)
    ensures Pow2(a) * Pow2(b) == Pow2(a + b)
  {
    if a > 0 {
      PowSplit(a - 1, b);
      DoubleProduct(Pow2(a - 1), Pow2(b));
      assert Pow2(a) == 2 * Pow2(a - 1) && Pow2(a + b) == 2 * Pow2(a + b - 1);
    }
  }

  lemma {:induction false} PowMonotone(a: nat, b: nat)
    requires a <= b
    ensures Pow2(a) <= Pow2(b)
  {
    if a < b { PowMonotone(a, b - 1); }
  }

  /** The chosen exponent leaves the output below 2^(31 - s), and no larger one would. */
  lemma {:induction false} StiffnessBound(y: int, s: nat)
    requires s <= 31 && Abs(y) < Pow2(31)
    ensures Abs(y) < Pow2(31 - Stiffness(y, s))
    ensures Stiffness(y, s) < s ==> Abs(y) >= Pow2(31 - (Stiffness(y, s) + 1))
  {
    hide Pow2, Abs;
    if s > 0 && Abs(y) >= Pow2(31 - s) {
      StiffnessBound(y, s - 1);
    }
  }

  lemma Product(k: int, y: int, a: nat, b: nat)
    requires 1 <= k <= a && Abs(y) < b
    ensures Abs((k - 1) * y) < a * b
  {
    assert Abs((k - 1) * y) == (k - 1) * Abs(y);
    assert (k - 1) * Abs(y) <= (k - 1) * b;
    assert (k - 1) * b < a * b;
  }

  /** The weighted product of the filter fits in 32 bits. */
  lemma NoOverflow(f: DelayFilter, s: nat)
    requires s <= 31 && Abs(f.y) < Pow2(31)
    ensures Abs((NextExp(f.sExp, Stiffness(f.y, s)) - 1) * f.y) < Pow2(31)
  {
    var e := Stiffness(f.y, s);
    StiffnessBound(f.y, s);
    Product(NextExp(f.sExp, e), f.y, Pow2(e), Pow2(31 - e));
    PowSplit(e, 31 - e);
  }

  lemma MulMonotone(a: int, b: int, k: nat)
    requires a <= b
    ensures a * k <= b * k
  {
  }

  lemma MulCancel(a: int, b: int, k: nat)
    requires k >= 1 && a * k <= b * k
    ensures a <= b
  {
    if a > b { MulMonotone(b + 1, a, k); }
  }

  lemma Squeeze(p: nat, q: nat, k: nat, m: nat)
    requires k >= 1 && p * k <= (k - 1) * m && q * k <= m
    ensures p + q <= m
  {
    assert (p + q) * k == p * k + q * k;
    assert (k - 1) * m + m == m * k;
    MulCancel(p + q, m, k);
  }

  lemma AbsProduct(k: nat, y: int, m: nat)
    requires Abs(y) <= m
    ensures Abs(k * y) <= k * m
  {
    MulMonotone(Abs(y), m, k);
    assert k * Abs(y) == Abs(k * y);
  }

  lemma TruncAbs(a: int, k: int)
    requires k >= 1
    ensures Abs(TruncDiv(a, k)) * k <= Abs(a)
  {
  }

  /** A weighted mean of two values within a bound is within it, rounding included. */
  lemma MeanBound(y: int, h: int, k: int, m: nat)
    requires k >= 1 && Abs(y) <= m && Abs(h) <= m
    ensures Abs(TruncDiv((k - 1) * y, k) + TruncDiv(h, k)) <= m
  {
    hide TruncDiv;
    AbsProduct(k - 1, y, m);
    TruncAbs((k - 1) * y, k);
    TruncAbs(h, k);
    Squeeze(Abs(TruncDiv((k - 1) * y, k)), Abs(TruncDiv(h, k)), k, m);
  }

  /** One sample keeps the filter within the bound of the samples, without any wrap-around. */
  lemma FilteredWithin(f: DelayFilter, ns: i32, s: nat, bound: nat)
    requires s <= 31 && bound < Pow2(31) && Pow2(31) == 0x8000_0000
    requires FilterWithin(f, bound, s) && Abs(ns) <= bound
    ensures FilterWithin(Filtered(f, ns, s), bound, s)
    ensures 1 <= Filtered(f, ns, s).sExp <= Pow2(Stiffness(f.y, s))
    ensures
      var k := Filtered(f, ns, s).sExp;
      Filtered(f, ns, s).y == TruncDiv((k - 1) * f.y, k) + TruncDiv(TruncDiv(ns, 2) + TruncDiv(f.nsecPrev, 2), k)
  {
    hide Stiffness, TruncDiv, Wrap, Pow2, NextExp;
    var k := NextExp(f.sExp, Stiffness(f.y, s));
    NoOverflow(f, s);
    var half := TruncDiv(ns, 2) + TruncDiv(f.nsecPrev, 2);
    TruncAbs(ns, 2);
    TruncAbs(f.nsecPrev, 2);
    MeanBound(f.y, half, k, bound);
    PowMonotone(Stiffness(f.y, s), s);
    assert Wrap((k - 1) * f.y) == (k - 1) * f.y;
  }

  lemma TruncRest(a: int, k: int)
    requires k >= 1
    ensures Abs(a - TruncDiv(a, k) * k) < k
  {
  }

  /** Three roundings, each below one unit of its divisor. */
  lemma RoundingsAdd(k: int, p: int, a: int, half: int, b: int, samples: int)
    requires Abs(p - a) < k && Abs(half - b) < k && Abs(samples - 2 * half) <= 2
    ensures Abs(2 * (a + b) - (2 * p + samples)) < 4 * k
  {
  }

  lemma Distributes(a: int, b: int, k: int)
    ensures (a + b) * k == a * k + b * k
  {
  }

  lemma AverageClose(k: int, p: int, ns: int, prev: int)
    requires k >= 1
    ensures
      var half := TruncDiv(ns, 2) + TruncDiv(prev, 2);
      Abs(2 * ((TruncDiv(p, k) + TruncDiv(half, k)) * k) - (2 * p + (ns + prev))) < 4 * k
  {
    hide TruncDiv;
    var half := TruncDiv(ns, 2) + TruncDiv(prev, 2);
    var a, b := TruncDiv(p, k), TruncDiv(half, k);
    TruncRest(p, k);
    TruncRest(half, k);
    TruncRest(ns, 2);
    TruncRest(prev, 2);
    RoundingsAdd(k, p, a * k, half, b * k, ns + prev);
    Distributes(a, b, k);
  }

  /** The output moves by a k-th part toward the mean of the last two samples, to within
      two nanoseconds: k times it is the old output k - 1 times and that mean. */
  lemma FilterIsAverage(f: DelayFilter, ns: i32, s: nat, bound: nat)
    requires s <= 31 && bound < Pow2(31) && Pow2(31) == 0x8000_0000
    requires FilterWithin(f, bound, s) && Abs(ns) <= bound
    ensures
      var r := Filtered(f, ns, s);
      Abs(2 * (r.y * r.sExp) - (2 * ((r.sExp - 1) * f.y) + (ns + f.nsecPrev))) < 4 * r.sExp
  {
    hide Filtered, FilterWithin, TruncDiv, Pow2, Stiffness, Abs;
    FilteredWithin(f, ns, s, bound);
    var k := Filtered(f, ns, s).sExp;
    AverageClose(k, (k - 1) * f.y, ns, f.nsecPrev);
  }

  predicate SamplesWithin(es: seq<FilterEvent>, bound: nat) {
    forall i :: 0 <= i < |es| && es[i].Sample? ==> Abs(es[i].ns) <= bound
  }

  lemma PowThirtyOne()
    ensures Pow2(31) == 0x8000_0000
  {
    assert Pow2(4) == 16;
    PowSplit(4, 4);
    PowSplit(8, 8);
    assert Pow2(3) == 8;
    PowSplit(4, 3);
    PowSplit(8, 7);
    PowSplit(16, 15);
  }

  /** Over any run from a cleared filter, the output never exceeds the largest sample. */
  lemma {:induction false} FilterRunWithin(es: seq<FilterEvent>, s: nat, bound: nat)
    requires s <= 31 && bound < 0x8000_0000 && SamplesWithin(es, bound)
    ensures FilterWithin(FilterRun(es, s), bound, s)
    decreases |es|
  {
    hide Filtered;
    if es != [] {
      var init, e := es[..|es| - 1], es[|es| - 1];
      assert SamplesWithin(init, bound) && (e.Sample? ==> Abs(e.ns) <= bound);
      FilterRunWithin(init, s, bound);
      PowThirtyOne();
      if e.Sample? {
        FilteredWithin(FilterRun(init, s), e.ns, s, bound);
      }
    }
  }

  /** `a >> k` */
  function Shifted(a: nat, k: nat): (r: nat)
    decreases k
  {
    if k == 0 then a else Shifted(a / 2, k - 1)
  }

  lemma {:induction false} ShiftZero(a: nat, k: nat)
    ensures Shifted(a, k) == 0 <==> a < Pow2(k)
    decreases k
  {
    if k > 0 { ShiftZero(a / 2, k - 1); }
  }

  /** The loop that lowers the exponent. */
  method ChooseStiffness(y: int, s0: nat) returns (s: nat)
    requires s0 <= 31 && Abs(y) < Pow2(31)
    ensures s == Stiffness(y, s0)
  {
    hide Pow2;
    s := s0;
    while Shifted(Abs(y), 31 - s) != 0
      invariant s <= s0
      invariant Stiffness(y, s) == Stiffness(y, s0)
      decreases s
    {
      ShiftZero(Abs(y), 31 - s);
      s := s - 1;
    }
    ShiftZero(Abs(y), 31 - s);
  }

  /* ----- the PI controller ----- */

  function Clamp(x: int): (r: int)
    ensures -ADJ_FREQ_MAX <= r <= ADJ_FREQ_MAX
  {
    if x > ADJ_FREQ_MAX then ADJ_FREQ_MAX else if x < -ADJ_FREQ_MAX then -ADJ_FREQ_MAX else x
  }

  function AtLeastOne(x: int): (r: int)
    ensures r >= 1
  {
    if x < 1 then 1 else x
  }

  /** The accumulator of the I term after one offset. */
  function NextDrift(drift: int, ns: int, ai: int): (r: int)
    ensures -ADJ_FREQ_MAX <= r <= ADJ_FREQ_MAX
  {
    Clamp(drift + TruncDiv(ns, AtLeastOne(ai)))
  }

  /** The accumulator after a series of offsets. */
  function DriftAfter(drift: int, offsets: seq<int>, ai: int): int {
    if offsets == [] then drift
    else NextDrift(DriftAfter(drift, offsets[..|offsets| - 1], ai), offsets[|offsets| - 1], ai)
  }

  /** The offsets, each divided by `ai`, summed up. */
  function Summed(offsets: seq<int>, ai: int): int {
    if offsets == [] then 0
    else Summed(offsets[..|offsets| - 1], ai) + TruncDiv(offsets[|offsets| - 1], AtLeastOne(ai))
  }

  /** As long as it never passes the limit, the accumulator is the sum of the offsets over `ai`. */
  lemma {:induction false} DriftIsSum(drift: int, offsets: seq<int>, ai: int)
    requires forall k :: 0 <= k <= |offsets| ==> Abs(drift + Summed(offsets[..k], ai)) <= ADJ_FREQ_MAX
    ensures DriftAfter(drift, offsets, ai) == drift + Summed(offsets, ai)
    decreases |offsets|
  {
    if offsets != [] {
      var before := offsets[..|offsets| - 1];
      forall k | 0 <= k <= |before| ensures Abs(drift + Summed(before[..k], ai)) <= ADJ_FREQ_MAX {
        assert before[..k] == offsets[..k];
      }
      DriftIsSum(drift, before, ai);
      assert offsets[..|offsets|] == offsets;
    }
  }

  /** Past the limit it stays there, on the side of the offset. */
  lemma DriftAtLimit(drift: int, ns: int, ai: int)
    requires Abs(drift + TruncDiv(ns, AtLeastOne(ai))) > ADJ_FREQ_MAX && Abs(drift) <= ADJ_FREQ_MAX
    ensures NextDrift(drift, ns, ai) == if ns > 0 then ADJ_FREQ_MAX else -ADJ_FREQ_MAX
  {
  }

  /* ----- the servo of a clock ----- */

  /** A delay is halved after it has been brought to less than a second of nanoseconds. */
  const MAX_SAMPLE := 499_999_999

  /** What every sample leaves behind: a filter within its samples, a clamped accumulator. */
  ghost predicate ServoOk(c: PtpClock, opts: RunTimeOpts)
    reads c
  {
    && 0 <= opts.s <= 30
    && FilterWithin(c.owdFilt, MAX_SAMPLE, opts.s)
    && Abs(c.observedDrift) <= ADJ_FREQ_MAX
    && c.ofmNsecPrev == 0
  }

  method InitClock(c: PtpClock)
    modifies c`masterToSlaveDelay, c`observedDrift, c`owdFilt
    ensures c.masterToSlaveDelay == ZERO_TIME && c.observedDrift == 0
    ensures c.owdFilt == old(c.owdFilt).(sExp := 0)
  {
    c.masterToSlaveDelay := ZERO_TIME;
    c.observedDrift := 0;
    c.owdFilt := c.owdFilt.(sExp := 0);
  }

  /** A time halved in its two parts. */
  function HalfOf(t: TimeInternal): TimeInternal {
    TimeInternal(TruncDiv(t.seconds, 2), TruncDiv(t.nanoseconds, 2))
  }

  /** The mean of the two one-way delays, seconds and nanoseconds halved separately. */
  function MeanDelay(delaySM: TimeInternal, delayMS: TimeInternal, correction: TimeInternal): (r: TimeInternal)
    ensures Abs(r.nanoseconds) <= MAX_SAMPLE
  {
    SubNormal(Add(delaySM, delayMS), correction);
    HalfOf(Sub(Add(delaySM, delayMS), correction))
  }

  /** Half of a total: rounded toward zero if and only if the total has an even number of
      whole seconds, half a second short with an odd one, and exact below a second. */
  predicate Halves(half: TimeInternal, total: int) {
    && (Total(half) == TruncDiv(total, 2) <==> TruncDiv(total, BILLION) % 2 == 0)
    && Abs(2 * Total(half) - total) <= (if TruncDiv(total, BILLION) % 2 == 0 then 1 else BILLION + 1)
    && (Abs(total) < BILLION ==> half == TimeInternal(0, TruncDiv(total, 2)))
  }

  lemma HalvedApart(t: TimeInternal)
    requires Normal(t)
    ensures Halves(HalfOf(t), Total(t))
  {
    assert TruncDiv(Total(t), BILLION) == t.seconds;
    if Abs(Total(t)) < BILLION {
      NormalUnique(t, TimeInternal(0, Total(t)));
    }
  }

  /** The sum that is halved, exact where both steps stay in range. */
  lemma SumOfDelays(delaySM: TimeInternal, delayMS: TimeInternal, correction: TimeInternal)
    requires Normal(delaySM) && Normal(delayMS) && Normal(correction)
    requires InRange(delaySM.seconds + delayMS.seconds, delaySM.nanoseconds + delayMS.nanoseconds)
    requires
      var sum := Add(delaySM, delayMS);
      InRange(sum.seconds - correction.seconds, sum.nanoseconds - correction.nanoseconds)
    ensures
      var sum := Sub(Add(delaySM, delayMS), correction);
      Normal(sum) && Total(sum) == Total(delaySM) + Total(delayMS) - Total(correction)
  {
    hide InRange, Normalize, Wrap, Normal, Total;
    AddSubExact(delaySM, delayMS);
    AddSubExact(Add(delaySM, delayMS), correction);
  }

  /**
   The mean is half the sum of the two delays less the correction, wherever no
   step leaves the range of the seconds: exactly below a second, and half a second
   short for an odd number of whole seconds.
   */
  lemma MeanIsHalf(delaySM: TimeInternal, delayMS: TimeInternal, correction: TimeInternal)
    requires Normal(delaySM) && Normal(delayMS) && Normal(correction)
    requires InRange(delaySM.seconds + delayMS.seconds, delaySM.nanoseconds + delayMS.nanoseconds)
    requires
      var sum := Add(delaySM, delayMS);
      InRange(sum.seconds - correction.seconds, sum.nanoseconds - correction.nanoseconds)
    ensures Halves(MeanDelay(delaySM, delayMS, correction), Total(delaySM) + Total(delayMS) - Total(correction))
  {
    hide InRange, Add, Sub, Halves, HalfOf;
    SumOfDelays(delaySM, delayMS, correction);
    HalvedApart(Sub(Add(delaySM, delayMS), correction));
  }

  /** The filter statements of updateDelay; the products are declared 32 bits wide. */
  method FilterSample(f: DelayFilter, ns: i32, s0: nat) returns (r: DelayFilter)
    requires s0 <= 30 && FilterWithin(f, MAX_SAMPLE, s0) && Abs(ns) <= MAX_SAMPLE
    ensures r == Filtered(f, ns, s0)
  {
    hide Stiffness, TruncDiv, Wrap, Pow2;
    PowThirtyOne();
    var s := ChooseStiffness(f.y, s0);
    NoOverflow(f, s0);
    FilteredWithin(f, ns, s0, MAX_SAMPLE);
    var limit := Pow2(s);
    var sExp := f.sExp;
    if sExp < 1 {
      sExp := 1;
    } else if sExp < limit {
      sExp := sExp + 1;
    } else if sExp > limit {
      sExp := limit;
    }
    var weighted: i32 := (sExp - 1) * f.y;
    var y: i32 := TruncDiv(weighted, sExp) + TruncDiv(TruncDiv(ns, 2) + TruncDiv(f.nsecPrev, 2), sExp);
    r := DelayFilter(ns, y, sExp);
  }

  /** What a measured delay does to the filter and to the mean path delay: one of whole
      seconds is taken as it is, any other goes through the filter. */
  predicate DelayTaken(mean: TimeInternal, s: int, f0: DelayFilter, f1: DelayFilter, c0: CurrentDS, c1: CurrentDS) {
    && 0 <= s <= 30
    && if mean.seconds != 0
       then f1 == FilterStep(f0, TooLarge, s) && c1 == c0.(meanPathDelay := mean)
       else f1 == FilterStep(f0, Sample(mean.nanoseconds), s) &&
            c1 == c0.(meanPathDelay := TimeInternal(0, f1.y))
  }

  method UpdateDelay(c: PtpClock, opts: RunTimeOpts, correction: TimeInternal)
    requires ServoOk(c, opts)
    modifies c`delaySM, c`currentDS, c`owdFilt
    ensures ServoOk(c, opts)
    ensures !opts.offsetFirstUpdated ==> c.owdFilt == old(c.owdFilt) && c.currentDS == old(c.currentDS)
    ensures opts.offsetFirstUpdated ==>
      DelayTaken(MeanDelay(Sub(c.delayReqReceiveTime, c.delayReqSendTime), c.delayMS, correction), opts.s,
                 old(c.owdFilt), c.owdFilt, old(c.currentDS), c.currentDS)
  {
    hide Stiffness, Pow2, TruncDiv, Wrap, Normalize, NextExp, Filtered, Add, Sub;
    if opts.offsetFirstUpdated {
      c.delaySM := Sub(c.delayReqReceiveTime, c.delayReqSendTime);
      var mean := MeanDelay(c.delaySM, c.delayMS, correction);
      c.currentDS := c.currentDS.(meanPathDelay := mean);
      if mean.seconds != 0 {
        c.owdFilt := c.owdFilt.(sExp := 0, nsecPrev := 0);
        return;
      }
      PowThirtyOne();
      FilteredWithin(c.owdFilt, mean.nanoseconds, opts.s, MAX_SAMPLE);
      c.owdFilt := FilterSample(c.owdFilt, mean.nanoseconds, opts.s);
      c.currentDS := c.currentDS.(meanPathDelay := TimeInternal(0, c.owdFilt.y));
    }
  }

  /** 110 ms or more ahead, or whole seconds off; a negative offset below a second passes. */
  predicate OffTooFar(offset: TimeInternal) {
    TruncDiv(offset.nanoseconds, 10_000_000) > 10 || offset.seconds != 0
  }

  /** A normal offset is too far from 110 ms ahead on, or from a whole second behind on. */
  lemma TooFarIff(offset: TimeInternal)
    requires Normal(offset)
    ensures OffTooFar(offset) <==> Total(offset) >= 110_000_000 || Total(offset) <= -BILLION
  {
  }

  /** The offset from the master: what is left of the travel time of a Sync beyond the mean path delay. */
  function OffsetOf(recvTime: TimeInternal, sendTime: TimeInternal, correction: TimeInternal, delay: TimeInternal)
    : TimeInternal
  {
    Sub(Sub(Sub(recvTime, sendTime), correction), delay)
  }

  /** A difference of normal times that stays in range. */
  predicate ExactSub(x: TimeInternal, y: TimeInternal) {
    Normal(x) && Normal(y) && InRange(x.seconds - y.seconds, x.nanoseconds - y.nanoseconds)
  }

  /** In range the offset is receipt minus sending minus correction minus delay, to the nanosecond. */
  lemma OffsetIsDifference(recvTime: TimeInternal, sendTime: TimeInternal, correction: TimeInternal,
                           delay: TimeInternal)
    requires ExactSub(recvTime, sendTime) && ExactSub(Sub(recvTime, sendTime), correction)
    requires ExactSub(Sub(Sub(recvTime, sendTime), correction), delay)
    ensures
      var offset := OffsetOf(recvTime, sendTime, correction, delay);
      Normal(offset) && Total(offset) == Total(recvTime) - Total(sendTime) - Total(correction) - Total(delay)
  {
    hide InRange, Normalize, Wrap;
    AddSubExact(recvTime, sendTime);
    AddSubExact(Sub(recvTime, sendTime), correction);
    AddSubExact(Sub(Sub(recvTime, sendTime), correction), delay);
  }

  /** The offset filter never stores a sample, so its output is half the offset. */
  method UpdateOffset(c: PtpClock, opts: RunTimeOpts, sendTime: TimeInternal, recvTime: TimeInternal,
                      correction: TimeInternal)
    requires ServoOk(c, opts)
    modifies c`masterToSlaveDelay, c`delayMS, c`currentDS, c`ofmNsecPrev, opts`offsetFirstUpdated
    ensures ServoOk(c, opts)
    ensures c.currentDS == old(c.currentDS).(offsetFromMaster := c.currentDS.offsetFromMaster)
    ensures Abs(c.currentDS.offsetFromMaster.nanoseconds) < BILLION
    ensures c.delayMS == Sub(recvTime, sendTime)
    ensures
      var offset := OffsetOf(recvTime, sendTime, correction, old(c.currentDS).meanPathDelay);
      if OffTooFar(offset)
      then c.currentDS.offsetFromMaster == offset && opts.offsetFirstUpdated == old(opts.offsetFirstUpdated)
      else c.currentDS.offsetFromMaster.seconds == 0 && opts.offsetFirstUpdated &&
           c.currentDS.offsetFromMaster.nanoseconds == TruncDiv(offset.nanoseconds, 2)
  {
    hide TruncDiv, Wrap, Normalize, FilterWithin;
    c.masterToSlaveDelay := Sub(recvTime, sendTime);
    c.delayMS := Sub(recvTime, sendTime);
    c.masterToSlaveDelay := Sub(c.masterToSlaveDelay, correction);
    var offset := Sub(c.masterToSlaveDelay, c.currentDS.meanPathDelay);
    NormalizeCorrect(TimeInternal(Wrap(c.masterToSlaveDelay.seconds - c.currentDS.meanPathDelay.seconds),
                                  Wrap(c.masterToSlaveDelay.nanoseconds - c.currentDS.meanPathDelay.nanoseconds)));
    c.currentDS := c.currentDS.(offsetFromMaster := offset);
    if OffTooFar(offset) {
      c.ofmNsecPrev := 0;
      return;
    }
    var y := TruncDiv(offset.nanoseconds, 2) + TruncDiv(c.ofmNsecPrev, 2);
    c.currentDS := c.currentDS.(offsetFromMaster := TimeInternal(0, y));
    opts.offsetFirstUpdated := true;
  }

  lemma QuotientSmaller(a: int, k: int)
    requires k >= 1
    ensures Abs(TruncDiv(a, k)) <= Abs(a)
  {
    hide TruncDiv;
    TruncAbs(a, k);
    MulMonotone(1, k, Abs(TruncDiv(a, k)));
  }

  /** updateClock up to the frequency adjustment; `sysTime` is set when the clock is stepped. */
  method UpdateClock(c: PtpClock, opts: RunTimeOpts, now: TimeInternal) returns (sysTime: TimeInternal, adj: i32)
    requires ServoOk(c, opts) && Abs(c.currentDS.offsetFromMaster.nanoseconds) < BILLION
    modifies c`masterToSlaveDelay, c`observedDrift, c`owdFilt, opts`ap, opts`ai
    ensures ServoOk(c, opts)
    ensures !OffTooFar(c.currentDS.offsetFromMaster) ==>
      && c.observedDrift == NextDrift(old(c.observedDrift), c.currentDS.offsetFromMaster.nanoseconds, old(opts.ai))
      && adj == TruncDiv(c.currentDS.offsetFromMaster.nanoseconds, AtLeastOne(old(opts.ap))) + c.observedDrift
      && sysTime == now
    ensures OffTooFar(c.currentDS.offsetFromMaster) && !opts.noAdjust && !opts.noResetClock ==>
      sysTime == Sub(now, c.currentDS.offsetFromMaster) && c.observedDrift == 0
  {
    hide TruncDiv, Normalize, Pow2, Wrap;
    adj := 0;
    sysTime := now;
    var offset := c.currentDS.offsetFromMaster;
    if OffTooFar(offset) {
      if !opts.noAdjust {
        if !opts.noResetClock {
          sysTime := Sub(now, offset);
          InitClock(c);
        } else {
          adj := if offset.nanoseconds > 0 then ADJ_FREQ_MAX else -ADJ_FREQ_MAX;
        }
      }
    } else {
      if opts.ap < 1 { opts.ap := 1; }
      if opts.ai < 1 { opts.ai := 1; }
      c.observedDrift := c.observedDrift + TruncDiv(offset.nanoseconds, opts.ai);
      if c.observedDrift > ADJ_FREQ_MAX {
        c.observedDrift := ADJ_FREQ_MAX;
      } else if c.observedDrift < -ADJ_FREQ_MAX {
        c.observedDrift := -ADJ_FREQ_MAX;
      }
      QuotientSmaller(offset.nanoseconds, opts.ap);
      adj := TruncDiv(offset.nanoseconds, opts.ap) + c.observedDrift;
    }
  }
}
