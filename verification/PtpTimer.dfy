/** The interval timers of packages/ptpv2/ptpv2_timer.c. */
module PtpTimer {
  import opened PtpClocks

  /** One timer after `delta` milliseconds; a stopped one has interval 0. */
  function Ticked(t: IntervalTimer, delta: int): (r: IntervalTimer)
    ensures r.interval == t.interval
    ensures r.expire == (t.expire || (t.interval > 0 && t.left <= delta))
  {
    if t.interval > 0 then
      if t.left - delta <= 0 then IntervalTimer(t.interval, t.interval, true) else t.(left := t.left - delta)
    else t
  }

  /** `delta` is what the interrupt counted since the last update, read as a signed number. */
  method TimerUpdate(c: PtpClock, delta: int)
    requires |c.itimer| == TIMER_ARRAY_SIZE
    modifies c`itimer
    ensures |c.itimer| == TIMER_ARRAY_SIZE
    ensures forall i :: 0 <= i < TIMER_ARRAY_SIZE ==>
      c.itimer[i] == if delta <= 0 then old(c.itimer)[i] else Ticked(old(c.itimer)[i], delta)
  {
    if delta <= 0 { return; }
    var i := 0;
    while i < TIMER_ARRAY_SIZE
      invariant 0 <= i <= TIMER_ARRAY_SIZE == |c.itimer|
      invariant forall k :: 0 <= k < i ==> c.itimer[k] == Ticked(old(c.itimer)[k], delta)
      invariant forall k :: i <= k < TIMER_ARRAY_SIZE ==> c.itimer[k] == old(c.itimer)[k]
    {
      var t := c.itimer[i];
      if t.interval > 0 {
        t := t.(left := t.left - delta);
        if t.left <= 0 {
          t := t.(left := t.interval, expire := true);
        }
      }
      c.itimer := c.itimer[i := t];
      i := i + 1;
    }
  }

  /** Stopping leaves a pending expiry in place. */
  method TimerStop(c: PtpClock, index: nat)
    requires |c.itimer| == TIMER_ARRAY_SIZE
    modifies c`itimer
    ensures c.itimer ==
      if index < TIMER_ARRAY_SIZE then old(c.itimer)[index := old(c.itimer)[index].(interval := 0)] else old(c.itimer)
  {
    if index >= TIMER_ARRAY_SIZE { return; }
    c.itimer := c.itimer[index := c.itimer[index].(interval := 0)];
  }

  /** A timer that has just been started. */
  predicate JustStarted(t: IntervalTimer) {
    !t.expire && t.left == t.interval
  }

  /** `millis` is the interval in milliseconds, truncated from a float. */
  method TimerStart(c: PtpClock, index: nat, millis: int)
    requires |c.itimer| == TIMER_ARRAY_SIZE
    modifies c`itimer
    ensures c.itimer ==
      if index < TIMER_ARRAY_SIZE then old(c.itimer)[index := IntervalTimer(millis, millis, false)] else old(c.itimer)
  {
    if index >= TIMER_ARRAY_SIZE { return; }
    c.itimer := c.itimer[index := IntervalTimer(millis, millis, false)];
  }

  /** Time passes for all timers, even those not asked about; a report uses the expiry up. */
  method TimerExpired(c: PtpClock, index: nat, delta: int) returns (expired: bool)
    requires |c.itimer| == TIMER_ARRAY_SIZE
    modifies c`itimer
    ensures |c.itimer| == TIMER_ARRAY_SIZE
    ensures forall i :: 0 <= i < TIMER_ARRAY_SIZE ==> c.itimer[i].interval == old(c.itimer)[i].interval
    ensures forall i :: 0 <= i < TIMER_ARRAY_SIZE && i != index ==>
      c.itimer[i] == if delta > 0 then Ticked(old(c.itimer)[i], delta) else old(c.itimer)[i]
    ensures index < TIMER_ARRAY_SIZE ==> !c.itimer[index].expire
    ensures expired <==>
      && index < TIMER_ARRAY_SIZE
      && (|| old(c.itimer)[index].expire
          || (delta > 0 && old(c.itimer)[index].interval > 0 && old(c.itimer)[index].left <= delta))
  {
    TimerUpdate(c, delta);
    if index >= TIMER_ARRAY_SIZE { return false; }
    expired := c.itimer[index].expire;
    c.itimer := c.itimer[index := c.itimer[index].(expire := false)];
  }
}
