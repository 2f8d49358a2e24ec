/**
 What the protocol engine gets from outside: any answer is possible. Interval is
 the float computed for a timer, in milliseconds; Correction stands for
 integer64_to_internalTime; the Garbage methods stand for variables the code
 leaves uninitialised.
 */
module PtpEnvironment {
  import opened Bytes
  import opened PtpTypes
  import opened PtpMsg

  method Elapsed() returns (delta: int) { delta := *; }

  method Interval() returns (millis: int) { millis := *; }

  method Succeeds() returns (ok: bool) { ok := *; }

  method Now() returns (t: TimeInternal) { t := *; }

  method Correction() returns (t: TimeInternal) { t := *; }

  method GarbageTime() returns (t: TimeInternal) { t := *; }

  method GarbageStamp() returns (t: Timestamp) { t := *; }

  /** The next message waiting on either socket; empty when there is none. */
  method Receive() returns (bytes: seq<byte>)
    ensures |bytes| <= PACKET_SIZE
  {
    bytes := *;
    if |bytes| > PACKET_SIZE { bytes := bytes[..PACKET_SIZE]; }
  }
}

/**
 The port state machine of packages/ptpv2/ptpv2_protocol.c in end-to-end mode
 (IEEE 1588-2008 sections 9.2 and 9.5).
 */
module PtpProtocol {
  import opened Bytes
  import opened PtpTypes
  import opened PtpMsg
  import opened PtpArith
  import opened PtpClocks
  import opened PtpBmc
  import opened PtpForeign
  import opened PtpServo
  import opened PtpTimer
  import Election = PtpElection
  import Environment = PtpEnvironment

  const VERSION_PTP: byte := 2
  const NUMBER_PORTS: u16 := 1
  const DEFAULT_DELAYREQ_INTERVAL: byte := 3

  /* ----- what holds in every reachable state ----- */

  predicate InUse(s: PortState) {
    !s.Disabled? && !s.PreMaster? && !s.Uncalibrated?
  }

  /** States in which messages are handled. */
  predicate Active(s: PortState) {
    s.Listening? || s.Master? || s.Passive? || s.Slave?
  }

  /** Which timers may run in which state. */
  predicate TimersFit(timers: seq<IntervalTimer>, s: PortState) {
    && |timers| == TIMER_ARRAY_SIZE
    && (timers[SYNC_INTERVAL_TIMER].interval > 0 ==> s.Master?)
    && (timers[ANNOUNCE_INTERVAL_TIMER].interval > 0 ==> s.Master?)
    && (timers[ANNOUNCE_RECEIPT_TIMER].interval > 0 ==> s.Listening? || s.Passive? || s.Slave?)
    && (timers[DELAYREQ_INTERVAL_TIMER].interval > 0 ==> s.Slave?)
    && (timers[PDELAYREQ_INTERVAL_TIMER].interval > 0 ==> s.Master? || s.Passive?)
  }

  /** No timer runs. */
  predicate Idle(timers: seq<IntervalTimer>) {
    |timers| == TIMER_ARRAY_SIZE && forall i :: 0 <= i < TIMER_ARRAY_SIZE ==> timers[i].interval <= 0
  }

  /** The clock is its own parent and grandmaster, as m1 leaves it. */
  predicate OwnMaster(current: CurrentDS, parent: ParentDS, d: DefaultDS) {
    current == LOCAL_CURRENT && parent == LocalParent(d)
  }

  /** A slave-only clock asks for the delay and repeats its own Syncs, nothing else. */
  predicate MasterSilent(packed: seq<Outgoing>) {
    forall i :: 0 <= i < |packed| ==> packed[i].DelayReq? || packed[i].FollowUp?
  }

  /** A message this clock may pack: it answers requests of its domain only, it announces
      only itself, as its own master, and a slave-only clock sends nothing of a master. */
  predicate Sendable(m: Outgoing, d: DefaultDS, slaveOnly: bool) {
    && (m.DelayResp? ==> m.request.domainNumber == d.domainNumber)
    && (m.Announce? ==> m.default == d && OwnMaster(m.current, m.parent, d))
    && (slaveOnly ==> m.DelayReq? || m.FollowUp?)
  }

  /** The output buffer is what the messages packed since the last initialisation made of it. */
  predicate Traced(buf: seq<byte>, base: Packet, packed: seq<Outgoing>, port: PortIdentity, d: DefaultDS,
                   slaveOnly: bool)
  {
    && port == PortIdentity(d.clockIdentity, NUMBER_PORTS)
    && |buf| == PACKET_SIZE && buf == PackAll(PackHeader(base, VERSION_PTP, d.domainNumber, false, port), packed)
    && forall i :: 0 <= i < |packed| ==> Sendable(packed[i], d, slaveOnly)
  }

  lemma TraceGrows(buf: Packet, base: Packet, packed: seq<Outgoing>, port: PortIdentity, d: DefaultDS,
                   slaveOnly: bool, m: Outgoing)
    requires Traced(buf, base, packed, port, d, slaveOnly) && Sendable(m, d, slaveOnly)
    ensures Traced(Pack(buf, m), base, packed + [m], port, d, slaveOnly)
  {
    hide PackHeader, Pack, Sendable;
    assert (packed + [m])[..|packed|] == packed;
  }

  function TypeOf(m: Outgoing): (t: byte) {
    match m
    case Sync(_, _, _) => 0x0
    case DelayReq(_, _) => 0x1
    case FollowUp(_, _, _) => 0x8
    case DelayResp(_, _, _) => 0x9
    case Announce(_, _, _, _, _, _) => 0xB
  }

  /**
   Whatever the engine has packed before, the buffer it sends names this clock's
   own port, its version and its domain.
   */
  lemma OnTheWire(buf: seq<byte>, base: Packet, packed: seq<Outgoing>, port: PortIdentity, d: DefaultDS,
                  slaveOnly: bool)
    requires Traced(buf, base, packed, port, d, slaveOnly)
    ensures
      var h := UnpackHeader(buf);
      && h.transportSpecific == 8 && h.versionPTP == VERSION_PTP
      && h.source == port && h.domainNumber == d.domainNumber
      && (h.correctionMsb, h.correctionLsb) == Correction(packed)
    ensures packed != [] ==> UnpackHeader(buf).messageType == TypeOf(packed[|packed| - 1])
    ensures slaveOnly ==> MasterSilent(packed)
    ensures slaveOnly && packed != [] ==> UnpackHeader(buf).messageType in {0x1, 0x8}
  {
    hide UnpackHeader, PackHeader, Pack, OwnMaster;
    assert OneDomain(packed, d.domainNumber);
    SharedBuffer(base, VERSION_PTP, d.domainNumber, false, port, packed);
    if packed != [] {
      HeaderRoundTrip(PackAll(PackHeader(base, VERSION_PTP, d.domainNumber, false, port), packed[..|packed| - 1]),
                      packed[|packed| - 1]);
    }
  }

  /** Every Announce of a run is received as the claim of this clock for itself: what the
      election assumes of the records each clock has. */
  lemma AnnouncesItself(buf: seq<byte>, base: Packet, packed: seq<Outgoing>, port: PortIdentity, d: DefaultDS,
                        slaveOnly: bool, count: u16)
    requires Traced(buf, base, packed, port, d, slaveOnly) && packed != [] && packed[|packed| - 1].Announce?
    ensures Election.HeardFrom(ForeignMasterRecord(UnpackHeader(buf).source, count, UnpackAnnounce(buf),
                                                   UnpackHeader(buf)), d)
  {
    hide UnpackHeader, UnpackAnnounce, PackHeader, Pack, LocalParent;
    var m := packed[|packed| - 1];
    assert Sendable(m, d, slaveOnly);
    Election.AnnounceIsHeard(base, d, false, packed[..|packed| - 1], m.sequenceId, m.logAnnounceInterval, m.properties,
                             count);
  }

  /** What a port may be, and what it is then: a master is its own parent, a slave-only
      clock is never master or passive, and an active port has been initialised. */
  predicate Role(s: PortState, slaveOnly: bool, d: DefaultDS, current: CurrentDS, parent: ParentDS,
                 headerPacked: bool)
  {
    && InUse(s)
    && (slaveOnly ==> !s.Master? && !s.Passive?)
    && (s.Master? ==> OwnMaster(current, parent, d))
    && (Active(s) ==> d.slaveOnly == slaveOnly && headerPacked)
  }

  /** The foreign master table is what its history made of it, and an Announce that
      waits for a decision is what record_update says. */
  predicate TableFits(t: Table, recordUpdate: bool, boot: seq<ForeignMasterRecord>, history: seq<TableEvent>) {
    && boot != [] && t == After(boot, history)
    && Paced(history) && recordUpdate == Pending(history)
  }

  /** Everything is ready for the port to be in state `s`, but for the timers. */
  ghost predicate ReadyFor(c: PtpClock, opts: RunTimeOpts, s: PortState)
    reads c, c.msgObuf
  {
    && c.Shaped(opts) && ServoOk(c, opts) && TimersFit(c.itimer, c.portState) && InUse(c.portState)
    && Role(s, opts.slaveOnly, c.defaultDS, c.currentDS, c.parentDS, c.headerPacked)
    && TableFits(TableOf(c), c.recordUpdate, c.boot, c.history)
    && (c.headerPacked ==>
          Traced(c.msgObuf[..], c.base, c.packed, c.portIdentity, c.defaultDS, opts.slaveOnly))
  }

  /** The invariant of the whole engine. */
  ghost predicate Inv(c: PtpClock, opts: RunTimeOpts)
    reads c, c.msgObuf
  {
    ReadyFor(c, opts, c.portState)
  }

  /** What the port state says by itself. */
  lemma StateFacts(c: PtpClock, opts: RunTimeOpts)
    requires Inv(c, opts)
    ensures InUse(c.portState) && (opts.slaveOnly ==> !c.portState.Master?) && InBounds(TableOf(c))
    ensures c.portState.Master? ==> OwnMaster(c.currentDS, c.parentDS, c.defaultDS)
    ensures Active(c.portState) ==> c.headerPacked && c.defaultDS.slaveOnly == opts.slaveOnly
    ensures |c.itimer| == TIMER_ARRAY_SIZE && (!c.portState.Slave? ==> c.itimer[DELAYREQ_INTERVAL_TIMER].interval <= 0)
    ensures c.portState.Faulty? ==> c.itimer[ANNOUNCE_RECEIPT_TIMER].interval <= 0
  {
    hide Traced, ServoOk, OwnMaster, After, Paced, Pending;
    assert InBounds(After(c.boot, c.history));
  }

  /** In every reachable state the records are as their history says. */
  lemma ReachableTable(c: PtpClock, opts: RunTimeOpts, j: nat)
    requires Inv(c, opts) && j < c.numberForeignRecords
    ensures
      var port := c.foreign[j].foreignMasterPortIdentity;
      var l, i := Latest(c.history, port), Origin(c.boot, c.history, j);
      && 0 <= i <= l && Holds(c.foreign[j], c.history[i].heard)
      && (Holds(c.foreign[j], c.history[l].heard) <==> c.history[l].heard == c.history[i].heard)
      && (!Skewed(c.boot, c.history) ==>
            Coherent(TableOf(c)) &&
            (Holds(c.foreign[j], c.history[l].heard) <==> NotFollowedElsewhere(c.history, port)))
  {
    hide After, Paced, Skewed, Latest, Origin, NotFollowedElsewhere, Traced, TimersFit, ServoOk, Role, Coherent;
    CountedWritten(c.boot, c.history);
    RecordsOrigin(c.boot, c.history, j);
    RunHoldsOrigin(c.boot, c.history, j);
    if !Skewed(c.boot, c.history) { RunHoldsLatest(c.boot, c.history, j); }
  }

  /* ----- changing state ----- */

  method StartTimer(c: PtpClock, index: nat)
    requires index < TIMER_ARRAY_SIZE == |c.itimer|
    modifies c`itimer
    ensures |c.itimer| == TIMER_ARRAY_SIZE && JustStarted(c.itimer[index])
    ensures forall i :: 0 <= i < TIMER_ARRAY_SIZE && i != index ==> c.itimer[i] == old(c.itimer)[i]
  {
    var millis := Environment.Interval();
    TimerStart(c, index, millis);
  }

  /** No expiry has been reported or forgotten. */
  predicate ExpiryKept(before: seq<IntervalTimer>, after: seq<IntervalTimer>) {
    && |before| == |after| == TIMER_ARRAY_SIZE
    && forall i :: 0 <= i < TIMER_ARRAY_SIZE ==> after[i].expire == before[i].expire
  }

  /** The leaving half of toState: every timer the state may run is stopped. */
  method Leave(c: PtpClock, opts: RunTimeOpts)
    requires TimersFit(c.itimer, c.portState) && InUse(c.portState) && ServoOk(c, opts)
    modifies c`itimer, c`masterToSlaveDelay, c`observedDrift, c`owdFilt
    ensures Idle(c.itimer) && ExpiryKept(old(c.itimer), c.itimer) && ServoOk(c, opts)
    ensures c.portState.Slave? ==> c.masterToSlaveDelay == ZERO_TIME && c.observedDrift == 0
  {
    match c.portState {
      case Master =>
        TimerStop(c, SYNC_INTERVAL_TIMER);
        TimerStop(c, ANNOUNCE_INTERVAL_TIMER);
        TimerStop(c, PDELAYREQ_INTERVAL_TIMER);
      case Slave =>
        TimerStop(c, ANNOUNCE_RECEIPT_TIMER);
        TimerStop(c, DELAYREQ_INTERVAL_TIMER);
        InitClock(c);
      case Passive =>
        TimerStop(c, PDELAYREQ_INTERVAL_TIMER);
        TimerStop(c, ANNOUNCE_RECEIPT_TIMER);
      case Listening =>
        TimerStop(c, ANNOUNCE_RECEIPT_TIMER);
      case _ =>
    }
  }

  /** The timers the entered state works with have been started afresh. */
  predicate TimersStarted(timers: seq<IntervalTimer>, s: PortState)
    requires |timers| == TIMER_ARRAY_SIZE
  {
    && (s.Listening? || s.Passive? || s.Slave? ==> JustStarted(timers[ANNOUNCE_RECEIPT_TIMER]))
    && (s.Master? ==> JustStarted(timers[SYNC_INTERVAL_TIMER]) && JustStarted(timers[ANNOUNCE_INTERVAL_TIMER]))
    && (s.Master? || s.Passive? ==> JustStarted(timers[PDELAYREQ_INTERVAL_TIMER]))
    && (s.Slave? ==> JustStarted(timers[DELAYREQ_INTERVAL_TIMER]))
  }

  /** toState */
  method ToState(c: PtpClock, opts: RunTimeOpts, state: PortState)
    requires TimersFit(c.itimer, c.portState) && InUse(c.portState) && InUse(state) && ServoOk(c, opts)
    modifies c`portState, c`itimer, c`messageActivity, c`waitingForFollow,
             c`masterToSlaveDelay, c`observedDrift, c`owdFilt
    ensures c.portState == state && c.messageActivity
    ensures TimersFit(c.itimer, state) && TimersStarted(c.itimer, state) && ServoOk(c, opts)
    ensures state.Slave? || old(c.portState).Slave? ==> c.masterToSlaveDelay == ZERO_TIME && c.observedDrift == 0
    ensures state.Slave? ==> !c.waitingForFollow
    ensures state.Faulty? ==> ExpiryKept(old(c.itimer), c.itimer)
    ensures !state.Slave? ==>
      c.itimer[DELAYREQ_INTERVAL_TIMER].expire == old(c.itimer)[DELAYREQ_INTERVAL_TIMER].expire
  {
    c.messageActivity := true;
    Leave(c, opts);
    match state {
      case Listening =>
        StartTimer(c, ANNOUNCE_RECEIPT_TIMER);
      case Master =>
        StartTimer(c, SYNC_INTERVAL_TIMER);
        StartTimer(c, ANNOUNCE_INTERVAL_TIMER);
        StartTimer(c, PDELAYREQ_INTERVAL_TIMER);
      case Passive =>
        StartTimer(c, PDELAYREQ_INTERVAL_TIMER);
        StartTimer(c, ANNOUNCE_RECEIPT_TIMER);
      case Slave =>
        InitClock(c);
        c.waitingForFollow := false;
        StartTimer(c, ANNOUNCE_RECEIPT_TIMER);
        StartTimer(c, DELAYREQ_INTERVAL_TIMER);
      case _ =>
    }
    c.portState := state;
  }

  /** toState with the rest of the engine around it. */
  method Go(c: PtpClock, opts: RunTimeOpts, state: PortState)
    requires ReadyFor(c, opts, state)
    modifies c`portState, c`itimer, c`messageActivity, c`waitingForFollow,
             c`masterToSlaveDelay, c`observedDrift, c`owdFilt
    ensures Inv(c, opts) && c.portState == state && c.messageActivity
    ensures state.Faulty? ==> ExpiryKept(old(c.itimer), c.itimer)
    ensures !state.Slave? ==>
      c.itimer[DELAYREQ_INTERVAL_TIMER].expire == old(c.itimer)[DELAYREQ_INTERVAL_TIMER].expire
  {
    assert InUse(state);
    assert |c.itimer| == TIMER_ARRAY_SIZE;
    hide Role, TableFits, Traced, TimersFit, FilterWithin, ExpiryKept;
    ToState(c, opts, state);
  }

  /** What the engine knows and what it has sent, as one value. */
  datatype View = View(
    state: PortState, current: CurrentDS, parent: ParentDS, table: Table, update: bool, history: seq<TableEvent>,
    waiting: bool, syncTime: TimeInternal, syncId: u16, syncCorrection: TimeInternal, delayMS: TimeInternal,
    requestTime: TimeInternal, requestId: u16, answerTime: TimeInternal, requestInterval: byte, filter: DelayFilter,
    sentSyncId: u16, syncInterval: byte, packed: seq<Outgoing>)

  ghost function ViewOf(c: PtpClock): View
    reads c
  {
    View(c.portState, c.currentDS, c.parentDS, TableOf(c), c.recordUpdate, c.history,
         c.waitingForFollow, c.syncReceiveTime, c.recvSyncSequenceId, c.lastSyncCorrectionField, c.delayMS,
         c.delayReqSendTime, c.sentDelayReqSequenceId, c.delayReqReceiveTime, c.logMinDelayReqInterval, c.owdFilt,
         c.sentSyncSequenceId, c.logSyncInterval, c.packed)
  }

  /** A message too short for its type is a fault, and has no other effect. */
  predicate Rejected(v0: View, v1: View) {
    v1 == v0.(state := Faulty, waiting := v1.waiting, filter := v1.filter)
  }

  /** A fault from any state. */
  method Fault(c: PtpClock, opts: RunTimeOpts)
    requires Inv(c, opts)
    modifies c`portState, c`itimer, c`messageActivity, c`waitingForFollow,
             c`masterToSlaveDelay, c`observedDrift, c`owdFilt
    ensures Inv(c, opts) && c.portState == Faulty && c.messageActivity
    ensures Rejected(old(ViewOf(c)), ViewOf(c))
    ensures ExpiryKept(old(c.itimer), c.itimer)
  {
    hide TableFits, Traced, TimersFit, FilterWithin, ExpiryKept;
    Go(c, opts, Faulty);
  }

  /** What handling a message may do to the timers: restart the receipt timeout, or
      stop everything in a fault, in which no expiry is lost. */
  predicate TimersHandled(s0: PortState, s1: PortState, before: seq<IntervalTimer>, after: seq<IntervalTimer>) {
    && |before| == |after| == TIMER_ARRAY_SIZE
    && (|| (s1 == s0 && after == before[ANNOUNCE_RECEIPT_TIMER := after[ANNOUNCE_RECEIPT_TIMER]])
        || (s1.Faulty? && ExpiryKept(before, after)))
  }

  /* ----- sending ----- */

  /** One message more. */
  predicate Grew(before: seq<Outgoing>, after: seq<Outgoing>) {
    after != [] && after[..|after| - 1] == before
  }

  function Last(packed: seq<Outgoing>): Outgoing
    requires packed != []
  {
    packed[|packed| - 1]
  }

  /** The time stamp of a time: exact where it is not negative, left as it was elsewhere. */
  predicate StampOf(t: Timestamp, time: TimeInternal) {
    t == FromInternal(time, t)
  }

  lemma StampedBy(time: TimeInternal, before: Timestamp)
    ensures StampOf(FromInternal(time, before), time)
  {
  }

  /** A send that succeeds changes nothing, one that fails is a fault. */
  predicate Delivered(v0: View, v1: View) {
    v1 == v0 || Rejected(v0, v1)
  }

  /** A message packed and sent, or the fault of a failed send. */
  predicate Packed(v0: View, v1: View, m: Outgoing) {
    && Grew(v0.packed, v1.packed) && Last(v1.packed) == m
    && Delivered(v0.(packed := v1.packed), v1)
  }

  lemma PackedThenSent(v0: View, v1: View, v2: View, m: Outgoing)
    requires v1 == v0.(packed := v1.packed) && Grew(v0.packed, v1.packed) && Last(v1.packed) == m && Delivered(v1, v2)
    ensures Packed(v0, v2, m)
  {
  }

  /** The message just packed, entered in the trace. */
  ghost method Trace(c: PtpClock, opts: RunTimeOpts, buf: Packet, m: Outgoing)
    requires c.headerPacked && Sendable(m, c.defaultDS, opts.slaveOnly)
    requires Traced(buf, c.base, c.packed, c.portIdentity, c.defaultDS, opts.slaveOnly)
    requires c.msgObuf[..] == Pack(buf, m)
    modifies c`packed
    ensures Grew(old(c.packed), c.packed) && Last(c.packed) == m
    ensures ViewOf(c) == old(ViewOf(c)).(packed := c.packed)
    ensures Traced(c.msgObuf[..], c.base, c.packed, c.portIdentity, c.defaultDS, opts.slaveOnly)
  {
    TraceGrows(buf, c.base, c.packed, c.portIdentity, c.defaultDS, opts.slaveOnly, m);
    c.packed := c.packed + [m];
  }

  /** Sending what has been packed: a failed send is a fault. */
  method Send(c: PtpClock, opts: RunTimeOpts) returns (ok: bool)
    requires Inv(c, opts)
    modifies c`portState, c`itimer, c`messageActivity, c`waitingForFollow,
             c`masterToSlaveDelay, c`observedDrift, c`owdFilt
    ensures Inv(c, opts)
    ensures c.portState == if ok then old(c.portState) else Faulty
    ensures Delivered(old(ViewOf(c)), ViewOf(c))
    ensures TimersHandled(old(c.portState), c.portState, old(c.itimer), c.itimer)
  {
    hide Inv, Rejected;
    StateFacts(c, opts);
    ok := Environment.Succeeds();
    if !ok { Fault(c, opts); }
  }

  /** A send moves the sequence number on; a failed one leaves it and faults the port. */
  predicate Sent(before: PortState, after: PortState, idBefore: u16, idAfter: u16) {
    || (after == before && idAfter == (idBefore + 1) % 0x1_0000)
    || (after == Faulty && idAfter == idBefore)
  }

  method IssueAnnounce(c: PtpClock, opts: RunTimeOpts)
    requires Inv(c, opts) && c.headerPacked && !opts.slaveOnly
    requires OwnMaster(c.currentDS, c.parentDS, c.defaultDS)
    modifies c`portState, c`itimer, c`messageActivity, c`waitingForFollow,
             c`masterToSlaveDelay, c`observedDrift, c`owdFilt, c`sentAnnounceSequenceId, c`packed, c.msgObuf
    ensures Inv(c, opts)
    ensures Grew(old(c.packed), c.packed)
    ensures Last(c.packed) == Announce(old(c.sentAnnounceSequenceId), c.logAnnounceInterval, c.defaultDS,
                                       c.currentDS, c.parentDS, c.timePropertiesDS)
    ensures Sent(old(c.portState), c.portState, old(c.sentAnnounceSequenceId), c.sentAnnounceSequenceId)
  {
    hide TimersFit, FilterWithin, Pack, Traced, Role, TableFits, TimersHandled, Delivered, ViewOf;
    ghost var buf := c.msgObuf[..];
    ghost var m := Announce(c.sentAnnounceSequenceId, c.logAnnounceInterval, c.defaultDS, c.currentDS,
                            c.parentDS, c.timePropertiesDS);
    MsgPackAnnounce(c.msgObuf, Announce(c.sentAnnounceSequenceId, c.logAnnounceInterval, c.defaultDS, c.currentDS,
                                        c.parentDS, c.timePropertiesDS));
    Trace(c, opts, buf, m);
    var ok := Send(c, opts);
    if ok {
      c.sentAnnounceSequenceId := (c.sentAnnounceSequenceId + 1) % 0x1_0000;
    }
  }

  /** Packing a Sync with the given time. */
  method PackSync(c: PtpClock, opts: RunTimeOpts, now: TimeInternal)
    requires Inv(c, opts) && c.headerPacked && !opts.slaveOnly
    modifies c`packed, c.msgObuf
    ensures Inv(c, opts)
    ensures Grew(old(c.packed), c.packed)
    ensures
      var m := Last(c.packed);
      m.Sync? && m == Sync(c.sentSyncSequenceId, c.logSyncInterval, m.time) && StampOf(m.time, now)
  {
    hide TimersFit, FilterWithin, Pack, Traced, Role, TableFits, ViewOf;
    var garbage := Environment.GarbageStamp();
    ghost var buf := c.msgObuf[..];
    MsgPackSync(c.msgObuf, FromInternal(now, garbage), c.sentSyncSequenceId, c.logSyncInterval);
    Trace(c, opts, buf, Sync(c.sentSyncSequenceId, c.logSyncInterval, FromInternal(now, garbage)));
  }

  /** issueSync: the time stamp is that of the clock when the message was packed. */
  method IssueSync(c: PtpClock, opts: RunTimeOpts) returns (now: TimeInternal)
    requires Inv(c, opts) && c.headerPacked && !opts.slaveOnly
    modifies c`portState, c`itimer, c`messageActivity, c`waitingForFollow,
             c`masterToSlaveDelay, c`observedDrift, c`owdFilt, c`sentSyncSequenceId, c`packed, c.msgObuf
    ensures Inv(c, opts)
    ensures Grew(old(c.packed), c.packed)
    ensures
      var m := Last(c.packed);
      m.Sync? && m == Sync(old(c.sentSyncSequenceId), c.logSyncInterval, m.time) && StampOf(m.time, now)
    ensures Sent(old(c.portState), c.portState, old(c.sentSyncSequenceId), c.sentSyncSequenceId)
    ensures TimersHandled(old(c.portState), c.portState, old(c.itimer), c.itimer)
  {
    hide TimersFit, FilterWithin, Traced, Role, TableFits, TimersHandled, Delivered, ViewOf, StampOf;
    now := Environment.Now();
    PackSync(c, opts, now);
    var ok := Send(c, opts);
    if ok {
      c.sentSyncSequenceId := (c.sentSyncSequenceId + 1) % 0x1_0000;
    }
  }

  /** The FollowUp of the last Sync sent, with the given time. */
  ghost predicate Repeated(v0: View, v1: View, time: TimeInternal) {
    exists stamp :: StampOf(stamp, time) && Packed(v0, v1, FollowUp(v0.sentSyncId, v0.syncInterval, stamp))
  }

  /** The DelayResp to a request, with the given time. */
  ghost predicate Answered(v0: View, v1: View, request: MsgHeader, time: TimeInternal) {
    exists stamp :: StampOf(stamp, time) && Packed(v0, v1, DelayResp(request, v0.requestInterval, stamp))
  }

  /** issueFollowup: the number is that of the last Sync sent. */
  method IssueFollowup(c: PtpClock, opts: RunTimeOpts, time: TimeInternal)
    requires Inv(c, opts) && c.headerPacked
    modifies c`portState, c`itimer, c`messageActivity, c`waitingForFollow,
             c`masterToSlaveDelay, c`observedDrift, c`owdFilt, c`packed, c.msgObuf
    ensures Inv(c, opts)
    ensures Repeated(old(ViewOf(c)), ViewOf(c), time)
    ensures TimersHandled(old(c.portState), c.portState, old(c.itimer), c.itimer)
  {
    hide TimersFit, FilterWithin, Pack, Traced, Role, TableFits, TimersHandled, Grew, Delivered, Packed, FromInternal;
    var garbage := Environment.GarbageStamp();
    ghost var buf := c.msgObuf[..];
    MsgPackFollowUp(c.msgObuf, FromInternal(time, garbage), c.sentSyncSequenceId, c.logSyncInterval);
    var stamp := FromInternal(time, garbage);
    ghost var m := FollowUp(c.sentSyncSequenceId, c.logSyncInterval, stamp);
    Trace(c, opts, buf, m);
    ghost var v := ViewOf(c);
    var ok := Send(c, opts);
    PackedThenSent(old(ViewOf(c)), v, ViewOf(c), m);
    StampedBy(time, garbage);
  }

  /** The number and the time of a request that went out; a clock still at 0 s notes no time. */
  method NoteRequest(c: PtpClock, opts: RunTimeOpts, now: TimeInternal)
    requires Inv(c, opts)
    modifies c`sentDelayReqSequenceId, c`delayReqSendTime
    ensures Inv(c, opts) && c.sentDelayReqSequenceId == (old(c.sentDelayReqSequenceId) + 1) % 0x1_0000
    ensures c.delayReqSendTime == if now.seconds != 0 then Add(now, opts.outboundLatency) else old(c.delayReqSendTime)
  {
    hide TimersFit, FilterWithin, Traced, Role, TableFits, Add;
    c.sentDelayReqSequenceId := (c.sentDelayReqSequenceId + 1) % 0x1_0000;
    if now.seconds != 0 {
      c.delayReqSendTime := Add(now, opts.outboundLatency);
    }
  }

  /** issueDelayReq: the time of a request that went out is noted with the latency added. */
  method IssueDelayReq(c: PtpClock, opts: RunTimeOpts) returns (now: TimeInternal, ok: bool)
    requires Inv(c, opts) && c.headerPacked
    modifies c`portState, c`itimer, c`messageActivity, c`waitingForFollow,
             c`masterToSlaveDelay, c`observedDrift, c`owdFilt, c`sentDelayReqSequenceId, c`delayReqSendTime,
             c`packed, c.msgObuf
    ensures Inv(c, opts)
    ensures Grew(old(c.packed), c.packed)
    ensures
      var m := Last(c.packed);
      m.DelayReq? && m == DelayReq(old(c.sentDelayReqSequenceId), m.time) && StampOf(m.time, now)
    ensures c.portState == if ok then old(c.portState) else Faulty
    ensures c.sentDelayReqSequenceId == (old(c.sentDelayReqSequenceId) + (if ok then 1 else 0)) % 0x1_0000
    ensures c.delayReqSendTime ==
      if ok && now.seconds != 0 then Add(now, opts.outboundLatency) else old(c.delayReqSendTime)
  {
    hide TimersFit, FilterWithin, Pack, Traced, Role, TableFits, TimersHandled, Delivered, ViewOf, Add;
    now := Environment.Now();
    var garbage := Environment.GarbageStamp();
    ghost var buf := c.msgObuf[..];
    MsgPackDelayReq(c.msgObuf, FromInternal(now, garbage), c.sentDelayReqSequenceId);
    Trace(c, opts, buf, DelayReq(c.sentDelayReqSequenceId, FromInternal(now, garbage)));
    ok := Send(c, opts);
    if ok { NoteRequest(c, opts, now); }
  }

  /** issueDelayResp: number, domain and correction are those of the request it answers. */
  method IssueDelayResp(c: PtpClock, opts: RunTimeOpts, time: TimeInternal, request: MsgHeader)
    requires Inv(c, opts) && c.headerPacked && !opts.slaveOnly
    requires request.domainNumber == c.defaultDS.domainNumber
    modifies c`portState, c`itimer, c`messageActivity, c`waitingForFollow,
             c`masterToSlaveDelay, c`observedDrift, c`owdFilt, c`packed, c.msgObuf
    ensures Inv(c, opts)
    ensures Answered(old(ViewOf(c)), ViewOf(c), request, time)
    ensures TimersHandled(old(c.portState), c.portState, old(c.itimer), c.itimer)
  {
    hide TimersFit, FilterWithin, Pack, Traced, Role, TableFits, TimersHandled, Grew, Delivered, Packed, FromInternal;
    var garbage := Environment.GarbageStamp();
    ghost var buf := c.msgObuf[..];
    MsgPackDelayResp(c.msgObuf, request, FromInternal(time, garbage), c.logMinDelayReqInterval);
    var stamp := FromInternal(time, garbage);
    ghost var m := DelayResp(request, c.logMinDelayReqInterval, stamp);
    Trace(c, opts, buf, m);
    ghost var v := ViewOf(c);
    var ok := Send(c, opts);
    PackedThenSent(old(ViewOf(c)), v, ViewOf(c), m);
    StampedBy(time, garbage);
  }

  /* ----- receiving ----- */

  /** The message comes from the port this clock follows. */
  predicate FromParent(h: MsgHeader, parent: ParentDS) {
    parent.parentPortIdentity == h.source
  }

  /** Either the data sets follow the announcing port, or the table takes the Announce; never both. */
  predicate Noted(followed: bool, a: Heard, v0: View, v1: View) {
    && v1.update && v1.history == v0.history + [if followed then Followed(a) else Entered(a)]
    && v1 == v0.(update := true, history := v1.history, table := v1.table, current := v1.current, parent := v1.parent)
    && if followed
       then v1.table == v0.table && v1.current == FollowCurrent(v0.current, a.announce) &&
            v1.parent == FollowParent(v0.parent, a.header, a.announce)
       else InBounds(v0.table) && v1.table == AddTo(v0.table, a) &&
            v1.current == v0.current && v1.parent == v0.parent
  }

  /** An Announce of a port other than the parent, or in another state, goes into the table. */
  method Enter(c: PtpClock, opts: RunTimeOpts, header: MsgHeader)
    requires Inv(c, opts) && !c.recordUpdate
    modifies c`foreign, c`numberForeignRecords, c`foreignRecordI, c`recordUpdate, c`history
    ensures Inv(c, opts) && c.recordUpdate
    ensures Noted(false, Heard(header, UnpackAnnounce(c.msgIbuf)), old(ViewOf(c)), ViewOf(c))
  {
    hide Traced, TimersFit, FilterWithin, Role, UnpackAnnounce, AddTo, After, Paced, Pending;
    ghost var e := Entered(Heard(header, UnpackAnnounce(c.msgIbuf)));
    RunStep(c.boot, c.history, e);
    AddForeign(c, header, UnpackAnnounce(c.msgIbuf));
    c.recordUpdate := true;
    c.history := c.history + [e];
  }

  /** The data sets of the sender of an Announce. */
  method TakeAnnounce(c: PtpClock, opts: RunTimeOpts, header: MsgHeader)
    requires Inv(c, opts) && c.portState.Slave?
    modifies c`msgTmpAnnounce, c`currentDS, c`parentDS, c`timePropertiesDS
    ensures Inv(c, opts)
    ensures ViewOf(c) == old(ViewOf(c)).(current := FollowCurrent(old(c.currentDS), UnpackAnnounce(c.msgIbuf)),
                                         parent := FollowParent(old(c.parentDS), header, UnpackAnnounce(c.msgIbuf)))
  {
    hide Traced, TimersFit, FilterWithin, TableFits, UnpackAnnounce, FollowCurrent, FollowParent, FollowProperties;
    c.msgTmpAnnounce := UnpackAnnounce(c.msgIbuf);
    S1(c, header, c.msgTmpAnnounce);
  }

  /** A slave takes an Announce of its parent at once, and does not enter it. */
  method Follow(c: PtpClock, opts: RunTimeOpts, header: MsgHeader)
    requires Inv(c, opts) && c.portState.Slave? && !c.recordUpdate
    modifies c`recordUpdate, c`msgTmpAnnounce, c`currentDS, c`parentDS, c`timePropertiesDS, c`history
    ensures Inv(c, opts) && c.recordUpdate
    ensures Noted(true, Heard(header, UnpackAnnounce(c.msgIbuf)), old(ViewOf(c)), ViewOf(c))
  {
    hide Traced, TimersFit, FilterWithin, UnpackAnnounce, After, Paced, Pending, Role, FollowCurrent, FollowParent;
    ghost var e := Followed(Heard(header, UnpackAnnounce(c.msgIbuf)));
    TakeAnnounce(c, opts, header);
    RunStep(c.boot, c.history, e);
    c.recordUpdate := true;
    c.history := c.history + [e];
  }

  /** Resetting the receipt timeout in SLAVE. */
  method RestartReceipt(c: PtpClock, opts: RunTimeOpts)
    requires Inv(c, opts) && c.portState.Slave?
    modifies c`itimer
    ensures Inv(c, opts) && TimersHandled(c.portState, c.portState, old(c.itimer), c.itimer)
  {
    hide Traced, FilterWithin, TableFits, ExpiryKept;
    StartTimer(c, ANNOUNCE_RECEIPT_TIMER);
  }

  /** An Announce in an active state: a slave follows its parent, everything else is entered. */
  method NoteAnnounce(c: PtpClock, opts: RunTimeOpts, header: MsgHeader)
    requires Inv(c, opts) && !c.recordUpdate && Active(c.portState)
    modifies c`foreign, c`numberForeignRecords, c`foreignRecordI, c`recordUpdate, c`msgTmpAnnounce,
             c`currentDS, c`parentDS, c`timePropertiesDS, c`itimer, c`history
    ensures Inv(c, opts) && c.recordUpdate
    ensures Noted(c.portState.Slave? && FromParent(header, old(c.parentDS)), Heard(header, UnpackAnnounce(c.msgIbuf)),
                  old(ViewOf(c)), ViewOf(c))
    ensures TimersHandled(c.portState, c.portState, old(c.itimer), c.itimer)
  {
    hide Inv, UnpackAnnounce, Noted, ExpiryKept;
    StateFacts(c, opts);
    if c.portState.Slave? {
      if FromParent(header, c.parentDS) {
        Follow(c, opts, header);
      } else {
        Enter(c, opts, header);
      }
      RestartReceipt(c, opts);
    } else {
      Enter(c, opts, header);
    }
  }

  /** What an Announce does: in an active port, and not its own, it is noted and asks for a decision. */
  predicate AnnounceHandled(v0: View, v1: View, h: MsgHeader, buf: Packet, length: nat, isFromSelf: bool) {
    if length < ANNOUNCE_LENGTH then Rejected(v0, v1)
    else if !Active(v0.state) || isFromSelf then v1 == v0
    else Noted(v0.state.Slave? && FromParent(h, v0.parent), Heard(h, UnpackAnnounce(buf)), v0, v1)
  }

  /** handleAnnounce */
  method HandleAnnounce(c: PtpClock, opts: RunTimeOpts, header: MsgHeader, length: nat, isFromSelf: bool)
    requires Inv(c, opts) && !c.recordUpdate
    modifies c`foreign, c`numberForeignRecords, c`foreignRecordI, c`recordUpdate, c`msgTmpAnnounce,
             c`currentDS, c`parentDS, c`timePropertiesDS, c`portState, c`itimer, c`messageActivity,
             c`waitingForFollow, c`masterToSlaveDelay, c`observedDrift, c`owdFilt, c`history
    ensures Inv(c, opts)
    ensures c.portState == if length < ANNOUNCE_LENGTH then Faulty else old(c.portState)
    ensures c.recordUpdate == (old(Active(c.portState)) && length >= ANNOUNCE_LENGTH && !isFromSelf)
    ensures AnnounceHandled(old(ViewOf(c)), ViewOf(c), header, c.msgIbuf, length, isFromSelf)
    ensures TimersHandled(old(c.portState), c.portState, old(c.itimer), c.itimer)
  {
    hide Inv, UnpackAnnounce, Noted, Rejected;
    StateFacts(c, opts);
    if length < ANNOUNCE_LENGTH {
      Fault(c, opts);
      return;
    }
    if c.portState.Initializing? || c.portState.Faulty? || c.portState.Disabled? || isFromSelf { return; }
    NoteAnnounce(c, opts, header);
  }

  /** The offset from the master, by the times of one Sync: a small one is halved. */
  predicate OffsetTaken(received: TimeInternal, sent: TimeInternal, correction: TimeInternal, c0: CurrentDS,
                        c1: CurrentDS)
  {
    var offset := OffsetOf(received, sent, correction, c0.meanPathDelay);
    && c1 == c0.(offsetFromMaster := c1.offsetFromMaster)
    && if OffTooFar(offset) then c1.offsetFromMaster == offset
       else c1.offsetFromMaster.seconds == 0 && c1.offsetFromMaster.nanoseconds == TruncDiv(offset.nanoseconds, 2)
  }

  /** The time of a time stamp: exact where its seconds fit, left as it was elsewhere. */
  predicate TimeOf(t: TimeInternal, stamp: Timestamp) {
    t == ToInternal(stamp, t)
  }

  /** The offset is taken from the times of the Sync noted last. */
  predicate Synchronised(v0: View, v1: View, sent: TimeInternal, correction: TimeInternal) {
    && v1 == v0.(current := v1.current, delayMS := Sub(v0.syncTime, sent), filter := v1.filter)
    && OffsetTaken(v0.syncTime, sent, correction, v0.current, v1.current)
  }

  method TakeOffset(c: PtpClock, opts: RunTimeOpts, sendTime: TimeInternal, correction: TimeInternal)
    requires Inv(c, opts) && c.portState.Slave?
    modifies c`masterToSlaveDelay, c`delayMS, c`currentDS, c`ofmNsecPrev, opts`offsetFirstUpdated
    ensures Inv(c, opts) && Abs(c.currentDS.offsetFromMaster.nanoseconds) < BILLION
    ensures Synchronised(old(ViewOf(c)), ViewOf(c), sendTime, correction)
  {
    hide Traced, TimersFit, FilterWithin, TableFits, OffTooFar, Sub, OffsetOf, TruncDiv, OwnMaster;
    UpdateOffset(c, opts, sendTime, c.syncReceiveTime, correction);
  }

  method AdjustClock(c: PtpClock, opts: RunTimeOpts)
    requires Inv(c, opts) && Abs(c.currentDS.offsetFromMaster.nanoseconds) < BILLION
    modifies c`masterToSlaveDelay, c`observedDrift, c`owdFilt, opts`ap, opts`ai
    ensures Inv(c, opts) && ViewOf(c) == old(ViewOf(c)).(filter := c.owdFilt)
  {
    hide Traced, TimersFit, FilterWithin, TableFits, OffTooFar, NextDrift, Sub, TruncDiv, Role;
    var now := Environment.Now();
    var sysTime, adj := UpdateClock(c, opts, now);
  }

  /** The servo after a time stamp of the master: offset, then clock. */
  method Synchronise(c: PtpClock, opts: RunTimeOpts, sendTime: TimeInternal, correction: TimeInternal)
    requires Inv(c, opts) && c.portState.Slave?
    modifies c`masterToSlaveDelay, c`delayMS, c`currentDS, c`ofmNsecPrev, c`observedDrift, c`owdFilt,
             opts`offsetFirstUpdated, opts`ap, opts`ai
    ensures Inv(c, opts)
    ensures Synchronised(old(ViewOf(c)), ViewOf(c), sendTime, correction)
  {
    hide Inv, OffsetTaken, Sub;
    TakeOffset(c, opts, sendTime, correction);
    AdjustClock(c, opts);
  }

  /** A Sync of the parent: its arrival is noted; with the two-step flag it waits for the
      FollowUp of its number, without it gives the offset by its own times. */
  predicate SyncTaken(v0: View, v1: View, h: MsgHeader, buf: Packet, time: TimeInternal, sent: TimeInternal,
                      correction: TimeInternal)
  {
    if Bit(h.flags.0, 2)
    then v1 == v0.(syncTime := time, waiting := true, syncId := h.sequenceId, syncCorrection := correction)
    else
      && TimeOf(sent, UnpackTimestamp(buf))
      && Synchronised(v0.(syncTime := time, waiting := false), v1, sent, correction)
  }

  /** Noting when a Sync arrived, and whether its FollowUp is waited for. */
  method NoteArrival(c: PtpClock, opts: RunTimeOpts, time: TimeInternal, twoStep: bool)
    requires Inv(c, opts)
    modifies c`syncReceiveTime, c`waitingForFollow
    ensures Inv(c, opts) && ViewOf(c) == old(ViewOf(c)).(syncTime := time, waiting := twoStep)
  {
    hide Traced, TimersFit, FilterWithin, TableFits, Role;
    c.syncReceiveTime := time;
    c.waitingForFollow := twoStep;
  }

  /** Noting the number and the correction of the Sync whose FollowUp is waited for. */
  method NoteTwoStep(c: PtpClock, opts: RunTimeOpts, id: u16, correction: TimeInternal)
    requires Inv(c, opts)
    modifies c`recvSyncSequenceId, c`lastSyncCorrectionField
    ensures Inv(c, opts) && ViewOf(c) == old(ViewOf(c)).(syncId := id, syncCorrection := correction)
  {
    hide Traced, TimersFit, FilterWithin, TableFits, Role;
    c.recvSyncSequenceId := id;
    c.lastSyncCorrectionField := correction;
  }

  method TakeSync(c: PtpClock, opts: RunTimeOpts, header: MsgHeader, time: TimeInternal)
    returns (sent: TimeInternal, correction: TimeInternal)
    requires Inv(c, opts) && c.portState.Slave?
    modifies c`syncReceiveTime, c`waitingForFollow, c`recvSyncSequenceId, c`lastSyncCorrectionField,
             c`masterToSlaveDelay, c`delayMS, c`currentDS, c`ofmNsecPrev, c`observedDrift, c`owdFilt,
             opts`offsetFirstUpdated, opts`ap, opts`ai
    ensures Inv(c, opts)
    ensures SyncTaken(old(ViewOf(c)), ViewOf(c), header, c.msgIbuf, time, sent, correction)
  {
    hide Inv, UnpackTimestamp, Synchronised;
    sent := Environment.GarbageTime();
    correction := Environment.Correction();
    NoteArrival(c, opts, time, Bit(header.flags.0, 2));
    if Bit(header.flags.0, 2) {
      NoteTwoStep(c, opts, header.sequenceId, correction);
    } else {
      sent := ToInternal(UnpackTimestamp(c.msgIbuf), sent);
      Synchronise(c, opts, sent, correction);
    }
  }

  /** What a Sync does: a slave takes its parent's, any other active port repeats its own in a FollowUp. */
  ghost predicate SyncHandled(v0: View, v1: View, h: MsgHeader, buf: Packet, length: nat, time: TimeInternal,
                        isFromSelf: bool, latency: TimeInternal, sent: TimeInternal, correction: TimeInternal)
  {
    if length < SYNC_LENGTH then Rejected(v0, v1)
    else if v0.state.Slave? && !isFromSelf && FromParent(h, v0.parent)
    then SyncTaken(v0, v1, h, buf, time, sent, correction)
    else if Active(v0.state) && !v0.state.Slave? && isFromSelf then Repeated(v0, v1, Add(time, latency))
    else v1 == v0
  }

  /** handleSync */
  method HandleSync(c: PtpClock, opts: RunTimeOpts, header: MsgHeader, length: nat, time: TimeInternal,
                    isFromSelf: bool)
    returns (sent: TimeInternal, correction: TimeInternal)
    requires Inv(c, opts)
    modifies c`syncReceiveTime, c`recvSyncSequenceId, c`lastSyncCorrectionField, c`delayMS, c`currentDS, c`ofmNsecPrev,
             c`portState, c`itimer, c`messageActivity, c`waitingForFollow, c`masterToSlaveDelay, c`observedDrift,
             c`owdFilt, c`packed, c.msgObuf, opts`offsetFirstUpdated, opts`ap, opts`ai
    ensures Inv(c, opts)
    ensures SyncHandled(old(ViewOf(c)), ViewOf(c), header, c.msgIbuf, length, time, isFromSelf, opts.outboundLatency,
                        sent, correction)
    ensures TimersHandled(old(c.portState), c.portState, old(c.itimer), c.itimer)
  {
    hide Inv, Add, SyncTaken, Repeated, Rejected;
    StateFacts(c, opts);
    sent, correction := ZERO_TIME, ZERO_TIME;
    if length < SYNC_LENGTH {
      Fault(c, opts);
      return;
    }
    if c.portState.Initializing? || c.portState.Faulty? || c.portState.Disabled? { return; }
    if c.portState.Uncalibrated? || c.portState.Slave? {
      if !isFromSelf && FromParent(header, c.parentDS) {
        sent, correction := TakeSync(c, opts, header, time);
      }
    } else if isFromSelf {
      IssueFollowup(c, opts, Add(time, opts.outboundLatency));
    }
  }

  /** The FollowUp waited for: the offset by its time and the arrival of the Sync. */
  predicate FollowUpTaken(v0: View, v1: View, buf: Packet, sent: TimeInternal, correction: TimeInternal) {
    && TimeOf(sent, UnpackTimestamp(buf))
    && Synchronised(v0.(waiting := false), v1, sent, Add(correction, v0.syncCorrection))
  }

  method TakeFollowUp(c: PtpClock, opts: RunTimeOpts) returns (sent: TimeInternal, correction: TimeInternal)
    requires Inv(c, opts) && c.portState.Slave?
    modifies c`waitingForFollow, c`masterToSlaveDelay, c`delayMS, c`currentDS, c`ofmNsecPrev, c`observedDrift,
             c`owdFilt, opts`offsetFirstUpdated, opts`ap, opts`ai
    ensures Inv(c, opts)
    ensures FollowUpTaken(old(ViewOf(c)), ViewOf(c), c.msgIbuf, sent, correction)
  {
    hide Traced, TimersFit, FilterWithin, TableFits, Role, UnpackTimestamp, Synchronised, Add;
    c.waitingForFollow := false;
    sent := Environment.GarbageTime();
    sent := ToInternal(UnpackTimestamp(c.msgIbuf), sent);
    correction := Environment.Correction();
    Synchronise(c, opts, sent, Add(correction, c.lastSyncCorrectionField));
  }

  /** What a FollowUp does: a slave that waits for this number from its parent takes it. */
  predicate FollowUpHandled(v0: View, v1: View, h: MsgHeader, buf: Packet, length: nat, isFromSelf: bool,
                            sent: TimeInternal, correction: TimeInternal)
  {
    if length < FOLLOW_UP_LENGTH then Rejected(v0, v1)
    else if !isFromSelf && v0.state.Slave? && FromParent(h, v0.parent) && v0.waiting && v0.syncId == h.sequenceId
    then FollowUpTaken(v0, v1, buf, sent, correction)
    else v1 == v0
  }

  /** handleFollowUp */
  method HandleFollowUp(c: PtpClock, opts: RunTimeOpts, header: MsgHeader, length: nat, isFromSelf: bool)
    returns (sent: TimeInternal, correction: TimeInternal)
    requires Inv(c, opts)
    modifies c`delayMS, c`currentDS, c`ofmNsecPrev, c`portState, c`itimer, c`messageActivity, c`waitingForFollow,
             c`masterToSlaveDelay, c`observedDrift, c`owdFilt, opts`offsetFirstUpdated, opts`ap, opts`ai
    ensures Inv(c, opts)
    ensures FollowUpHandled(old(ViewOf(c)), ViewOf(c), header, c.msgIbuf, length, isFromSelf, sent, correction)
    ensures TimersHandled(old(c.portState), c.portState, old(c.itimer), c.itimer)
  {
    hide Inv, FollowUpTaken, Rejected;
    StateFacts(c, opts);
    sent, correction := ZERO_TIME, ZERO_TIME;
    if length < FOLLOW_UP_LENGTH {
      Fault(c, opts);
      return;
    }
    if isFromSelf { return; }
    if c.portState.Slave? && FromParent(header, c.parentDS) {
      if c.waitingForFollow && c.recvSyncSequenceId == header.sequenceId {
        sent, correction := TakeFollowUp(c, opts);
      }
    }
  }

  /** What a DelayReq does: a master answers it, a slave notes when its own went out. */
  ghost predicate DelayReqHandled(v0: View, v1: View, h: MsgHeader, length: nat, time: TimeInternal, isFromSelf: bool,
                            latency: TimeInternal)
  {
    if length < DELAY_REQ_LENGTH then Rejected(v0, v1)
    else if v0.state.Master? then Answered(v0, v1, h, time)
    else if v0.state.Slave? && isFromSelf then v1 == v0.(requestTime := Add(time, latency))
    else v1 == v0
  }

  /** Noting when an own request went out. */
  method NoteOwnRequest(c: PtpClock, opts: RunTimeOpts, time: TimeInternal)
    requires Inv(c, opts)
    modifies c`delayReqSendTime
    ensures Inv(c, opts) && ViewOf(c) == old(ViewOf(c)).(requestTime := Add(time, opts.outboundLatency))
  {
    hide TimersFit, FilterWithin, Traced, Add, TableFits, Role;
    c.delayReqSendTime := Add(time, opts.outboundLatency);
  }

  /** handleDelayReq */
  method HandleDelayReq(c: PtpClock, opts: RunTimeOpts, header: MsgHeader, length: nat, time: TimeInternal,
                        isFromSelf: bool)
    requires Inv(c, opts) && header.domainNumber == c.defaultDS.domainNumber
    modifies c`portState, c`itimer, c`messageActivity, c`waitingForFollow,
             c`masterToSlaveDelay, c`observedDrift, c`owdFilt, c`delayReqSendTime, c`packed, c.msgObuf
    ensures Inv(c, opts)
    ensures DelayReqHandled(old(ViewOf(c)), ViewOf(c), header, length, time, isFromSelf, opts.outboundLatency)
    ensures TimersHandled(old(c.portState), c.portState, old(c.itimer), c.itimer)
  {
    hide Inv, Add, Answered, Rejected;
    StateFacts(c, opts);
    if length < DELAY_REQ_LENGTH {
      Fault(c, opts);
      return;
    }
    match c.portState {
      case Slave =>
        if isFromSelf { NoteOwnRequest(c, opts, time); }
      case Master =>
        IssueDelayResp(c, opts, time, header);
      case _ =>
    }
  }

  /** The response answers the last request of this port, and comes from its parent. */
  predicate Answers(h: MsgHeader, requester: PortIdentity, parent: ParentDS, self: PortIdentity, sentId: u16) {
    sentId - 1 == h.sequenceId && requester == self && FromParent(h, parent)
  }

  /** The parent's answer to the last request passes for one unless the counter has just
      wrapped: the code compares with the number before it as an int. */
  lemma LastAnswerTaken(h: MsgHeader, requester: PortIdentity, parent: ParentDS, self: PortIdentity, sentId: u16)
    requires requester == self && FromParent(h, parent) && h.sequenceId == (sentId - 1) % 0x1_0000
    ensures Answers(h, requester, parent, self, sentId) <==> sentId != 0
  {
  }

  /** An answer taken: its time and interval are noted, and the delay once there is an offset. */
  predicate ResponseTaken(v0: View, v1: View, h: MsgHeader, buf: Packet, measured: bool, s: int,
                          correction: TimeInternal)
  {
    && v1 == v0.(answerTime := v1.answerTime, requestInterval := h.logMessageInterval, current := v1.current,
                 filter := v1.filter)
    && TimeOf(v1.answerTime, UnpackTimestamp(buf))
    && if measured
       then DelayTaken(MeanDelay(Sub(v1.answerTime, v0.requestTime), v0.delayMS, correction), s, v0.filter, v1.filter,
                       v0.current, v1.current)
       else v1.filter == v0.filter && v1.current == v0.current
  }

  /** Noting when the last request arrived at the master, and the interval it asks for. */
  method NoteAnswer(c: PtpClock, opts: RunTimeOpts, time: TimeInternal, interval: byte)
    requires Inv(c, opts)
    modifies c`delayReqReceiveTime, c`logMinDelayReqInterval
    ensures Inv(c, opts) && ViewOf(c) == old(ViewOf(c)).(answerTime := time, requestInterval := interval)
  {
    hide Traced, TimersFit, FilterWithin, TableFits, Role;
    c.delayReqReceiveTime := time;
    c.logMinDelayReqInterval := interval;
  }

  /** The servo after the answer of the master. */
  method Measure(c: PtpClock, opts: RunTimeOpts, correction: TimeInternal)
    requires Inv(c, opts) && c.portState.Slave?
    modifies c`delaySM, c`currentDS, c`owdFilt
    ensures Inv(c, opts)
    ensures ViewOf(c) == old(ViewOf(c)).(current := c.currentDS, filter := c.owdFilt)
    ensures
      if opts.offsetFirstUpdated
      then DelayTaken(MeanDelay(Sub(c.delayReqReceiveTime, c.delayReqSendTime), c.delayMS, correction), opts.s,
                      old(c.owdFilt), c.owdFilt, old(c.currentDS), c.currentDS)
      else c.owdFilt == old(c.owdFilt) && c.currentDS == old(c.currentDS)
  {
    hide Traced, TimersFit, FilterWithin, TableFits, MeanDelay, OwnMaster, Sub, DelayTaken;
    UpdateDelay(c, opts, correction);
  }

  method TakeResponse(c: PtpClock, opts: RunTimeOpts, header: MsgHeader) returns (correction: TimeInternal)
    requires Inv(c, opts) && c.portState.Slave?
    modifies c`delayReqReceiveTime, c`delaySM, c`currentDS, c`owdFilt, c`logMinDelayReqInterval
    ensures Inv(c, opts)
    ensures ResponseTaken(old(ViewOf(c)), ViewOf(c), header, c.msgIbuf, opts.offsetFirstUpdated, opts.s, correction)
  {
    hide Inv, UnpackTimestamp, MeanDelay, Sub, DelayTaken;
    var garbage := Environment.GarbageTime();
    NoteAnswer(c, opts, ToInternal(UnpackTimestamp(c.msgIbuf), garbage), header.logMessageInterval);
    correction := Environment.Correction();
    Measure(c, opts, correction);
  }

  /** What a DelayResp does: a slave takes its parent's answer to its own last request. */
  predicate DelayRespHandled(v0: View, v1: View, h: MsgHeader, buf: Packet, length: nat, self: PortIdentity,
                             measured: bool, s: int, correction: TimeInternal)
  {
    if length < DELAY_RESP_LENGTH then Rejected(v0, v1)
    else if v0.state.Slave? && Answers(h, UnpackRequester(buf), v0.parent, self, v0.requestId)
    then ResponseTaken(v0, v1, h, buf, measured, s, correction)
    else v1 == v0
  }

  /** handleDelayResp */
  method HandleDelayResp(c: PtpClock, opts: RunTimeOpts, header: MsgHeader, length: nat)
    returns (correction: TimeInternal)
    requires Inv(c, opts)
    modifies c`delayReqReceiveTime, c`delaySM, c`currentDS, c`logMinDelayReqInterval, c`portState, c`itimer,
             c`messageActivity, c`waitingForFollow, c`masterToSlaveDelay, c`observedDrift, c`owdFilt
    ensures Inv(c, opts)
    ensures DelayRespHandled(old(ViewOf(c)), ViewOf(c), header, c.msgIbuf, length, c.portIdentity,
                             opts.offsetFirstUpdated, opts.s, correction)
    ensures TimersHandled(old(c.portState), c.portState, old(c.itimer), c.itimer)
  {
    hide Inv, UnpackRequester, ResponseTaken, Rejected;
    StateFacts(c, opts);
    correction := ZERO_TIME;
    if length < DELAY_RESP_LENGTH {
      Fault(c, opts);
      return;
    }
    if c.portState.Slave? {
      if Answers(header, UnpackRequester(c.msgIbuf), c.parentDS, c.portIdentity, c.sentDelayReqSequenceId) {
        correction := TakeResponse(c, opts, header);
      }
    }
  }

  /** The clock's own messages come back with its port identity. */
  predicate FromSelf(h: MsgHeader, self: PortIdentity) {
    h.source == self
  }

  /** The time of arrival of a Sync or DelayReq as handle determines it. */
  method ArrivalTime(c: PtpClock, h: MsgHeader) returns (time: TimeInternal)
    modifies c`localTimeInit
    ensures c.localTimeInit == (old(c.localTimeInit) || h.messageType == 0x0)
    ensures h.messageType == 0x0 && !old(c.localTimeInit) ==> time == ZERO_TIME
    ensures h.messageType == 0x0 && old(c.localTimeInit) && c.portState.Master? ==>
      time == TimeInternal(Wrap(U32(c.msgIbuf, 36)), Wrap(U32(c.msgIbuf, 40)))
    ensures h.messageType > 0x1 ==> time == ZERO_TIME
  {
    time := ZERO_TIME;
    var now := Environment.Now();
    if h.messageType == 0x0 {
      if !c.localTimeInit {
        c.localTimeInit := true;
      } else if c.portState.Master? {
        time := TimeInternal(Wrap(U32(c.msgIbuf, 36)), Wrap(U32(c.msgIbuf, 40)));
      } else {
        time := now;
      }
    } else if h.messageType == 0x1 {
      time := now;
    }
  }

  /** Handling a message sends at most one: a FollowUp or a DelayResp. */
  predicate Replied(before: seq<Outgoing>, after: seq<Outgoing>) {
    after == before || (Grew(before, after) && (Last(after).FollowUp? || Last(after).DelayResp?))
  }

  /** What a message between a slave and its master does, by its type. */
  ghost predicate DelayHandled(v0: View, v1: View, h: MsgHeader, buf: Packet, length: nat, time: TimeInternal,
                               self: PortIdentity, latency: TimeInternal, measured: bool, s: int,
                               correction: TimeInternal)
  {
    if h.messageType == 0x1 then DelayReqHandled(v0, v1, h, length, time, FromSelf(h, self), latency)
    else if h.messageType == 0x9 then DelayRespHandled(v0, v1, h, buf, length, self, measured, s, correction)
    else v1 == v0
  }

  /**
   What a message of this version and domain does, by its type: the one statement
   of the whole receiving half. `sent` and `correction` are the times the message
   carried, `measured` says whether there is an offset already.
   */
  ghost predicate MessageHandled(v0: View, v1: View, buf: Packet, length: nat, time: TimeInternal, self: PortIdentity,
                                 latency: TimeInternal, measured: bool, s: int, sent: TimeInternal,
                                 correction: TimeInternal)
  {
    var h := UnpackHeader(buf);
    var isFromSelf := FromSelf(h, self);
    if h.messageType == 0xB then AnnounceHandled(v0, v1, h, buf, length, isFromSelf)
    else if h.messageType == 0x0
    then SyncHandled(v0, v1, h, buf, length, time, isFromSelf, latency, sent, correction)
    else if h.messageType == 0x8 then FollowUpHandled(v0, v1, h, buf, length, isFromSelf, sent, correction)
    else DelayHandled(v0, v1, h, buf, length, time, self, latency, measured, s, correction)
  }

  /** The times of one Sync, none of whose differences leaves the range of the seconds. */
  predicate Measurable(time: TimeInternal, sent: TimeInternal, correction: TimeInternal, delay: TimeInternal) {
    && ExactSub(time, sent) && ExactSub(Sub(time, sent), correction)
    && ExactSub(Sub(Sub(time, sent), correction), delay)
  }

  /** The offset stored for a measured difference: half of it, unless it is too far off to be filtered. */
  predicate OffsetFor(difference: int, offset: TimeInternal) {
    Total(offset) ==
    if difference >= 110_000_000 || difference <= -BILLION then difference else TruncDiv(difference, 2)
  }

  lemma OffsetMeasured(time: TimeInternal, sent: TimeInternal, correction: TimeInternal, c0: CurrentDS, c1: CurrentDS)
    requires OffsetTaken(time, sent, correction, c0, c1) && Measurable(time, sent, correction, c0.meanPathDelay)
    ensures OffsetFor(Total(time) - Total(sent) - Total(correction) - Total(c0.meanPathDelay), c1.offsetFromMaster)
  {
    hide Sub, InRange;
    OffsetIsDifference(time, sent, correction, c0.meanPathDelay);
    TooFarIff(OffsetOf(time, sent, correction, c0.meanPathDelay));
  }

  /** A Sync of the parent without the two-step flag, received by a slave: the offset is
      arrival minus time stamp minus correction minus delay, stored as OffsetFor says. */
  lemma SlaveMeasures(v0: View, v1: View, buf: Packet, length: nat, time: TimeInternal, self: PortIdentity,
                      latency: TimeInternal, measured: bool, s: int, sent: TimeInternal, correction: TimeInternal)
    requires MessageHandled(v0, v1, buf, length, time, self, latency, measured, s, sent, correction)
    requires
      var h := UnpackHeader(buf);
      && h.messageType == 0x0 && length >= SYNC_LENGTH && !Bit(h.flags.0, 2)
      && v0.state.Slave? && FromParent(h, v0.parent) && !FromSelf(h, self)
    requires Measurable(time, sent, correction, v0.current.meanPathDelay)
    ensures v1.state.Slave? && v1.syncTime == time && !v1.waiting && TimeOf(sent, UnpackTimestamp(buf))
    ensures OffsetFor(Total(time) - Total(sent) - Total(correction) - Total(v0.current.meanPathDelay),
                      v1.current.offsetFromMaster)
  {
    hide UnpackHeader, UnpackTimestamp, OffsetTaken, Measurable, OffsetFor, TimeOf, Sub;
    OffsetMeasured(time, sent, correction, v0.current, v1.current);
  }

  /** With the two-step flag the offset comes with the FollowUp of the same number handled
      next, by its time stamp and the arrival of the Sync. */
  lemma SlaveMeasuresTwoStep(v0: View, v1: View, v2: View, sync: Packet, followUp: Packet, length: nat, length': nat,
                             time: TimeInternal, time': TimeInternal, self: PortIdentity, latency: TimeInternal,
                             measured: bool, s: int, sent: TimeInternal, sent': TimeInternal,
                             correction: TimeInternal, correction': TimeInternal)
    requires MessageHandled(v0, v1, sync, length, time, self, latency, measured, s, sent, correction)
    requires MessageHandled(v1, v2, followUp, length', time', self, latency, measured, s, sent', correction')
    requires
      var h, g := UnpackHeader(sync), UnpackHeader(followUp);
      && h.messageType == 0x0 && length >= SYNC_LENGTH && Bit(h.flags.0, 2)
      && g.messageType == 0x8 && length' >= FOLLOW_UP_LENGTH && g.sequenceId == h.sequenceId
      && v0.state.Slave? && FromParent(h, v0.parent) && FromParent(g, v0.parent)
      && !FromSelf(h, self) && !FromSelf(g, self)
    requires Measurable(time, sent', Add(correction', correction), v0.current.meanPathDelay)
    ensures v2.state.Slave? && !v2.waiting && TimeOf(sent', UnpackTimestamp(followUp))
    ensures OffsetFor(Total(time) - Total(sent') - Total(Add(correction', correction))
                      - Total(v0.current.meanPathDelay), v2.current.offsetFromMaster)
  {
    hide UnpackHeader, UnpackTimestamp, OffsetTaken, Measurable, OffsetFor, TimeOf, Sub, Add;
    assert v1.current == v0.current && v1.syncTime == time && v1.waiting && v1.syncCorrection == correction;
    OffsetMeasured(time, sent', Add(correction', correction), v1.current, v2.current);
  }

  /** A DelayReq received by a master is answered, to its sender and number, with the time it arrived. */
  lemma MasterAnswers(v0: View, v1: View, buf: Packet, length: nat, time: TimeInternal, self: PortIdentity,
                      latency: TimeInternal, measured: bool, s: int, sent: TimeInternal, correction: TimeInternal)
    requires MessageHandled(v0, v1, buf, length, time, self, latency, measured, s, sent, correction)
    requires UnpackHeader(buf).messageType == 0x1 && length >= DELAY_REQ_LENGTH && v0.state.Master?
    ensures |v1.packed| == |v0.packed| + 1 && v0.packed == v1.packed[..|v0.packed|]
    ensures
      var m := v1.packed[|v0.packed|];
      m.DelayResp? && m.request == UnpackHeader(buf) && StampOf(m.time, time)
  {
    hide UnpackHeader, StampOf;
  }

  /** The parent's answer to the last request of a slave that has an offset: the mean path
      delay is measured from the times of both directions, halved as Halves says, and
      filtered unless it is of whole seconds. */
  lemma SlaveMeasuresDelay(v0: View, v1: View, buf: Packet, length: nat, time: TimeInternal, self: PortIdentity,
                           latency: TimeInternal, s: int, sent: TimeInternal, correction: TimeInternal)
    requires MessageHandled(v0, v1, buf, length, time, self, latency, true, s, sent, correction)
    requires
      var h := UnpackHeader(buf);
      && h.messageType == 0x9 && length >= DELAY_RESP_LENGTH && v0.state.Slave?
      && Answers(h, UnpackRequester(buf), v0.parent, self, v0.requestId)
    requires ExactSub(v1.answerTime, v0.requestTime) && Normal(v0.delayMS) && Normal(correction)
    requires
      var sm := Sub(v1.answerTime, v0.requestTime);
      var sum := Add(sm, v0.delayMS);
      && InRange(sm.seconds + v0.delayMS.seconds, sm.nanoseconds + v0.delayMS.nanoseconds)
      && InRange(sum.seconds - correction.seconds, sum.nanoseconds - correction.nanoseconds)
    ensures TimeOf(v1.answerTime, UnpackTimestamp(buf))
    ensures exists mean ::
      && DelayTaken(mean, s, v0.filter, v1.filter, v0.current, v1.current)
      && Halves(mean, Total(v1.answerTime) - Total(v0.requestTime) + Total(v0.delayMS) - Total(correction))
  {
    hide UnpackHeader, UnpackTimestamp, UnpackRequester, DelayTaken, MeanDelay, Halves, InRange, Add, Sub, TimeOf,
         Answers, Total, Normal;
    var sm := Sub(v1.answerTime, v0.requestTime);
    AddSubExact(v1.answerTime, v0.requestTime);
    MeanIsHalf(sm, v0.delayMS, correction);
    var mean := MeanDelay(sm, v0.delayMS, correction);
    assert DelayTaken(mean, s, v0.filter, v1.filter, v0.current, v1.current);
  }

  /** Delay requests and their answers; peer delay, management and signaling have no effect here. */
  method DispatchDelay(c: PtpClock, opts: RunTimeOpts, header: MsgHeader, length: nat, time: TimeInternal,
                       isFromSelf: bool)
    returns (correction: TimeInternal)
    requires Inv(c, opts) && header.domainNumber == c.defaultDS.domainNumber
    requires isFromSelf == FromSelf(header, c.portIdentity)
    modifies c`delayReqReceiveTime, c`delaySM, c`currentDS, c`logMinDelayReqInterval, c`portState, c`itimer,
             c`messageActivity, c`waitingForFollow, c`masterToSlaveDelay, c`observedDrift, c`owdFilt,
             c`delayReqSendTime, c`packed, c.msgObuf
    ensures Inv(c, opts)
    ensures TimersHandled(old(c.portState), c.portState, old(c.itimer), c.itimer)
    ensures DelayHandled(old(ViewOf(c)), ViewOf(c), header, c.msgIbuf, length, time, c.portIdentity,
                         opts.outboundLatency, opts.offsetFirstUpdated, opts.s, correction)
  {
    hide Inv, DelayReqHandled, DelayRespHandled, FromSelf;
    StateFacts(c, opts);
    correction := ZERO_TIME;
    if header.messageType == 0x1 {
      HandleDelayReq(c, opts, header, length, time, isFromSelf);
    } else if header.messageType == 0x9 {
      correction := HandleDelayResp(c, opts, header, length);
    }
  }

  /** The dispatch on the message type. */
  method Dispatch(c: PtpClock, opts: RunTimeOpts, length: nat, time: TimeInternal, isFromSelf: bool)
    returns (sent: TimeInternal, correction: TimeInternal)
    requires Inv(c, opts) && !c.recordUpdate && c.msgTmpHeader.domainNumber == c.defaultDS.domainNumber
    requires c.msgTmpHeader == UnpackHeader(c.msgIbuf) && isFromSelf == FromSelf(c.msgTmpHeader, c.portIdentity)
    modifies c, opts, c.msgObuf
    ensures Inv(c, opts) && c.defaultDS == old(c.defaultDS) && c.msgTmpHeader == old(c.msgTmpHeader)
    ensures c.headerPacked == old(c.headerPacked)
    ensures TimersHandled(old(c.portState), c.portState, old(c.itimer), c.itimer)
    ensures c.portIdentity == old(c.portIdentity) && c.msgIbuf == old(c.msgIbuf)
    ensures MessageHandled(old(ViewOf(c)), ViewOf(c), c.msgIbuf, length, time, c.portIdentity, opts.outboundLatency,
                           old(opts.offsetFirstUpdated), opts.s, sent, correction)
  {
    hide Inv, ViewOf, TimersHandled, UnpackHeader, FromSelf, AnnounceHandled, SyncHandled, FollowUpHandled,
         DelayHandled;
    sent, correction := ZERO_TIME, ZERO_TIME;
    var header := c.msgTmpHeader;
    if header.messageType == 0xB {
      HandleAnnounce(c, opts, header, length, isFromSelf);
    } else if header.messageType == 0x0 {
      sent, correction := HandleSync(c, opts, header, length, time, isFromSelf);
    } else if header.messageType == 0x8 {
      sent, correction := HandleFollowUp(c, opts, header, length, isFromSelf);
    } else {
      correction := DispatchDelay(c, opts, header, length, time, isFromSelf);
    }
  }

  /** The message is of this version and domain. */
  predicate Meant(h: MsgHeader, d: DefaultDS) {
    h.versionPTP == VERSION_PTP && h.domainNumber == d.domainNumber
  }

  /** A message at least as long as a header: dropped unless version and domain fit. */
  method HandleLong(c: PtpClock, opts: RunTimeOpts, length: nat)
    returns (time: TimeInternal, sent: TimeInternal, correction: TimeInternal)
    requires Inv(c, opts) && !c.recordUpdate
    modifies c, opts, c.msgObuf
    ensures Inv(c, opts) && c.defaultDS == old(c.defaultDS) && c.headerPacked == old(c.headerPacked)
    ensures c.msgTmpHeader == UnpackHeader(old(c.msgIbuf))
    ensures TimersHandled(old(c.portState), c.portState, old(c.itimer), c.itimer)
    ensures c.portIdentity == old(c.portIdentity) && c.msgIbuf == old(c.msgIbuf)
    ensures
      if Meant(c.msgTmpHeader, c.defaultDS)
      then MessageHandled(old(ViewOf(c)), ViewOf(c), c.msgIbuf, length, time, c.portIdentity, opts.outboundLatency,
                          old(opts.offsetFirstUpdated), opts.s, sent, correction)
      else ViewOf(c) == old(ViewOf(c))
  {
    hide Traced, TimersFit, FilterWithin, UnpackHeader, Sub, TableFits, Role, MessageHandled;
    c.msgTmpHeader := UnpackHeader(c.msgIbuf);
    sent, correction := ZERO_TIME, ZERO_TIME;
    time := ArrivalTime(c, c.msgTmpHeader);
    if c.msgTmpHeader.versionPTP != VERSION_PTP { return; }
    if c.msgTmpHeader.domainNumber != c.defaultDS.domainNumber { return; }
    var isFromSelf := FromSelf(c.msgTmpHeader, c.portIdentity);
    if !isFromSelf && time.seconds > 0 {
      time := Sub(time, opts.inboundLatency);
    }
    sent, correction := Dispatch(c, opts, length, time, isFromSelf);
  }

  /** The bytes received, over those of earlier messages. */
  method Store(c: PtpClock, opts: RunTimeOpts, bytes: seq<byte>)
    requires Inv(c, opts) && |bytes| <= PACKET_SIZE
    modifies c`msgIbuf, c`messageActivity
    ensures Inv(c, opts) && ViewOf(c) == old(ViewOf(c)) && c.messageActivity
    ensures c.msgIbuf == bytes + old(c.msgIbuf)[|bytes|..]
  {
    hide Traced, TimersFit, FilterWithin, TableFits, Role;
    c.msgIbuf := bytes + c.msgIbuf[|bytes|..];
    c.messageActivity := true;
  }

  /** What one call of handle does with the bytes it received. */
  ghost predicate Received(v0: View, v1: View, bytes: seq<byte>, buf: Packet, d: DefaultDS, time: TimeInternal,
                     self: PortIdentity, latency: TimeInternal, measured: bool, s: int, sent: TimeInternal,
                     correction: TimeInternal)
  {
    if bytes == [] then v1 == v0
    else if |bytes| < HEADER_LENGTH then Rejected(v0, v1)
    else if Meant(UnpackHeader(buf), d)
    then MessageHandled(v0, v1, buf, |bytes|, time, self, latency, measured, s, sent, correction)
    else v1 == v0
  }

  /** Whatever is received, data sets change only in a slave by its parent, an Announce alone
      asks for a decision, and at most one message is sent. */
  lemma ReceivedEffects(v0: View, v1: View, bytes: seq<byte>, buf: Packet, d: DefaultDS, time: TimeInternal,
                        self: PortIdentity, latency: TimeInternal, measured: bool, s: int, sent: TimeInternal,
                        correction: TimeInternal)
    requires Received(v0, v1, bytes, buf, d, time, self, latency, measured, s, sent, correction) && !v0.update
    ensures v1.current != v0.current || v1.parent != v0.parent ==>
      v0.state.Slave? && FromParent(UnpackHeader(buf), v0.parent) && Meant(UnpackHeader(buf), d)
    ensures v1.update <==>
      var h := UnpackHeader(buf);
      && |bytes| >= ANNOUNCE_LENGTH && Meant(h, d) && h.messageType == 0xB
      && Active(v0.state) && !FromSelf(h, self)
    ensures Replied(v0.packed, v1.packed)
    ensures v1.state == v0.state || v1.state.Faulty?
  {
    hide UnpackHeader, UnpackAnnounce, UnpackTimestamp, UnpackRequester, OffsetTaken, DelayTaken, StampOf, AddTo,
         MeanDelay, Sub, Add;
  }

  /**
   handle: at most one message, with the effect its type has. Data sets change only
   in a slave, and only by a message of this version and domain from the port it follows.
   */
  method Handle(c: PtpClock, opts: RunTimeOpts)
    returns (bytes: seq<byte>, time: TimeInternal, sent: TimeInternal, correction: TimeInternal)
    requires Inv(c, opts) && !c.recordUpdate
    modifies c, opts, c.msgObuf
    ensures Inv(c, opts) && c.defaultDS == old(c.defaultDS) && c.headerPacked == old(c.headerPacked)
    ensures old(c.messageActivity) ==> bytes == [] && c.portState == old(c.portState)
    ensures |bytes| <= PACKET_SIZE && c.msgIbuf == bytes + old(c.msgIbuf)[|bytes|..]
    ensures TimersHandled(old(c.portState), c.portState, old(c.itimer), c.itimer)
    ensures c.portIdentity == old(c.portIdentity)
    ensures Replied(old(c.packed), c.packed)
    ensures c.currentDS != old(c.currentDS) || c.parentDS != old(c.parentDS) ==>
      old(c.portState).Slave? && FromParent(UnpackHeader(c.msgIbuf), old(c.parentDS)) &&
      Meant(UnpackHeader(c.msgIbuf), c.defaultDS)
    ensures c.recordUpdate <==>
      var h := UnpackHeader(c.msgIbuf);
      && |bytes| >= ANNOUNCE_LENGTH && Meant(h, c.defaultDS) && h.messageType == 0xB
      && Active(old(c.portState)) && !FromSelf(h, c.portIdentity)
    ensures Received(old(ViewOf(c)), ViewOf(c), bytes, c.msgIbuf, c.defaultDS, time, c.portIdentity,
                     opts.outboundLatency, old(opts.offsetFirstUpdated), opts.s, sent, correction)
  {
    hide Inv, UnpackHeader, MessageHandled, Rejected, Replied;
    StateFacts(c, opts);
    bytes, time, sent, correction := [], ZERO_TIME, ZERO_TIME, ZERO_TIME;
    if !c.messageActivity {
      bytes := Environment.Receive();
      if 0 < |bytes| < HEADER_LENGTH {
        Store(c, opts, bytes);
        Fault(c, opts);
      } else if |bytes| >= HEADER_LENGTH {
        Store(c, opts, bytes);
        time, sent, correction := HandleLong(c, opts, |bytes|);
      }
    }
    ReceivedEffects(old(ViewOf(c)), ViewOf(c), bytes, c.msgIbuf, c.defaultDS, time, c.portIdentity,
                    opts.outboundLatency, old(opts.offsetFirstUpdated), opts.s, sent, correction);
  }

  /* ----- the state machine ----- */

  lemma RoleDecided(s: PortState, slaveOnly: bool, d: DefaultDS, current: CurrentDS, parent: ParentDS, packed: bool,
                    foreign: seq<ForeignMasterRecord>, n: nat, scratch: MsgAnnounce, clock: ClockIdentity,
                    current': CurrentDS, parent': ParentDS)
    requires Role(s, slaveOnly, d, current, parent, packed) && Active(s) && n <= |foreign| && foreign != []
    requires
      var state := Recommended(d, slaveOnly, foreign, n, s, scratch, clock);
      state.Master? ==> OwnMaster(current', parent', d)
    ensures Role(Recommended(d, slaveOnly, foreign, n, s, scratch, clock), slaveOnly, d, current', parent', packed)
    ensures slaveOnly ==> !s.Master?
  {
    hide Best, Compare, Claims, OwnMaster;
  }

  lemma TableDecided(t: Table, update: bool, boot: seq<ForeignMasterRecord>, history: seq<TableEvent>, e: TableEvent,
                     best: nat)
    requires TableFits(t, update, boot, history) && e.Decided?
    requires InBounds(t) && best == if t.n == 0 && e.master then t.best else Best(Claims(t.foreign), t.n, e.parent)
    ensures TableFits(t.(best := best), false, boot, history + [e])
  {
    hide After, Paced, Pending, Best, Claims;
    RunStep(boot, history, e);
  }

  /** bmc, seen from the role of the port and the history of the table. */
  method Consult(c: PtpClock, opts: RunTimeOpts) returns (state: PortState)
    requires c.Shaped(opts) && InBounds(TableOf(c)) && TableFits(TableOf(c), c.recordUpdate, c.boot, c.history)
    requires Role(c.portState, opts.slaveOnly, c.defaultDS, c.currentDS, c.parentDS, c.headerPacked) &&
      Active(c.portState)
    modifies c`recordUpdate, c`foreignRecordBest, c`msgTmpHeader, c`msgTmpAnnounce, c`currentDS, c`parentDS,
             c`timePropertiesDS, c`history
    ensures !c.recordUpdate && TableFits(TableOf(c), c.recordUpdate, c.boot, c.history)
    ensures Role(state, opts.slaveOnly, c.defaultDS, c.currentDS, c.parentDS, c.headerPacked)
    ensures state == Recommended(c.defaultDS, opts.slaveOnly, c.foreign, c.numberForeignRecords, c.portState,
                                 old(c.msgTmpAnnounce), old(c.parentDS).parentPortIdentity.clock)
    ensures c.history == old(c.history) + [Decided(old(c.parentDS).parentPortIdentity.clock, c.portState.Master?)]
    ensures state.Slave? || state.Passive? ==>
      && c.foreignRecordBest < |c.foreign|
      && Follows(c.foreign[c.foreignRecordBest], old(c.currentDS), c.currentDS, old(c.parentDS), c.parentDS)
    ensures !(c.numberForeignRecords == 0 && c.portState.Master?) ==>
      c.foreignRecordBest == Best(Claims(c.foreign), c.numberForeignRecords, old(c.parentDS).parentPortIdentity.clock)
    ensures opts.slaveOnly ==> state.Slave?
    ensures !opts.slaveOnly && c.numberForeignRecords == 0 && c.portState.Listening? ==> state.Listening?
  {
    hide Best, Claims, LocalParent, Follows, Recommended, Role, TableFits;
    ghost var e := Decided(c.parentDS.parentPortIdentity.clock, c.portState.Master?);
    c.recordUpdate := false;
    state := Bmc(c, opts);
    TableDecided(old(TableOf(c)), old(c.recordUpdate), c.boot, c.history, e, c.foreignRecordBest);
    RoleDecided(c.portState, opts.slaveOnly, c.defaultDS, old(c.currentDS), old(c.parentDS), c.headerPacked,
                c.foreign, c.numberForeignRecords, old(c.msgTmpAnnounce), e.parent, c.currentDS, c.parentDS);
    c.history := c.history + [e];
  }

  /** Running bmc leaves everything ready for the state it recommends. */
  method RunBmc(c: PtpClock, opts: RunTimeOpts) returns (state: PortState)
    requires Inv(c, opts) && Active(c.portState)
    modifies c`recordUpdate, c`foreignRecordBest, c`msgTmpHeader, c`msgTmpAnnounce, c`currentDS, c`parentDS,
             c`timePropertiesDS, c`history
    ensures ReadyFor(c, opts, state) && !c.recordUpdate
    ensures state == Recommended(c.defaultDS, opts.slaveOnly, c.foreign, c.numberForeignRecords, c.portState,
                                 old(c.msgTmpAnnounce), old(c.parentDS).parentPortIdentity.clock)
    ensures state.Slave? || state.Passive? ==>
      && c.foreignRecordBest < |c.foreign|
      && Follows(c.foreign[c.foreignRecordBest], old(c.currentDS), c.currentDS, old(c.parentDS), c.parentDS)
    ensures !(c.numberForeignRecords == 0 && c.portState.Master?) ==>
      c.foreignRecordBest == Best(Claims(c.foreign), c.numberForeignRecords, old(c.parentDS).parentPortIdentity.clock)
    ensures opts.slaveOnly ==> state.Slave?
    ensures !opts.slaveOnly && c.numberForeignRecords == 0 && c.portState.Listening? ==> state.Listening?
  {
    hide Traced, TimersFit, FilterWithin, Follows, Recommended, Role, TableFits;
    StateFacts(c, opts);
    state := Consult(c, opts);
  }

  /** A state decision event: run bmc and go where it points. */
  method DecisionEvent(c: PtpClock, opts: RunTimeOpts)
    requires Inv(c, opts) && Active(c.portState)
    modifies c`recordUpdate, c`foreignRecordBest, c`msgTmpHeader, c`msgTmpAnnounce, c`currentDS, c`parentDS,
             c`timePropertiesDS, c`portState, c`itimer, c`messageActivity, c`waitingForFollow,
             c`masterToSlaveDelay, c`observedDrift, c`owdFilt, c`history
    ensures Inv(c, opts) && !c.recordUpdate
    ensures Active(c.portState) || c.portState.Faulty?
    ensures c.portState == Recommended(c.defaultDS, opts.slaveOnly, c.foreign, c.numberForeignRecords, old(c.portState),
                                       old(c.msgTmpAnnounce), old(c.parentDS).parentPortIdentity.clock)
    ensures c.portState == old(c.portState) ==> c.messageActivity == old(c.messageActivity)
    ensures c.portState.Slave? || c.portState.Passive? ==>
      && c.foreignRecordBest < |c.foreign|
      && Follows(c.foreign[c.foreignRecordBest], old(c.currentDS), c.currentDS, old(c.parentDS), c.parentDS)
    ensures !(c.numberForeignRecords == 0 && old(c.portState).Master?) ==>
      c.foreignRecordBest == Best(Claims(c.foreign), c.numberForeignRecords, old(c.parentDS).parentPortIdentity.clock)
    ensures opts.slaveOnly ==>
      && c.portState.Slave? && c.foreignRecordBest < |c.foreign|
      && c.parentDS.parentPortIdentity == c.foreign[c.foreignRecordBest].header.source
    ensures !opts.slaveOnly && c.numberForeignRecords == 0 && old(c.portState).Listening? ==> c.portState.Listening?
  {
    hide ReadyFor, Best, Claims, Decide;
    var state := RunBmc(c, opts);
    if state != c.portState {
      Go(c, opts, state);
    }
  }

  /**
   A slave that has just followed its parent to a new Announce decides on the
   record, which still holds an earlier one. If it stays a slave, nothing of the
   Announce just taken is left in the data sets.
   */
  method FollowThenDecide(c: PtpClock, opts: RunTimeOpts, header: MsgHeader)
    requires Inv(c, opts) && !c.recordUpdate && c.portState.Slave? && FromParent(header, c.parentDS)
    modifies c`recordUpdate, c`foreign, c`numberForeignRecords, c`foreignRecordI, c`foreignRecordBest,
             c`msgTmpHeader, c`msgTmpAnnounce, c`currentDS, c`parentDS, c`timePropertiesDS, c`portState, c`itimer,
             c`messageActivity, c`waitingForFollow, c`masterToSlaveDelay, c`observedDrift, c`owdFilt, c`history
    ensures Inv(c, opts) && c.foreign == old(c.foreign) && c.numberForeignRecords == old(c.numberForeignRecords)
    ensures c.portState.Slave? || c.portState.Passive? ==>
      && c.foreignRecordBest < |c.foreign|
      && Follows(c.foreign[c.foreignRecordBest], old(c.currentDS), c.currentDS, old(c.parentDS), c.parentDS)
  {
    hide Inv, UnpackAnnounce, Recommended;
    Follow(c, opts, header);
    RestartReceipt(c, opts);
    DecisionEvent(c, opts);
  }

  method EmptyTable(c: PtpClock, opts: RunTimeOpts)
    requires Inv(c, opts)
    modifies c`numberForeignRecords, c`foreignRecordI, c`history
    ensures Inv(c, opts) && c.numberForeignRecords == 0 && c.foreignRecordI == 0
    ensures c.history == old(c.history) + [Emptied]
  {
    hide Traced, TimersFit, FilterWithin, Role, After, Paced, Pending;
    RunStep(c.boot, c.history, Emptied);
    c.numberForeignRecords := 0;
    c.foreignRecordI := 0;
    c.history := c.history + [Emptied];
  }

  /** Becoming master: its own parent first, then the state. */
  method BecomeMaster(c: PtpClock, opts: RunTimeOpts)
    requires Inv(c, opts) && c.defaultDS.slaveOnly == opts.slaveOnly && c.headerPacked && !opts.slaveOnly
    modifies c`currentDS, c`parentDS, c`timePropertiesDS, c`portState, c`itimer, c`messageActivity,
             c`waitingForFollow, c`masterToSlaveDelay, c`observedDrift, c`owdFilt
    ensures Inv(c, opts) && c.portState == Master
    ensures |c.itimer| == |old(c.itimer)| == TIMER_ARRAY_SIZE
    ensures c.itimer[DELAYREQ_INTERVAL_TIMER].expire == old(c.itimer)[DELAYREQ_INTERVAL_TIMER].expire
  {
    hide Traced, TimersFit, FilterWithin, TableFits, LocalParent;
    M1(c);
    Go(c, opts, Master);
  }

  /** Entering LISTENING, whose timers and data sets the invariant leaves open. */
  method Relist(c: PtpClock, opts: RunTimeOpts)
    requires Inv(c, opts) && c.defaultDS.slaveOnly == opts.slaveOnly && c.headerPacked
    modifies c`portState, c`itimer, c`messageActivity, c`waitingForFollow,
             c`masterToSlaveDelay, c`observedDrift, c`owdFilt
    ensures Inv(c, opts) && c.portState == Listening
    ensures |c.itimer| == |old(c.itimer)| == TIMER_ARRAY_SIZE
    ensures c.itimer[DELAYREQ_INTERVAL_TIMER].expire == old(c.itimer)[DELAYREQ_INTERVAL_TIMER].expire
  {
    hide Traced, TimersFit, FilterWithin, TableFits;
    Go(c, opts, Listening);
  }

  /** Where a receipt timeout leads. */
  function TimeoutState(d: DefaultDS): PortState {
    if !d.slaveOnly && d.clockQuality.clockClass != 255 then Master else Listening
  }

  /** The receipt timeout empties the table; a clock that may be master becomes one. */
  method ReceiptTimeout(c: PtpClock, opts: RunTimeOpts)
    requires Inv(c, opts) && c.defaultDS.slaveOnly == opts.slaveOnly && c.headerPacked
    modifies c`numberForeignRecords, c`foreignRecordI, c`history,
             c`currentDS, c`parentDS, c`timePropertiesDS, c`portState, c`itimer, c`messageActivity,
             c`waitingForFollow, c`masterToSlaveDelay, c`observedDrift, c`owdFilt
    ensures Inv(c, opts)
    ensures c.numberForeignRecords == 0 && c.foreignRecordI == 0
    ensures c.portState == TimeoutState(c.defaultDS)
    ensures !c.defaultDS.slaveOnly && c.defaultDS.clockQuality.clockClass != 255 ==> c.portState.Master?
    ensures c.defaultDS.slaveOnly || c.defaultDS.clockQuality.clockClass == 255 ==> c.portState.Listening?
    ensures |c.itimer| == |old(c.itimer)| == TIMER_ARRAY_SIZE
    ensures c.itimer[DELAYREQ_INTERVAL_TIMER].expire == old(c.itimer)[DELAYREQ_INTERVAL_TIMER].expire
  {
    hide Inv;
    StateFacts(c, opts);
    EmptyTable(c, opts);
    if !c.defaultDS.slaveOnly && c.defaultDS.clockQuality.clockClass != 255 {
      BecomeMaster(c, opts);
    } else if c.portState != Listening {
      Relist(c, opts);
    }
  }

  /** timerExpired between two other events, `delta` after the last time it was asked. */
  method Expired(c: PtpClock, opts: RunTimeOpts, index: nat, delta: int) returns (expired: bool)
    requires Inv(c, opts) && index < TIMER_ARRAY_SIZE
    modifies c`itimer
    ensures Inv(c, opts)
    ensures expired <==>
      || old(c.itimer)[index].expire
      || (delta > 0 && old(c.itimer)[index].interval > 0 && old(c.itimer)[index].left <= delta)
    ensures forall i :: 0 <= i < TIMER_ARRAY_SIZE && i != index ==>
      c.itimer[i] == if delta > 0 then Ticked(old(c.itimer)[i], delta) else old(c.itimer)[i]
  {
    hide FilterWithin, Traced, Role, TableFits;
    expired := TimerExpired(c, index, delta);
  }

  /** A reply, if any, and then a DelayReq. */
  predicate Requested(before: seq<Outgoing>, after: seq<Outgoing>) {
    after != [] && Last(after).DelayReq? && Replied(before, after[..|after| - 1])
  }

  /** What happened in a round: a message faulted the port, the receipt timeout and the
      delay request interval expired, and the request could be sent. */
  datatype Round = Round(faulted: bool, receiptExpired: bool, delayExpired: bool, sent: bool)

  /** The state a round ends in. */
  function StateAfter(r: Round, s: PortState, d: DefaultDS): PortState {
    if r.delayExpired && !r.sent then Faulty
    else if r.receiptExpired then TimeoutState(d)
    else if r.faulted then Faulty
    else s
  }

  /**
   doState in LISTENING, PASSIVE or SLAVE. A fault stops the timers but keeps what
   has expired: the receipt timeout then takes the port out of FAULTY in the same
   round exactly when it was pending, unless a DelayReq then fails, and a port that
   faulted or is no slave packs a DelayReq exactly when that interval was pending.
   */
  method DoFollowing(c: PtpClock, opts: RunTimeOpts) returns (r: Round)
    requires Inv(c, opts) && !c.recordUpdate && Active(c.portState)
    modifies c, opts, c.msgObuf
    ensures Inv(c, opts)
    ensures c.portState == StateAfter(r, old(c.portState), c.defaultDS)
    ensures |old(c.itimer)| == TIMER_ARRAY_SIZE
    ensures r.faulted ==> (r.receiptExpired <==> old(c.itimer)[ANNOUNCE_RECEIPT_TIMER].expire)
    ensures r.faulted || !old(c.portState).Slave? ==>
      (r.delayExpired <==> old(c.itimer)[DELAYREQ_INTERVAL_TIMER].expire)
    ensures if r.delayExpired then Requested(old(c.packed), c.packed) else Replied(old(c.packed), c.packed)
  {
    hide Inv;
    StateFacts(c, opts);
    var before := c.portState;
    var bytes, time, stamp, correction := Handle(c, opts);
    StateFacts(c, opts);
    var faulted := c.portState != before;
    var delta := Environment.Elapsed();
    var receiptExpired := Expired(c, opts, ANNOUNCE_RECEIPT_TIMER, delta);
    if receiptExpired {
      ReceiptTimeout(c, opts);
    }
    StateFacts(c, opts);
    delta := Environment.Elapsed();
    var delayExpired := Expired(c, opts, DELAYREQ_INTERVAL_TIMER, delta);
    var sent := false;
    if delayExpired {
      var now;
      now, sent := IssueDelayReq(c, opts);
    }
    r := Round(faulted, receiptExpired, delayExpired, sent);
  }

  /**
   How a faulted slave becomes MASTER or LISTENING: the receipt timeout runs out
   while the code asks for the delay request interval, and the next message, before
   it asks for the receipt timeout again, faults the port.
   */
  method FaultThenTimeout(c: PtpClock, opts: RunTimeOpts, delta: int, delta': int) returns (expired: bool)
    requires Inv(c, opts) && c.portState.Slave? && |c.itimer| == TIMER_ARRAY_SIZE
    requires c.itimer[ANNOUNCE_RECEIPT_TIMER].interval > 0 && 0 < c.itimer[ANNOUNCE_RECEIPT_TIMER].left <= delta
    modifies c
    ensures Inv(c, opts) && expired && c.portState == TimeoutState(c.defaultDS)
  {
    hide Inv;
    StateFacts(c, opts);
    var asked := Expired(c, opts, DELAYREQ_INTERVAL_TIMER, delta);
    Fault(c, opts);
    expired := Expired(c, opts, ANNOUNCE_RECEIPT_TIMER, delta');
    if expired { ReceiptTimeout(c, opts); }
  }

  /** And how a port that has left SLAVE sends one more DelayReq. */
  method FaultThenRequest(c: PtpClock, opts: RunTimeOpts, delta: int, delta': int) returns (asked: bool)
    requires Inv(c, opts) && c.portState.Slave? && |c.itimer| == TIMER_ARRAY_SIZE
    requires c.itimer[DELAYREQ_INTERVAL_TIMER].interval > 0 && 0 < c.itimer[DELAYREQ_INTERVAL_TIMER].left <= delta
    modifies c, c.msgObuf
    ensures Inv(c, opts) && asked && Grew(old(c.packed), c.packed) && Last(c.packed).DelayReq?
    ensures !c.portState.Slave?
  {
    hide Inv;
    StateFacts(c, opts);
    var expired := Expired(c, opts, ANNOUNCE_RECEIPT_TIMER, delta);
    Fault(c, opts);
    asked := Expired(c, opts, DELAYREQ_INTERVAL_TIMER, delta');
    if asked { var now, ok := IssueDelayReq(c, opts); }
  }

  /** What a round of a master adds: a Sync, an Announce of itself, both in this order, or nothing. */
  predicate MasterPacked(before: seq<Outgoing>, after: seq<Outgoing>, sync: bool, announce: bool) {
    var n := |before| + if sync then 1 else 0;
    && |after| == n + (if announce then 1 else 0) && after[..|before|] == before
    && (sync ==> after[|before|].Sync?) && (announce ==> after[n].Announce?)
  }

  /** Sync and Announce when their timers have expired, even if the first send failed. */
  method MasterSends(c: PtpClock, opts: RunTimeOpts) returns (sync: bool, announce: bool)
    requires Inv(c, opts) && c.headerPacked && !opts.slaveOnly
    requires OwnMaster(c.currentDS, c.parentDS, c.defaultDS)
    modifies c`portState, c`itimer, c`messageActivity, c`waitingForFollow, c`masterToSlaveDelay, c`observedDrift,
             c`owdFilt, c`sentSyncSequenceId, c`sentAnnounceSequenceId, c`packed, c.msgObuf
    ensures Inv(c, opts)
    ensures c.portState == old(c.portState) || c.portState == Faulty
    ensures MasterPacked(old(c.packed), c.packed, sync, announce)
    ensures sync ==> c.packed[|old(c.packed)|].sequenceId == old(c.sentSyncSequenceId)
    ensures announce ==>
      Last(c.packed) == Announce(old(c.sentAnnounceSequenceId), c.logAnnounceInterval, c.defaultDS, c.currentDS,
                                 c.parentDS, c.timePropertiesDS)
    ensures |old(c.itimer)| == TIMER_ARRAY_SIZE
    ensures old(c.itimer)[SYNC_INTERVAL_TIMER].expire ==> sync
    ensures old(c.itimer)[ANNOUNCE_INTERVAL_TIMER].expire ==> announce
  {
    hide Inv, Pack, OwnMaster;
    StateFacts(c, opts);
    var delta := Environment.Elapsed();
    sync := Expired(c, opts, SYNC_INTERVAL_TIMER, delta);
    if sync { var now := IssueSync(c, opts); }
    delta := Environment.Elapsed();
    announce := Expired(c, opts, ANNOUNCE_INTERVAL_TIMER, delta);
    if announce { IssueAnnounce(c, opts); }
  }

  /** doState in MASTER: what is due is sent, then at most one reply; a clock that may not be
      master goes back to LISTENING. */
  method DoMaster(c: PtpClock, opts: RunTimeOpts) returns (sync: bool, announce: bool, ghost sent: seq<Outgoing>)
    requires Inv(c, opts) && !c.recordUpdate && c.portState.Master?
    modifies c, opts, c.msgObuf
    ensures Inv(c, opts)
    ensures MasterPacked(old(c.packed), sent, sync, announce) && Replied(sent, c.packed)
    ensures |old(c.itimer)| == TIMER_ARRAY_SIZE
    ensures old(c.itimer)[SYNC_INTERVAL_TIMER].expire ==> sync
    ensures old(c.itimer)[ANNOUNCE_INTERVAL_TIMER].expire ==> announce
    ensures
      if c.defaultDS.slaveOnly || c.defaultDS.clockQuality.clockClass == 255 then c.portState.Listening?
      else c.portState.Master? || c.portState.Faulty?
  {
    hide Inv, MasterPacked, Replied, Received, UnpackHeader;
    StateFacts(c, opts);
    sync, announce := MasterSends(c, opts);
    sent := c.packed;
    var bytes, time, stamp, correction := Handle(c, opts);
    if c.defaultDS.slaveOnly || c.defaultDS.clockQuality.clockClass == 255 {
      Relist(c, opts);
    }
  }

  /** A cleared fault. */
  method Reset(c: PtpClock, opts: RunTimeOpts)
    requires Inv(c, opts)
    modifies c`portState, c`itimer, c`messageActivity, c`waitingForFollow,
             c`masterToSlaveDelay, c`observedDrift, c`owdFilt
    ensures Inv(c, opts) && c.portState == Initializing
  {
    hide Traced, TimersFit, FilterWithin, TableFits;
    Go(c, opts, Initializing);
  }

  /** What a round is after its decision: a fault cleared, the round of a master, or that of any other port. */
  datatype Turn = Cleared | Leading(sync: bool, announce: bool) | Following(round: Round)

  /** What a round packs and where it ends, from the state the decision left. */
  predicate Turned(turn: Turn, state: PortState, after: PortState, d: DefaultDS, before: seq<Outgoing>,
                   sent: seq<Outgoing>, packed: seq<Outgoing>)
  {
    match turn
    case Cleared => state.Faulty? && after.Initializing? && packed == before
    case Leading(sync, announce) =>
      && state.Master? && MasterPacked(before, sent, sync, announce) && Replied(sent, packed)
      && if d.slaveOnly || d.clockQuality.clockClass == 255 then after.Listening? else after.Master? || after.Faulty?
    case Following(round) =>
      && (state.Listening? || state.Passive? || state.Slave?) && after == StateAfter(round, state, d)
      && if round.delayExpired then Requested(before, packed) else Replied(before, packed)
  }

  /** The state decision that an Announce has asked for, if any. */
  method Decision(c: PtpClock, opts: RunTimeOpts)
    requires Inv(c, opts) && !c.portState.Initializing?
    modifies c`recordUpdate, c`foreignRecordBest, c`msgTmpHeader, c`msgTmpAnnounce, c`currentDS, c`parentDS,
             c`timePropertiesDS, c`portState, c`itimer, c`messageActivity, c`waitingForFollow,
             c`masterToSlaveDelay, c`observedDrift, c`owdFilt, c`history
    ensures Inv(c, opts) && (Active(c.portState) ==> !c.recordUpdate)
    ensures Active(c.portState) || c.portState.Faulty?
    ensures c.foreign != [] && c.numberForeignRecords <= |c.foreign|
    ensures c.portState ==
      if old(Active(c.portState) && c.recordUpdate)
      then Recommended(c.defaultDS, opts.slaveOnly, c.foreign, c.numberForeignRecords, old(c.portState),
                       old(c.msgTmpAnnounce), old(c.parentDS).parentPortIdentity.clock)
      else old(c.portState)
    ensures !old(Active(c.portState) && c.recordUpdate) ==> c.itimer == old(c.itimer)
  {
    hide Traced, TimersFit, FilterWithin, Recommended, TableFits, OwnMaster, Follows;
    StateFacts(c, opts);
    if Active(c.portState) && c.recordUpdate {
      DecisionEvent(c, opts);
    }
  }

  /** The round after the decision. */
  method Act(c: PtpClock, opts: RunTimeOpts) returns (turn: Turn, ghost sent: seq<Outgoing>)
    requires Inv(c, opts) && (Active(c.portState) ==> !c.recordUpdate)
    requires Active(c.portState) || c.portState.Faulty?
    modifies c, opts, c.msgObuf
    ensures Inv(c, opts)
    ensures Turned(turn, old(c.portState), c.portState, c.defaultDS, old(c.packed), sent, c.packed)
    ensures |old(c.itimer)| == TIMER_ARRAY_SIZE
    ensures turn.Leading? && old(c.itimer)[SYNC_INTERVAL_TIMER].expire ==> turn.sync
    ensures turn.Leading? && old(c.itimer)[ANNOUNCE_INTERVAL_TIMER].expire ==> turn.announce
  {
    hide Inv, MasterPacked, Replied, Requested, StateAfter;
    StateFacts(c, opts);
    sent := [];
    if c.portState.Faulty? {
      Reset(c, opts);
      turn := Cleared;
    } else if c.portState.Master? {
      var sync, announce;
      sync, announce, sent := DoMaster(c, opts);
      turn := Leading(sync, announce);
    } else {
      var round := DoFollowing(c, opts);
      turn := Following(round);
    }
  }

  /** The start of a round. */
  method Quiet(c: PtpClock, opts: RunTimeOpts)
    requires Inv(c, opts)
    modifies c`messageActivity
    ensures Inv(c, opts) && !c.messageActivity
  {
    hide Traced, TimersFit, FilterWithin, TableFits, Role;
    c.messageActivity := false;
  }

  /**
   doState: a decision where one is asked for, then the round of the state it left.
   What is due in that state is sent, and FAULTY always leads to INITIALIZING.
   */
  method DoState(c: PtpClock, opts: RunTimeOpts) returns (state: PortState, turn: Turn, ghost sent: seq<Outgoing>)
    requires Inv(c, opts) && !c.portState.Initializing?
    modifies c, opts, c.msgObuf
    ensures Inv(c, opts)
    ensures old(c.portState).Faulty? ==> c.portState.Initializing?
    ensures old(c.foreign != [] && c.numberForeignRecords <= |c.foreign|)
    ensures state ==
      if old(Active(c.portState) && c.recordUpdate)
      then Recommended(old(c.defaultDS), opts.slaveOnly, old(c.foreign), old(c.numberForeignRecords), old(c.portState),
                       old(c.msgTmpAnnounce), old(c.parentDS).parentPortIdentity.clock)
      else old(c.portState)
    ensures Turned(turn, state, c.portState, c.defaultDS, old(c.packed), sent, c.packed)
    ensures |old(c.itimer)| == TIMER_ARRAY_SIZE
    ensures turn.Leading? && !old(c.recordUpdate) ==>
      && (old(c.itimer)[SYNC_INTERVAL_TIMER].expire ==> turn.sync)
      && (old(c.itimer)[ANNOUNCE_INTERVAL_TIMER].expire ==> turn.announce)
  {
    hide Inv, Recommended, MasterPacked, Replied, Requested, StateAfter;
    StateFacts(c, opts);
    Quiet(c, opts);
    Decision(c, opts);
    state := c.portState;
    turn, sent := Act(c, opts);
  }

  /** The clock identity: the MAC address around FF FE. */
  function IdentityOf(mac: (byte, byte, byte, byte, byte, byte)): (id: ClockIdentity) {
    [mac.0, mac.1, mac.2, 0xFF, 0xFE, mac.3, mac.4, mac.5]
  }

  /** The data sets of initData. */
  method Configure(c: PtpClock, opts: RunTimeOpts, mac: (byte, byte, byte, byte, byte, byte))
    modifies c`defaultDS, c`portIdentity, c`logMinDelayReqInterval, c`logAnnounceInterval, c`logSyncInterval,
             opts`clockQuality
    ensures c.defaultDS == DefaultDS(IdentityOf(mac), old(opts.clockQuality), opts.priority1, opts.priority2,
                                     opts.domainNumber, opts.slaveOnly)
    ensures c.portIdentity == PortIdentity(IdentityOf(mac), NUMBER_PORTS)
    ensures c.logMinDelayReqInterval == DEFAULT_DELAYREQ_INTERVAL
    ensures c.logAnnounceInterval == opts.announceInterval && c.logSyncInterval == opts.syncInterval
    ensures opts.clockQuality ==
      if opts.slaveOnly then old(opts.clockQuality).(clockClass := 255) else old(opts.clockQuality)
  {
    c.defaultDS := DefaultDS(IdentityOf(mac), opts.clockQuality, opts.priority1, opts.priority2,
                             opts.domainNumber, opts.slaveOnly);
    if opts.slaveOnly {
      opts.clockQuality := opts.clockQuality.(clockClass := 255);
    }
    c.portIdentity := PortIdentity(c.defaultDS.clockIdentity, NUMBER_PORTS);
    c.logMinDelayReqInterval := DEFAULT_DELAYREQ_INTERVAL;
    c.logAnnounceInterval := opts.announceInterval;
    c.logSyncInterval := opts.syncInterval;
  }

  /** initData: the count of foreign records is reset, the next slot is not. */
  method InitData(c: PtpClock, opts: RunTimeOpts, mac: (byte, byte, byte, byte, byte, byte))
    requires Inv(c, opts) && c.portState.Initializing?
    modifies c`defaultDS, c`portIdentity, c`logMinDelayReqInterval, c`logAnnounceInterval, c`logSyncInterval,
             c`numberForeignRecords, c`history, c`headerPacked, opts`clockQuality
    ensures Inv(c, opts)
    ensures c.defaultDS == DefaultDS(IdentityOf(mac), old(opts.clockQuality), opts.priority1, opts.priority2,
                                     opts.domainNumber, opts.slaveOnly)
    ensures c.portIdentity == PortIdentity(IdentityOf(mac), NUMBER_PORTS)
    ensures c.numberForeignRecords == 0 && c.history == old(c.history) + [Reinitialised]
    ensures opts.clockQuality ==
      if opts.slaveOnly then old(opts.clockQuality).(clockClass := 255) else old(opts.clockQuality)
  {
    hide Traced, TimersFit, FilterWithin, After, Paced, Pending;
    RunStep(c.boot, c.history, Reinitialised);
    Configure(c, opts, mac);
    c.headerPacked := false;
    c.numberForeignRecords := 0;
    c.history := c.history + [Reinitialised];
  }

  /** What doInit does between initData and the header: servo and data sets of a lone master. */
  method Prepare(c: PtpClock, opts: RunTimeOpts)
    requires Inv(c, opts) && c.portState.Initializing?
    modifies c`masterToSlaveDelay, c`observedDrift, c`owdFilt, c`currentDS, c`parentDS, c`timePropertiesDS
    ensures Inv(c, opts) && OwnMaster(c.currentDS, c.parentDS, c.defaultDS)
  {
    hide TimersFit, Traced, TableFits, Pow2, LocalParent;
    InitClock(c);
    M1(c);
  }

  /** The constant header fields, written once for all messages to come: a new trace begins. */
  method BeginTrace(c: PtpClock, opts: RunTimeOpts)
    requires Inv(c, opts) && c.portState.Initializing?
    requires c.portIdentity == PortIdentity(c.defaultDS.clockIdentity, NUMBER_PORTS)
    modifies c`headerPacked, c`base, c`packed, c.msgObuf
    ensures Inv(c, opts) && c.headerPacked && c.packed == []
  {
    hide TimersFit, PackHeader, FilterWithin, TableFits, OwnMaster;
    c.base, c.packed := c.msgObuf[..], [];
    MsgPackHeader(c.msgObuf, VERSION_PTP, c.defaultDS.domainNumber, false, c.portIdentity);
    c.headerPacked := true;
  }

  /** The data sets and the header of a clock with a network. */
  method Initialise(c: PtpClock, opts: RunTimeOpts, mac: (byte, byte, byte, byte, byte, byte))
    requires Inv(c, opts) && c.portState.Initializing?
    modifies c, opts, c.msgObuf
    ensures Inv(c, opts) && c.portState.Listening? && OwnMaster(c.currentDS, c.parentDS, c.defaultDS)
  {
    hide Traced, TimersFit, FilterWithin, PackHeader, IdentityOf, TableFits;
    InitData(c, opts, mac);
    Prepare(c, opts);
    BeginTrace(c, opts);
    Relist(c, opts);
  }

  /** doInit */
  method DoInit(c: PtpClock, opts: RunTimeOpts, mac: (byte, byte, byte, byte, byte, byte)) returns (ok: bool)
    requires Inv(c, opts) && c.portState.Initializing?
    modifies c, opts, c.msgObuf
    ensures Inv(c, opts)
    ensures ok ==> c.portState.Listening? && OwnMaster(c.currentDS, c.parentDS, c.defaultDS)
    ensures !ok ==> c.portState.Initializing? || c.portState.Faulty?
  {
    hide Inv;
    var addressed := Environment.Succeeds();
    if !addressed { return false; }
    var netInit := Environment.Succeeds();
    if !netInit {
      Fault(c, opts);
      return false;
    }
    Initialise(c, opts, mac);
    ok := true;
  }

  /** The memory of a clock at power-up: cleared, with room for records and timers. */
  ghost predicate PowerUp(c: PtpClock, opts: RunTimeOpts)
    reads c
  {
    && opts.Valid() && c.Shaped(opts) && c.portState.Initializing? && Idle(c.itimer)
    && c.owdFilt == DelayFilter(0, 0, 0) && c.observedDrift == 0 && c.ofmNsecPrev == 0
    && c.numberForeignRecords == 0 && c.foreignRecordI == 0 && c.foreignRecordBest == 0
    && !c.recordUpdate && c.boot == c.foreign && c.history == [] && !c.headerPacked
  }

  /** From one round to the next: FAULTY is cleared, initialisation ends in LISTENING, and
      nothing else leads out of INITIALIZING. */
  predicate Moves(s: PortState, t: PortState) {
    && InUse(t)
    && (s.Faulty? ==> t.Initializing?)
    && (s.Initializing? ==> t.Initializing? || t.Faulty? || t.Listening?)
  }

  /** One round: initialisation or doState. */
  method Step(c: PtpClock, opts: RunTimeOpts, mac: (byte, byte, byte, byte, byte, byte))
    requires Inv(c, opts)
    modifies c, opts, c.msgObuf
    ensures Inv(c, opts) && Moves(old(c.portState), c.portState)
    ensures opts.slaveOnly ==> !c.portState.Master? && !c.portState.Passive?
  {
    hide Turned, Recommended, OwnMaster, Traced, TimersFit, TableFits, FilterWithin;
    if c.portState != Initializing {
      var state, turn, sent := DoState(c, opts);
    } else {
      var ok := DoInit(c, opts, mac);
    }
  }

  /** The loop of protocol, cut off after some rounds. */
  method Rounds(c: PtpClock, opts: RunTimeOpts, mac: (byte, byte, byte, byte, byte, byte), rounds: nat)
    returns (states: seq<PortState>)
    requires Inv(c, opts) && c.portState.Initializing?
    modifies c, opts, c.msgObuf
    ensures Inv(c, opts)
    ensures |states| == rounds + 1 && states[0].Initializing? && states[rounds] == c.portState
    ensures forall k :: 0 <= k < rounds ==> Moves(states[k], states[k + 1])
    ensures opts.slaveOnly ==> forall k :: 0 <= k <= rounds ==> !states[k].Master? && !states[k].Passive?
  {
    hide Inv, Moves;
    states := [c.portState];
    var k := 0;
    while k < rounds
      invariant 0 <= k <= rounds && Inv(c, opts)
      invariant |states| == k + 1 && states[0].Initializing? && states[k] == c.portState
      invariant forall j :: 0 <= j < k ==> Moves(states[j], states[j + 1])
      invariant opts.slaveOnly ==> forall j :: 0 <= j <= k ==> !states[j].Master? && !states[j].Passive?
    {
      Step(c, opts, mac);
      states := states + [c.portState];
      k := k + 1;
    }
  }

  /**
   protocol, for any number of rounds: the invariant holds in every state between
   two rounds, whatever messages arrive, timers expire and sends fail. `states`
   are the port states between them.
   */
  method Protocol(c: PtpClock, opts: RunTimeOpts, mac: (byte, byte, byte, byte, byte, byte), rounds: nat)
    returns (states: seq<PortState>)
    requires PowerUp(c, opts)
    modifies c, opts, c.msgObuf
    ensures Inv(c, opts)
    ensures |states| == rounds + 1 && states[0].Initializing? && states[rounds] == c.portState
    ensures forall k :: 0 <= k < rounds ==> Moves(states[k], states[k + 1])
    ensures opts.slaveOnly ==> forall k :: 0 <= k <= rounds ==> !states[k].Master? && !states[k].Passive?
    ensures c.portState.Master? ==> c.currentDS == LOCAL_CURRENT && c.parentDS == LocalParent(c.defaultDS)
    ensures c.headerPacked ==>
      var h := UnpackHeader(c.msgObuf[..]);
      && h.source == c.portIdentity && h.domainNumber == c.defaultDS.domainNumber && h.versionPTP == VERSION_PTP
      && (opts.slaveOnly ==> MasterSilent(c.packed))
      && forall i :: 0 <= i < |c.packed| ==> Sendable(c.packed[i], c.defaultDS, opts.slaveOnly)
  {
    ToState(c, opts, Initializing);
    states := Rounds(c, opts, mac, rounds);
    if c.headerPacked {
      OnTheWire(c.msgObuf[..], c.base, c.packed, c.portIdentity, c.defaultDS, opts.slaveOnly);
    }
  }
}
