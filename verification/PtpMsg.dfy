/**
 Packing and unpacking of PTP messages in packages/ptpv2/ptpv2_msg.c
 (IEEE 1588-2008 clause 13). All outgoing messages are packed one over the other
 into a single buffer whose constant header fields are written once.
 */
module PtpMsg {
  import opened Bytes
  import opened PtpTypes

  const HEADER_LENGTH := 34
  const ANNOUNCE_LENGTH := 64
  const SYNC_LENGTH := 44
  const FOLLOW_UP_LENGTH := 44
  const DELAY_REQ_LENGTH := 44
  const DELAY_RESP_LENGTH := 54
  const PACKET_SIZE := 300
  const TWO_STEP_FLAG := 0x02

  type Packet = b: seq<byte> | |b| == PACKET_SIZE witness seq(PACKET_SIZE, _ => 0)

  /* ----- fields of a buffer ----- */

  function U16(b: seq<byte>, at: nat): (r: u16)
    requires at + 2 <= |b|
  {
    b[at] as int * 256 + b[at + 1]
  }

  function U32(b: seq<byte>, at: nat): (r: u32)
    requires at + 4 <= |b|
  {
    U16(b, at) as int * 65536 + U16(b, at + 2)
  }

  function Id(b: seq<byte>, at: nat): (r: ClockIdentity)
    requires at + 8 <= |b|
  {
    [b[at], b[at + 1], b[at + 2], b[at + 3], b[at + 4], b[at + 5], b[at + 6], b[at + 7]]
  }

  function Be16(v: u16): (r: seq<byte>)
    ensures |r| == 2
  {
    [v / 256, v % 256]
  }

  function Be32(v: u32): (r: seq<byte>)
    ensures |r| == 4
  {
    Be16(v / 65536) + Be16(v % 65536)
  }

  /** `b` with `bytes` written at `at`. */
  function Put(b: Packet, at: nat, bytes: seq<byte>): (r: Packet)
    requires at + |bytes| <= PACKET_SIZE
    ensures forall i :: 0 <= i < PACKET_SIZE ==> r[i] == if at <= i < at + |bytes| then bytes[i - at] else b[i]
  {
    b[..at] + bytes + b[at + |bytes|..]
  }

  /* ----- unpacking ----- */

  function UnpackHeader(b: seq<byte>): (h: MsgHeader)
    requires HEADER_LENGTH <= |b|
  {
    MsgHeader(b[0] / 16, b[0] % 16, b[1] % 16, U16(b, 2), b[4], (b[6], b[7]), U32(b, 8), U32(b, 12),
              PortIdentity(Id(b, 20), U16(b, 28)), U16(b, 30), b[32], b[33])
  }

  function UnpackTimestamp(b: seq<byte>): (t: Timestamp)
    requires SYNC_LENGTH <= |b|
  {
    Timestamp(U16(b, 34), U32(b, 36), U32(b, 40))
  }

  /** The requesting port of a DelayResp. */
  function UnpackRequester(b: seq<byte>): (p: PortIdentity)
    requires DELAY_RESP_LENGTH <= |b|
  {
    PortIdentity(Id(b, 44), U16(b, 52))
  }

  function UnpackAnnounce(b: seq<byte>): (a: MsgAnnounce)
    requires ANNOUNCE_LENGTH <= |b|
  {
    MsgAnnounce(UnpackTimestamp(b), U16(b, 44), b[47], ClockQuality(b[48], b[49], U16(b, 50)), b[52],
                Id(b, 53), U16(b, 61), b[63])
  }

  /* ----- packing ----- */

  /** The messages of the end-to-end mode, with what each takes from the clock. */
  datatype Outgoing =
    | Sync(sequenceId: u16, logSyncInterval: byte, time: Timestamp)
    | Announce(sequenceId: u16, logAnnounceInterval: byte, default: DefaultDS, current: CurrentDS,
               parent: ParentDS, properties: TimePropertiesDS)
    | FollowUp(sentSyncSequenceId: u16, logSyncInterval: byte, time: Timestamp)
    | DelayReq(sequenceId: u16, time: Timestamp)
    | DelayResp(request: MsgHeader, logMinDelayReqInterval: byte, time: Timestamp)

  /** msgPackHeader */
  function PackHeader(b: Packet, version: byte, domain: byte, twoStep: bool, port: PortIdentity): (r: Packet) {
    var b1 := Put(Put(Put(b, 0, [0x80]), 1, [version]), 4, [domain]);
    var b2 := if twoStep then Put(b1, 6, [TWO_STEP_FLAG]) else b1;
    Put(Put(Put(Put(b2, 8, [0, 0, 0, 0, 0, 0, 0, 0]), 20, port.clock), 28, Be16(port.port)), 33, [0x7F])
  }

  /** The header fields every message rewrites. */
  function PackCommon(b: Packet, messageType: byte, length: u16, sequenceId: u16, control: byte,
                      interval: byte): (r: Packet)
    requires messageType < 16
  {
    Put(Put(Put(Put(Put(b, 0, [b[0] / 16 * 16 + messageType]), 2, Be16(length)), 30, Be16(sequenceId)), 32, [control]),
        33, [interval])
  }

  function PackTimestamp(b: Packet, t: Timestamp): (r: Packet) {
    Put(Put(Put(b, 34, Be16(t.secondsMsb)), 36, Be32(t.secondsLsb)), 40, Be32(t.nanoseconds))
  }

  function ClearCorrection(b: Packet): (r: Packet) {
    Put(b, 8, [0, 0, 0, 0, 0, 0, 0, 0])
  }

  function PackAnnounceBody(b: Packet, m: Outgoing): (r: Packet)
    requires m.Announce?
  {
    var q := m.default.clockQuality;
    var b1 := Put(Put(b, 34, [0, 0, 0, 0, 0, 0, 0, 0, 0, 0]), 44, Be16(m.properties.currentUtcOffset));
    var b2 := Put(b1, 47, [m.parent.grandmasterPriority1, q.clockClass, q.clockAccuracy]);
    var b3 := Put(Put(b2, 50, Be16(q.offsetScaledLogVariance)), 52, [m.parent.grandmasterPriority2]);
    Put(Put(Put(b3, 53, m.parent.grandmasterIdentity), 61, Be16(m.current.stepsRemoved)), 63, [m.properties.timeSource])
  }

  /** The msgPack functions. */
  function Pack(b: Packet, m: Outgoing): (r: Packet) {
    match m
    case Sync(id, interval, time) =>
      PackTimestamp(ClearCorrection(PackCommon(b, 0x0, SYNC_LENGTH, id, 0x00, interval)), time)
    case Announce(id, interval, _, _, _, _) =>
      PackAnnounceBody(PackCommon(b, 0xB, ANNOUNCE_LENGTH, id, 0x05, interval), m)
    case FollowUp(id, interval, time) =>
      PackTimestamp(PackCommon(b, 0x8, FOLLOW_UP_LENGTH, (id - 1) % 0x1_0000, 0x02, interval), time)
    case DelayReq(id, time) =>
      PackTimestamp(ClearCorrection(PackCommon(b, 0x1, DELAY_REQ_LENGTH, id, 0x01, 0x7F)), time)
    case DelayResp(request, interval, time) =>
      var b1 := PackCommon(b, 0x9, DELAY_RESP_LENGTH, request.sequenceId, 0x03, interval);
      var b2 := Put(Put(b1, 4, [request.domainNumber]), 8, Be32(request.correctionMsb) + Be32(request.correctionLsb));
      Put(Put(PackTimestamp(b2, time), 44, request.source.clock), 52, Be16(request.source.port))
  }

  /** What the header of a packed message says, given the header packed before it. */
  function HeaderAfter(h: MsgHeader, m: Outgoing): (r: MsgHeader) {
    match m
    case Sync(id, interval, _) =>
      h.(messageType := 0x0, messageLength := SYNC_LENGTH, sequenceId := id, controlField := 0x00,
         logMessageInterval := interval, correctionMsb := 0, correctionLsb := 0)
    case Announce(id, interval, _, _, _, _) =>
      h.(messageType := 0xB, messageLength := ANNOUNCE_LENGTH, sequenceId := id, controlField := 0x05,
         logMessageInterval := interval)
    case FollowUp(id, interval, _) =>
      h.(messageType := 0x8, messageLength := FOLLOW_UP_LENGTH, sequenceId := (id - 1) % 0x1_0000,
         controlField := 0x02, logMessageInterval := interval)
    case DelayReq(id, _) =>
      h.(messageType := 0x1, messageLength := DELAY_REQ_LENGTH, sequenceId := id, controlField := 0x01,
         logMessageInterval := 0x7F, correctionMsb := 0, correctionLsb := 0)
    case DelayResp(request, interval, _) =>
      h.(messageType := 0x9, messageLength := DELAY_RESP_LENGTH, sequenceId := request.sequenceId,
         controlField := 0x03, logMessageInterval := interval, domainNumber := request.domainNumber,
         correctionMsb := request.correctionMsb, correctionLsb := request.correctionLsb)
  }

  lemma CommonPart(b: Packet, messageType: byte, length: u16, sequenceId: u16, control: byte, interval: byte)
    requires messageType < 16
    ensures UnpackHeader(PackCommon(b, messageType, length, sequenceId, control, interval)) ==
            UnpackHeader(b).(messageType := messageType, messageLength := length, sequenceId := sequenceId,
                             controlField := control, logMessageInterval := interval)
  {
  }

  /** Two bytes in network order read back as the number they encode. */
  lemma WordBack(v: u16, b: seq<byte>, at: nat)
    requires at + 2 <= |b| && b[at] == Be16(v)[0] && b[at + 1] == Be16(v)[1]
    ensures U16(b, at) == v
  {
  }

  lemma SameHeader(a: Packet, b: Packet)
    requires forall i :: 0 <= i < HEADER_LENGTH ==> a[i] == b[i]
    ensures UnpackHeader(a) == UnpackHeader(b)
  {
  }

  lemma TimestampPart(b: Packet, t: Timestamp)
    ensures UnpackHeader(PackTimestamp(b, t)) == UnpackHeader(b)
    ensures UnpackTimestamp(PackTimestamp(b, t)) == t
  {
    hide U16;
    var r := PackTimestamp(b, t);
    WordBack(t.secondsMsb, r, 34);
    WordBack(t.secondsLsb / 65536, r, 36);
    WordBack(t.secondsLsb % 65536, r, 38);
    WordBack(t.nanoseconds / 65536, r, 40);
    WordBack(t.nanoseconds % 65536, r, 42);
    SameHeader(b, r);
  }

  lemma CorrectionPart(b: Packet, msb: u32, lsb: u32)
    ensures UnpackHeader(Put(b, 8, Be32(msb) + Be32(lsb))) ==
            UnpackHeader(b).(correctionMsb := msb, correctionLsb := lsb)
  {
  }

  lemma ClearPart(b: Packet)
    ensures UnpackHeader(ClearCorrection(b)) == UnpackHeader(b).(correctionMsb := 0, correctionLsb := 0)
  {
  }

  lemma DomainPart(b: Packet, domain: byte)
    ensures UnpackHeader(Put(b, 4, [domain])) == UnpackHeader(b).(domainNumber := domain)
  {
  }

  /** The requesting port, written behind the time stamp. */
  lemma RequesterPart(b: Packet, port: PortIdentity)
    ensures
      var r := Put(Put(b, 44, port.clock), 52, Be16(port.port));
      && UnpackHeader(r) == UnpackHeader(b) && UnpackTimestamp(r) == UnpackTimestamp(b)
      && UnpackRequester(r) == port
  {
  }

  /** What an Announce packed from the data sets of a clock says to its receiver. */
  function Announced(m: Outgoing): (a: MsgAnnounce)
    requires m.Announce?
  {
    MsgAnnounce(Timestamp(0, 0, 0), m.properties.currentUtcOffset, m.parent.grandmasterPriority1,
                m.default.clockQuality, m.parent.grandmasterPriority2, m.parent.grandmasterIdentity,
                m.current.stepsRemoved, m.properties.timeSource)
  }

  lemma AnnouncePart(b: Packet, m: Outgoing)
    requires m.Announce?
    ensures UnpackHeader(PackAnnounceBody(b, m)) == UnpackHeader(b)
    ensures UnpackAnnounce(PackAnnounceBody(b, m)) == Announced(m)
  {
    hide UnpackHeader;
    SameHeader(b, PackAnnounceBody(b, m));
  }

  /** Unpacking the header of a packed message gives the new fields of the message
      and, for all others, what the buffer held before. */
  lemma HeaderRoundTrip(b: Packet, m: Outgoing)
    ensures UnpackHeader(Pack(b, m)) == HeaderAfter(UnpackHeader(b), m)
  {
    hide UnpackHeader, PackTimestamp, ClearCorrection, PackCommon, Put, PackAnnounceBody;
    match m
    case Sync(id, interval, time) =>
      var b1 := PackCommon(b, 0x0, SYNC_LENGTH, id, 0x00, interval);
      CommonPart(b, 0x0, SYNC_LENGTH, id, 0x00, interval);
      ClearPart(b1);
      TimestampPart(ClearCorrection(b1), time);
    case Announce(id, interval, _, _, _, _) =>
      CommonPart(b, 0xB, ANNOUNCE_LENGTH, id, 0x05, interval);
      AnnouncePart(PackCommon(b, 0xB, ANNOUNCE_LENGTH, id, 0x05, interval), m);
    case FollowUp(id, interval, time) =>
      CommonPart(b, 0x8, FOLLOW_UP_LENGTH, (id - 1) % 0x1_0000, 0x02, interval);
      TimestampPart(PackCommon(b, 0x8, FOLLOW_UP_LENGTH, (id - 1) % 0x1_0000, 0x02, interval), time);
    case DelayReq(id, time) =>
      var b1 := PackCommon(b, 0x1, DELAY_REQ_LENGTH, id, 0x01, 0x7F);
      CommonPart(b, 0x1, DELAY_REQ_LENGTH, id, 0x01, 0x7F);
      ClearPart(b1);
      TimestampPart(ClearCorrection(b1), time);
    case DelayResp(request, interval, time) =>
      var b1 := PackCommon(b, 0x9, DELAY_RESP_LENGTH, request.sequenceId, 0x03, interval);
      CommonPart(b, 0x9, DELAY_RESP_LENGTH, request.sequenceId, 0x03, interval);
      var b2 := Put(b1, 4, [request.domainNumber]);
      DomainPart(b1, request.domainNumber);
      CorrectionPart(b2, request.correctionMsb, request.correctionLsb);
      var b3 := Put(b2, 8, Be32(request.correctionMsb) + Be32(request.correctionLsb));
      TimestampPart(b3, time);
      RequesterPart(PackTimestamp(b3, time), request.source);
  }

  /** The body of a packed message unpacks to the time it was packed with and, for
      a DelayResp, to the port whose request it answers. */
  lemma TimestampRoundTrip(b: Packet, m: Outgoing)
    requires !m.Announce?
    ensures UnpackTimestamp(Pack(b, m)) == m.time
    ensures m.DelayResp? ==> UnpackRequester(Pack(b, m)) == m.request.source
  {
    hide UnpackTimestamp, UnpackRequester, PackTimestamp, ClearCorrection, PackCommon, Put;
    match m
    case Sync(id, interval, time) =>
      TimestampPart(ClearCorrection(PackCommon(b, 0x0, SYNC_LENGTH, id, 0x00, interval)), time);
    case FollowUp(id, interval, time) =>
      TimestampPart(PackCommon(b, 0x8, FOLLOW_UP_LENGTH, (id - 1) % 0x1_0000, 0x02, interval), time);
    case DelayReq(id, time) =>
      TimestampPart(ClearCorrection(PackCommon(b, 0x1, DELAY_REQ_LENGTH, id, 0x01, 0x7F)), time);
    case DelayResp(request, interval, time) =>
      var b1 := PackCommon(b, 0x9, DELAY_RESP_LENGTH, request.sequenceId, 0x03, interval);
      var b3 := Put(Put(b1, 4, [request.domainNumber]), 8, Be32(request.correctionMsb) + Be32(request.correctionLsb));
      TimestampPart(b3, time);
      RequesterPart(PackTimestamp(b3, time), request.source);
  }

  lemma AnnounceRoundTrip(b: Packet, m: Outgoing)
    requires m.Announce?
    ensures UnpackAnnounce(Pack(b, m)) == Announced(m)
  {
    hide PackCommon, PackAnnounceBody, UnpackAnnounce;
    AnnouncePart(PackCommon(b, 0xB, ANNOUNCE_LENGTH, m.sequenceId, 0x05, m.logAnnounceInterval), m);
  }

  /* ----- one buffer, many messages ----- */

  lemma FixedPart(b: Packet, version: byte, domain: byte)
    requires version < 16
    ensures
      var h := UnpackHeader(Put(Put(Put(b, 0, [0x80]), 1, [version]), 4, [domain]));
      h.transportSpecific == 8 && h.versionPTP == version && h.domainNumber == domain
  {
  }

  lemma FlagPart(b: Packet)
    ensures UnpackHeader(Put(b, 6, [TWO_STEP_FLAG])) ==
            UnpackHeader(b).(flags := (TWO_STEP_FLAG, UnpackHeader(b).flags.1))
  {
  }

  lemma SourcePart(b: Packet, port: PortIdentity)
    ensures
      var r := Put(Put(Put(Put(b, 8, [0, 0, 0, 0, 0, 0, 0, 0]), 20, port.clock), 28, Be16(port.port)), 33, [0x7F]);
      UnpackHeader(r) == UnpackHeader(b).(correctionMsb := 0, correctionLsb := 0, source := port,
        logMessageInterval := 0x7F)
  {
  }

  lemma HeaderPart(b: Packet, version: byte, domain: byte, twoStep: bool, port: PortIdentity)
    requires version < 16
    ensures
      var h := UnpackHeader(PackHeader(b, version, domain, twoStep, port));
      && h.transportSpecific == 8 && h.versionPTP == version && h.domainNumber == domain && h.source == port
      && h.correctionMsb == 0 && h.correctionLsb == 0
  {
    hide Put, UnpackHeader;
    var b1 := Put(Put(Put(b, 0, [0x80]), 1, [version]), 4, [domain]);
    var b2 := if twoStep then Put(b1, 6, [TWO_STEP_FLAG]) else b1;
    FixedPart(b, version, domain);
    FlagPart(b1);
    SourcePart(b2, port);
  }

  /** The buffer after a sequence of messages. */
  function PackAll(b: Packet, ms: seq<Outgoing>): (r: Packet)
    decreases |ms|
  {
    if ms == [] then b else Pack(PackAll(b, ms[..|ms| - 1]), ms[|ms| - 1])
  }

  /** Every request answered so far was for the given domain. */
  predicate OneDomain(ms: seq<Outgoing>, domain: byte) {
    forall i :: 0 <= i < |ms| && ms[i].DelayResp? ==> ms[i].request.domainNumber == domain
  }

  /** The last message that wrote the correction field decides what it holds. */
  function Correction(ms: seq<Outgoing>): (r: (u32, u32))
    decreases |ms|
  {
    if ms == [] then (0, 0)
    else
      match ms[|ms| - 1]
      case DelayResp(request, _, _) => (request.correctionMsb, request.correctionLsb)
      case Announce(_, _, _, _, _, _) => Correction(ms[..|ms| - 1])
      case FollowUp(_, _, _) => Correction(ms[..|ms| - 1])
      case _ => (0, 0)
  }

  /**
   After msgPackHeader, any sequence of messages keeps transport, version and
   source port, keeps the domain when every request answered was for it, and
   leaves in the correction field what Sync, DelayReq or DelayResp last put there:
   Announce and FollowUp send that value on.
   */
  lemma {:induction false} SharedBuffer(b: Packet, version: byte, domain: byte, twoStep: bool, port: PortIdentity,
                                        ms: seq<Outgoing>)
    requires version < 16
    ensures
      var h := UnpackHeader(PackAll(PackHeader(b, version, domain, twoStep, port), ms));
      && h.transportSpecific == 8 && h.versionPTP == version && h.source == port
      && (OneDomain(ms, domain) ==> h.domainNumber == domain)
      && (h.correctionMsb, h.correctionLsb) == Correction(ms)
    decreases |ms|
  {
    hide UnpackHeader, PackHeader, Pack;
    if ms == [] {
      HeaderPart(b, version, domain, twoStep, port);
    } else {
      var init := ms[..|ms| - 1];
      SharedBuffer(b, version, domain, twoStep, port, init);
      HeaderRoundTrip(PackAll(PackHeader(b, version, domain, twoStep, port), init), ms[|ms| - 1]);
      assert OneDomain(ms, domain) ==> OneDomain(init, domain);
    }
  }

  /** A FollowUp packed right after a DelayResp carries the correction of the answered request. */
  lemma StaleCorrection(b: Packet, request: MsgHeader, t: Timestamp)
    requires request.correctionMsb == 0 && request.correctionLsb == 1
    ensures UnpackHeader(PackAll(b, [DelayResp(request, 0, t), FollowUp(1, 0, t)])).correctionLsb == 1
  {
    hide UnpackHeader, Pack;
    var ms := [DelayResp(request, 0, t), FollowUp(1, 0, t)];
    assert ms[..1] == [ms[0]] && ms[..1][..0] == [];
    assert PackAll(b, ms[..1]) == Pack(b, ms[0]);
    HeaderRoundTrip(b, ms[0]);
    HeaderRoundTrip(Pack(b, ms[0]), ms[1]);
  }

  /* ----- the packing functions themselves ----- */

  method Write(buf: array<byte>, at: nat, bytes: seq<byte>)
    requires buf.Length == PACKET_SIZE && at + |bytes| <= PACKET_SIZE
    modifies buf
    ensures buf[..] == Put(old(buf[..]), at, bytes)
  {
    forall k | 0 <= k < |bytes| {
      buf[at + k] := bytes[k];
    }
  }

  method MsgPackHeader(buf: array<byte>, version: byte, domain: byte, twoStep: bool, port: PortIdentity)
    requires buf.Length == PACKET_SIZE
    modifies buf
    ensures buf[..] == PackHeader(old(buf[..]), version, domain, twoStep, port)
  {
    hide Put;
    Write(buf, 0, [0x80]);
    Write(buf, 1, [version]);
    Write(buf, 4, [domain]);
    if twoStep { Write(buf, 6, [TWO_STEP_FLAG]); }
    Write(buf, 8, [0, 0, 0, 0, 0, 0, 0, 0]);
    Write(buf, 20, port.clock);
    Write(buf, 28, Be16(port.port));
    Write(buf, 33, [0x7F]);
  }

  /** The rewritten header fields of any message. */
  method WriteCommon(buf: array<byte>, messageType: byte, length: u16, sequenceId: u16, control: byte, interval: byte)
    requires buf.Length == PACKET_SIZE && messageType < 16
    modifies buf
    ensures buf[..] == PackCommon(old(buf[..]), messageType, length, sequenceId, control, interval)
  {
    hide Put;
    Write(buf, 0, [buf[0] / 16 * 16 + messageType]);
    Write(buf, 2, Be16(length));
    Write(buf, 30, Be16(sequenceId));
    Write(buf, 32, [control]);
    Write(buf, 33, [interval]);
  }

  method WriteTimestamp(buf: array<byte>, t: Timestamp)
    requires buf.Length == PACKET_SIZE
    modifies buf
    ensures buf[..] == PackTimestamp(old(buf[..]), t)
  {
    hide Put;
    Write(buf, 34, Be16(t.secondsMsb));
    Write(buf, 36, Be32(t.secondsLsb));
    Write(buf, 40, Be32(t.nanoseconds));
  }

  method MsgPackSync(buf: array<byte>, time: Timestamp, sentSyncSequenceId: u16, logSyncInterval: byte)
    requires buf.Length == PACKET_SIZE
    modifies buf
    ensures buf[..] == Pack(old(buf[..]), Sync(sentSyncSequenceId, logSyncInterval, time))
  {
    hide Put, PackCommon, PackTimestamp;
    WriteCommon(buf, 0x0, SYNC_LENGTH, sentSyncSequenceId, 0x00, logSyncInterval);
    Write(buf, 8, [0, 0, 0, 0, 0, 0, 0, 0]);
    WriteTimestamp(buf, time);
  }

  method MsgPackAnnounce(buf: array<byte>, m: Outgoing)
    requires buf.Length == PACKET_SIZE && m.Announce?
    modifies buf
    ensures buf[..] == Pack(old(buf[..]), m)
  {
    hide Put, PackCommon;
    WriteCommon(buf, 0xB, ANNOUNCE_LENGTH, m.sequenceId, 0x05, m.logAnnounceInterval);
    Write(buf, 34, [0, 0, 0, 0, 0, 0, 0, 0, 0, 0]);
    Write(buf, 44, Be16(m.properties.currentUtcOffset));
    Write(buf, 47, [m.parent.grandmasterPriority1, m.default.clockQuality.clockClass,
      m.default.clockQuality.clockAccuracy]);
    Write(buf, 50, Be16(m.default.clockQuality.offsetScaledLogVariance));
    Write(buf, 52, [m.parent.grandmasterPriority2]);
    Write(buf, 53, m.parent.grandmasterIdentity);
    Write(buf, 61, Be16(m.current.stepsRemoved));
    Write(buf, 63, [m.properties.timeSource]);
  }

  method MsgPackFollowUp(buf: array<byte>, time: Timestamp, sentSyncSequenceId: u16, logSyncInterval: byte)
    requires buf.Length == PACKET_SIZE
    modifies buf
    ensures buf[..] == Pack(old(buf[..]), FollowUp(sentSyncSequenceId, logSyncInterval, time))
  {
    hide Put, PackCommon, PackTimestamp;
    WriteCommon(buf, 0x8, FOLLOW_UP_LENGTH, (sentSyncSequenceId - 1) % 0x1_0000, 0x02, logSyncInterval);
    WriteTimestamp(buf, time);
  }

  method MsgPackDelayReq(buf: array<byte>, time: Timestamp, sentDelayReqSequenceId: u16)
    requires buf.Length == PACKET_SIZE
    modifies buf
    ensures buf[..] == Pack(old(buf[..]), DelayReq(sentDelayReqSequenceId, time))
  {
    hide Put, PackCommon, PackTimestamp;
    WriteCommon(buf, 0x1, DELAY_REQ_LENGTH, sentDelayReqSequenceId, 0x01, 0x7F);
    Write(buf, 8, [0, 0, 0, 0, 0, 0, 0, 0]);
    WriteTimestamp(buf, time);
  }

  method MsgPackDelayResp(buf: array<byte>, request: MsgHeader, time: Timestamp, logMinDelayReqInterval: byte)
    requires buf.Length == PACKET_SIZE
    modifies buf
    ensures buf[..] == Pack(old(buf[..]), DelayResp(request, logMinDelayReqInterval, time))
  {
    hide Put, PackCommon, PackTimestamp;
    WriteCommon(buf, 0x9, DELAY_RESP_LENGTH, request.sequenceId, 0x03, logMinDelayReqInterval);
    Write(buf, 4, [request.domainNumber]);
    Write(buf, 8, Be32(request.correctionMsb) + Be32(request.correctionLsb));
    WriteTimestamp(buf, time);
    Write(buf, 44, request.source.clock);
    Write(buf, 52, Be16(request.source.port));
  }
}
