/** The PtpClock and RunTimeOpts structures, as far as the end-to-end mode uses them. */
module PtpClocks {
  import opened Bytes
  import opened PtpTypes
  import opened PtpMsg

  datatype IntervalTimer = IntervalTimer(interval: int, left: int, expire: bool)

  /** One-way delay filter: previous sample, output, and the stiffness 2^s it works toward. */
  datatype DelayFilter = DelayFilter(nsecPrev: i32, y: i32, sExp: int)

  const PDELAYREQ_INTERVAL_TIMER := 0
  const DELAYREQ_INTERVAL_TIMER := 1
  const SYNC_INTERVAL_TIMER := 2
  const ANNOUNCE_RECEIPT_TIMER := 3
  const ANNOUNCE_INTERVAL_TIMER := 4
  const TIMER_ARRAY_SIZE := 5

  /** An Announce as it came in. */
  datatype Heard = Heard(header: MsgHeader, announce: MsgAnnounce)

  /** What happens to the foreign master table: an Announce is entered, or taken by a
      slave from its parent without being entered; the receipt timeout empties the
      table; initData resets its count; bmc runs, with the given parent, as master or not. */
  datatype TableEvent =
    | Entered(heard: Heard)
    | Followed(heard: Heard)
    | Emptied
    | Reinitialised
    | Decided(parent: ClockIdentity, master: bool)

  class RunTimeOpts {
    var clockQuality: ClockQuality
    var ap: int
    var ai: int
    var offsetFirstUpdated: bool
    const priority1: byte
    const priority2: byte
    const domainNumber: byte
    const slaveOnly: bool
    const announceInterval: byte
    const syncInterval: byte
    const noResetClock: bool
    const noAdjust: bool
    const s: int
    const inboundLatency: TimeInternal
    const outboundLatency: TimeInternal
    const maxForeignRecords: nat

    ghost predicate Valid() {
      0 <= s <= 30 && maxForeignRecords >= 1
    }
  }

  class PtpClock {
    var defaultDS: DefaultDS
    var currentDS: CurrentDS
    var parentDS: ParentDS
    var timePropertiesDS: TimePropertiesDS
    var portIdentity: PortIdentity
    var portState: PortState
    var logMinDelayReqInterval: byte
    var logAnnounceInterval: byte
    var logSyncInterval: byte

    var foreign: seq<ForeignMasterRecord>
    var numberForeignRecords: nat
    var foreignRecordI: nat
    var foreignRecordBest: nat
    var recordUpdate: bool

    var msgTmpHeader: MsgHeader
    var msgTmpAnnounce: MsgAnnounce
    var msgIbuf: Packet
    const msgObuf: array<byte>

    var masterToSlaveDelay: TimeInternal
    var delayMS: TimeInternal
    var delaySM: TimeInternal
    var syncReceiveTime: TimeInternal
    var delayReqSendTime: TimeInternal
    var delayReqReceiveTime: TimeInternal
    var lastSyncCorrectionField: TimeInternal
    var observedDrift: int
    var owdFilt: DelayFilter
    var ofmNsecPrev: i32

    var sentDelayReqSequenceId: u16
    var sentSyncSequenceId: u16
    var sentAnnounceSequenceId: u16
    var recvSyncSequenceId: u16
    var waitingForFollow: bool
    var messageActivity: bool
    var localTimeInit: bool

    var itimer: seq<IntervalTimer>

    /** What the records held at power-up, and what has happened to the table since. */
    ghost const boot: seq<ForeignMasterRecord>
    ghost var history: seq<TableEvent>

    /** Whether the constant header fields have been written since the last
        initialisation, the buffer they were written over, and the messages packed since. */
    ghost var headerPacked: bool
    ghost var base: Packet
    ghost var packed: seq<Outgoing>

    /** Room for the foreign master records and the timers, as allocated at startup. */
    ghost predicate Shaped(opts: RunTimeOpts)
      reads this
    {
      && |foreign| == opts.maxForeignRecords >= 1
      && |itimer| == TIMER_ARRAY_SIZE
      && msgObuf.Length == PACKET_SIZE
    }
  }
}
