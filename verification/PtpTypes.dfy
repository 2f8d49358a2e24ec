/** The PTP data sets and messages of packages/ptpv2/ptpv2_datatypes.h, as values. */
module PtpTypes {
  import opened Bytes

  type u16 = x: int | 0 <= x < 0x1_0000
  type u32 = x: int | 0 <= x < 0x1_0000_0000
  type i32 = x: int | -0x8000_0000 <= x < 0x8000_0000

  const CLOCK_IDENTITY_LENGTH := 8
  type ClockIdentity = c: seq<byte> | |c| == CLOCK_IDENTITY_LENGTH witness [0, 0, 0, 0, 0, 0, 0, 0]

  datatype PortIdentity = PortIdentity(clock: ClockIdentity, port: u16)

  datatype ClockQuality = ClockQuality(clockClass: byte, clockAccuracy: byte, offsetScaledLogVariance: u16)

  /** Seconds are 48 bits wide: `secondsMsb` holds the upper 16. */
  datatype Timestamp = Timestamp(secondsMsb: u16, secondsLsb: u32, nanoseconds: u32)

  datatype TimeInternal = TimeInternal(seconds: i32, nanoseconds: i32)

  const ZERO_TIME := TimeInternal(0, 0)

  datatype MsgHeader = MsgHeader(
    transportSpecific: byte,
    messageType: byte,
    versionPTP: byte,
    messageLength: u16,
    domainNumber: byte,
    flags: (byte, byte),
    correctionMsb: u32,
    correctionLsb: u32,
    source: PortIdentity,
    sequenceId: u16,
    controlField: byte,
    logMessageInterval: byte)

  datatype MsgAnnounce = MsgAnnounce(
    originTimestamp: Timestamp,
    currentUtcOffset: u16,
    grandmasterPriority1: byte,
    grandmasterClockQuality: ClockQuality,
    grandmasterPriority2: byte,
    grandmasterIdentity: ClockIdentity,
    stepsRemoved: u16,
    timeSource: byte)

  datatype ForeignMasterRecord = ForeignMasterRecord(
    foreignMasterPortIdentity: PortIdentity,
    foreignMasterAnnounceMessages: u16,
    announce: MsgAnnounce,
    header: MsgHeader)

  datatype DefaultDS = DefaultDS(
    clockIdentity: ClockIdentity,
    clockQuality: ClockQuality,
    priority1: byte,
    priority2: byte,
    domainNumber: byte,
    slaveOnly: bool)

  datatype CurrentDS = CurrentDS(
    stepsRemoved: u16,
    offsetFromMaster: TimeInternal,
    meanPathDelay: TimeInternal)

  datatype ParentDS = ParentDS(
    parentPortIdentity: PortIdentity,
    parentStats: bool,
    observedParentOffsetScaledLogVariance: u16,
    observedParentClockPhaseChangeRate: i32,
    grandmasterIdentity: ClockIdentity,
    grandmasterClockQuality: ClockQuality,
    grandmasterPriority1: byte,
    grandmasterPriority2: byte)

  datatype TimePropertiesDS = TimePropertiesDS(
    currentUtcOffset: u16,
    currentUtcOffsetValid: bool,
    leap59: bool,
    leap61: bool,
    timeTraceable: bool,
    frequencyTraceable: bool,
    ptpTimescale: bool,
    timeSource: byte)

  datatype PortState =
    | Initializing | Faulty | Disabled | Listening | PreMaster | Master | Passive | Uncalibrated | Slave
}
