/**
 The best master clock algorithm of packages/ptpv2/ptpv2_bmc.c
 (IEEE 1588-2008 sections 9.3.2 to 9.3.5).
 */
module PtpBmc {
  import opened Bytes
  import opened PtpTypes
  import opened PtpClocks

  /** The sign of memcmp on two buffers of one length. */
  function MemCmp(a: seq<byte>, b: seq<byte>): (r: int)
    requires |a| == |b|
    ensures -1 <= r <= 1
    ensures r == 0 <==> a == b
  {
    if a == [] then 0
    else if a[0] < b[0] then -1
    else if a[0] > b[0] then 1
    else
      assert a == [a[0]] + a[1..] && b == [b[0]] + b[1..];
      MemCmp(a[1..], b[1..])
  }

  lemma MemCmpAntisymmetric(a: seq<byte>, b: seq<byte>)
    requires |a| == |b|
    ensures MemCmp(a, b) == -MemCmp(b, a)
  {
  }

  lemma MemCmpTransitive(a: seq<byte>, b: seq<byte>, c: seq<byte>)
    requires |a| == |b| == |c|
    requires MemCmp(a, b) <= 0 && MemCmp(b, c) <= 0
    ensures MemCmp(a, c) <= 0
    ensures MemCmp(a, c) == 0 ==> a == b == c
  {
  }

  function CompareNumbers(a: int, b: int): (r: int) {
    if a < b then -1 else if a > b then 1 else 0
  }

  /** An Announce with the clock that sent it. */
  datatype Claim = Claim(sender: ClockIdentity, announce: MsgAnnounce)

  function ClaimOf(r: ForeignMasterRecord): Claim {
    Claim(r.header.source.clock, r.announce)
  }

  /** Two claims for one grandmaster: its distance decides, then the sender. */
  function CompareTopology(a: Claim, b: Claim, parent: ClockIdentity): (r: int)
    ensures -1 <= r <= 1
  {
    if a.announce.stepsRemoved > b.announce.stepsRemoved + 1 then 1
    else if b.announce.stepsRemoved > a.announce.stepsRemoved + 1 then -1
    else if a.announce.stepsRemoved > b.announce.stepsRemoved then
      if a.sender == parent then 0 else 1
    else if b.announce.stepsRemoved > a.announce.stepsRemoved then
      if b.sender == parent then 0 else -1
    else MemCmp(a.sender, b.sender)
  }

  /** Two different grandmasters. Differing variances make a tie: the code then
      compares the clock classes, which are already known to be equal. */
  function CompareQuality(a: MsgAnnounce, b: MsgAnnounce): (r: int)
    ensures -1 <= r <= 1
  {
    if a.grandmasterPriority1 != b.grandmasterPriority1 then
      CompareNumbers(a.grandmasterPriority1, b.grandmasterPriority1)
    else if a.grandmasterClockQuality.clockClass != b.grandmasterClockQuality.clockClass then
      CompareNumbers(a.grandmasterClockQuality.clockClass, b.grandmasterClockQuality.clockClass)
    else if a.grandmasterClockQuality.clockAccuracy != b.grandmasterClockQuality.clockAccuracy then
      CompareNumbers(a.grandmasterClockQuality.clockAccuracy, b.grandmasterClockQuality.clockAccuracy)
    else if a.grandmasterClockQuality.offsetScaledLogVariance != b.grandmasterClockQuality.offsetScaledLogVariance then
      CompareNumbers(a.grandmasterClockQuality.clockClass, b.grandmasterClockQuality.clockClass)
    else if a.grandmasterPriority2 != b.grandmasterPriority2 then
      CompareNumbers(a.grandmasterPriority2, b.grandmasterPriority2)
    else MemCmp(a.grandmasterIdentity, b.grandmasterIdentity)
  }

  /** bmcDataSetComparison: negative when `a` is the better claim. */
  function Compare(a: Claim, b: Claim, parent: ClockIdentity): (r: int)
    ensures -1 <= r <= 1
  {
    if a.announce.grandmasterIdentity == b.announce.grandmasterIdentity then CompareTopology(a, b, parent)
    else CompareQuality(a.announce, b.announce)
  }

  lemma CompareAntisymmetric(a: Claim, b: Claim, parent: ClockIdentity)
    ensures Compare(a, b, parent) == -Compare(b, a, parent)
  {
    MemCmpAntisymmetric(a.sender, b.sender);
    MemCmpAntisymmetric(a.announce.grandmasterIdentity, b.announce.grandmasterIdentity);
  }

  /* ----- the order the comparison stands for ----- */

  /** What ranks a grandmaster, apart from its identity. */
  function Rank(m: MsgAnnounce): (r: (byte, byte, byte, u16, byte)) {
    (m.grandmasterPriority1, m.grandmasterClockQuality.clockClass, m.grandmasterClockQuality.clockAccuracy,
     m.grandmasterClockQuality.offsetScaledLogVariance, m.grandmasterPriority2)
  }

  /** The code's error exit "sender = receiver": of two claims for one grandmaster
      that differ by one step, the farther one comes from the current parent. */
  predicate ParentTie(a: Claim, b: Claim, parent: ClockIdentity) {
    && a.announce.grandmasterIdentity == b.announce.grandmasterIdentity
    && ((a.announce.stepsRemoved == b.announce.stepsRemoved + 1 && a.sender == parent) ||
        (b.announce.stepsRemoved == a.announce.stepsRemoved + 1 && b.sender == parent))
  }

  /** Strictly better, lexicographically: rank and identity of the grandmaster, then
      distance, then sender. Grandmasters that agree up to the variance and differ in it are unrelated. */
  predicate Better(a: Claim, b: Claim) {
    var m, n := a.announce, b.announce;
    if m.grandmasterIdentity == n.grandmasterIdentity then
      || m.stepsRemoved < n.stepsRemoved
      || (m.stepsRemoved == n.stepsRemoved && MemCmp(a.sender, b.sender) < 0)
    else if m.grandmasterPriority1 != n.grandmasterPriority1 then m.grandmasterPriority1 < n.grandmasterPriority1
    else if Rank(m).1 != Rank(n).1 then Rank(m).1 < Rank(n).1
    else if Rank(m).2 != Rank(n).2 then Rank(m).2 < Rank(n).2
    else
      && Rank(m).3 == Rank(n).3
      && (Rank(m).4 < Rank(n).4 ||
          (Rank(m).4 == Rank(n).4 && MemCmp(m.grandmasterIdentity, n.grandmasterIdentity) < 0))
  }

  /** The comparison agrees with the order exactly when its error exit is not taken. */
  lemma CompareIsBetter(a: Claim, b: Claim, parent: ClockIdentity)
    ensures (Compare(a, b, parent) < 0 <==> Better(a, b)) && (Compare(a, b, parent) > 0 <==> Better(b, a))
            <==> !ParentTie(a, b, parent)
  {
    MemCmpAntisymmetric(a.sender, b.sender);
    MemCmpAntisymmetric(a.announce.grandmasterIdentity, b.announce.grandmasterIdentity);
  }

  /** One grandmaster is announced with one rank. */
  predicate Consistent(a: Claim, b: Claim) {
    a.announce.grandmasterIdentity == b.announce.grandmasterIdentity ==> Rank(a.announce) == Rank(b.announce)
  }

  lemma BetterTransitive(a: Claim, b: Claim, c: Claim)
    requires Consistent(a, b) && Consistent(b, c) && Consistent(a, c)
    requires Better(a, b) && Better(b, c)
    ensures Better(a, c)
  {
    var ia, ib, ic := a.announce.grandmasterIdentity, b.announce.grandmasterIdentity, c.announce.grandmasterIdentity;
    if MemCmp(a.sender, b.sender) <= 0 && MemCmp(b.sender, c.sender) <= 0 {
      MemCmpTransitive(a.sender, b.sender, c.sender);
    }
    if MemCmp(ia, ib) <= 0 && MemCmp(ib, ic) <= 0 {
      MemCmpTransitive(ia, ib, ic);
    }
    MemCmpAntisymmetric(ia, ib);
  }

  /* ----- the scan for the best record ----- */

  function Claims(foreign: seq<ForeignMasterRecord>): (r: seq<Claim>)
    ensures |r| == |foreign|
  {
    seq(|foreign|, i requires 0 <= i < |foreign| => ClaimOf(foreign[i]))
  }

  /** The record the scan ends with. */
  function Best(claims: seq<Claim>, n: nat, parent: ClockIdentity): (best: nat)
    requires n <= |claims| && claims != []
    ensures best < |claims| && (n > 0 ==> best < n)
  {
    if n <= 1 then 0
    else
      var b := Best(claims, n - 1, parent);
      if Compare(claims[n - 1], claims[b], parent) < 0 then n - 1 else b
  }

  /* ----- data set updates and state decision ----- */

  const INTERNAL_OSCILLATOR: byte := 0xA0

  /** The current and parent data sets of a clock that is its own grandmaster (m1, Table 13). */
  const LOCAL_CURRENT := CurrentDS(0, ZERO_TIME, ZERO_TIME)

  function LocalParent(d: DefaultDS): (p: ParentDS) {
    ParentDS(PortIdentity(d.clockIdentity, 0), false, 0, 0, d.clockIdentity, d.clockQuality, d.priority1, d.priority2)
  }

  /** The data sets of a clock synchronised to the sender of an Announce (s1, Table 16). */
  function FollowCurrent(c: CurrentDS, m: MsgAnnounce): (r: CurrentDS) {
    c.(stepsRemoved := (m.stepsRemoved + 1) % 0x1_0000)
  }

  function FollowParent(p: ParentDS, h: MsgHeader, m: MsgAnnounce): (r: ParentDS) {
    p.(parentPortIdentity := h.source, grandmasterIdentity := m.grandmasterIdentity,
       grandmasterClockQuality := m.grandmasterClockQuality,
       grandmasterPriority1 := m.grandmasterPriority1, grandmasterPriority2 := m.grandmasterPriority2)
  }

  /** The data sets of a port that follows the sender of a record. */
  predicate Follows(r: ForeignMasterRecord, c0: CurrentDS, c1: CurrentDS, p0: ParentDS, p1: ParentDS) {
    c1 == FollowCurrent(c0, r.announce) && p1 == FollowParent(p0, r.header, r.announce)
  }

  function Bit(b: byte, weight: int): bool
    requires weight > 0
  {
    b / weight % 2 == 1
  }

  function FollowProperties(h: MsgHeader, m: MsgAnnounce): (r: TimePropertiesDS) {
    TimePropertiesDS(m.currentUtcOffset, Bit(h.flags.1, 4), Bit(h.flags.1, 2), Bit(h.flags.1, 1),
                     Bit(h.flags.1, 16), Bit(h.flags.1, 32), Bit(h.flags.1, 8), m.timeSource)
  }

  /** copyD0: the local clock's own claim, over whatever the scratch messages held. */
  function LocalClaim(d: DefaultDS, scratch: MsgAnnounce): (c: Claim) {
    Claim(d.clockIdentity,
          scratch.(grandmasterPriority1 := d.priority1, grandmasterIdentity := d.clockIdentity,
                   grandmasterClockQuality := d.clockQuality, grandmasterPriority2 := d.priority2, stepsRemoved := 0))
  }

  /** bmcStateDecision (Figure 26) */
  function Decide(d: DefaultDS, slaveOnly: bool, n: nat, state: PortState, best: Claim, scratch: MsgAnnounce,
                  parent: ClockIdentity): (r: PortState)
    ensures r in {Slave, Listening, Master, Passive, Faulty}
  {
    if slaveOnly then Slave
    else if n == 0 && state.Listening? then Listening
    else
      var c := Compare(LocalClaim(d, scratch), best, parent);
      if c < 0 then Master
      else if c > 0 then if d.clockQuality.clockClass < 128 then Passive else Slave
      else Faulty
  }

  /** The state bmc recommends. */
  function Recommended(d: DefaultDS, slaveOnly: bool, foreign: seq<ForeignMasterRecord>, n: nat, state: PortState,
                       scratch: MsgAnnounce, parent: ClockIdentity): (r: PortState)
    requires n <= |foreign| && foreign != []
  {
    if n == 0 && state.Master? then Master
    else Decide(d, slaveOnly, n, state, Claims(foreign)[Best(Claims(foreign), n, parent)], scratch, parent)
  }

  method M1(c: PtpClock)
    modifies c`currentDS, c`parentDS, c`timePropertiesDS
    ensures c.currentDS == LOCAL_CURRENT && c.parentDS == LocalParent(c.defaultDS)
    ensures c.timePropertiesDS == old(c.timePropertiesDS).(timeSource := INTERNAL_OSCILLATOR)
  {
    c.currentDS := CurrentDS(0, ZERO_TIME, ZERO_TIME);
    c.parentDS := LocalParent(c.defaultDS);
    c.timePropertiesDS := c.timePropertiesDS.(timeSource := INTERNAL_OSCILLATOR);
  }

  method S1(c: PtpClock, h: MsgHeader, m: MsgAnnounce)
    modifies c`currentDS, c`parentDS, c`timePropertiesDS
    ensures c.currentDS == FollowCurrent(old(c.currentDS), m)
    ensures c.parentDS == FollowParent(old(c.parentDS), h, m)
    ensures c.timePropertiesDS == FollowProperties(h, m)
  {
    c.currentDS := FollowCurrent(c.currentDS, m);
    c.parentDS := FollowParent(c.parentDS, h, m);
    c.timePropertiesDS := FollowProperties(h, m);
  }

  /** The loop of bmc. */
  method Scan(foreign: seq<ForeignMasterRecord>, n: nat, parent: ClockIdentity) returns (best: nat)
    requires n <= |foreign| && foreign != []
    ensures best == Best(Claims(foreign), n, parent)
  {
    hide Compare;
    best := 0;
    var i := 1;
    while i < n
      invariant 1 <= i && (i <= n || n == 0)
      invariant best < |foreign|
      invariant best == Best(Claims(foreign), if n == 0 then 0 else i, parent)
    {
      if Compare(ClaimOf(foreign[i]), ClaimOf(foreign[best]), parent) < 0 {
        best := i;
      }
      i := i + 1;
    }
  }

  method StateDecision(c: PtpClock, opts: RunTimeOpts, r: ForeignMasterRecord) returns (state: PortState)
    modifies c`currentDS, c`parentDS, c`timePropertiesDS, c`msgTmpHeader, c`msgTmpAnnounce
    ensures state == Decide(c.defaultDS, opts.slaveOnly, c.numberForeignRecords, c.portState, ClaimOf(r),
                            old(c.msgTmpAnnounce), old(c.parentDS).parentPortIdentity.clock)
    ensures state.Master? ==> c.currentDS == LOCAL_CURRENT && c.parentDS == LocalParent(c.defaultDS)
    ensures state.Slave? || state.Passive? ==> Follows(r, old(c.currentDS), c.currentDS, old(c.parentDS), c.parentDS)
    ensures state.Listening? || state.Faulty? ==>
      c.currentDS == old(c.currentDS) && c.parentDS == old(c.parentDS)
    ensures opts.slaveOnly ==> state.Slave?
    ensures !opts.slaveOnly && c.numberForeignRecords == 0 && c.portState.Listening? ==> state.Listening?
    ensures state.Listening? ==> c.numberForeignRecords == 0 && c.portState.Listening?
    ensures !opts.slaveOnly ==>
      if c.defaultDS.clockQuality.clockClass < 128 then !state.Slave? else !state.Passive?
  {
    hide Compare;
    if opts.slaveOnly {
      S1(c, r.header, r.announce);
      return Slave;
    }
    if c.numberForeignRecords == 0 && c.portState.Listening? {
      return Listening;
    }
    var own := LocalClaim(c.defaultDS, c.msgTmpAnnounce);
    c.msgTmpAnnounce := own.announce;
    c.msgTmpHeader := c.msgTmpHeader.(source := c.msgTmpHeader.source.(clock := own.sender));
    var parent := c.parentDS.parentPortIdentity.clock;
    var comparison := Compare(own, ClaimOf(r), parent);
    if comparison < 0 {
      M1(c);
      return Master;
    } else if comparison > 0 {
      S1(c, r.header, r.announce);
      return if c.defaultDS.clockQuality.clockClass < 128 then Passive else Slave;
    }
    state := Faulty;
  }

  /** bmc: scan, decide, and update the data sets for the recommended state. */
  method Bmc(c: PtpClock, opts: RunTimeOpts) returns (state: PortState)
    requires c.Shaped(opts) && c.numberForeignRecords <= |c.foreign|
    modifies c`currentDS, c`parentDS, c`timePropertiesDS, c`foreignRecordBest, c`msgTmpHeader, c`msgTmpAnnounce
    ensures state == Recommended(c.defaultDS, opts.slaveOnly, c.foreign, c.numberForeignRecords, c.portState,
                                 old(c.msgTmpAnnounce), old(c.parentDS).parentPortIdentity.clock)
    ensures state.Master? ==> c.currentDS == LOCAL_CURRENT && c.parentDS == LocalParent(c.defaultDS)
    ensures state.Slave? || state.Passive? ==>
      && c.foreignRecordBest < |c.foreign|
      && Follows(c.foreign[c.foreignRecordBest], old(c.currentDS), c.currentDS, old(c.parentDS), c.parentDS)
    ensures state.Listening? || state.Faulty? ==>
      c.currentDS == old(c.currentDS) && c.parentDS == old(c.parentDS)
    ensures c.foreignRecordBest ==
            if c.numberForeignRecords == 0 && c.portState.Master? then old(c.foreignRecordBest)
            else Best(Claims(c.foreign), c.numberForeignRecords, old(c.parentDS).parentPortIdentity.clock)
    ensures c.numberForeignRecords == 0 && c.portState.Master? ==> state.Master?
    ensures opts.slaveOnly && !(c.numberForeignRecords == 0 && c.portState.Master?) ==> state.Slave?
    ensures !opts.slaveOnly && c.numberForeignRecords == 0 && c.portState.Listening? ==> state.Listening?
  {
    hide Compare, Best;
    if c.numberForeignRecords == 0 {
      if c.portState.Master? {
        M1(c);
        return c.portState;
      }
    }
    var best := Scan(c.foreign, c.numberForeignRecords, c.parentDS.parentPortIdentity.clock);
    c.foreignRecordBest := best;
    state := StateDecision(c, opts, c.foreign[best]);
  }
}
