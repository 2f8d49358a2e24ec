/**
 The distributed election: what bmc decides in every clock of a network in which
 each clock has heard exactly the others announce themselves as masters
 (IEEE 1588-2008 sections 9.3.3 to 9.3.5).
 */
module PtpElection {
  import opened Bytes
  import opened PtpTypes
  import opened PtpMsg
  import opened PtpBmc
  import opened PtpScan

  /** The record of an Announce in which the clock claims to be grandmaster itself. */
  predicate HeardFrom(r: ForeignMasterRecord, d: DefaultDS) {
    && r.header.source == PortIdentity(d.clockIdentity, 1)
    && r.announce.grandmasterIdentity == d.clockIdentity
    && r.announce.grandmasterPriority1 == d.priority1
    && r.announce.grandmasterPriority2 == d.priority2
    && r.announce.grandmasterClockQuality == d.clockQuality
    && r.announce.stepsRemoved == 0
  }

  /** A clock whose data sets m1 has set announces exactly that, whatever it sent
      through its output buffer before, and the receiver's record says so. */
  lemma AnnounceIsHeard(b: Packet, d: DefaultDS, twoStep: bool, before: seq<Outgoing>, id: u16, interval: byte,
                        properties: TimePropertiesDS, count: u16)
    ensures
      var sent := Pack(PackAll(PackHeader(b, 2, d.domainNumber, twoStep, PortIdentity(d.clockIdentity, 1)), before),
                       Announce(id, interval, d, LOCAL_CURRENT, LocalParent(d), properties));
      HeardFrom(ForeignMasterRecord(UnpackHeader(sent).source, count, UnpackAnnounce(sent), UnpackHeader(sent)), d)
  {
    hide Pack, PackAll, PackHeader, UnpackHeader, UnpackAnnounce;
    var port := PortIdentity(d.clockIdentity, 1);
    var buffer := PackAll(PackHeader(b, 2, d.domainNumber, twoStep, port), before);
    var m := Announce(id, interval, d, LOCAL_CURRENT, LocalParent(d), properties);
    SharedBuffer(b, 2, d.domainNumber, twoStep, port, before);
    HeaderRoundTrip(buffer, m);
    AnnounceRoundTrip(buffer, m);
  }

  /** Distinct clocks, none slave-only. */
  predicate Network(clocks: seq<DefaultDS>) {
    && |clocks| >= 2
    && forall i, j :: 0 <= i < j < |clocks| ==> clocks[i].clockIdentity != clocks[j].clockIdentity
  }

  /** What one clock knows when it runs bmc: its table, its state, and leftovers. */
  datatype View = View(foreign: seq<ForeignMasterRecord>, n: nat, state: PortState, scratch: MsgAnnounce,
    parent: ParentDS)

  ghost predicate FromOther(clocks: seq<DefaultDS>, k: nat, r: ForeignMasterRecord) {
    exists i :: 0 <= i < |clocks| && i != k && HeardFrom(r, clocks[i])
  }

  ghost predicate Present(d: DefaultDS, v: View)
    requires v.n <= |v.foreign|
  {
    exists j :: 0 <= j < v.n && HeardFrom(v.foreign[j], d)
  }

  /** The first `n` records are those of the other clocks, in any order. */
  ghost predicate HeardOthers(clocks: seq<DefaultDS>, k: nat, v: View) {
    && v.n <= |v.foreign| && v.foreign != []
    && (forall j :: 0 <= j < v.n ==> FromOther(clocks, k, v.foreign[j]))
    && (forall i :: 0 <= i < |clocks| && i != k ==> Present(clocks[i], v))
  }

  function Decision(clocks: seq<DefaultDS>, k: nat, v: View): (r: PortState)
    requires k < |clocks| && v.n <= |v.foreign| && v.foreign != []
  {
    Recommended(clocks[k], false, v.foreign, v.n, v.state, v.scratch, v.parent.parentPortIdentity.clock)
  }

  /** The order on clocks: priority1, class, accuracy, priority2, identity. */
  predicate Outranks(d: DefaultDS, e: DefaultDS) {
    if d.priority1 != e.priority1 then d.priority1 < e.priority1
    else if d.clockQuality.clockClass != e.clockQuality.clockClass then
      d.clockQuality.clockClass < e.clockQuality.clockClass
    else if d.clockQuality.clockAccuracy != e.clockQuality.clockAccuracy then
      d.clockQuality.clockAccuracy < e.clockQuality.clockAccuracy
    else if d.priority2 != e.priority2 then d.priority2 < e.priority2
    else MemCmp(d.clockIdentity, e.clockIdentity) < 0
  }

  /** Two clocks that differ in the variance and in nothing compared before it. */
  predicate VarianceTie(d: DefaultDS, e: DefaultDS) {
    && d.priority1 == e.priority1
    && d.clockQuality.clockClass == e.clockQuality.clockClass
    && d.clockQuality.clockAccuracy == e.clockQuality.clockAccuracy
    && d.clockQuality.offsetScaledLogVariance != e.clockQuality.offsetScaledLogVariance
  }

  /** The highest ranked clock. */
  predicate Tops(clocks: seq<DefaultDS>, w: nat) {
    w < |clocks| && forall i :: 0 <= i < |clocks| && i != w ==> Outranks(clocks[w], clocks[i])
  }

  /** No variance makes a tie with this clock. */
  predicate Untied(clocks: seq<DefaultDS>, w: nat) {
    w < |clocks| && forall i :: 0 <= i < |clocks| && i != w ==> !VarianceTie(clocks[w], clocks[i])
  }

  lemma OutranksTotal(d: DefaultDS, e: DefaultDS)
    requires d.clockIdentity != e.clockIdentity
    ensures Outranks(d, e) <==> !Outranks(e, d)
  {
    MemCmpAntisymmetric(d.clockIdentity, e.clockIdentity);
  }

  lemma OutranksTransitive(d: DefaultDS, e: DefaultDS, f: DefaultDS)
    requires Outranks(d, e) && Outranks(e, f)
    ensures Outranks(d, f)
  {
    if MemCmp(d.clockIdentity, e.clockIdentity) <= 0 && MemCmp(e.clockIdentity, f.clockIdentity) <= 0 {
      MemCmpTransitive(d.clockIdentity, e.clockIdentity, f.clockIdentity);
    }
  }

  lemma {:induction false} TopExists(clocks: seq<DefaultDS>)
    requires |clocks| >= 1
    requires forall i, j :: 0 <= i < j < |clocks| ==> clocks[i].clockIdentity != clocks[j].clockIdentity
    ensures exists w: nat :: Tops(clocks, w)
    decreases |clocks|
  {
    hide Outranks;
    var last := |clocks| - 1;
    if last == 0 {
      assert Tops(clocks, 0);
    } else {
      var init := clocks[..last];
      TopExists(init);
      var w: nat :| Tops(init, w);
      OutranksTotal(clocks[w], clocks[last]);
      if Outranks(clocks[w], clocks[last]) {
        assert forall i :: 0 <= i < last ==> clocks[i] == init[i];
        assert Tops(clocks, w);
      } else {
        forall i | 0 <= i < last ensures Outranks(clocks[last], clocks[i]) {
          assert clocks[i] == init[i];
          if i != w { OutranksTransitive(clocks[last], clocks[w], clocks[i]); }
        }
        assert Tops(clocks, last);
      }
    }
  }

  lemma TopUnique(clocks: seq<DefaultDS>, v: nat, w: nat)
    requires Network(clocks) && Tops(clocks, v) && Tops(clocks, w)
    ensures v == w
  {
    hide Outranks;
    if v < w { OutranksTotal(clocks[v], clocks[w]); }
    if w < v { OutranksTotal(clocks[w], clocks[v]); }
  }

  /** The claim of a clock for itself. */
  predicate Stands(a: Claim, d: DefaultDS) {
    && a.sender == d.clockIdentity
    && a.announce.grandmasterIdentity == d.clockIdentity
    && a.announce.grandmasterPriority1 == d.priority1
    && a.announce.grandmasterPriority2 == d.priority2
    && a.announce.grandmasterClockQuality == d.clockQuality
    && a.announce.stepsRemoved == 0
  }

  lemma RecordStands(r: ForeignMasterRecord, d: DefaultDS)
    requires HeardFrom(r, d)
    ensures Stands(ClaimOf(r), d)
  {
  }

  /** Between self-announced masters, the comparison is the order on clocks, but for
      variances that make a tie. */
  lemma CompareIsRank(a: Claim, b: Claim, d: DefaultDS, e: DefaultDS, parent: ClockIdentity)
    requires Stands(a, d) && Stands(b, e)
    requires d.clockIdentity != e.clockIdentity
    ensures Compare(a, b, parent) == if VarianceTie(d, e) then 0 else if Outranks(d, e) then -1 else 1
  {
  }

  lemma NetworkPair(clocks: seq<DefaultDS>, p: nat, q: nat)
    requires Network(clocks) && p < |clocks| && q < |clocks|
    ensures p == q || clocks[p].clockIdentity != clocks[q].clockIdentity
  {
  }

  lemma PairConsistent(r: ForeignMasterRecord, d: DefaultDS, t: ForeignMasterRecord, e: DefaultDS)
    requires HeardFrom(r, d) && HeardFrom(t, e) && (d == e || d.clockIdentity != e.clockIdentity)
    ensures Consistent(ClaimOf(r), ClaimOf(t))
  {
  }

  /** The counted records of a clock that has heard the others. */
  function Counted(v: View): (claims: seq<Claim>)
    requires v.n <= |v.foreign|
    ensures |claims| == v.n && forall i :: 0 <= i < v.n ==> claims[i] == ClaimOf(v.foreign[i])
  {
    Claims(v.foreign)[..v.n]
  }

  /** Every counted record is of some other clock. */
  lemma CountedFrom(clocks: seq<DefaultDS>, k: nat, v: View, c: Claim) returns (r: ForeignMasterRecord, p: nat)
    requires HeardOthers(clocks, k, v) && c in Counted(v)
    ensures p < |clocks| && HeardFrom(r, clocks[p]) && c == ClaimOf(r)
  {
    hide HeardFrom, ClaimOf;
    var i :| 0 <= i < v.n && Counted(v)[i] == c;
    assert FromOther(clocks, k, v.foreign[i]);
    p :| 0 <= p < |clocks| && p != k && HeardFrom(v.foreign[i], clocks[p]);
    r := v.foreign[i];
  }

  lemma HeardConsistent(clocks: seq<DefaultDS>, k: nat, v: View)
    requires Network(clocks) && k < |clocks| && HeardOthers(clocks, k, v)
    ensures AllConsistent(Counted(v))
  {
    assert v.n <= |v.foreign|;
    hide HeardFrom, Consistent, ClaimOf, Network, Counted, HeardOthers;
    forall a, b | a in Counted(v) && b in Counted(v) ensures Consistent(a, b) {
      var r, p := CountedFrom(clocks, k, v, a);
      var t, q := CountedFrom(clocks, k, v, b);
      NetworkPair(clocks, p, q);
      PairConsistent(r, clocks[p], t, clocks[q]);
    }
  }

  lemma StandsNear(c: Claim, d: DefaultDS)
    requires Stands(c, d)
    ensures Steps(c) == 0
  {
  }

  /** Self-announced masters are all at distance 0, so the scan is never misled. */
  lemma HeardNotMisled(clocks: seq<DefaultDS>, k: nat, v: View)
    requires HeardOthers(clocks, k, v)
    ensures !Misled(Counted(v), v.parent.parentPortIdentity.clock)
  {
    assert v.n <= |v.foreign|;
    hide HeardFrom, ClaimOf, Counted, HeardOthers, Foremost, Stands;
    forall c | c in Counted(v) ensures Steps(c) == 0 {
      var r, p := CountedFrom(clocks, k, v, c);
      RecordStands(r, clocks[p]);
      StandsNear(c, clocks[p]);
    }
  }

  lemma CountedBest(v: View)
    requires 1 <= v.n <= |v.foreign|
    ensures
      var parent := v.parent.parentPortIdentity.clock;
      Best(Counted(v), v.n, parent) == Best(Claims(v.foreign), v.n, parent) < v.n
  {
    hide Best;
    BestPrefix(Claims(v.foreign), v.n, v.n, v.parent.parentPortIdentity.clock);
  }

  lemma HeardUnbeaten(clocks: seq<DefaultDS>, k: nat, v: View, j: nat)
    requires Network(clocks) && k < |clocks| && HeardOthers(clocks, k, v) && j < v.n
    ensures
      var parent := v.parent.parentPortIdentity.clock;
      Compare(ClaimOf(v.foreign[j]), ClaimOf(v.foreign[Best(Claims(v.foreign), v.n, parent)]), parent) >= 0
  {
    hide Compare, Best, ClaimOf, Network, Misled, AllConsistent;
    var parent, claims := v.parent.parentPortIdentity.clock, Counted(v);
    HeardConsistent(clocks, k, v);
    HeardNotMisled(clocks, k, v);
    if EndsBeaten(claims, parent) { BestUnbeaten(claims, parent); }
    CountedBest(v);
    assert !Beats(claims[j], claims[Best(claims, v.n, parent)], parent);
  }

  /** The clock whose record the scan of clock `k` ends with. */
  ghost predicate Finds(clocks: seq<DefaultDS>, k: nat, v: View, i: nat) {
    && i < |clocks| && i != k && v.n <= |v.foreign| && v.foreign != []
    && HeardFrom(v.foreign[Best(Claims(v.foreign), v.n, v.parent.parentPortIdentity.clock)], clocks[i])
  }

  lemma FindsSomeone(clocks: seq<DefaultDS>, k: nat, v: View) returns (i: nat)
    requires Network(clocks) && k < |clocks| && HeardOthers(clocks, k, v)
    ensures v.n >= 1 && Finds(clocks, k, v, i)
  {
    assert |clocks| >= 2;
    hide HeardFrom, Network, Best;
    var other := if k == 0 then 1 else 0;
    assert Present(clocks[other], v);
    var best := Best(Claims(v.foreign), v.n, v.parent.parentPortIdentity.clock);
    assert FromOther(clocks, k, v.foreign[best]);
    i :| 0 <= i < |clocks| && i != k && HeardFrom(v.foreign[best], clocks[i]);
  }

  /** Every clock decides by its rank against the clock its scan ends with. */
  lemma DecidesByRank(clocks: seq<DefaultDS>, k: nat, v: View, i: nat)
    requires Network(clocks) && k < |clocks| && HeardOthers(clocks, k, v) && v.n >= 1 && Finds(clocks, k, v, i)
    ensures Decision(clocks, k, v) ==
            if VarianceTie(clocks[k], clocks[i]) then Faulty
            else if Outranks(clocks[k], clocks[i]) then Master
            else if clocks[k].clockQuality.clockClass < 128 then Passive
            else Slave
  {
    hide Outranks, VarianceTie, Compare;
    var parent := v.parent.parentPortIdentity.clock;
    var best := Best(Claims(v.foreign), v.n, parent);
    NetworkPair(clocks, k, i);
    CompareIsRank(LocalClaim(clocks[k], v.scratch), ClaimOf(v.foreign[best]), clocks[k], clocks[i], parent);
  }

  /** Where the highest ranked clock is untied, every other clock finds its record. */
  lemma BestIsTop(clocks: seq<DefaultDS>, w: nat, k: nat, v: View)
    requires Network(clocks) && Tops(clocks, w) && Untied(clocks, w) && k < |clocks| && k != w
    requires HeardOthers(clocks, k, v)
    ensures v.n >= 1 && Finds(clocks, k, v, w)
  {
    hide Outranks, VarianceTie, Compare, Best, Network, HeardFrom, Stands, ClaimOf, Claims;
    var parent := v.parent.parentPortIdentity.clock;
    assert Present(clocks[w], v);
    var j :| 0 <= j < v.n && HeardFrom(v.foreign[j], clocks[w]);
    HeardUnbeaten(clocks, k, v, j);
    var i := FindsSomeone(clocks, k, v);
    if i != w {
      var best := v.foreign[Best(Claims(v.foreign), v.n, parent)];
      NetworkPair(clocks, w, i);
      RecordStands(v.foreign[j], clocks[w]);
      RecordStands(best, clocks[i]);
      CompareIsRank(ClaimOf(v.foreign[j]), ClaimOf(best), clocks[w], clocks[i], parent);
      assert false;
    }
  }

  /** The data sets s1 leaves in a clock that follows the best record of its table. */
  function ParentAfter(v: View): (p: ParentDS)
    requires v.n <= |v.foreign| && v.foreign != []
  {
    var r := v.foreign[Best(Claims(v.foreign), v.n, v.parent.parentPortIdentity.clock)];
    FollowParent(v.parent, r.header, r.announce)
  }

  function StepsAfter(v: View): (s: int)
    requires v.n <= |v.foreign| && v.foreign != []
  {
    var r := v.foreign[Best(Claims(v.foreign), v.n, v.parent.parentPortIdentity.clock)];
    FollowCurrent(LOCAL_CURRENT, r.announce).stepsRemoved
  }

  predicate FollowsWinner(d: DefaultDS, v: View)
    requires v.n <= |v.foreign| && v.foreign != []
  {
    && ParentAfter(v).parentPortIdentity == PortIdentity(d.clockIdentity, 1)
    && ParentAfter(v).grandmasterIdentity == d.clockIdentity
    && ParentAfter(v).grandmasterClockQuality == d.clockQuality
    && ParentAfter(v).grandmasterPriority1 == d.priority1
    && ParentAfter(v).grandmasterPriority2 == d.priority2
    && StepsAfter(v) == 1
  }

  /** Clock `k` decides as it should when `w` is elected. */
  predicate DecidesAs(clocks: seq<DefaultDS>, v: View, w: nat, k: nat)
    requires w < |clocks| && k < |clocks|
  {
    && v.n <= |v.foreign| && v.foreign != []
    && Decision(clocks, k, v) ==
       (if k == w then Master else if clocks[k].clockQuality.clockClass < 128 then Passive else Slave)
    && (k != w ==> FollowsWinner(clocks[w], v))
  }

  ghost predicate AllHeard(clocks: seq<DefaultDS>, views: seq<View>)
    requires |views| == |clocks|
  {
    forall k :: 0 <= k < |clocks| ==> HeardOthers(clocks, k, views[k])
  }

  /** Clock `w` alone is master, and all others follow it. */
  predicate Elected(clocks: seq<DefaultDS>, views: seq<View>, w: nat)
    requires |views| == |clocks|
  {
    w < |clocks| && forall k :: 0 <= k < |clocks| ==> DecidesAs(clocks, views[k], w, k)
  }

  lemma TieSymmetric(d: DefaultDS, e: DefaultDS)
    ensures VarianceTie(d, e) == VarianceTie(e, d)
  {
  }

  /** A clock whose scan ends with the record of `w` follows `w`, and only such a clock. */
  lemma FoundIsFollowed(clocks: seq<DefaultDS>, k: nat, v: View, i: nat)
    requires Network(clocks) && Finds(clocks, k, v, i)
    ensures FollowsWinner(clocks[i], v)
    ensures forall w :: 0 <= w < |clocks| && FollowsWinner(clocks[w], v) ==>
      clocks[w].clockIdentity == clocks[i].clockIdentity
  {
    hide Best, Claims;
  }

  /** The untied top is elected. */
  lemma TopIsElected(clocks: seq<DefaultDS>, views: seq<View>, w: nat)
    requires Network(clocks) && |views| == |clocks| && AllHeard(clocks, views)
    requires Tops(clocks, w) && Untied(clocks, w)
    ensures Elected(clocks, views, w)
  {
    hide Outranks, VarianceTie, Recommended, Best, Network, HeardOthers, FollowParent, FollowCurrent;
    forall k | 0 <= k < |clocks|
      ensures DecidesAs(clocks, views[k], w, k)
    {
      assert HeardOthers(clocks, k, views[k]);
      if k == w {
        var i := FindsSomeone(clocks, k, views[k]);
        DecidesByRank(clocks, k, views[k], i);
      } else {
        BestIsTop(clocks, w, k, views[k]);
        DecidesByRank(clocks, k, views[k], w);
        NetworkPair(clocks, w, k);
        OutranksTotal(clocks[w], clocks[k]);
        TieSymmetric(clocks[w], clocks[k]);
        FoundIsFollowed(clocks, k, views[k], w);
      }
    }
  }

  /** An elected clock is above every other, with no tie. */
  lemma ElectedIsTop(clocks: seq<DefaultDS>, views: seq<View>, w: nat)
    requires Network(clocks) && |views| == |clocks| && AllHeard(clocks, views)
    requires Elected(clocks, views, w)
    ensures Tops(clocks, w) && Untied(clocks, w)
  {
    hide Outranks, VarianceTie, Recommended, Best, Network, HeardOthers, FollowsWinner;
    forall k | 0 <= k < |clocks| && k != w
      ensures Outranks(clocks[w], clocks[k]) && !VarianceTie(clocks[w], clocks[k])
    {
      assert DecidesAs(clocks, views[k], w, k);
      assert HeardOthers(clocks, k, views[k]);
      var i := FindsSomeone(clocks, k, views[k]);
      FoundIsFollowed(clocks, k, views[k], i);
      NetworkPair(clocks, w, i);
      DecidesByRank(clocks, k, views[k], i);
      NetworkPair(clocks, w, k);
      OutranksTotal(clocks[w], clocks[k]);
      TieSymmetric(clocks[w], clocks[k]);
    }
  }

  /**
   In any network in which every clock has heard exactly the others, a clock is
   elected - its bmc alone recommends MASTER, and every other recommends SLAVE or
   PASSIVE according to its class and records that clock as parent and grandmaster,
   one step away - if and only if it is the highest ranked and no variance makes a
   tie with it.
   */
  lemma Election(clocks: seq<DefaultDS>, views: seq<View>, w: nat)
    requires Network(clocks) && |views| == |clocks| && AllHeard(clocks, views)
    ensures Elected(clocks, views, w) <==> Tops(clocks, w) && Untied(clocks, w)
  {
    hide Tops, Untied, Elected, Network, AllHeard;
    if Elected(clocks, views, w) { ElectedIsTop(clocks, views, w); }
    if Tops(clocks, w) && Untied(clocks, w) { TopIsElected(clocks, views, w); }
  }

  predicate OneVariance(clocks: seq<DefaultDS>) {
    forall i, j :: 0 <= i < |clocks| && 0 <= j < |clocks| ==>
      clocks[i].clockQuality.offsetScaledLogVariance == clocks[j].clockQuality.offsetScaledLogVariance
  }

  /** So the election has a result exactly when the highest ranked clock is untied,
      which equal variances make sure of; otherwise no clock is elected. */
  lemma ElectionSucceeds(clocks: seq<DefaultDS>, views: seq<View>) returns (top: nat)
    requires Network(clocks) && |views| == |clocks| && AllHeard(clocks, views)
    ensures Tops(clocks, top)
    ensures (exists w: nat :: Elected(clocks, views, w)) <==> Untied(clocks, top)
    ensures OneVariance(clocks) ==> Elected(clocks, views, top)
  {
    hide Outranks, Elected, AllHeard;
    TopExists(clocks);
    top :| Tops(clocks, top);
    Election(clocks, views, top);
    forall w: nat | Elected(clocks, views, w) ensures w == top {
      Election(clocks, views, w);
      TopUnique(clocks, w, top);
    }
  }

  /** A clock tied with the one it finds goes FAULTY, for any number of clocks. */
  lemma VarianceTieFails(clocks: seq<DefaultDS>, views: seq<View>, k: nat) returns (i: nat)
    requires Network(clocks) && |views| == |clocks| && AllHeard(clocks, views) && k < |clocks|
    ensures views[k].n >= 1 && Finds(clocks, k, views[k], i)
    ensures Decision(clocks, k, views[k]) == Faulty <==> VarianceTie(clocks[k], clocks[i])
    ensures VarianceTie(clocks[k], clocks[i]) ==> forall w: nat :: !Elected(clocks, views, w)
  {
    hide Outranks, VarianceTie, Recommended, Best, Network, HeardOthers;
    assert HeardOthers(clocks, k, views[k]);
    i := FindsSomeone(clocks, k, views[k]);
    DecidesByRank(clocks, k, views[k], i);
    forall w: nat | Elected(clocks, views, w) ensures DecidesAs(clocks, views[k], w, k) {
    }
  }
}
