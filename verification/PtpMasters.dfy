/**
 How many clocks of a network can decide MASTER at once. Variances make ties, so the
 clocks that agree with the highest ranked one up to the accuracy fall into classes of
 one variance each, and between classes nothing is decided.
 */
module PtpMasters {
  import opened Bytes
  import opened PtpTypes
  import opened PtpBmc
  import opened PtpScan
  import opened PtpElection

  /** Agreement in everything compared before the variance. */
  predicate Level(d: DefaultDS, e: DefaultDS) {
    && d.priority1 == e.priority1
    && d.clockQuality.clockClass == e.clockQuality.clockClass
    && d.clockQuality.clockAccuracy == e.clockQuality.clockAccuracy
  }

  function Variance(d: DefaultDS): u16 {
    d.clockQuality.offsetScaledLogVariance
  }

  /** One clock's record makes the other's lose. */
  predicate Above(d: DefaultDS, e: DefaultDS) {
    Outranks(d, e) && !VarianceTie(d, e)
  }

  /** Clock `i` is of the class of variance `v` at the top. */
  predicate InClass(clocks: seq<DefaultDS>, t: nat, v: u16, i: nat) {
    t < |clocks| && i < |clocks| && Level(clocks[i], clocks[t]) && Variance(clocks[i]) == v
  }

  /** Two clocks at the top have this variance. */
  predicate Shared(clocks: seq<DefaultDS>, t: nat, v: u16) {
    exists i, j :: 0 <= i < j < |clocks| && InClass(clocks, t, v, i) && InClass(clocks, t, v, j)
  }

  /** At most one variance at the top is that of more than one clock. */
  ghost predicate SharedOnce(clocks: seq<DefaultDS>, t: nat) {
    forall v, w :: Shared(clocks, t, v) && Shared(clocks, t, w) ==> v == w
  }

  /** Clock `k` decides MASTER. */
  predicate Decides(clocks: seq<DefaultDS>, views: seq<View>, k: nat)
    requires k < |clocks| == |views|
  {
    && views[k].n <= |views[k].foreign| && views[k].foreign != []
    && Decision(clocks, k, views[k]) == Master
  }

  ghost predicate OneMaster(clocks: seq<DefaultDS>, views: seq<View>)
    requires |views| == |clocks| && AllHeard(clocks, views)
  {
    forall a, b :: 0 <= a < |clocks| && 0 <= b < |clocks| ==>
      Decides(clocks, views, a) && Decides(clocks, views, b) ==> a == b
  }

  /* ----- facts about ranks ----- */

  lemma AboveLevel(d: DefaultDS, e: DefaultDS)
    requires Above(d, e) && Level(d, e)
    ensures Variance(d) == Variance(e)
  {
  }

  lemma AboveWithin(d: DefaultDS, e: DefaultDS)
    requires Outranks(d, e) && (Level(d, e) ==> Variance(d) == Variance(e))
    ensures Above(d, e)
  {
  }

  /** Whoever is above a clock level with the top is level with the top, unless above the top. */
  lemma LevelUp(d: DefaultDS, e: DefaultDS, t: DefaultDS)
    requires Outranks(d, e) && Level(e, t) && Outranks(t, d)
    ensures Level(d, t)
  {
  }

  lemma LevelSymmetric(d: DefaultDS, e: DefaultDS)
    ensures Level(d, e) == Level(e, d)
  {
  }

  lemma LevelTransitive(d: DefaultDS, e: DefaultDS, f: DefaultDS)
    requires Level(d, e) && Level(e, f)
    ensures Level(d, f)
  {
  }

  /** Whoever is level with the top is above whoever is not. */
  lemma LevelAbove(d: DefaultDS, e: DefaultDS, t: DefaultDS)
    requires Level(d, t) && !Level(e, t) && Outranks(t, e)
    ensures Above(d, e)
  {
  }

  /* ----- what a clock that decides MASTER is ----- */

  lemma NotAboveItself(d: DefaultDS)
    ensures !Outranks(d, d)
  {
    SelfCmp(d.clockIdentity);
  }

  /** Nothing a clock has heard is above what its scan ends with. */
  lemma FoundUnbeaten(clocks: seq<DefaultDS>, k: nat, v: View, i: nat, g: nat)
    requires Network(clocks) && k < |clocks| && HeardOthers(clocks, k, v) && Finds(clocks, k, v, i)
    requires g < |clocks| && g != k
    ensures !Above(clocks[g], clocks[i])
  {
    hide Outranks, VarianceTie, Compare, Best, Network, HeardFrom, Stands, ClaimOf, Claims;
    var parent := v.parent.parentPortIdentity.clock;
    assert Present(clocks[g], v);
    var j :| 0 <= j < v.n && HeardFrom(v.foreign[j], clocks[g]);
    HeardUnbeaten(clocks, k, v, j);
    var best := v.foreign[Best(Claims(v.foreign), v.n, parent)];
    if g == i {
      NotAboveItself(clocks[i]);
    } else {
      NetworkPair(clocks, g, i);
      RecordStands(v.foreign[j], clocks[g]);
      RecordStands(best, clocks[i]);
      CompareIsRank(ClaimOf(v.foreign[j]), ClaimOf(best), clocks[g], clocks[i], parent);
    }
  }

  /** A clock that decides MASTER found one it is above. */
  lemma MasterAbove(clocks: seq<DefaultDS>, views: seq<View>, k: nat) returns (i: nat)
    requires Network(clocks) && |views| == |clocks| && AllHeard(clocks, views) && k < |clocks| &&
      Decides(clocks, views, k)
    ensures HeardOthers(clocks, k, views[k]) && Finds(clocks, k, views[k], i) && Above(clocks[k], clocks[i])
  {
    hide Outranks, VarianceTie, Recommended, Best, Network, HeardOthers;
    assert HeardOthers(clocks, k, views[k]);
    i := FindsSomeone(clocks, k, views[k]);
    DecidesByRank(clocks, k, views[k], i);
  }

  lemma LevelItself(d: DefaultDS)
    ensures Level(d, d)
  {
  }

  lemma FindsIndex(clocks: seq<DefaultDS>, k: nat, v: View, i: nat)
    requires Finds(clocks, k, v, i)
    ensures i < |clocks| && i != k
  {
  }

  lemma TieIsLevel(d: DefaultDS, e: DefaultDS)
    requires VarianceTie(d, e)
    ensures Level(d, e)
  {
  }

  /** Another clock than the top that is above `i`, while the top is not, is level with
      the top and has the variance of `i`. */
  lemma TopTied(clocks: seq<DefaultDS>, t: nat, k: nat, i: nat)
    requires Network(clocks) && Tops(clocks, t) && k < |clocks| && k != t && i < |clocks|
    requires Above(clocks[k], clocks[i]) && !Above(clocks[t], clocks[i])
    ensures Level(clocks[k], clocks[t]) && InClass(clocks, t, Variance(clocks[k]), i)
  {
    hide Network, Level, Outranks;
    assert Outranks(clocks[t], clocks[k]);
    NetworkPair(clocks, t, k);
    OutranksTotal(clocks[t], clocks[k]);
    assert i != t;
    TieIsLevel(clocks[t], clocks[i]);
    LevelSymmetric(clocks[t], clocks[i]);
    LevelUp(clocks[k], clocks[i], clocks[t]);
    LevelSymmetric(clocks[i], clocks[t]);
    LevelTransitive(clocks[k], clocks[t], clocks[i]);
    AboveLevel(clocks[k], clocks[i]);
  }

  /** A master is at the top and shares its variance with the clock it found, or it is
      alone at the top. */
  lemma MasterShape(clocks: seq<DefaultDS>, t: nat, views: seq<View>, k: nat) returns (i: nat)
    requires Network(clocks) && Tops(clocks, t) && |views| == |clocks| && AllHeard(clocks, views)
    requires k < |clocks| && Decides(clocks, views, k)
    ensures HeardOthers(clocks, k, views[k]) && Finds(clocks, k, views[k], i) && Above(clocks[k], clocks[i])
    ensures Level(clocks[k], clocks[t])
    ensures || InClass(clocks, t, Variance(clocks[k]), i)
            || (k == t && forall g :: 0 <= g < |clocks| && g != t ==> !Level(clocks[g], clocks[t]))
  {
    hide Level, Outranks, VarianceTie, Network, HeardOthers, Finds, Above, Decides;
    i := MasterAbove(clocks, views, k);
    assert i < |clocks| && i != k by { FindsIndex(clocks, k, views[k], i); }
    if k == t {
      assert Level(clocks[t], clocks[t]) by { LevelItself(clocks[t]); }
      if Level(clocks[i], clocks[t]) {
        LevelSymmetric(clocks[i], clocks[t]);
        AboveLevel(clocks[k], clocks[i]);
      } else {
        forall g | 0 <= g < |clocks| && g != t ensures !Level(clocks[g], clocks[t]) {
          if Level(clocks[g], clocks[t]) {
            LevelAbove(clocks[g], clocks[i], clocks[t]);
            FoundUnbeaten(clocks, k, views[k], i, g);
          }
        }
      }
    } else {
      FoundUnbeaten(clocks, k, views[k], i, t);
      TopTied(clocks, t, k, i);
    }
  }

  /* ----- safety ----- */

  /** Of two clocks of one variance the lower does not find a third below it, which the
      higher would be above. */
  lemma NotBelow(clocks: seq<DefaultDS>, t: nat, a: nat, b: nat, i: nat)
    requires b < |clocks|
    requires InClass(clocks, t, Variance(clocks[b]), i) && InClass(clocks, t, Variance(clocks[b]), a)
    requires Above(clocks[b], clocks[i]) && !Above(clocks[a], clocks[i])
    ensures !Outranks(clocks[a], clocks[b])
  {
    hide Outranks, VarianceTie, Level;
    if Outranks(clocks[a], clocks[b]) {
      OutranksTransitive(clocks[a], clocks[b], clocks[i]);
      AboveWithin(clocks[a], clocks[i]);
    }
  }

  lemma SharedBy(clocks: seq<DefaultDS>, t: nat, v: u16, i: nat, j: nat)
    requires i != j && InClass(clocks, t, v, i) && InClass(clocks, t, v, j)
    ensures Shared(clocks, t, v)
  {
    hide Level;
    if i < j { assert InClass(clocks, t, v, i) && InClass(clocks, t, v, j); }
    else { assert InClass(clocks, t, v, j) && InClass(clocks, t, v, i); }
  }

  lemma TopIndex(clocks: seq<DefaultDS>, t: nat)
    requires Tops(clocks, t)
    ensures t < |clocks|
  {
  }

  /** A master, the clock it found, and the other at the top, if any. */
  predicate MasterOver(clocks: seq<DefaultDS>, t: nat, k: nat, i: nat) {
    && t < |clocks| && k < |clocks| && i < |clocks| && i != k
    && Above(clocks[k], clocks[i]) && Level(clocks[k], clocks[t])
    && (|| InClass(clocks, t, Variance(clocks[k]), i)
        || (k == t && forall g :: 0 <= g < |clocks| && g != t ==> !Level(clocks[g], clocks[t])))
  }

  /** Two masters, neither above what the other found, are one if only one variance is shared. */
  lemma MastersEqual(clocks: seq<DefaultDS>, t: nat, a: nat, i: nat, b: nat, j: nat)
    requires Network(clocks) && SharedOnce(clocks, t)
    requires MasterOver(clocks, t, a, i) && MasterOver(clocks, t, b, j)
    requires a != b ==> !Above(clocks[b], clocks[i]) && !Above(clocks[a], clocks[j])
    ensures a == b
  {
    hide Outranks, Network, VarianceTie, Level, Above, Shared;
    if a != b {
      var v, w := Variance(clocks[a]), Variance(clocks[b]);
      SharedBy(clocks, t, v, a, i);
      SharedBy(clocks, t, w, b, j);
      NotBelow(clocks, t, a, b, j);
      NotBelow(clocks, t, b, a, i);
      NetworkPair(clocks, a, b);
      OutranksTotal(clocks[a], clocks[b]);
    }
  }

  /** Two clocks that decide MASTER in one round of tables. */
  lemma DecidersEqual(clocks: seq<DefaultDS>, t: nat, views: seq<View>, a: nat, b: nat)
    requires Network(clocks) && Tops(clocks, t) && SharedOnce(clocks, t)
    requires |views| == |clocks| && AllHeard(clocks, views) && a < |clocks| && b < |clocks|
    ensures Decides(clocks, views, a) && Decides(clocks, views, b) ==> a == b
  {
    hide Network, Tops, AllHeard, Decides, Shared, Level, Above, HeardOthers, Finds, SharedOnce;
    if Decides(clocks, views, a) && Decides(clocks, views, b) {
      TopIndex(clocks, t);
      var i := MasterShape(clocks, t, views, a);
      var j := MasterShape(clocks, t, views, b);
      FindsIndex(clocks, a, views[a], i);
      FindsIndex(clocks, b, views[b], j);
      if a != b {
        FoundUnbeaten(clocks, a, views[a], i, b);
        FoundUnbeaten(clocks, b, views[b], j, a);
      }
      MastersEqual(clocks, t, a, i, b, j);
    }
  }

  /* ----- tables in which two clocks decide MASTER ----- */

  /** The record of a clock that announces itself. */
  function RecordOf(d: DefaultDS): (r: ForeignMasterRecord)
    ensures HeardFrom(r, d)
  {
    var port := PortIdentity(d.clockIdentity, 1);
    ForeignMasterRecord(port, 0,
      MsgAnnounce(Timestamp(0, 0, 0), 0, d.priority1, d.clockQuality, d.priority2, d.clockIdentity, 0,
        INTERNAL_OSCILLATOR),
      MsgHeader(8, 0xB, 2, 64, d.domainNumber, (0, 0), 0, 0, port, 0, 5, 0))
  }

  /** The records of the first `m` clocks but for two. */
  function Rest(clocks: seq<DefaultDS>, k: nat, i: nat, m: nat): (r: seq<ForeignMasterRecord>)
    requires m <= |clocks|
  {
    if m == 0 then []
    else if m - 1 == k || m - 1 == i then Rest(clocks, k, i, m - 1)
    else Rest(clocks, k, i, m - 1) + [RecordOf(clocks[m - 1])]
  }

  lemma RecordHeard(d: DefaultDS)
    ensures HeardFrom(RecordOf(d), d)
  {
  }

  lemma {:induction false} RestIsOthers(clocks: seq<DefaultDS>, k: nat, i: nat, m: nat)
    requires m <= |clocks|
    ensures forall r :: r in Rest(clocks, k, i, m) ==> FromOther(clocks, k, r)
    ensures forall j :: 0 <= j < m && j != k && j != i ==> RecordOf(clocks[j]) in Rest(clocks, k, i, m)
  {
    hide RecordOf, HeardFrom;
    if m > 0 {
      RestIsOthers(clocks, k, i, m - 1);
      assert HeardFrom(RecordOf(clocks[m - 1]), clocks[m - 1]) by { RecordHeard(clocks[m - 1]); }
    }
  }

  /** Clock `k` has heard all others, and clock `i` first. */
  function ViewFrom(clocks: seq<DefaultDS>, k: nat, i: nat): (v: View)
    requires k < |clocks| && i < |clocks|
  {
    var foreign := [RecordOf(clocks[i])] + Rest(clocks, k, i, |clocks|);
    View(foreign, |foreign|, Listening, RecordOf(clocks[k]).announce, LocalParent(clocks[k]))
  }

  lemma ViewHeard(clocks: seq<DefaultDS>, k: nat, i: nat)
    requires k < |clocks| && i < |clocks| && i != k
    ensures HeardOthers(clocks, k, ViewFrom(clocks, k, i))
  {
    hide RecordOf, HeardFrom, Rest;
    var v := ViewFrom(clocks, k, i);
    RestIsOthers(clocks, k, i, |clocks|);
    RecordHeard(clocks[i]);
    var rest := Rest(clocks, k, i, |clocks|);
    forall j | 0 <= j < v.n ensures FromOther(clocks, k, v.foreign[j]) {
      if j > 0 { assert v.foreign[j] == rest[j - 1] && rest[j - 1] in rest; }
    }
    forall g | 0 <= g < |clocks| && g != k ensures Present(clocks[g], v) {
      RecordHeard(clocks[g]);
      if g == i {
        assert HeardFrom(v.foreign[0], clocks[g]);
      } else {
        var j :| 0 <= j < |rest| && rest[j] == RecordOf(clocks[g]);
        assert v.foreign[j + 1] == rest[j];
      }
    }
  }

  lemma SelfStanding(a: Claim, b: Claim, d: DefaultDS, parent: ClockIdentity)
    requires Stands(a, d) && Stands(b, d)
    ensures !Beats(a, b, parent)
  {
    SelfCmp(d.clockIdentity);
    BeatsWithin(a, b, parent);
  }

  lemma NotBeating(clocks: seq<DefaultDS>, g: nat, i: nat, r: ForeignMasterRecord, s: ForeignMasterRecord,
                   parent: ClockIdentity)
    requires Network(clocks) && g < |clocks| && i < |clocks|
    requires HeardFrom(r, clocks[g]) && HeardFrom(s, clocks[i]) && !Above(clocks[g], clocks[i])
    ensures !Beats(ClaimOf(r), ClaimOf(s), parent)
  {
    hide Outranks, VarianceTie, Network, HeardFrom, ClaimOf, Compare;
    RecordStands(r, clocks[g]);
    RecordStands(s, clocks[i]);
    NetworkPair(clocks, g, i);
    if g == i {
      SelfStanding(ClaimOf(r), ClaimOf(s), clocks[i], parent);
    } else {
      CompareIsRank(ClaimOf(r), ClaimOf(s), clocks[g], clocks[i], parent);
    }
  }

  lemma OthersNotBeating(clocks: seq<DefaultDS>, k: nat, i: nat, v: View, j: nat)
    requires Network(clocks) && i < |clocks| && HeardOthers(clocks, k, v) && j < v.n &&
      HeardFrom(v.foreign[0], clocks[i])
    requires forall g :: 0 <= g < |clocks| && g != k ==> !Above(clocks[g], clocks[i])
    ensures !Beats(ClaimOf(v.foreign[j]), ClaimOf(v.foreign[0]), v.parent.parentPortIdentity.clock)
  {
    hide HeardFrom, Beats, Above, Network, ClaimOf;
    assert FromOther(clocks, k, v.foreign[j]);
    var g :| 0 <= g < |clocks| && g != k && HeardFrom(v.foreign[j], clocks[g]);
    NotBeating(clocks, g, i, v.foreign[j], v.foreign[0], v.parent.parentPortIdentity.clock);
  }

  /** A scan that no later record interrupts ends with the first. */
  lemma FirstStays(v: View)
    requires 1 <= v.n <= |v.foreign|
    requires forall j :: 1 <= j < v.n ==>
      !Beats(ClaimOf(v.foreign[j]), ClaimOf(v.foreign[0]), v.parent.parentPortIdentity.clock)
    ensures Best(Claims(v.foreign), v.n, v.parent.parentPortIdentity.clock) == 0
  {
    hide Best, Beats, ClaimOf;
    var parent, claims := v.parent.parentPortIdentity.clock, Claims(v.foreign);
    BestFirst(claims, parent);
    forall j | 1 <= j < v.n ensures !Beats(claims[j], claims[0], parent) {
      assert claims[j] == ClaimOf(v.foreign[j]);
    }
    StaysBest(claims, 1, v.n, parent);
  }

  lemma ViewFirst(clocks: seq<DefaultDS>, k: nat, i: nat)
    requires k < |clocks| && i < |clocks|
    ensures var v := ViewFrom(clocks, k, i); v.n == |v.foreign| >= 1 && HeardFrom(v.foreign[0], clocks[i])
  {
    hide HeardFrom, RecordOf, Rest;
    RecordHeard(clocks[i]);
  }

  /** If nothing else heard is above it, the first record is what the scan ends with. */
  lemma ViewFinds(clocks: seq<DefaultDS>, k: nat, i: nat)
    requires Network(clocks) && k < |clocks| && i < |clocks| && i != k
    requires forall g :: 0 <= g < |clocks| && g != k ==> !Above(clocks[g], clocks[i])
    ensures Finds(clocks, k, ViewFrom(clocks, k, i), i)
  {
    hide HeardFrom, Best, Beats, Above, Network, ClaimOf, ViewFrom, HeardOthers, Claims;
    var v := ViewFrom(clocks, k, i);
    ViewFirst(clocks, k, i);
    ViewHeard(clocks, k, i);
    forall j | 1 <= j < v.n
      ensures !Beats(ClaimOf(v.foreign[j]), ClaimOf(v.foreign[0]), v.parent.parentPortIdentity.clock)
    {
      OthersNotBeating(clocks, k, i, v, j);
    }
    FirstStays(v);
  }

  /** The highest ranked of some clocks. */
  lemma {:induction false} HighestOf(clocks: seq<DefaultDS>, some: set<nat>) returns (w: nat)
    requires Network(clocks) && some != {} && forall i :: i in some ==> i < |clocks|
    ensures w in some && forall i :: i in some && i != w ==> Outranks(clocks[w], clocks[i])
    decreases |some|
  {
    hide Outranks, Network;
    var i :| i in some;
    w := i;
    if some != {i} {
      var h := HighestOf(clocks, some - {i});
      NetworkPair(clocks, h, i);
      OutranksTotal(clocks[h], clocks[i]);
      if Outranks(clocks[h], clocks[i]) {
        w := h;
      } else {
        forall j | j in some && j != i ensures Outranks(clocks[i], clocks[j]) {
          if j != h { OutranksTransitive(clocks[i], clocks[h], clocks[j]); }
        }
      }
    }
  }

  function ClassOf(clocks: seq<DefaultDS>, t: nat, v: u16): (s: set<nat>) {
    set i: nat | i < |clocks| && InClass(clocks, t, v, i)
  }

  lemma AboveOutranks(d: DefaultDS, e: DefaultDS)
    ensures Above(d, e) ==> Outranks(d, e)
  {
  }

  lemma OtherClass(clocks: seq<DefaultDS>, t: nat, v: u16, g: nat, i: nat)
    requires Network(clocks) && Tops(clocks, t) && g < |clocks| && InClass(clocks, t, v, i) && !InClass(clocks, t, v, g)
    ensures !Above(clocks[g], clocks[i])
  {
    hide Outranks, Network, VarianceTie, Level;
    assert g != i;
    if Level(clocks[g], clocks[t]) {
      LevelSymmetric(clocks[i], clocks[t]);
      LevelTransitive(clocks[g], clocks[t], clocks[i]);
      if Above(clocks[g], clocks[i]) { AboveLevel(clocks[g], clocks[i]); }
    } else {
      LevelItself(clocks[t]);
      LevelAbove(clocks[i], clocks[g], clocks[t]);
      NetworkPair(clocks, i, g);
      OutranksTotal(clocks[i], clocks[g]);
    }
  }

  /** The first and the second of a shared variance: nothing but the first is above the second. */
  lemma FirstTwo(clocks: seq<DefaultDS>, t: nat, v: u16) returns (a: nat, i: nat)
    requires Network(clocks) && Tops(clocks, t) && Shared(clocks, t, v)
    ensures a != i && InClass(clocks, t, v, a) && InClass(clocks, t, v, i) && Above(clocks[a], clocks[i])
    ensures forall g :: 0 <= g < |clocks| && g != a ==> !Above(clocks[g], clocks[i])
  {
    hide Outranks, Network, VarianceTie, Level, Above, Tops;
    var all := ClassOf(clocks, t, v);
    var p, q :| 0 <= p < q < |clocks| && InClass(clocks, t, v, p) && InClass(clocks, t, v, q);
    assert p in all && q in all;
    a := HighestOf(clocks, all);
    assert (if a == p then q else p) in all - {a};
    i := HighestOf(clocks, all - {a});
    AboveWithin(clocks[a], clocks[i]);
    forall g | 0 <= g < |clocks| && g != a ensures !Above(clocks[g], clocks[i]) {
      if g in all {
        if g != i {
          NetworkPair(clocks, i, g);
          OutranksTotal(clocks[i], clocks[g]);
          AboveOutranks(clocks[g], clocks[i]);
        } else {
          NotAboveItself(clocks[i]);
          AboveOutranks(clocks[i], clocks[i]);
        }
      } else {
        OtherClass(clocks, t, v, g, i);
      }
    }
  }

  /** Every clock has heard the others; two have heard certain ones first. */
  function ViewsFrom(clocks: seq<DefaultDS>, a: nat, i: nat, b: nat, j: nat): (vs: seq<View>)
    requires |clocks| >= 2 && i < |clocks| && j < |clocks|
    ensures |vs| == |clocks|
  {
    seq(|clocks|, k requires 0 <= k < |clocks| =>
      ViewFrom(clocks, k, if k == a then i else if k == b then j else if k == 0 then 1 else 0))
  }

  lemma FirstDecides(clocks: seq<DefaultDS>, k: nat, i: nat)
    requires Network(clocks) && k < |clocks| && i < |clocks| && i != k && Above(clocks[k], clocks[i])
    requires forall g :: 0 <= g < |clocks| && g != k ==> !Above(clocks[g], clocks[i])
    ensures var v := ViewFrom(clocks, k, i); Decision(clocks, k, v) == Master
  {
    hide Outranks, VarianceTie, Network, Recommended, HeardOthers, Rest, RecordOf;
    ViewHeard(clocks, k, i);
    ViewFinds(clocks, k, i);
    DecidesByRank(clocks, k, ViewFrom(clocks, k, i), i);
  }

  lemma ViewShape(clocks: seq<DefaultDS>, k: nat, i: nat)
    requires k < |clocks| && i < |clocks|
    ensures var v := ViewFrom(clocks, k, i); v.n <= |v.foreign| && v.foreign != []
  {
  }

  /** With two shared variances at the top, two clocks can decide MASTER at once. */
  lemma TwoMasters(clocks: seq<DefaultDS>, t: nat, v: u16, w: u16) returns (views: seq<View>)
    requires Network(clocks) && Tops(clocks, t) && Shared(clocks, t, v) && Shared(clocks, t, w) && v != w
    ensures |views| == |clocks| && AllHeard(clocks, views) && !OneMaster(clocks, views)
  {
    assert |clocks| >= 2;
    hide Outranks, VarianceTie, Network, Recommended, HeardOthers, Rest, RecordOf, Level, Tops, Shared, Above, ViewFrom;
    var a, i := FirstTwo(clocks, t, v);
    var b, j := FirstTwo(clocks, t, w);
    views := ViewsFrom(clocks, a, i, b, j);
    forall k | 0 <= k < |clocks| ensures HeardOthers(clocks, k, views[k]) {
      ViewHeard(clocks, k, if k == a then i else if k == b then j else if k == 0 then 1 else 0);
    }
    FirstDecides(clocks, a, i);
    FirstDecides(clocks, b, j);
    assert views[a] == ViewFrom(clocks, a, i) && views[b] == ViewFrom(clocks, b, j);
    ViewShape(clocks, a, i);
    ViewShape(clocks, b, j);
    assert Decides(clocks, views, a) && Decides(clocks, views, b);
  }

  /**
   Whatever order every clock has its records in, at most one clock decides MASTER, if
   and only if at most one of the variances of the clocks that agree with the highest
   ranked one up to the accuracy is that of more than one of them.
   */
  lemma OneMasterIff(clocks: seq<DefaultDS>, t: nat)
    requires Network(clocks) && Tops(clocks, t)
    ensures (forall views :: |views| == |clocks| && AllHeard(clocks, views) ==> OneMaster(clocks, views)) <==>
            SharedOnce(clocks, t)
  {
    hide Network, Tops, AllHeard, Shared, Decides;
    if SharedOnce(clocks, t) {
      forall views | |views| == |clocks| && AllHeard(clocks, views) ensures OneMaster(clocks, views) {
        forall a, b | 0 <= a < |clocks| && 0 <= b < |clocks| && Decides(clocks, views, a) && Decides(clocks, views, b)
          ensures a == b
        {
          DecidersEqual(clocks, t, views, a, b);
        }
      }
    } else {
      var v, w :| Shared(clocks, t, v) && Shared(clocks, t, w) && v != w;
      var views := TwoMasters(clocks, t, v, w);
    }
  }
}
