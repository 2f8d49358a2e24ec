/**
 When the scan of bmc in packages/ptpv2/ptpv2_bmc.c ends with a record that no other
 record beats. The comparison is the order of PtpBmc but for its error exit, which
 makes a tie of two claims for one grandmaster, one step apart, when the farther one
 comes from the current parent.
 */
module PtpScan {
  import opened PtpTypes
  import opened PtpBmc

  predicate Beats(a: Claim, b: Claim, parent: ClockIdentity) {
    Compare(a, b, parent) < 0
  }

  predicate SameMaster(a: Claim, b: Claim) {
    a.announce.grandmasterIdentity == b.announce.grandmasterIdentity
  }

  function Steps(a: Claim): nat {
    a.announce.stepsRemoved
  }

  /** Grandmasters are announced with one rank each. */
  predicate AllConsistent(claims: seq<Claim>) {
    forall a, b :: a in claims && b in claims ==> Consistent(a, b)
  }

  /** No claim is for a better grandmaster, and none for the same one is nearer. */
  predicate Foremost(claims: seq<Claim>, x: Claim) {
    forall c :: c in claims ==> if SameMaster(c, x) then Steps(c) >= Steps(x) else !Better(c, x)
  }

  /** Of one grandmaster: `x` at a distance, and one step farther `p`, which the parent
      sent, and `f`, from a sender below the parent. */
  predicate Trap(p: Claim, x: Claim, f: Claim, parent: ClockIdentity) {
    && SameMaster(p, x) && SameMaster(f, x)
    && Steps(p) == Steps(f) == Steps(x) + 1
    && p.sender == parent && MemCmp(f.sender, parent) < 0
  }

  /** The table holds such a trap at its foremost distance. */
  ghost predicate Misled(claims: seq<Claim>, parent: ClockIdentity) {
    exists p, x, f :: p in claims && x in claims && f in claims && Trap(p, x, f, parent) && Foremost(claims, x)
  }

  /* ----- facts about single claims ----- */

  lemma BeatsIsBetter(a: Claim, b: Claim, parent: ClockIdentity)
    ensures Beats(a, b, parent) <==> Better(a, b) && !ParentTie(a, b, parent)
  {
    CompareIsBetter(a, b, parent);
    MemCmpAntisymmetric(a.sender, b.sender);
  }

  /** Within one grandmaster: nearer, or as near and from a lower sender, unless the
      error exit is taken. */
  lemma BeatsWithin(a: Claim, b: Claim, parent: ClockIdentity)
    requires SameMaster(a, b)
    ensures Beats(a, b, parent) <==>
            || Steps(a) + 1 < Steps(b)
            || (Steps(a) + 1 == Steps(b) && b.sender != parent)
            || (Steps(a) == Steps(b) && MemCmp(a.sender, b.sender) < 0)
  {
  }

  lemma BeatsAcross(a: Claim, b: Claim, parent: ClockIdentity)
    requires !SameMaster(a, b)
    ensures Beats(a, b, parent) <==> Better(a, b)
  {
    hide Compare, Better;
    BeatsIsBetter(a, b, parent);
  }

  lemma BetterAntisymmetric(a: Claim, b: Claim)
    ensures !(Better(a, b) && Better(b, a))
  {
    MemCmpAntisymmetric(a.sender, b.sender);
    MemCmpAntisymmetric(a.announce.grandmasterIdentity, b.announce.grandmasterIdentity);
  }

  /** A claim for another grandmaster is better than all claims for this one or than none. */
  lemma BetterMaster(c: Claim, a: Claim, b: Claim)
    requires SameMaster(a, b) && !SameMaster(c, a) && Consistent(a, b)
    ensures Better(c, a) == Better(c, b) && Better(a, c) == Better(b, c)
  {
  }

  /* ----- how the scan goes ----- */

  lemma BestStep(claims: seq<Claim>, k: nat, parent: ClockIdentity)
    requires 1 <= k < |claims|
    ensures
      var b := Best(claims, k, parent);
      Best(claims, k + 1, parent) == if Beats(claims[k], claims[b], parent) then k else b
  {
  }

  /** The grandmaster of the best record so far is not beaten by any other seen. */
  predicate MasterUnbeaten(claims: seq<Claim>, k: nat, b: Claim)
    requires k <= |claims|
  {
    forall i :: 0 <= i < k && !SameMaster(claims[i], b) ==> !Better(claims[i], b)
  }

  lemma BestFirst(claims: seq<Claim>, parent: ClockIdentity)
    requires claims != []
    ensures Best(claims, 1, parent) == 0
  {
  }

  /** Nothing that was not better than `b` becomes better by going from `b` to `i`. */
  lemma MasterStep(j: Claim, i: Claim, b: Claim, parent: ClockIdentity)
    requires Consistent(i, b) && Consistent(j, b) && Consistent(j, i)
    requires (!SameMaster(j, b) ==> !Better(j, b)) || j == i
    ensures
      var b' := if Beats(i, b, parent) then i else b;
      !SameMaster(j, b') ==> !Better(j, b')
  {
    hide Better, Compare, Rank;
    if Beats(i, b, parent) {
      BeatsIsBetter(i, b, parent);
      if !SameMaster(j, i) && Better(j, i) {
        if SameMaster(j, b) {
          BetterMaster(i, j, b);
          BetterAntisymmetric(i, j);
        } else {
          BetterTransitive(j, i, b);
        }
      }
    } else if j == i && !SameMaster(j, b) {
      BeatsAcross(i, b, parent);
    }
  }

  lemma {:induction false} ScanMaster(claims: seq<Claim>, k: nat, parent: ClockIdentity)
    requires AllConsistent(claims) && 1 <= k <= |claims|
    ensures MasterUnbeaten(claims, k, claims[Best(claims, k, parent)])
  {
    hide Better, Compare, Best, Consistent, Beats;
    if k == 1 {
      assert Best(claims, 1, parent) == 0 by { BestFirst(claims, parent); }
    } else {
      ScanMaster(claims, k - 1, parent);
      BestStep(claims, k - 1, parent);
      var b, i := claims[Best(claims, k - 1, parent)], claims[k - 1];
      var b' := claims[Best(claims, k, parent)];
      forall j | 0 <= j < k && !SameMaster(claims[j], b') ensures !Better(claims[j], b') {
        MasterStep(claims[j], i, b, parent);
      }
    }
  }

  /** Nearest so far among the claims for one grandmaster. */
  predicate NearestSeen(claims: seq<Claim>, k: nat, x: Claim)
    requires k <= |claims|
  {
    forall i :: 0 <= i < k && SameMaster(claims[i], x) ==> Steps(claims[i]) >= Steps(x)
  }

  /** Among the first `k` claims there is a trap at the nearest distance. */
  ghost predicate TrapSeen(claims: seq<Claim>, k: nat, b: Claim, parent: ClockIdentity)
    requires k <= |claims|
  {
    exists p, x, f :: p in claims[..k] && x in claims[..k] && f in claims[..k] && SameMaster(x, b) &&
      Trap(p, x, f, parent) && NearestSeen(claims, k, x)
  }

  predicate UnbeatenWithin(claims: seq<Claim>, k: nat, b: Claim, parent: ClockIdentity)
    requires k <= |claims|
  {
    forall i :: 0 <= i < k && SameMaster(claims[i], b) ==> !Beats(claims[i], b, parent)
  }

  /** Nothing for the grandmaster of the best record beats it, or there is a trap. */
  ghost predicate Settled(claims: seq<Claim>, k: nat, b: Claim, parent: ClockIdentity)
    requires k <= |claims|
  {
    UnbeatenWithin(claims, k, b, parent) || TrapSeen(claims, k, b, parent)
  }

  /** A trap stays one as long as nothing nearer comes. */
  lemma TrapStays(claims: seq<Claim>, k: nat, b: Claim, b': Claim, parent: ClockIdentity)
    requires k < |claims| && TrapSeen(claims, k, b, parent) && SameMaster(b, b')
    requires SameMaster(claims[k], b) ==>
      exists j :: 0 <= j < k && SameMaster(claims[j], b) && Steps(claims[j]) <= Steps(claims[k])
    ensures TrapSeen(claims, k + 1, b', parent)
  {
    hide Trap;
    var p, x, f :| p in claims[..k] && x in claims[..k] && f in claims[..k] && SameMaster(x, b) &&
      Trap(p, x, f, parent) && NearestSeen(claims, k, x);
    assert NearestSeen(claims, k + 1, x);
    assert p in claims[..k + 1] && x in claims[..k + 1] && f in claims[..k + 1] && SameMaster(x, b');
  }

  /** The next claim is for another grandmaster. */
  lemma OtherMaster(claims: seq<Claim>, k: nat, b: Claim, parent: ClockIdentity)
    requires AllConsistent(claims) && k < |claims| && b in claims && !SameMaster(claims[k], b)
    requires Settled(claims, k, b, parent) && MasterUnbeaten(claims, k, b)
    ensures Settled(claims, k + 1, if Beats(claims[k], b, parent) then claims[k] else b, parent)
  {
    hide Better, Compare, Beats, Consistent;
    var i := claims[k];
    if Beats(i, b, parent) {
      BeatsAcross(i, b, parent);
      forall j | 0 <= j < k + 1 && SameMaster(claims[j], i) ensures !Beats(claims[j], i, parent) {
        if j == k { BeatsWithin(i, i, parent); } else { BetterMaster(b, claims[j], i); }
      }
      assert UnbeatenWithin(claims, k + 1, i, parent);
    } else if UnbeatenWithin(claims, k, b, parent) {
      assert UnbeatenWithin(claims, k + 1, b, parent);
    } else {
      TrapStays(claims, k, b, b, parent);
    }
  }

  /** The next claim is nearer than all seen for the grandmaster of the best record. */
  lemma NearerMaster(claims: seq<Claim>, k: nat, b: Claim, parent: ClockIdentity)
    requires k < |claims| && b in claims[..k] && SameMaster(claims[k], b)
    requires forall j :: 0 <= j < k && SameMaster(claims[j], b) ==> Steps(claims[k]) < Steps(claims[j])
    ensures Settled(claims, k + 1, if Beats(claims[k], b, parent) then claims[k] else b, parent)
  {
    hide Beats;
    var i := claims[k];
    BeatsWithin(i, b, parent);
    if Beats(i, b, parent) {
      forall j | 0 <= j < k + 1 && SameMaster(claims[j], i) ensures !Beats(claims[j], i, parent) {
        BeatsWithin(claims[j], i, parent);
      }
      assert UnbeatenWithin(claims, k + 1, i, parent);
    } else if j :| 0 <= j < k + 1 && SameMaster(claims[j], b) && Beats(claims[j], b, parent) {
      BeatsWithin(claims[j], b, parent);
      assert Trap(b, i, claims[j], parent);
      assert NearestSeen(claims, k + 1, i);
      assert b in claims[..k + 1] && i in claims[..k + 1] && claims[..k + 1][j] in claims[..k + 1];
    } else {
      assert UnbeatenWithin(claims, k + 1, b, parent);
    }
  }

  /** The next claim replaces the best record, which nothing beat, and something seen
      beats the new one: only a trap allows that. */
  lemma ReplacedIsTrap(j: Claim, i: Claim, b: Claim, parent: ClockIdentity)
    requires SameMaster(j, b) && SameMaster(i, b)
    requires Beats(j, i, parent) && Beats(i, b, parent) && !Beats(j, b, parent)
    ensures Trap(b, j, i, parent)
  {
    BeatsWithin(j, i, parent);
    BeatsWithin(i, b, parent);
    BeatsWithin(j, b, parent);
    hide Beats;
    if MemCmp(j.sender, i.sender) <= 0 && MemCmp(i.sender, b.sender) <= 0 {
      MemCmpTransitive(j.sender, i.sender, b.sender);
    }
  }

  lemma TrapNearest(y: Claim, x: Claim, i: Claim, b: Claim, parent: ClockIdentity)
    requires Trap(b, x, i, parent) && SameMaster(y, x) && (y == i || !Beats(y, b, parent))
    ensures Steps(y) >= Steps(x)
  {
    BeatsWithin(y, b, parent);
  }

  lemma ReplacedSettled(claims: seq<Claim>, k: nat, b: Claim, parent: ClockIdentity)
    requires k < |claims| && b in claims[..k] && SameMaster(claims[k], b) && Beats(claims[k], b, parent)
    requires UnbeatenWithin(claims, k, b, parent)
    ensures Settled(claims, k + 1, claims[k], parent)
  {
    hide Beats, Trap;
    var i := claims[k];
    if j :| 0 <= j < k + 1 && SameMaster(claims[j], i) && Beats(claims[j], i, parent) {
      BeatsWithin(i, i, parent);
      var x := claims[j];
      ReplacedIsTrap(x, i, b, parent);
      forall y | 0 <= y < k + 1 && SameMaster(claims[y], x) ensures Steps(claims[y]) >= Steps(x) {
        TrapNearest(claims[y], x, i, b, parent);
      }
      assert NearestSeen(claims, k + 1, x);
      assert b in claims[..k + 1] && i in claims[..k + 1] && claims[..k + 1][j] in claims[..k + 1];
    } else {
      assert UnbeatenWithin(claims, k + 1, i, parent);
    }
  }

  /** The next claim is for the grandmaster of the best record. */
  lemma SameMasterStep(claims: seq<Claim>, k: nat, b: Claim, parent: ClockIdentity)
    requires k < |claims| && b in claims[..k] && SameMaster(claims[k], b)
    requires Settled(claims, k, b, parent)
    ensures Settled(claims, k + 1, if Beats(claims[k], b, parent) then claims[k] else b, parent)
  {
    hide Beats;
    var i := claims[k];
    if forall j :: 0 <= j < k && SameMaster(claims[j], b) ==> Steps(i) < Steps(claims[j]) {
      NearerMaster(claims, k, b, parent);
    } else if TrapSeen(claims, k, b, parent) {
      TrapStays(claims, k, b, if Beats(i, b, parent) then i else b, parent);
    } else if Beats(i, b, parent) {
      ReplacedSettled(claims, k, b, parent);
    } else {
      assert UnbeatenWithin(claims, k + 1, b, parent);
    }
  }

  lemma FirstSettled(claims: seq<Claim>, parent: ClockIdentity)
    requires claims != []
    ensures Settled(claims, 1, claims[0], parent)
  {
    BeatsWithin(claims[0], claims[0], parent);
    assert UnbeatenWithin(claims, 1, claims[0], parent);
  }

  lemma {:induction false} ScanSettles(claims: seq<Claim>, k: nat, parent: ClockIdentity)
    requires AllConsistent(claims) && 1 <= k <= |claims|
    ensures Settled(claims, k, claims[Best(claims, k, parent)], parent)
  {
    hide Beats, Best, Consistent, Settled, SameMaster;
    if k == 1 {
      BestFirst(claims, parent);
      FirstSettled(claims, parent);
    } else {
      ScanSettles(claims, k - 1, parent);
      ScanMaster(claims, k - 1, parent);
      BestStep(claims, k - 1, parent);
      var b := claims[Best(claims, k - 1, parent)];
      assert b == claims[..k - 1][Best(claims, k - 1, parent)];
      if SameMaster(claims[k - 1], b) {
        SameMasterStep(claims, k - 1, b, parent);
      } else {
        OtherMaster(claims, k - 1, b, parent);
      }
    }
  }

  /** The scan ends with a record that some record beats. */
  predicate EndsBeaten(claims: seq<Claim>, parent: ClockIdentity)
    requires claims != []
  {
    exists j :: 0 <= j < |claims| && Beats(claims[j], claims[Best(claims, |claims|, parent)], parent)
  }

  /** Although ties make the order partial, and the error exit even spoils it, nothing
      beats the record the scan ends with unless the table holds a trap. */
  lemma BestUnbeaten(claims: seq<Claim>, parent: ClockIdentity)
    requires claims != [] && AllConsistent(claims) && EndsBeaten(claims, parent)
    ensures Misled(claims, parent)
  {
    hide Beats, Best, Better, Trap;
    var n := |claims|;
    var b := claims[Best(claims, n, parent)];
    ScanSettles(claims, n, parent);
    ScanMaster(claims, n, parent);
    var j :| 0 <= j < n && Beats(claims[j], b, parent);
    if !SameMaster(claims[j], b) { BeatsAcross(claims[j], b, parent); }
    assert TrapSeen(claims, n, b, parent);
    assert claims[..n] == claims;
    var p, x, f :| p in claims && x in claims && f in claims && SameMaster(x, b) && Trap(p, x, f, parent) &&
      NearestSeen(claims, n, x);
    forall c | c in claims ensures if SameMaster(c, x) then Steps(c) >= Steps(x) else !Better(c, x) {
      var i :| 0 <= i < n && claims[i] == c;
      if !SameMaster(c, x) { BetterMaster(c, x, b); }
    }
    assert Foremost(claims, x);
  }

  /** The scan of the counted records is the scan of a table of just those. */
  lemma {:induction false} BestPrefix(claims: seq<Claim>, n: nat, k: nat, parent: ClockIdentity)
    requires 1 <= k <= n <= |claims|
    ensures Best(claims, k, parent) == Best(claims[..n], k, parent)
  {
    hide Beats, Best;
    if k == 1 {
      BestFirst(claims, parent);
      BestFirst(claims[..n], parent);
    } else {
      BestPrefix(claims, n, k - 1, parent);
      BestStep(claims, k - 1, parent);
      BestStep(claims[..n], k - 1, parent);
    }
  }

  /* ----- an order of the table that falls into the trap ----- */

  /** One step farther than `x` from the same grandmaster. */
  predicate Behind(c: Claim, x: Claim) {
    SameMaster(c, x) && Steps(c) == Steps(x) + 1
  }

  lemma SelfCmp(id: ClockIdentity)
    ensures MemCmp(id, id) == 0
  {
  }

  lemma {:induction false} LowestSender(claims: seq<Claim>, x: Claim, f: Claim, k: nat) returns (g: Claim)
    requires k <= |claims| && f in claims && Behind(f, x)
    ensures g in claims && Behind(g, x) && MemCmp(g.sender, f.sender) <= 0
    ensures forall i :: 0 <= i < k && Behind(claims[i], x) ==> MemCmp(g.sender, claims[i].sender) <= 0
    decreases k
  {
    hide MemCmp, Behind;
    if k == 0 {
      g := f;
      assert MemCmp(f.sender, f.sender) <= 0 by { SelfCmp(f.sender); }
    } else {
      g := LowestSender(claims, x, f, k - 1);
      var c := claims[k - 1];
      if Behind(c, x) && MemCmp(g.sender, c.sender) > 0 {
        var h := g;
        g := c;
        MemCmpAntisymmetric(h.sender, c.sender);
        MemCmpTransitive(c.sender, h.sender, f.sender);
        forall i | 0 <= i < k && Behind(claims[i], x) ensures MemCmp(g.sender, claims[i].sender) <= 0 {
          if i == k - 1 { SelfCmp(c.sender); } else { MemCmpTransitive(c.sender, h.sender, claims[i].sender); }
        }
      }
    }
  }

  /** The claims that beat `f`, and the others, in their order. */
  function Beaters(s: seq<Claim>, f: Claim, parent: ClockIdentity, yes: bool): (r: seq<Claim>)
    ensures forall c :: c in r ==> c in s && Beats(c, f, parent) == yes
    decreases |s|
  {
    if s == [] then []
    else
      var r := Beaters(s[..|s| - 1], f, parent, yes);
      if Beats(s[|s| - 1], f, parent) == yes then r + [s[|s| - 1]] else r
  }

  lemma {:induction false} BeatersSplit(s: seq<Claim>, f: Claim, parent: ClockIdentity)
    ensures multiset(Beaters(s, f, parent, true)) + multiset(Beaters(s, f, parent, false)) == multiset(s)
    decreases |s|
  {
    hide Beats;
    if s != [] {
      BeatersSplit(s[..|s| - 1], f, parent);
      assert s == s[..|s| - 1] + [s[|s| - 1]];
    }
  }

  /** All but the claim at one place. */
  function Without(s: seq<Claim>, i: nat): (r: seq<Claim>)
    requires i < |s|
    ensures multiset(s) == multiset(r) + multiset{s[i]}
  {
    assert s == s[..i] + [s[i]] + s[i + 1..];
    s[..i] + s[i + 1..]
  }

  /** The parent's claim first, then all that beat `f`, then `f`, then the rest. */
  function TrapOrder(p: Claim, f: Claim, rest: seq<Claim>, parent: ClockIdentity): (r: seq<Claim>)
    ensures r != []
  {
    [p] + Beaters(rest, f, parent, true) + [f] + Beaters(rest, f, parent, false)
  }

  /** The scan stays with a record that nothing after it beats. */
  lemma {:induction false} StaysBest(claims: seq<Claim>, k: nat, n: nat, parent: ClockIdentity)
    requires 1 <= k <= n <= |claims|
    requires forall i :: k <= i < n ==> !Beats(claims[i], claims[Best(claims, k, parent)], parent)
    ensures Best(claims, n, parent) == Best(claims, k, parent)
    decreases n
  {
    hide Beats, Best;
    if k < n {
      StaysBest(claims, k, n - 1, parent);
      BestStep(claims, n - 1, parent);
    }
  }

  /** In that order the scan ends with `f`. */
  lemma TrapOrderEnds(p: Claim, f: Claim, rest: seq<Claim>, parent: ClockIdentity)
    requires Beats(f, p, parent)
    requires forall c :: c in rest && Beats(c, f, parent) ==> !Beats(c, p, parent)
    ensures
      var order := TrapOrder(p, f, rest, parent);
      order[Best(order, |order|, parent)] == f
  {
    hide Beats, Best;
    var a, b := Beaters(rest, f, parent, true), Beaters(rest, f, parent, false);
    var order := TrapOrder(p, f, rest, parent);
    var m := 1 + |a|;
    assert order[0] == p && order[m] == f;
    BestFirst(order, parent);
    forall i | 1 <= i < m ensures !Beats(order[i], p, parent) {
      assert order[i] == a[i - 1];
    }
    StaysBest(order, 1, m, parent);
    BestStep(order, m, parent);
    forall i | m + 1 <= i < |order| ensures !Beats(order[i], f, parent) {
      assert order[i] == b[i - m - 1];
    }
    StaysBest(order, m + 1, |order|, parent);
  }

  /** What beats the lowest sender behind the foremost distance is at that distance,
      and so does not beat the parent's claim. */
  lemma TrapHolds(claims: seq<Claim>, p: Claim, x: Claim, f: Claim, c: Claim, parent: ClockIdentity)
    requires AllConsistent(claims) && x in claims && f in claims && c in claims
    requires Trap(p, x, f, parent) && Foremost(claims, x)
    requires Behind(c, x) ==> MemCmp(f.sender, c.sender) <= 0
    requires Beats(c, f, parent)
    ensures !Beats(c, p, parent)
  {
    hide Compare, Better, MemCmp;
    if SameMaster(c, f) {
      BeatsWithin(c, f, parent);
      BeatsWithin(c, p, parent);
      MemCmpAntisymmetric(c.sender, f.sender);
      hide Beats;
    } else {
      BeatsAcross(c, f, parent);
      BetterMaster(c, f, x);
    }
  }

  lemma TrapBeats(p: Claim, x: Claim, f: Claim, parent: ClockIdentity)
    requires Trap(p, x, f, parent)
    ensures Beats(f, p, parent) && Beats(x, f, parent) && p != f
  {
    SelfCmp(parent);
    BeatsWithin(f, p, parent);
    BeatsWithin(x, f, parent);
  }

  /** `order` is the table in another order. */
  predicate Reordered(claims: seq<Claim>, order: seq<Claim>) {
    multiset(order) == multiset(claims)
  }

  lemma LowestTrap(p: Claim, x: Claim, f0: Claim, f: Claim, parent: ClockIdentity)
    requires Trap(p, x, f0, parent) && Behind(f, x) && MemCmp(f.sender, f0.sender) <= 0
    ensures Trap(p, x, f, parent)
  {
    MemCmpTransitive(f.sender, f0.sender, parent);
    SelfCmp(parent);
  }

  lemma TakeTwo(claims: seq<Claim>, p: Claim, f: Claim) returns (rest: seq<Claim>)
    requires p in claims && f in claims && p != f
    ensures multiset(claims) == multiset(rest) + multiset{p} + multiset{f}
  {
    var i :| 0 <= i < |claims| && claims[i] == p;
    var r := Without(claims, i);
    assert f in multiset(claims) && f in multiset(r);
    var j :| 0 <= j < |r| && r[j] == f;
    rest := Without(r, j);
  }

  /** A trap at the foremost distance whose `f` is from the lowest sender there is. */
  predicate Sprung(claims: seq<Claim>, p: Claim, x: Claim, f: Claim, parent: ClockIdentity) {
    && p in claims && x in claims && f in claims && Trap(p, x, f, parent) && Foremost(claims, x)
    && forall i :: 0 <= i < |claims| && Behind(claims[i], x) ==> MemCmp(f.sender, claims[i].sender) <= 0
  }

  lemma MisledSprung(claims: seq<Claim>, parent: ClockIdentity) returns (p: Claim, x: Claim, f: Claim)
    requires Misled(claims, parent)
    ensures Sprung(claims, p, x, f, parent)
  {
    hide Foremost, MemCmp;
    var f0;
    p, x, f0 :| p in claims && x in claims && f0 in claims && Trap(p, x, f0, parent) && Foremost(claims, x);
    f := LowestSender(claims, x, f0, |claims|);
    LowestTrap(p, x, f0, f, parent);
  }

  lemma SprungHolds(claims: seq<Claim>, p: Claim, x: Claim, f: Claim, rest: seq<Claim>, parent: ClockIdentity)
    requires AllConsistent(claims) && Sprung(claims, p, x, f, parent)
    requires forall c :: c in rest ==> c in claims
    ensures forall c :: c in rest && Beats(c, f, parent) ==> !Beats(c, p, parent)
  {
    hide Beats, Foremost, Trap, MemCmp, AllConsistent;
    forall c | c in rest && Beats(c, f, parent) ensures !Beats(c, p, parent) {
      var i :| 0 <= i < |claims| && claims[i] == c;
      TrapHolds(claims, p, x, f, c, parent);
    }
  }

  lemma TrapOrderReorders(claims: seq<Claim>, p: Claim, f: Claim, rest: seq<Claim>, parent: ClockIdentity)
    requires multiset(claims) == multiset(rest) + multiset{p} + multiset{f}
    ensures Reordered(claims, TrapOrder(p, f, rest, parent))
  {
    hide Beats;
    BeatersSplit(rest, f, parent);
  }

  lemma MisledOrder(claims: seq<Claim>, parent: ClockIdentity) returns (order: seq<Claim>)
    requires AllConsistent(claims) && Misled(claims, parent)
    ensures order != [] && Reordered(claims, order) && EndsBeaten(order, parent)
  {
    hide Beats, Best, Foremost, Trap, AllConsistent, Misled;
    var p, x, f := MisledSprung(claims, parent);
    TrapBeats(p, x, f, parent);
    var rest := TakeTwo(claims, p, f);
    forall c | c in rest ensures c in claims {
      assert c in multiset(rest) && c in multiset(claims);
    }
    SprungHolds(claims, p, x, f, rest, parent);
    TrapOrderEnds(p, f, rest, parent);
    order := TrapOrder(p, f, rest, parent);
    TrapOrderReorders(claims, p, f, rest, parent);
    assert x in multiset(claims) && x in multiset(order);
    var j :| 0 <= j < |order| && order[j] == x;
  }

  lemma ReorderedMisled(claims: seq<Claim>, order: seq<Claim>, parent: ClockIdentity)
    requires Reordered(claims, order)
    ensures AllConsistent(order) <==> AllConsistent(claims)
    ensures Misled(order, parent) <==> Misled(claims, parent)
  {
    hide Consistent, Trap;
    assert forall c :: c in claims <==> c in multiset(claims);
    assert forall c :: c in order <==> c in multiset(order);
    forall x ensures Foremost(claims, x) == Foremost(order, x) {
    }
  }

  /**
   For a table whose grandmasters have one rank each: in some order of its records the
   scan ends with one that another beats, if and only if, for a grandmaster that no
   other in the table beats, the records one step behind the nearest include one of the
   current parent and one from a lower sender.
   */
  lemma ScanMisledIff(claims: seq<Claim>, parent: ClockIdentity)
    requires claims != [] && AllConsistent(claims)
    ensures (exists order :: order != [] && Reordered(claims, order) && EndsBeaten(order, parent)) <==>
            Misled(claims, parent)
  {
    hide Reordered, EndsBeaten, Misled, AllConsistent;
    forall order | order != [] && Reordered(claims, order) && EndsBeaten(order, parent) ensures Misled(claims, parent) {
      ReorderedMisled(claims, order, parent);
      BestUnbeaten(order, parent);
    }
    if Misled(claims, parent) {
      var order := MisledOrder(claims, parent);
    }
  }

  /** Such records do no harm beside one for a better grandmaster: in no order does the
      scan of the four end with a record that another beats. */
  lemma TrapOutranked(p: Claim, x: Claim, f: Claim, z: Claim, parent: ClockIdentity, order: seq<Claim>)
    requires Trap(p, x, f, parent) && !SameMaster(z, x) && Better(z, x) && AllConsistent([p, x, f, z])
    requires order != [] && Reordered([p, x, f, z], order)
    ensures !EndsBeaten(order, parent)
  {
    hide Better, EndsBeaten, Reordered, Consistent;
    var claims := [p, x, f, z];
    forall p', x', f' | p' in claims && x' in claims && f' in claims && Trap(p', x', f', parent)
      ensures !Foremost(claims, x')
    {
      assert z in claims;
      if SameMaster(x', x) { BetterMaster(z, x', x); }
    }
    assert !Misled(claims, parent);
    ReorderedMisled(claims, order, parent);
    if EndsBeaten(order, parent) { BestUnbeaten(order, parent); }
  }

  /** Three records for one grandmaster, the nearest between two that are one step
      farther: the scan ends with one that the nearest beats, whoever sent that. */
  lemma ParentTieMisleads(m: MsgAnnounce, steps: u16, parent: ClockIdentity, middle: ClockIdentity, low: ClockIdentity)
    requires steps < 0xFFFF && MemCmp(low, parent) < 0
    ensures EndsBeaten([Claim(parent, m.(stepsRemoved := steps + 1)), Claim(middle, m.(stepsRemoved := steps)),
                        Claim(low, m.(stepsRemoved := steps + 1))], parent)
  {
    hide Beats, Best;
    var p, x, f := Claim(parent, m.(stepsRemoved := steps + 1)), Claim(middle, m.(stepsRemoved := steps)),
                   Claim(low, m.(stepsRemoved := steps + 1));
    var claims := [p, x, f];
    BeatsWithin(x, p, parent);
    BeatsWithin(f, p, parent);
    BeatsWithin(x, f, parent);
    SelfCmp(parent);
    BestFirst(claims, parent);
    BestStep(claims, 1, parent);
    BestStep(claims, 2, parent);
    assert claims[1] == x && Best(claims, |claims|, parent) == 2;
  }
}
