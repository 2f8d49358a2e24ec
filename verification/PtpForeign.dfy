/**
 The foreign master data set: addForeign in packages/ptpv2/ptpv2_protocol.c and
 the places that reset its counters.
 */
module PtpForeign {
  import opened PtpTypes
  import opened PtpClocks
  import opened PtpBmc

  /** The fields of the clock that make up the table. */
  datatype Table = Table(foreign: seq<ForeignMasterRecord>, n: nat, next: nat, best: nat)

  /** What the code relies on whatever happened before: indices inside the table. */
  predicate InBounds(t: Table) {
    t.n <= |t.foreign| && t.next < |t.foreign| && t.best < |t.foreign|
  }

  /** Where bmc has run since the table last changed, the best record is one of those counted. */
  predicate Scannable(t: Table) {
    t.n == 0 || t.best < t.n
  }

  predicate Knows(t: Table, port: PortIdentity)
    requires t.n <= |t.foreign|
  {
    exists j :: 0 <= j < t.n && t.foreign[j].foreignMasterPortIdentity == port
  }

  predicate Distinct(foreign: seq<ForeignMasterRecord>, n: nat)
    requires n <= |foreign|
  {
    forall i, j :: 0 <= i < j < n ==> foreign[i].foreignMasterPortIdentity != foreign[j].foreignMasterPortIdentity
  }

  /** Records below the count are of distinct ports, and until the table is full
      the next one to be written is the first one not counted. */
  predicate Coherent(t: Table) {
    && t.n <= |t.foreign| && t.next < |t.foreign|
    && (t.n < |t.foreign| ==> t.next == t.n)
    && Distinct(t.foreign, t.n)
  }

  /* ----- the search of addForeign ----- */

  datatype Found = At(slot: nat) | Nowhere

  /** The slot after `i`, cyclically. */
  function Advance(i: nat, max: nat): (r: nat)
    requires i < max
    ensures r == if i + 1 == max then 0 else i + 1
  {
    (i + 1) % max
  }

  /** The first of `left` slots from `j` on, going around the counted ones, that is of the port. */
  function FindFrom(foreign: seq<ForeignMasterRecord>, n: nat, port: PortIdentity, j: nat, left: nat): (r: Found)
    requires left <= n <= |foreign| && j < |foreign|
    ensures r.At? ==> r.slot < |foreign| && foreign[r.slot].foreignMasterPortIdentity == port
    decreases left
  {
    if left == 0 then Nowhere
    else if foreign[j].foreignMasterPortIdentity == port then At(j)
    else FindFrom(foreign, n, port, (j + 1) % n, left - 1)
  }

  /** From the best record on, once around the counted slots. */
  function Find(t: Table, port: PortIdentity): (r: Found)
    requires InBounds(t)
    ensures r.At? ==> r.slot < |t.foreign| && t.foreign[r.slot].foreignMasterPortIdentity == port
  {
    FindFrom(t.foreign, t.n, port, t.best, t.n)
  }

  /** Position `k` of a cyclic scan of `n` slots that starts at `start`. */
  function Visited(start: nat, k: nat, n: nat): (j: nat)
    requires start < n && k <= n
    ensures j < n
  {
    if start + k < n then start + k else start + k - n
  }

  lemma {:induction false} FindVisits(foreign: seq<ForeignMasterRecord>, n: nat, port: PortIdentity, j: nat, left: nat)
    requires left <= n <= |foreign| && j < n
    ensures
      var r := FindFrom(foreign, n, port, j, left);
      && (r.At? ==> r.slot < n)
      && (r.Nowhere? ==> forall k :: 0 <= k < left ==> foreign[Visited(j, k, n)].foreignMasterPortIdentity != port)
    decreases left
  {
    if left > 0 && foreign[j].foreignMasterPortIdentity != port {
      var j' := Advance(j, n);
      FindVisits(foreign, n, port, j', left - 1);
      if FindFrom(foreign, n, port, j, left).Nowhere? {
        forall k | 0 <= k < left ensures foreign[Visited(j, k, n)].foreignMasterPortIdentity != port {
          if k > 0 { assert Visited(j, k, n) == Visited(j', k - 1, n); }
        }
      }
    }
  }

  /** The scan from the best record misses no counted record, and finds only those. */
  lemma FindIsKnows(t: Table, port: PortIdentity)
    requires InBounds(t) && Scannable(t)
    ensures Find(t, port).At? <==> Knows(t, port)
    ensures Find(t, port).At? ==> Find(t, port).slot < t.n
  {
    if t.n > 0 {
      FindVisits(t.foreign, t.n, port, t.best, t.n);
      if Find(t, port).Nowhere? {
        forall j | 0 <= j < t.n ensures t.foreign[j].foreignMasterPortIdentity != port {
          var k := if j >= t.best then j - t.best else j - t.best + t.n;
          assert Visited(t.best, k, t.n) == j;
        }
      }
    }
  }

  /* ----- the effect of addForeign ----- */

  function Refreshed(r: ForeignMasterRecord, a: Heard): (r': ForeignMasterRecord) {
    r.(foreignMasterAnnounceMessages := (r.foreignMasterAnnounceMessages + 1) % 0x1_0000, announce := a.announce,
      header := a.header)
  }

  function Fresh(a: Heard): (r: ForeignMasterRecord) {
    ForeignMasterRecord(a.header.source, 0, a.announce, a.header)
  }

  /** An Announce from a port found refreshes its record. */
  function Refresh(t: Table, j: nat, a: Heard): (t': Table)
    requires j < |t.foreign|
  {
    t.(foreign := t.foreign[j := Refreshed(t.foreign[j], a)])
  }

  /** An Announce from another port takes the next slot. */
  function Insert(t: Table, a: Heard): (t': Table)
    requires t.next < |t.foreign|
  {
    t.(foreign := t.foreign[t.next := Fresh(a)], n := if t.n < |t.foreign| then t.n + 1 else t.n,
       next := Advance(t.next, |t.foreign|))
  }

  function AddTo(t: Table, a: Heard): (t': Table)
    requires InBounds(t)
    ensures InBounds(t') && |t'.foreign| == |t.foreign|
  {
    match Find(t, a.header.source)
    case At(j) => Refresh(t, j, a)
    case Nowhere => Insert(t, a)
  }

  /** The slot an Announce goes into. */
  function Target(t: Table, a: Heard): (j: nat)
    requires InBounds(t)
    ensures j < |t.foreign|
  {
    match Find(t, a.header.source)
    case At(j) => j
    case Nowhere => t.next
  }

  /** A record and the Announce it was last written with. */
  predicate Holds(r: ForeignMasterRecord, a: Heard) {
    r.foreignMasterPortIdentity == a.header.source && r.header == a.header && r.announce == a.announce
  }

  /** Only the target slot is written, and it then holds the Announce under its port. */
  lemma AddToTarget(t: Table, a: Heard)
    requires InBounds(t)
    ensures
      var t', j := AddTo(t, a), Target(t, a);
      && Holds(t'.foreign[j], a)
      && forall i :: 0 <= i < |t.foreign| && i != j ==> t'.foreign[i] == t.foreign[i]
  {
  }

  /** An Announce lands in a counted slot, where the next decision sees it, exactly
      when its port was counted before or the next slot is not beyond the count. */
  lemma EnteredCounted(t: Table, a: Heard)
    requires InBounds(t) && Scannable(t)
    ensures Target(t, a) < AddTo(t, a).n <==> Knows(t, a.header.source) || t.next <= t.n
  {
    FindIsKnows(t, a.header.source);
  }

  /* ----- the orderly table as a bounded queue ----- */

  /** The slot of the k-th oldest record. */
  function Slot(t: Table, k: nat): (j: nat)
    requires Coherent(t) && k < t.n
    ensures j < t.n
  {
    if t.n < |t.foreign| then k else if t.next + k < |t.foreign| then t.next + k else t.next + k - |t.foreign|
  }

  /** Ports in the order in which their records were inserted. */
  function Queue(t: Table): (q: seq<PortIdentity>)
    requires Coherent(t)
    ensures |q| == t.n
  {
    seq(t.n, k requires 0 <= k < t.n => t.foreign[Slot(t, k)].foreignMasterPortIdentity)
  }

  lemma InsertCoherent(t: Table, a: Heard)
    requires Coherent(t) && !Knows(t, a.header.source)
    ensures Coherent(Insert(t, a))
  {
    hide Advance;
    var t' := Insert(t, a);
    forall i, j | 0 <= i < j < t'.n
      ensures t'.foreign[i].foreignMasterPortIdentity != t'.foreign[j].foreignMasterPortIdentity
    {
      assert i != t.next ==> i < t.n && t'.foreign[i] == t.foreign[i];
      assert j != t.next ==> j < t.n && t'.foreign[j] == t.foreign[j];
    }
  }

  /** How the slots of the queue move when a record is inserted. */
  lemma NextSlot(t: Table, a: Heard, k: nat)
    requires Coherent(t) && Coherent(Insert(t, a)) && k < Insert(t, a).n
    ensures
      var t', max := Insert(t, a), |t.foreign|;
      if t.n < max then Slot(t', k) == k
      else if k == max - 1 then Slot(t', k) == t.next
      else Slot(t', k) == Slot(t, k + 1) != t.next
  {
    hide Advance;
  }

  /** Inserting keeps the table coherent and appends to the queue, dropping the
      oldest port when the table was full. */
  lemma InsertIsEnqueue(t: Table, a: Heard)
    requires Coherent(t) && !Knows(t, a.header.source)
    ensures Coherent(Insert(t, a))
    ensures Queue(Insert(t, a)) == (if t.n < |t.foreign| then Queue(t) else Queue(t)[1..]) + [a.header.source]
  {
    InsertCoherent(t, a);
    var t', max := Insert(t, a), |t.foreign|;
    var q' := (if t.n < max then Queue(t) else Queue(t)[1..]) + [a.header.source];
    assert |Queue(t')| == |q'|;
    forall k | 0 <= k < |q'| ensures Queue(t')[k] == q'[k] {
      NextSlot(t, a, k);
    }
  }

  /** Refreshing changes neither the ports nor their order. */
  lemma RefreshKeepsQueue(t: Table, j: nat, a: Heard)
    requires Coherent(t) && j < t.n
    ensures Coherent(Refresh(t, j, a)) && Queue(Refresh(t, j, a)) == Queue(t)
  {
  }

  lemma AddToCoherent(t: Table, a: Heard)
    requires InBounds(t) && Scannable(t) && Coherent(t)
    ensures Coherent(AddTo(t, a))
  {
    hide Find;
    FindIsKnows(t, a.header.source);
    match Find(t, a.header.source)
    case At(j) => RefreshKeepsQueue(t, j, a);
    case Nowhere => InsertCoherent(t, a);
  }

  /* ----- whole runs ----- */

  function Step(t: Table, e: TableEvent): (t': Table)
    requires InBounds(t)
    ensures InBounds(t') && |t'.foreign| == |t.foreign|
  {
    match e
    case Entered(a) => AddTo(t, a)
    case Followed(_) => t
    case Emptied => t.(n := 0, next := 0)
    case Reinitialised => t.(n := 0)
    case Decided(parent, master) =>
      if t.n == 0 && master then t else t.(best := Best(Claims(t.foreign), t.n, parent))
  }

  /** The table after a run from power-up; `boot` is what the memory held then. */
  function After(boot: seq<ForeignMasterRecord>, es: seq<TableEvent>): (t: Table)
    requires boot != []
    ensures InBounds(t) && |t.foreign| == |boot|
    decreases |es|
  {
    if es == [] then Table(boot, 0, 0, 0) else Step(After(boot, es[..|es| - 1]), es[|es| - 1])
  }

  /** An Announce has come since the last decision. */
  predicate Pending(es: seq<TableEvent>)
    decreases |es|
  {
    && es != []
    && match es[|es| - 1]
       case Entered(_) => true
       case Followed(_) => true
       case Decided(_, _) => false
       case _ => Pending(es[..|es| - 1])
  }

  /** No Announce is taken while another waits for a decision: what record_update and
      the order of doState give. */
  predicate Paced(es: seq<TableEvent>)
    decreases |es|
  {
    es != [] ==>
    && Paced(es[..|es| - 1])
    && (es[|es| - 1].Entered? || es[|es| - 1].Followed? ==> !Pending(es[..|es| - 1]))
  }

  lemma {:induction false} PacedScannable(boot: seq<ForeignMasterRecord>, es: seq<TableEvent>)
    requires boot != [] && !Pending(es)
    ensures Scannable(After(boot, es))
    decreases |es|
  {
    hide Best, Claims, AddTo;
    if es != [] && (es[|es| - 1].Emptied? || es[|es| - 1].Reinitialised?) {
      PacedScannable(boot, es[..|es| - 1]);
    }
  }

  /** One event more. */
  lemma RunStep(boot: seq<ForeignMasterRecord>, es: seq<TableEvent>, e: TableEvent)
    requires boot != [] && Paced(es) && (e.Entered? || e.Followed? ==> !Pending(es))
    ensures Paced(es + [e]) && After(boot, es + [e]) == Step(After(boot, es), e)
    ensures Pending(es + [e]) == if e.Entered? || e.Followed? then true else if e.Decided? then false else Pending(es)
  {
    hide Step;
    assert (es + [e])[..|es|] == es;
  }

  /* ----- what the records hold ----- */

  /** The event that last wrote slot `j`; -1 if there is none. */
  function Origin(boot: seq<ForeignMasterRecord>, es: seq<TableEvent>, j: nat): (i: int)
    requires boot != []
    ensures -1 <= i < |es| && (i >= 0 ==> es[i].Entered?)
    decreases |es|
  {
    if es == [] then -1
    else
      var init, e := es[..|es| - 1], es[|es| - 1];
      if e.Entered? && Target(After(boot, init), e.heard) == j then |es| - 1 else Origin(boot, init, j)
  }

  /** Slots below the count and below the next slot have been written, and until the
      table has been filled once the count does not pass the next slot. */
  ghost predicate WrittenBelow(boot: seq<ForeignMasterRecord>, es: seq<TableEvent>)
    requires boot != []
  {
    var t := After(boot, es);
    && (forall j :: 0 <= j < t.n || 0 <= j < t.next ==> Origin(boot, es, j) >= 0)
    && (t.n <= t.next || forall j :: 0 <= j < |boot| ==> Origin(boot, es, j) >= 0)
  }

  lemma {:induction false} CountedWritten(boot: seq<ForeignMasterRecord>, es: seq<TableEvent>)
    requires boot != []
    ensures WrittenBelow(boot, es)
    decreases |es|
  {
    hide Find, Best, Claims;
    if es != [] {
      var init, e := es[..|es| - 1], es[|es| - 1];
      CountedWritten(boot, init);
      forall j | 0 <= j < |boot| ensures Origin(boot, init, j) >= 0 ==> Origin(boot, es, j) >= 0 {
      }
      if e.Entered? {
        assert Origin(boot, es, Target(After(boot, init), e.heard)) == |es| - 1;
      }
    }
  }

  /** In every run, whatever was emptied or re-initialised, a slot that was written
      holds the Announce that last wrote it, under the port it came from. */
  lemma {:induction false} RecordsOrigin(boot: seq<ForeignMasterRecord>, es: seq<TableEvent>, j: nat)
    requires boot != [] && j < |boot| && Origin(boot, es, j) >= 0
    ensures Holds(After(boot, es).foreign[j], es[Origin(boot, es, j)].heard)
    decreases |es|
  {
    hide AddTo, Target, Holds, Best, Claims;
    var init, e := es[..|es| - 1], es[|es| - 1];
    if e.Entered? { AddToTarget(After(boot, init), e.heard); }
    if !(e.Entered? && Target(After(boot, init), e.heard) == j) {
      RecordsOrigin(boot, init, j);
    }
  }

  /** The last Announce of a port in a run, entered or followed; -1 if there is none. */
  function Latest(es: seq<TableEvent>, port: PortIdentity): (i: int)
    ensures -1 <= i < |es| && (i >= 0 ==> (es[i].Entered? || es[i].Followed?) && es[i].heard.header.source == port)
    ensures forall k :: i < k < |es| && (es[k].Entered? || es[k].Followed?) ==> es[k].heard.header.source != port
    decreases |es|
  {
    if es == [] then -1
    else
      var e := es[|es| - 1];
      if (e.Entered? || e.Followed?) && e.heard.header.source == port then |es| - 1 else Latest(es[..|es| - 1], port)
  }

  /** Slot `j` holds the latest Announce of its port. */
  predicate HoldsLatest(boot: seq<ForeignMasterRecord>, es: seq<TableEvent>, j: nat)
    requires boot != [] && j < |boot|
  {
    var r := After(boot, es).foreign[j];
    var i := Latest(es, r.foreignMasterPortIdentity);
    i >= 0 && Holds(r, es[i].heard)
  }

  /** In every run a counted slot holds the latest Announce of its port exactly when
      that port's last Announce says what the one that wrote the slot said. */
  lemma RunHoldsOrigin(boot: seq<ForeignMasterRecord>, es: seq<TableEvent>, j: nat)
    requires boot != [] && j < After(boot, es).n
    ensures
      var i, l := Origin(boot, es, j), Latest(es, After(boot, es).foreign[j].foreignMasterPortIdentity);
      i >= 0 && l >= i && (HoldsLatest(boot, es, j) <==> es[l].heard == es[i].heard)
  {
    hide Origin, After;
    CountedWritten(boot, es);
    RecordsOrigin(boot, es, j);
  }

  /** The table was last re-initialised with a next slot other than 0, and not emptied since. */
  predicate Skewed(boot: seq<ForeignMasterRecord>, es: seq<TableEvent>)
    requires boot != []
    decreases |es|
  {
    && es != []
    && var init := es[..|es| - 1];
       match es[|es| - 1]
       case Emptied => false
       case Reinitialised => After(boot, init).next != 0
       case _ => Skewed(boot, init)
  }

  /** initData resets the count but not the next slot. Until the table is full it is
      orderly exactly when that slot was 0 at the last re-initialisation. */
  lemma {:induction false} CoherentIffNotSkewed(boot: seq<ForeignMasterRecord>, es: seq<TableEvent>)
    requires boot != [] && Paced(es)
    ensures !Skewed(boot, es) ==> Coherent(After(boot, es))
    ensures After(boot, es).n < |boot| ==> (Coherent(After(boot, es)) <==> !Skewed(boot, es))
    ensures Skewed(boot, es) && After(boot, es).n < |boot| ==> After(boot, es).next != After(boot, es).n
    decreases |es|
  {
    hide Find, Best, Claims;
    if es != [] {
      var init, e := es[..|es| - 1], es[|es| - 1];
      CoherentIffNotSkewed(boot, init);
      if e.Entered? && !Skewed(boot, init) {
        PacedScannable(boot, init);
        AddToCoherent(After(boot, init), e.heard);
      }
    }
  }

  /** The last Announce of a port that went into the table; -1 if there is none. */
  function LastEntered(es: seq<TableEvent>, port: PortIdentity): (i: int)
    ensures -1 <= i < |es| && (i >= 0 ==> es[i].Entered?)
    decreases |es|
  {
    if es == [] then -1
    else if es[|es| - 1].Entered? && es[|es| - 1].heard.header.source == port then |es| - 1
    else LastEntered(es[..|es| - 1], port)
  }

  /** In an orderly table a counted slot was last written by the last entry of its port. */
  lemma {:induction false} OriginIsLastEntered(boot: seq<ForeignMasterRecord>, es: seq<TableEvent>, j: nat)
    requires boot != [] && Paced(es) && !Skewed(boot, es) && j < After(boot, es).n
    ensures Origin(boot, es, j) == LastEntered(es, After(boot, es).foreign[j].foreignMasterPortIdentity)
    decreases |es|
  {
    hide Find, Best, Claims, Refreshed;
    var init, e := es[..|es| - 1], es[|es| - 1];
    var t := After(boot, init);
    match e
    case Emptied =>
    case Reinitialised =>
    case Decided(_, _) => OriginIsLastEntered(boot, init, j);
    case Followed(_) => OriginIsLastEntered(boot, init, j);
    case Entered(a) =>
      PacedScannable(boot, init);
      CoherentIffNotSkewed(boot, init);
      FindIsKnows(t, a.header.source);
      AddToTarget(t, a);
      if Target(t, a) != j {
        OriginIsLastEntered(boot, init, j);
        assert t.foreign[j].foreignMasterPortIdentity != a.header.source;
      }
  }

  /** The port has not been followed, since it was last entered, to another Announce. */
  predicate NotFollowedElsewhere(es: seq<TableEvent>, port: PortIdentity) {
    var l, e := Latest(es, port), LastEntered(es, port);
    0 <= e && 0 <= l && (l == e || es[l].heard == es[e].heard)
  }

  /**
   In every run without a skew the counted slots are of distinct ports, and a slot
   holds the latest Announce of its port exactly when that port has not been
   followed to a different one since it was last entered: a slave takes the
   Announces of its parent without entering them.
   */
  lemma RunHoldsLatest(boot: seq<ForeignMasterRecord>, es: seq<TableEvent>, j: nat)
    requires boot != [] && Paced(es) && !Skewed(boot, es) && j < After(boot, es).n
    ensures Coherent(After(boot, es))
    ensures HoldsLatest(boot, es, j) <==> NotFollowedElsewhere(es, After(boot, es).foreign[j].foreignMasterPortIdentity)
  {
    hide After, Origin, Latest, LastEntered, HoldsLatest;
    CoherentIffNotSkewed(boot, es);
    OriginIsLastEntered(boot, es, j);
    RunHoldsOrigin(boot, es, j);
  }

  /** A slave that follows its parent to something new leaves the parent's record behind. */
  lemma FollowedLeavesStale(boot: seq<ForeignMasterRecord>, es: seq<TableEvent>, j: nat, a: Heard)
    requires boot != [] && Paced(es) && !Pending(es) && j < After(boot, es).n
    requires After(boot, es).foreign[j].foreignMasterPortIdentity == a.header.source
    requires !Holds(After(boot, es).foreign[j], a)
    ensures Paced(es + [Followed(a)]) && !HoldsLatest(boot, es + [Followed(a)], j)
  {
    hide Paced, Pending, AddTo;
    RunStep(boot, es, Followed(a));
    assert Step(After(boot, es), Followed(a)) == After(boot, es);
  }

  /* ----- what a re-initialisation leaves behind ----- */

  /** Where the next slot is after `n` insertions from slot `k` on. */
  function Shifted(k: nat, n: nat, max: nat): (j: nat)
    requires k < max && n < max
    ensures j < max
  {
    if k + n < max then k + n else k + n - max
  }

  /** Slots below `k` that the insertions have not come round to. */
  predicate NotReached(j: nat, k: nat, n: nat, max: nat) {
    j < k && k + n <= max + j
  }

  /** After a re-initialisation with next slot `k`, as long as the table is not full,
      insertions go on from slot `k`, and the slots below `k` stay with the ports of
      before until the insertions have come round to them. */
  lemma {:induction false} ReinitShifts(boot: seq<ForeignMasterRecord>, es: seq<TableEvent>, tail: seq<TableEvent>)
    requires boot != [] && Paced(es + [Reinitialised] + tail)
    requires forall i :: 0 <= i < |tail| ==> !tail[i].Emptied? && !tail[i].Reinitialised?
    requires After(boot, es + [Reinitialised] + tail).n < |boot|
    ensures
      var t0, t := After(boot, es), After(boot, es + [Reinitialised] + tail);
      && t.next == Shifted(t0.next, t.n, |boot|)
      && forall j :: 0 <= j < |boot| && NotReached(j, t0.next, t.n, |boot|) ==>
           t.foreign[j].foreignMasterPortIdentity == t0.foreign[j].foreignMasterPortIdentity
    decreases |tail|
  {
    hide Find, Best, Claims;
    var run := es + [Reinitialised] + tail;
    if tail == [] {
      assert run[..|run| - 1] == es;
    } else {
      var rest := tail[..|tail| - 1];
      assert run[..|run| - 1] == es + [Reinitialised] + rest;
      assert run[|run| - 1] == tail[|tail| - 1];
      ReinitShifts(boot, es, rest);
    }
  }

  /** So the first Announce of a port not counted goes where it is not counted, and a
      record from before the re-initialisation is counted in its place. */
  lemma ReinitCountsStaleRecord(boot: seq<ForeignMasterRecord>, es: seq<TableEvent>, a: Heard)
    requires boot != [] && Paced(es) && !Pending(es) && After(boot, es).next > 0
    ensures
      var run := es + [Reinitialised] + [Entered(a)];
      && Paced(run) && After(boot, run).n == 1
      && After(boot, run).foreign[0] == After(boot, es).foreign[0]
      && 0 <= Origin(boot, run, 0) < |es| && Origin(boot, run, After(boot, es).next) == |run| - 1
  {
    hide Best, Claims;
    var t := After(boot, es);
    CountedWritten(boot, es);
    RunStep(boot, es, Reinitialised);
    RunStep(boot, es + [Reinitialised], Entered(a));
    var mid, run := es + [Reinitialised], es + [Reinitialised] + [Entered(a)];
    assert run[..|run| - 1] == mid && mid[..|mid| - 1] == es;
    assert Target(After(boot, mid), a) == t.next;
    assert Origin(boot, run, 0) == Origin(boot, mid, 0) == Origin(boot, es, 0);
  }

  /** A counted slot other than the one about to be written is of the port. */
  predicate CountedElsewhere(t: Table, port: PortIdentity)
    requires InBounds(t)
  {
    exists j :: 0 <= j < t.n && j != t.next && t.foreign[j].foreignMasterPortIdentity == port
  }

  lemma DistinctOneMore(t: Table, a: Heard)
    requires InBounds(t) && Distinct(t.foreign, t.n) && !Knows(t, a.header.source)
    requires t.n < |t.foreign| && t.next != t.n
    ensures
      var old' := t.foreign[t.n].foreignMasterPortIdentity;
      Distinct(Insert(t, a).foreign, t.n + 1) <==>
        !CountedElsewhere(t, old') && (t.next < t.n ==> old' != a.header.source)
  {
    var f', n, p := Insert(t, a).foreign, t.n, t.foreign[t.n].foreignMasterPortIdentity;
    assert f'[n] == t.foreign[n];
    if CountedElsewhere(t, p) {
      var j :| 0 <= j < n && j != t.next && t.foreign[j].foreignMasterPortIdentity == p;
      assert f'[j] == t.foreign[j];
    }
    if t.next < n { assert f'[t.next] == Fresh(a); }
  }

  /** An insertion counts one slot more. The counted ports stay distinct exactly when the
      table is full, or that slot is the one written, or its old record is of a port not
      counted, and of another than the one inserted if that is counted. */
  lemma DistinctStep(t: Table, a: Heard)
    requires InBounds(t) && Distinct(t.foreign, t.n) && !Knows(t, a.header.source)
    ensures
      var t' := Insert(t, a);
      Distinct(t'.foreign, t'.n) <==>
        || t.n == |t.foreign|
        || t.next == t.n
        || (var old' := t.foreign[t.n].foreignMasterPortIdentity;
            !CountedElsewhere(t, old') && (t.next < t.n ==> old' != a.header.source))
  {
    var t', n := Insert(t, a), t.n;
    forall i | 0 <= i < n ensures i != t.next ==> t'.foreign[i] == t.foreign[i] {
    }
    if n < |t.foreign| && t.next != n {
      DistinctOneMore(t, a);
    }
  }

  /** So a port can be counted twice: re-initialised with one record, the table takes the
      same port again in the slot behind it, and the next port makes that slot count. */
  lemma ReinitCountsTwice(boot: seq<ForeignMasterRecord>, es: seq<TableEvent>, a: Heard, b: Heard,
                          parent: ClockIdentity)
    requires |boot| >= 3 && Paced(es) && !Pending(es) && After(boot, es).next == 1
    requires After(boot, es).foreign[0].foreignMasterPortIdentity == a.header.source != b.header.source
    ensures
      var run := es + [Reinitialised] + [Entered(a)] + [Decided(parent, false)] + [Entered(b)];
      var t := After(boot, run);
      && Paced(run) && t.n == 2
      && t.foreign[0].foreignMasterPortIdentity == t.foreign[1].foreignMasterPortIdentity == a.header.source
  {
    hide Claims, Compare;
    var e1 := es + [Reinitialised];
    var e2 := e1 + [Entered(a)];
    var e3 := e2 + [Decided(parent, false)];
    RunStep(boot, es, Reinitialised);
    RunStep(boot, e1, Entered(a));
    RunStep(boot, e2, Decided(parent, false));
    RunStep(boot, e3, Entered(b));
    var t3 := After(boot, e3);
    assert t3.n == 1 && t3.best == 0 && t3.next == 2;
  }

  /* ----- addForeign itself ----- */

  ghost function TableOf(c: PtpClock): Table
    reads c
  {
    Table(c.foreign, c.numberForeignRecords, c.foreignRecordI, c.foreignRecordBest)
  }

  /** The search loop of addForeign. */
  method FindForeign(foreign: seq<ForeignMasterRecord>, n: nat, best: nat, port: PortIdentity)
    returns (found: bool, j: nat)
    requires n <= |foreign| && best < |foreign|
    ensures FindFrom(foreign, n, port, best, n) == if found then At(j) else Nowhere
  {
    j := best;
    found := false;
    var i := 0;
    while i < n
      invariant i <= n && j < |foreign|
      invariant FindFrom(foreign, n, port, j, n - i) == FindFrom(foreign, n, port, best, n)
    {
      if foreign[j].foreignMasterPortIdentity == port {
        found := true;
        return;
      }
      j := (j + 1) % n;
      i := i + 1;
    }
  }

  method AddForeign(c: PtpClock, header: MsgHeader, announce: MsgAnnounce)
    requires InBounds(TableOf(c))
    modifies c`foreign, c`numberForeignRecords, c`foreignRecordI
    ensures TableOf(c) == AddTo(old(TableOf(c)), Heard(header, announce))
  {
    var a := Heard(header, announce);
    var found, j := FindForeign(c.foreign, c.numberForeignRecords, c.foreignRecordBest, header.source);
    if found {
      c.foreign := c.foreign[j := Refreshed(c.foreign[j], a)];
    } else {
      if c.numberForeignRecords < |c.foreign| {
        c.numberForeignRecords := c.numberForeignRecords + 1;
      }
      j := c.foreignRecordI;
      c.foreign := c.foreign[j := Fresh(a)];
      c.foreignRecordI := Advance(c.foreignRecordI, |c.foreign|);
    }
  }
}
