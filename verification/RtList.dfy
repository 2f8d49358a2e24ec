/** The circular doubly linked list of rt-thread/include/rtservice.h, as links between the members of a ring. */
module RtList {
  /** The index after `i` in a ring of `n`. */
  function Next(i: nat, n: nat): (j: nat)
    requires i < n
    ensures j < n
  {
    if i + 1 == n then 0 else i + 1
  }

  predicate Distinct<T(==)>(ring: seq<T>) {
    forall i, j :: 0 <= i < j < |ring| ==> ring[i] != ring[j]
  }

  /** Following `next` goes once around the ring, and `prev` goes back. */
  ghost predicate Linked<T>(ring: seq<T>, next: map<T, T>, prev: map<T, T>) {
    && |ring| >= 1 && Distinct(ring)
    && (forall i :: 0 <= i < |ring| ==> ring[i] in next && ring[i] in prev)
    && (forall i :: 0 <= i < |ring| ==> next[ring[i]] == ring[Next(i, |ring|)])
    && (forall i :: 0 <= i < |ring| ==> prev[ring[Next(i, |ring|)]] == ring[i])
  }

  /** `n` behind position `k` of the ring. */
  function Inserted<T>(ring: seq<T>, k: nat, n: T): (r: seq<T>)
    requires k < |ring|
    ensures |r| == |ring| + 1
    ensures forall i :: 0 <= i < |r| ==> r[i] == if i <= k then ring[i] else if i == k + 1 then n else ring[i - 1]
  {
    ring[..k + 1] + [n] + ring[k + 1..]
  }

  lemma InsertedDistinct<T>(ring: seq<T>, k: nat, n: T)
    requires Distinct(ring) && k < |ring| && n !in ring
    ensures Distinct(Inserted(ring, k, n))
  {
  }

  /** What being linked says about one position, and about two. */
  lemma LinkAt<T>(ring: seq<T>, next: map<T, T>, prev: map<T, T>, i: nat)
    requires Linked(ring, next, prev) && i < |ring|
    ensures ring[i] in next && ring[i] in prev && ring[Next(i, |ring|)] in prev
    ensures next[ring[i]] == ring[Next(i, |ring|)] && prev[ring[Next(i, |ring|)]] == ring[i]
  {
  }

  lemma Differ<T>(ring: seq<T>, next: map<T, T>, prev: map<T, T>, i: nat, j: nat)
    requires Linked(ring, next, prev) && i < |ring| && j < |ring|
    ensures ring[i] == ring[j] <==> i == j
  {
  }

  lemma ForwardLink<T>(ring: seq<T>, next: map<T, T>, prev: map<T, T>, k: nat, n: T, i: nat)
    requires Linked(ring, next, prev) && k < |ring| && n !in ring && i < |ring| + 1
    ensures
      var l, after, ring' := ring[k], ring[Next(k, |ring|)], Inserted(ring, k, n);
      var next', prev' := next[n := after][l := n], prev[after := n][n := l];
      ring'[i] in next' && ring'[i] in prev' && next'[ring'[i]] == ring'[Next(i, |ring'|)]
  {
    hide Linked;
    var ring' := Inserted(ring, k, n);
    LinkAt(ring, next, prev, k);
    assert ring[k] in ring && ring[Next(k, |ring|)] in ring;
    var j := if i <= k then i else i - 1;
    if i != k + 1 {
      LinkAt(ring, next, prev, j);
      Differ(ring, next, prev, j, k);
      assert ring'[i] == ring[j] && ring[j] in ring;
    }
    if i + 1 == |ring'| {
      assert ring'[0] == ring[0];
    } else {
      assert ring'[i + 1] == if i < k then ring[i + 1] else if i == k then n else ring[i];
    }
  }

  lemma BackwardLink<T>(ring: seq<T>, next: map<T, T>, prev: map<T, T>, k: nat, n: T, i: nat)
    requires Linked(ring, next, prev) && k < |ring| && n !in ring && i < |ring| + 1
    ensures
      var l, after, ring' := ring[k], ring[Next(k, |ring|)], Inserted(ring, k, n);
      var prev' := prev[after := n][n := l];
      ring'[Next(i, |ring'|)] in prev' && prev'[ring'[Next(i, |ring'|)]] == ring'[i]
  {
    hide Linked;
    var ring' := Inserted(ring, k, n);
    assert ring[Next(k, |ring|)] in ring;
    if i != k && i != k + 1 {
      var j := if i < k then i else i - 1;
      LinkAt(ring, next, prev, j);
      Differ(ring, next, prev, Next(j, |ring|), Next(k, |ring|));
      assert ring[Next(j, |ring|)] in ring;
      assert ring'[i] == ring[j];
    }
    if i + 1 == |ring'| {
      assert ring'[0] == ring[0];
    } else {
      assert ring'[i + 1] == if i < k then ring[i + 1] else if i == k then n else ring[i];
    }
  }

  /** The four assignments of rt_list_insert_after put `n` behind the node at `k`;
      those of rt_list_insert_before are the same seen from its successor. */
  lemma InsertLinked<T>(ring: seq<T>, next: map<T, T>, prev: map<T, T>, k: nat, n: T)
    requires Linked(ring, next, prev) && k < |ring| && n !in ring
    ensures
      var l, after := ring[k], ring[Next(k, |ring|)];
      Linked(Inserted(ring, k, n), next[n := after][l := n], prev[after := n][n := l])
  {
    var l, after := ring[k], ring[Next(k, |ring|)];
    var ring' := Inserted(ring, k, n);
    var next', prev' := next[n := after][l := n], prev[after := n][n := l];
    assert Distinct(ring') by { InsertedDistinct(ring, k, n); }
    forall i | 0 <= i < |ring'|
      ensures ring'[i] in next' && ring'[i] in prev'
      ensures next'[ring'[i]] == ring'[Next(i, |ring'|)]
    {
      ForwardLink(ring, next, prev, k, n, i);
    }
    forall i | 0 <= i < |ring'|
      ensures prev'[ring'[Next(i, |ring'|)]] == ring'[i]
    {
      BackwardLink(ring, next, prev, k, n, i);
    }
  }

  function Removed<T>(ring: seq<T>, k: nat): (r: seq<T>)
    requires k < |ring|
    ensures |r| == |ring| - 1
    ensures forall i :: 0 <= i < |r| ==> r[i] == if i < k then ring[i] else ring[i + 1]
  {
    ring[..k] + ring[k + 1..]
  }

  lemma SelfLinked<T>(n: T, next: map<T, T>, prev: map<T, T>)
    requires n in next && n in prev && next[n] == n && prev[n] == n
    ensures Linked([n], next, prev)
  {
  }

  lemma LinkedFrom<T>(ring: seq<T>, next: map<T, T>, prev: map<T, T>)
    requires |ring| >= 1 && Distinct(ring)
    requires forall i :: 0 <= i < |ring| ==> ring[i] in next && ring[i] in prev
    requires forall i :: 0 <= i < |ring| ==> next[ring[i]] == ring[Next(i, |ring|)]
    requires forall i :: 0 <= i < |ring| ==> prev[ring[Next(i, |ring|)]] == ring[i]
    ensures Linked(ring, next, prev)
  {
  }

  lemma BridgeLink<T>(ring: seq<T>, next: map<T, T>, prev: map<T, T>, k: nat, i: nat)
    requires Linked(ring, next, prev) && 1 <= k < |ring| && i < |ring| - 1
    ensures
      var n, before, after, ring' := ring[k], ring[k - 1], ring[Next(k, |ring|)], Removed(ring, k);
      var next', prev' := next[before := after][n := n], prev[after := before][n := n];
      && ring'[i] in next' && ring'[i] in prev' && ring'[Next(i, |ring'|)] in prev'
      && next'[ring'[i]] == ring'[Next(i, |ring'|)] && prev'[ring'[Next(i, |ring'|)]] == ring'[i]
  {
    hide Linked;
    var j := if i < k then i else i + 1;
    LinkAt(ring, next, prev, j);
    LinkAt(ring, next, prev, k);
    Differ(ring, next, prev, j, k);
    Differ(ring, next, prev, j, k - 1);
    Differ(ring, next, prev, Next(j, |ring|), k);
    Differ(ring, next, prev, Next(j, |ring|), Next(k, |ring|));
    Differ(ring, next, prev, Next(k, |ring|), k);
    var ring' := Removed(ring, k);
    assert ring'[i] == ring[j];
    if i + 1 == |ring'| {
      assert ring'[0] == ring[0];
    } else {
      assert ring'[i + 1] == if i + 1 < k then ring[i + 1] else ring[i + 2];
    }
  }

  /** The assignments of rt_list_remove take the node at `k` out, and leave it linked to itself. */
  lemma RemoveLinked<T>(ring: seq<T>, next: map<T, T>, prev: map<T, T>, k: nat)
    requires Linked(ring, next, prev) && 1 <= k < |ring|
    ensures
      var n, before, after := ring[k], ring[k - 1], ring[Next(k, |ring|)];
      var next', prev' := next[before := after][n := n], prev[after := before][n := n];
      Linked(Removed(ring, k), next', prev') && Linked([n], next', prev')
  {
    var ring' := Removed(ring, k);
    assert Distinct(ring');
    hide Linked, Distinct;
    var n, before, after := ring[k], ring[k - 1], ring[Next(k, |ring|)];
    var next', prev' := next[before := after][n := n], prev[after := before][n := n];
    forall i | 0 <= i < |ring'|
      ensures ring'[i] in next' && ring'[i] in prev' && ring'[Next(i, |ring'|)] in prev'
      ensures next'[ring'[i]] == ring'[Next(i, |ring'|)]
      ensures prev'[ring'[Next(i, |ring'|)]] == ring'[i]
    {
      BridgeLink(ring, next, prev, k, i);
    }
    SelfLinked(n, next', prev');
    LinkedFrom(ring', next', prev');
  }

  lemma Commute<T>(m: map<T, T>, a: T, x: T, b: T, y: T)
    requires a != b
    ensures m[a := x][b := y] == m[b := y][a := x]
  {
  }

  lemma RingInsert<T>(head: T, items: seq<T>, k: nat, n: T)
    requires k <= |items|
    ensures [head] + (items[..k] + [n] + items[k..]) == Inserted([head] + items, k, n)
  {
  }

  lemma RingRemove<T>(head: T, items: seq<T>, k: nat)
    requires k < |items|
    ensures [head] + (items[..k] + items[k + 1..]) == Removed([head] + items, k + 1)
  {
  }

  lemma Outside<T>(head: T, items: seq<T>, i: nat, n: T)
    requires n != head && n !in items && i <= |items|
    ensures n !in [head] + items && ([head] + items)[i] != n
  {
  }
}
