/**
 Segmented packet reassembly: app/wiota_manager/manager_data_packet.c on the
 intrusive list of rt-thread/include/rtservice.h.
 */
module Reassembly {
  import opened Bytes
  import opened RtList

  /** A segment of a packet; `Absent` is the null data pointer. */
  datatype Segment = Absent | Present(data: seq<byte>)

  /** The number of segments that have arrived. */
  function Filled(ss: seq<Segment>): (n: nat)
    ensures n <= |ss|
  {
    if ss == [] then 0 else Filled(ss[..|ss| - 1]) + (if ss[|ss| - 1].Present? then 1 else 0)
  }

  lemma {:induction false} FilledUpdate(ss: seq<Segment>, id: nat, data: seq<byte>)
    requires id < |ss|
    ensures Filled(ss[id := Present(data)]) == Filled(ss) + (if ss[id].Present? then 0 else 1)
    decreases |ss|
  {
    var last := |ss| - 1;
    var ss' := ss[id := Present(data)];
    if id == last {
      assert ss'[..last] == ss[..last];
    } else {
      FilledUpdate(ss[..last], id, data);
      assert ss'[..last] == ss[..last][id := Present(data)];
    }
  }

  predicate Complete(ss: seq<Segment>) {
    forall i :: 0 <= i < |ss| ==> ss[i].Present?
  }

  lemma {:induction false} FilledComplete(ss: seq<Segment>)
    ensures Filled(ss) == |ss| <==> Complete(ss)
    decreases |ss|
  {
    if ss != [] {
      FilledComplete(ss[..|ss| - 1]);
      assert Complete(ss) ==> Complete(ss[..|ss| - 1]);
      assert Complete(ss[..|ss| - 1]) && ss[|ss| - 1].Present? ==> Complete(ss) by {
        if Complete(ss[..|ss| - 1]) && ss[|ss| - 1].Present? {
          forall i | 0 <= i < |ss| ensures ss[i].Present? {
            assert i < |ss| - 1 ==> ss[i] == ss[..|ss| - 1][i];
          }
        }
      }
    }
  }

  function DataOf(s: Segment): (d: seq<byte>) {
    if s.Present? then s.data else []
  }

  /** All segments in order. */
  function Joined(ss: seq<Segment>): (d: seq<byte>) {
    if ss == [] then [] else Joined(ss[..|ss| - 1]) + DataOf(ss[|ss| - 1])
  }

  /* ----- any order of arrival ----- */

  /** A segment handed over by the receiver; the data pointer may be null. */
  datatype Arrival = Arrival(id: byte, data: Segment)

  predicate Accepted(a: Arrival, total: nat) {
    a.id < total && a.data.Present?
  }

  /** The segments of a packet after a sequence of arrivals. */
  function After(total: nat, arrivals: seq<Arrival>): (ss: seq<Segment>)
    ensures |ss| == total
    decreases |arrivals|
  {
    if arrivals == [] then seq(total, _ => Absent)
    else
      var ss, a := After(total, arrivals[..|arrivals| - 1]), arrivals[|arrivals| - 1];
      if Accepted(a, total) then ss[a.id := a.data] else ss
  }

  /** The data last handed over for an id. */
  function Latest(id: nat, arrivals: seq<Arrival>): (s: Segment)
    decreases |arrivals|
  {
    if arrivals == [] then Absent
    else
      var a := arrivals[|arrivals| - 1];
      if a.id == id && a.data.Present? then a.data else Latest(id, arrivals[..|arrivals| - 1])
  }

  /** Every slot holds the latest data of its id, so the packet is complete exactly
      when every id has arrived, in whatever order and how often. */
  lemma {:induction false} AfterIsLatest(total: nat, arrivals: seq<Arrival>)
    ensures forall id :: 0 <= id < total ==> After(total, arrivals)[id] == Latest(id, arrivals)
    decreases |arrivals|
  {
    if arrivals != [] {
      AfterIsLatest(total, arrivals[..|arrivals| - 1]);
    }
  }

  /** Data for the id was handed over at least once. */
  predicate Arrived(id: nat, arrivals: seq<Arrival>) {
    exists k :: 0 <= k < |arrivals| && arrivals[k].id == id && arrivals[k].data.Present?
  }

  lemma {:induction false} LatestPresent(id: nat, arrivals: seq<Arrival>)
    ensures Latest(id, arrivals).Present? <==> Arrived(id, arrivals)
    decreases |arrivals|
  {
    if arrivals != [] {
      var init := arrivals[..|arrivals| - 1];
      LatestPresent(id, init);
      assert forall k :: 0 <= k < |init| ==> init[k] == arrivals[k];
    }
  }

  /** The latest data is that of an arrival after which none of the id carries data. */
  lemma {:induction false} LatestIsLast(id: nat, arrivals: seq<Arrival>) returns (k: nat)
    requires Arrived(id, arrivals)
    ensures k < |arrivals| && arrivals[k].id == id && arrivals[k].data.Present?
    ensures Latest(id, arrivals) == arrivals[k].data
    ensures forall j :: k < j < |arrivals| ==> !(arrivals[j].id == id && arrivals[j].data.Present?)
    decreases |arrivals|
  {
    k := |arrivals| - 1;
    if !(arrivals[k].id == id && arrivals[k].data.Present?) {
      var init := arrivals[..k];
      assert forall j :: 0 <= j < |init| ==> init[j] == arrivals[j];
      k := LatestIsLast(id, init);
    }
  }

  /** After any arrivals the packet is complete exactly when every id below the total has arrived. */
  lemma CompleteWhenAllArrived(total: nat, arrivals: seq<Arrival>)
    ensures Complete(After(total, arrivals)) <==>
            forall id :: 0 <= id < total ==> Arrived(id, arrivals)
  {
    AfterIsLatest(total, arrivals);
    forall id | 0 <= id < total
      ensures After(total, arrivals)[id].Present? <==> Arrived(id, arrivals)
    {
      LatestPresent(id, arrivals);
    }
  }

  /* ----- the store ----- */

  /** The first loop of the reader. */
  method TotalLength(ss: seq<Segment>) returns (len: nat)
    requires Complete(ss)
    ensures len == |Joined(ss)|
  {
    len := 0;
    var i := 0;
    while i < |ss|
      invariant 0 <= i <= |ss|
      invariant len == |Joined(ss[..i])|
    {
      assert ss[..i + 1][..i] == ss[..i];
      len := len + |ss[i].data|;
      i := i + 1;
    }
    assert ss[..i] == ss;
  }

  lemma {:induction false} JoinedPrefix(ss: seq<Segment>, k: nat)
    requires k <= |ss|
    ensures |Joined(ss[..k])| <= |Joined(ss)|
    decreases |ss|
  {
    if k < |ss| {
      JoinedPrefix(ss[..|ss| - 1], k);
      assert ss[..|ss| - 1][..k] == ss[..k];
    } else {
      assert ss[..k] == ss;
    }
  }

  lemma JoinedStep(ss: seq<Segment>, i: nat)
    requires i < |ss| && ss[i].Present?
    ensures Joined(ss[..i + 1]) == Joined(ss[..i]) + ss[i].data
    ensures |Joined(ss[..i + 1])| <= |Joined(ss)|
  {
    assert ss[..i + 1][..i] == ss[..i];
    JoinedPrefix(ss, i + 1);
  }

  /** rt_memcpy of one segment. */
  method CopyPiece(piece: seq<byte>, buffer: array<byte>, offset: nat)
    requires offset + |piece| <= buffer.Length
    modifies buffer
    ensures buffer[..offset + |piece|] == old(buffer[..offset]) + piece
  {
    forall k | 0 <= k < |piece| { buffer[offset + k] := piece[k]; }
  }

  /** The second loop of the reader. */
  method CopySegments(ss: seq<Segment>, buffer: array<byte>)
    requires Complete(ss) && buffer.Length == |Joined(ss)|
    modifies buffer
    ensures buffer[..] == Joined(ss)
  {
    var offset, i := 0, 0;
    while i < |ss|
      invariant 0 <= i <= |ss| && 0 <= offset <= buffer.Length
      invariant buffer[..offset] == Joined(ss[..i])
    {
      JoinedStep(ss, i);
      CopyPiece(ss[i].data, buffer, offset);
      offset := offset + |ss[i].data|;
      i := i + 1;
    }
    assert ss[..i] == ss;
    assert buffer[..offset] == buffer[..];
  }

  lemma {:induction false} NoneFilled(total: nat)
    ensures Filled(seq(total, _ => Absent)) == 0
  {
    if total > 0 {
      NoneFilled(total - 1);
      var ss: seq<Segment> := seq(total, _ => Absent);
      assert ss[..total - 1] == seq(total - 1, _ => Absent);
    }
  }

  /** data_packet_t without its list node */
  class DataPacket {
    var sourceId: nat
    var packetId: nat
    var segTotal: byte
    var segCount: int
    var segment: seq<Segment>

    /** seg_count is the number of segments present. */
    predicate Valid()
      reads this
    {
      |segment| == segTotal && segCount == Filled(segment)
    }

    constructor (source: nat, packet: nat, total: byte)
      ensures sourceId == source && packetId == packet && segTotal == total
      ensures Valid() && segment == After(total, [])
    {
      sourceId, packetId, segTotal, segCount := source, packet, total, 0;
      segment := seq(total, _ => Absent);
      new;
      NoneFilled(total);
    }

    /** recv_data_packet_add_segment; the source insists on allocated segments. */
    method AddSegment(a: Arrival) returns (r: int)
      requires Valid() && segTotal > 0
      modifies this`segment, this`segCount
      ensures Valid()
      ensures r == if Accepted(a, segTotal) then 0 else 1
      ensures forall arrivals :: old(segment) == After(segTotal, arrivals) ==>
        segment == After(segTotal, arrivals + [a])
    {
      ghost var before := segment;
      if a.id >= segTotal || a.data.Absent? {
        r := 1;
      } else {
        FilledUpdate(segment, a.id, a.data.data);
        if segment[a.id].Absent? {
          segCount := segCount + 1;
        }
        segment := segment[a.id := a.data];
        r := 0;
      }
      forall arrivals | before == After(segTotal, arrivals) ensures segment == After(segTotal, arrivals + [a]) {
        assert (arrivals + [a])[..|arrivals|] == arrivals;
      }
    }

    /** recv_data_packet_reader: `data` is meaningful when `r` is 0. */
    method Reader() returns (r: int, data: seq<byte>)
      requires Valid() && segTotal > 0
      ensures r == if Complete(segment) then 0 else 1
      ensures r == 0 ==> data == Joined(segment)
    {
      FilledComplete(segment);
      data := [];
      if segCount != segTotal { return 1, data; }
      var len := TotalLength(segment);
      if len > 0 {
        var buffer := new byte[len](_ => 0);
        CopySegments(segment, buffer);
        data := buffer[..];
      }
      r := 0;
    }
  }

  /* ----- the list of packets ----- */

  type Address = nat

  /** The latest data of every id, in order. */
  function LatestOf(total: nat, arrivals: seq<Arrival>): (ss: seq<Segment>)
    ensures |ss| == total
  {
    seq(total, id requires 0 <= id < total => Latest(id, arrivals))
  }

  /** A packet from its first segment to the reader: it can be read exactly when every id
      has arrived, in whatever order and how often, and then as the latest data in order. */
  method Reassemble(source: nat, packet: nat, total: byte, arrivals: seq<Arrival>) returns (r: int, data: seq<byte>)
    requires total > 0
    ensures r == 0 || r == 1
    ensures r == 0 <==> forall id :: 0 <= id < total ==> Arrived(id, arrivals)
    ensures r == 0 ==> data == Joined(LatestOf(total, arrivals))
  {
    hide After, Joined, Complete, Filled;
    var p := new DataPacket(source, packet, total);
    var i := 0;
    while i < |arrivals|
      invariant 0 <= i <= |arrivals| && p.Valid() && p.segTotal == total && fresh(p)
      invariant p.segment == After(total, arrivals[..i])
    {
      assert arrivals[..i] + [arrivals[i]] == arrivals[..i + 1];
      var accepted := p.AddSegment(arrivals[i]);
      i := i + 1;
    }
    assert arrivals[..i] == arrivals;
    CompleteWhenAllArrived(total, arrivals);
    AfterIsLatest(total, arrivals);
    assert p.segment == LatestOf(total, arrivals);
    r, data := p.Reader();
  }

  /**
   recv_data_packet: a circular list through the nodes embedded in the packets.
   Nodes are addresses, and their next and prev fields are the two maps.
   */
  class PacketList {
    const head: Address
    var next: map<Address, Address>
    var prev: map<Address, Address>
    var packets: map<Address, DataPacket>
    ghost var items: seq<Address>

    /** The links run through the head and the packets in order. */
    ghost predicate Valid()
      reads this
    {
      && Linked([head] + items, next, prev)
      && forall p :: p in items ==> p in packets
    }

    /** recv_data_packet_init */
    constructor (h: Address)
      ensures head == h && items == [] && Valid()
    {
      head, items, packets := h, [], map[];
      next, prev := map[h := h], map[h := h];
    }

    /** rt_list_insert_after: `l` is the head for k = 0, else packet k - 1. */
    method InsertAfter(l: Address, n: Address, ghost k: nat)
      requires Linked([head] + items, next, prev)
      requires k <= |items| && l == ([head] + items)[k] && n != head && n !in items
      modifies this`next, this`prev, this`items
      ensures Linked([head] + items, next, prev) && items == old(items[..k] + [n] + items[k..])
    {
      hide Linked, Inserted;
      ghost var ring := [head] + items;
      Outside(head, items, k, n);
      LinkAt(ring, next, prev, k);
      InsertLinked(ring, next, prev, k, n);
      RingInsert(head, items, k, n);
      prev := prev[next[l] := n];
      next := next[n := next[l]];
      next := next[l := n];
      prev := prev[n := l];
      items := items[..k] + [n] + items[k..];
    }

    /** rt_list_insert_before: `l` follows position k of head and packets. */
    method InsertBefore(l: Address, n: Address, ghost k: nat)
      requires Linked([head] + items, next, prev)
      requires k <= |items| && l == ([head] + items)[Next(k, |items| + 1)] && n != head && n !in items
      modifies this`next, this`prev, this`items
      ensures Linked([head] + items, next, prev) && items == old(items[..k] + [n] + items[k..])
    {
      hide Linked, Inserted;
      ghost var ring := [head] + items;
      Outside(head, items, k, n);
      Outside(head, items, Next(k, |ring|), n);
      LinkAt(ring, next, prev, k);
      InsertLinked(ring, next, prev, k, n);
      RingInsert(head, items, k, n);
      Commute(next, ring[k], n, n, l);
      Commute(prev, n, ring[k], l, n);
      next := next[prev[l] := n];
      prev := prev[n := prev[l]];
      prev := prev[l := n];
      next := next[n := l];
      items := items[..k] + [n] + items[k..];
    }

    /** rt_list_remove */
    method Unlink(n: Address, ghost k: nat)
      requires Linked([head] + items, next, prev)
      requires k < |items| && n == items[k]
      modifies this`next, this`prev, this`items
      ensures Linked([head] + items, next, prev) && items == old(items[..k] + items[k + 1..])
      ensures Linked([n], next, prev)
    {
      hide Linked, Removed;
      ghost var ring := [head] + items;
      assert ring[k + 1] == n;
      LinkAt(ring, next, prev, k);
      LinkAt(ring, next, prev, k + 1);
      Differ(ring, next, prev, k + 1, Next(k + 1, |ring|));
      RemoveLinked(ring, next, prev, k + 1);
      RingRemove(head, items, k);
      prev := prev[next[n] := prev[n]];
      next := next[prev[n] := next[n]];
      next := next[n := n];
      prev := prev[n := n];
      items := items[..k] + items[k + 1..];
    }

    /** recv_data_packet_append; `p` is the address of the new packet. */
    method Append(p: Address, packet: DataPacket)
      requires Valid() && p != head && p !in items
      modifies this
      ensures Valid() && items == old(items) + [p]
      ensures packets == old(packets)[p := packet]
    {
      hide Linked;
      packets := packets[p := packet];
      LinkAt([head] + items, next, prev, |items|);
      InsertAfter(prev[head], p, |items|);
    }

    /** recv_data_packet_prepend */
    method Prepend(p: Address, packet: DataPacket)
      requires Valid() && p != head && p !in items
      modifies this
      ensures Valid() && items == [p] + old(items)
      ensures packets == old(packets)[p := packet]
    {
      hide Linked;
      packets := packets[p := packet];
      LinkAt([head] + items, next, prev, 0);
      InsertBefore(next[head], p, 0);
    }

    /** recv_data_packet_remove */
    method Remove(p: Address, ghost k: nat)
      requires Valid() && k < |items| && p == items[k]
      modifies this
      ensures Valid() && items == old(items[..k] + items[k + 1..])
      ensures packets == old(packets) - {p}
    {
      hide Linked;
      ghost var ring := [head] + items;
      ghost var rest := items[..k] + items[k + 1..];
      forall q | q in rest ensures q != p && q in packets {
        var j :| 0 <= j < |items| && j != k && items[j] == q;
        assert ring[j + 1] == q && ring[k + 1] == p;
        Differ(ring, next, prev, j + 1, k + 1);
      }
      Unlink(p, k);
      packets := packets - {p};
    }

    /** rt_list_len */
    method Len() returns (len: nat)
      requires Valid()
      ensures len == |items|
    {
      hide Linked;
      ghost var ring := [head] + items;
      len := 0;
      var p := head;
      LinkAt(ring, next, prev, 0);
      Differ(ring, next, prev, 0, Next(0, |ring|));
      while next[p] != head
        invariant len <= |items| && p == ring[len]
        invariant p in next && next[p] == ring[Next(len, |ring|)]
        invariant next[p] == head <==> len == |items|
        decreases |items| - len
      {
        p := next[p];
        len := len + 1;
        LinkAt(ring, next, prev, len);
        Differ(ring, next, prev, 0, Next(len, |ring|));
      }
    }

    /** recv_data_packet_find: the first packet of that source and number. */
    method Find(sourceId: nat, packetId: nat) returns (found: bool, p: Address, ghost k: nat)
      requires Valid()
      ensures found ==>
        k < |items| && p == items[k] && packets[p].sourceId == sourceId && packets[p].packetId == packetId
      ensures forall i :: 0 <= i < (if found then k else |items|) ==>
        !(packets[items[i]].sourceId == sourceId && packets[items[i]].packetId == packetId)
    {
      hide Linked;
      ghost var ring := [head] + items;
      found, k := false, 0;
      LinkAt(ring, next, prev, 0);
      Differ(ring, next, prev, 0, Next(0, |ring|));
      p := next[head];
      while p != head
        invariant k <= |items| && p == ring[Next(k, |ring|)]
        invariant p == head <==> k == |items|
        invariant forall i :: 0 <= i < k ==>
          !(packets[items[i]].sourceId == sourceId && packets[items[i]].packetId == packetId)
        decreases |items| - k
      {
        assert p == items[k];
        if packets[p].sourceId == sourceId && packets[p].packetId == packetId {
          found := true;
          return;
        }
        k := k + 1;
        LinkAt(ring, next, prev, k);
        Differ(ring, next, prev, 0, Next(k, |ring|));
        p := next[p];
      }
    }
  }
}
