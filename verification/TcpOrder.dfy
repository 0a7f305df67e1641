/**
 Putting the packets of a flow in transmission order: a stable sort by raw sequence number, after
 which everything in front of the recorded SYN is moved to the end.
 */
module TcpOrder {
  import opened Options

  const U32: nat := 0x1_0000_0000

  type SeqNo = x: nat | x < U32 witness 0

  datatype Proto = Tcp | Udp | Other

  /** A node of the packet list; `id` is its place in arrival order. */
  datatype Node = Node(id: nat, proto: Proto, seqNo: SeqNo, syn: bool)

  datatype Outcome = Ordered | NotTransport | MixedProtocols | ManyDatagrams

  predicate Arrival(s: seq<Node>) {
    forall i :: 0 <= i < |s| ==> s[i].id == i
  }

  /** The strict order that a stable sort by sequence number produces. */
  predicate Before(a: Node, b: Node) {
    a.seqNo < b.seqNo || (a.seqNo == b.seqNo && a.id < b.id)
  }

  predicate StablySorted(s: seq<Node>) {
    forall i, j :: 0 <= i < j < |s| ==> Before(s[i], s[j])
  }

  // ---------------------------------------------------------------------------------------------
  // Wraparound order
  // ---------------------------------------------------------------------------------------------

  /** `(seq - base) mod 2^32` */
  function Distance(seqNo: SeqNo, base: SeqNo): nat { (seqNo - base) % U32 }

  ghost predicate OrderedFrom(s: seq<Node>, base: SeqNo) {
    forall i, j :: 0 <= i < j < |s| ==> Distance(s[i].seqNo, base) <= Distance(s[j].seqNo, base)
  }

  lemma DistanceCases(seqNo: SeqNo, base: SeqNo)
    ensures Distance(seqNo, base) == if base <= seqNo then seqNo - base else seqNo + U32 - base
  {
  }

  lemma CompareDistances(a: SeqNo, b: SeqNo, base: SeqNo)
    ensures Distance(a, base) <= Distance(b, base) <==>
              (base <= a <= b) || (a <= b < base) || (b < base <= a)
  {
    DistanceCases(a, base);
    DistanceCases(b, base);
  }

  /** Nodes that share the sequence number of node `k` and come before it in the list. */
  ghost predicate NoTwinBefore(s: seq<Node>, k: nat)
    requires k < |s|
  {
    forall i :: 0 <= i < k ==> s[i].seqNo != s[k].seqNo
  }

  ghost predicate AllEqual(s: seq<Node>, seqNo: SeqNo) {
    forall i :: 0 <= i < |s| ==> s[i].seqNo == seqNo
  }

  /** The rotated list is in wraparound order exactly when the SYN has no twin in front, or all are twins. */
  lemma RotationOrder(s: seq<Node>, k: nat)
    requires StablySorted(s) && k < |s|
    ensures OrderedFrom(s[k..] + s[..k], s[k].seqNo) <==> NoTwinBefore(s, k) || AllEqual(s, s[k].seqNo)
  {
    if NoTwinBefore(s, k) {
      NoTwinIsOrdered(s, k);
    } else if AllEqual(s, s[k].seqNo) {
      TwinsAreOrdered(s, k);
    } else {
      TwinBreaksOrder(s, k);
    }
  }

  lemma NoTwinIsOrdered(s: seq<Node>, k: nat)
    requires StablySorted(s) && k < |s| && NoTwinBefore(s, k)
    ensures OrderedFrom(s[k..] + s[..k], s[k].seqNo)
  {
    var t, base := s[k..] + s[..k], s[k].seqNo;
    forall i, j | 0 <= i < j < |t| ensures Distance(t[i].seqNo, base) <= Distance(t[j].seqNo, base) {
      CompareDistances(t[i].seqNo, t[j].seqNo, base);
      assert t[i] == if i < |s| - k then s[k + i] else s[i - (|s| - k)];
      assert t[j] == if j < |s| - k then s[k + j] else s[j - (|s| - k)];
    }
  }

  lemma TwinsAreOrdered(s: seq<Node>, k: nat)
    requires k < |s| && AllEqual(s, s[k].seqNo)
    ensures OrderedFrom(s[k..] + s[..k], s[k].seqNo)
  {
  }

  lemma TwinBreaksOrder(s: seq<Node>, k: nat)
    requires StablySorted(s) && k < |s| && !NoTwinBefore(s, k) && !AllEqual(s, s[k].seqNo)
    ensures !OrderedFrom(s[k..] + s[..k], s[k].seqNo)
  {
    var t, base := s[k..] + s[..k], s[k].seqNo;
    var twin :| 0 <= twin < k && s[twin].seqNo == base;
    var other :| 0 <= other < |s| && s[other].seqNo != base;
    var to, tt := if k <= other then other - k else |s| - k + other, |s| - k + twin;
    assert t[to] == s[other] && t[tt] == s[twin];
    assert to < tt;
    DistanceCases(s[other].seqNo, base);
    DistanceCases(base, base);
  }

  /** Without a rotation, order relative to an element holds exactly when nothing is numerically below it. */
  lemma UnrotatedOrder(s: seq<Node>, k: nat)
    requires StablySorted(s) && k < |s|
    ensures OrderedFrom(s, s[k].seqNo) <==> forall i :: 0 <= i < |s| ==> s[k].seqNo <= s[i].seqNo
  {
    var base := s[k].seqNo;
    if forall i :: 0 <= i < |s| ==> base <= s[i].seqNo {
      forall i, j | 0 <= i < j < |s| ensures Distance(s[i].seqNo, base) <= Distance(s[j].seqNo, base) {
        CompareDistances(s[i].seqNo, s[j].seqNo, base);
      }
    } else {
      var low :| 0 <= low < |s| && s[low].seqNo < base;
      CompareDistances(s[low].seqNo, base, base);
      assert low < k;
    }
  }

  // ---------------------------------------------------------------------------------------------
  // The list of a flow
  // ---------------------------------------------------------------------------------------------

  /** The node the scan remembers: the last SYN that is not carried by the first packet. */
  ghost function RecordedSyn(s: seq<Node>): (r: Option<nat>)
    ensures r.Some? ==> 0 < r.value < |s| && s[r.value].syn
    ensures forall i :: 0 < i < |s| && s[i].syn ==> r.Some? && i <= r.value
  {
    if |s| <= 1 then None
    else if s[|s| - 1].syn then Some(|s| - 1)
    else
      assert s[..|s| - 1] + [s[|s| - 1]] == s;
      RecordedSyn(s[..|s| - 1])
  }

  predicate AllTcp(s: seq<Node>) { forall i :: 0 <= i < |s| ==> s[i].proto == Tcp }

  /** Lists with a payload: TCP segments, or one UDP datagram. */
  predicate Transportable(s: seq<Node>) { AllTcp(s) || (|s| == 1 && s[0].proto == Udp) }

  /** The scan stops at the first node that makes the list untransportable, with the reason of that node. */
  predicate StopsAt(s: seq<Node>, i: nat, outcome: Outcome) {
    && i < |s| && Transportable(s[..i]) && !Transportable(s[..i + 1])
    && outcome == if s[i].proto == Other then NotTransport
                  else if s[i].proto != s[0].proto then MixedProtocols
                  else ManyDatagrams
  }

  class FlowPackets {
    var packets: seq<Node>
    var listSorted: bool

    constructor (packets: seq<Node>)
      requires Arrival(packets)
      ensures this.packets == packets && !listSorted
    {
      this.packets, listSorted := packets, false;
    }

    /** The scan: the SYN to rotate to, or why there is no payload. */
    method Scan() returns (outcome: Outcome, syn: Option<nat>)
      ensures outcome == Ordered <==> Transportable(packets)
      ensures outcome != Ordered ==> exists i :: StopsAt(packets, i, outcome)
      ensures outcome == MixedProtocols ==>
                exists i :: 0 < i < |packets| && {packets[0].proto, packets[i].proto} == {Tcp, Udp}
      ensures outcome == ManyDatagrams ==> 2 <= |packets| && packets[0].proto == packets[1].proto == Udp
      ensures outcome == Ordered && AllTcp(packets) ==> syn == RecordedSyn(packets)
      ensures outcome == Ordered && !AllTcp(packets) ==> syn == None
    {
      syn := None;
      for i := 0 to |packets|
        invariant Transportable(packets[..i])
        invariant syn == if i == 0 || AllTcp(packets[..i]) then RecordedSyn(packets[..i]) else None
      {
        var p := packets[i];
        assert packets[..i + 1][..i] == packets[..i];
        assert packets[..i + 1][i] == p;
        if p.proto == Other {
          assert StopsAt(packets, i, NotTransport);
          return NotTransport, None;
        }
        if i > 0 {
          if p.proto != packets[0].proto {
            assert StopsAt(packets, i, MixedProtocols);
            return MixedProtocols, None;
          }
          if p.proto == Udp {
            assert StopsAt(packets, i, ManyDatagrams);
            return ManyDatagrams, None;
          }
          if p.syn {
            syn := Some(i);
          }
        }
      }
      assert packets[..|packets|] == packets;
      return Ordered, syn;
    }

    /** `std::list::sort` with the sequence-number comparison. */
    method Sort()
      requires Arrival(packets)
      modifies this`packets
      ensures StablySorted(packets) && multiset(packets) == multiset(old(packets))
    {
      var list, sorted := packets, [];
      for n := 0 to |list|
        invariant StablySorted(sorted) && multiset(sorted) == multiset(list[..n])
        invariant forall i :: 0 <= i < |sorted| ==> sorted[i].id < n
      {
        assert list[..n + 1] == list[..n] + [list[n]];
        sorted := Insert(sorted, list[n]);
      }
      assert list[..|list|] == list;
      packets := sorted;
    }

    /** The iterator recorded by the scan still refers to its node; this is its place in the list. */
    method Place(id: nat) returns (k: nat)
      requires exists i :: 0 <= i < |packets| && packets[i].id == id
      ensures k < |packets| && packets[k].id == id
    {
      k := 0;
      while packets[k].id != id
        invariant k < |packets| && exists i :: k <= i < |packets| && packets[i].id == id
        decreases |packets| - k
      {
        k := k + 1;
      }
    }

    /** Brings the list in transmission order, once; on an error, and when it is empty, it stays as it is. */
    method Arrange() returns (outcome: Outcome)
      requires !listSorted ==> Arrival(packets)
      modifies this
      ensures multiset(packets) == multiset(old(packets))
      ensures listSorted <==> old(listSorted) || (outcome == Ordered && packets != [])
      ensures outcome == Ordered <==> old(listSorted) || Transportable(old(packets))
      ensures outcome != Ordered ==> exists i :: StopsAt(old(packets), i, outcome)
      ensures old(listSorted) || outcome != Ordered ==> packets == old(packets)
      ensures !old(listSorted) && outcome == Ordered ==> Arranged(old(packets), packets)
    {
      if packets == [] || listSorted {
        return Ordered;
      }
      var syn;
      outcome, syn := Scan();
      if outcome != Ordered {
        return;
      }
      if packets[0].proto == Tcp {
        ghost var list := packets;
        Sort();
        if syn.Some? {
          SameNodes(list, packets);
          assert list[syn.value] in packets;
          var k := Place(syn.value);
          assert packets[k] in list;
          RotationArranges(list, packets, syn.value, k);
          packets := packets[k..] + packets[..k];
        }
      }
      listSorted := true;
    }
  }

  lemma SameNodes(a: seq<Node>, b: seq<Node>)
    requires multiset(a) == multiset(b)
    ensures forall x :: x in a <==> x in b
  {
    forall x ensures x in a <==> x in b {
      assert x in a <==> x in multiset(a);
      assert x in b <==> x in multiset(b);
    }
  }

  /**
   What arranging gives for the packets of one flow. With a recorded SYN: the SYN comes first, behind it
   follow the nodes behind it in the sorted list and then those in front of it, and the list is in
   wraparound order relative to it exactly when no packet with its sequence number arrived
   before it (or all packets carry that number). Without one: the list is stably sorted by raw number.
   */
  ghost predicate Arranged(list: seq<Node>, r: seq<Node>) {
    && multiset(r) == multiset(list)
    && (AllTcp(list) ==>
         match RecordedSyn(list)
         case None => StablySorted(r)
         case Some(m) =>
           && r != [] && r[0] == list[m] && (exists k: nat :: MovedToEnd(list, r, k))
           && (OrderedFrom(r, list[m].seqNo) <==> NoTwinBefore(list, m) || AllEqual(list, list[m].seqNo)))
  }

  /** `r` is `list`, stably sorted, with the first `k` nodes moved to the end. */
  ghost predicate MovedToEnd(list: seq<Node>, r: seq<Node>, k: nat) {
    && k <= |r|
    && var s := r[|r| - k..] + r[..|r| - k];
       StablySorted(s) && multiset(s) == multiset(list)
  }

  lemma RotationArranges(list: seq<Node>, s: seq<Node>, m: nat, k: nat)
    requires Arrival(list) && StablySorted(s) && multiset(s) == multiset(list)
    requires m < |list| && k < |s| && s[k].id == m
    ensures var r := s[k..] + s[..k];
            && multiset(r) == multiset(list) && r != [] && r[0] == list[m] && (exists k: nat :: MovedToEnd(list, r, k))
            && (OrderedFrom(r, list[m].seqNo) <==> NoTwinBefore(list, m) || AllEqual(list, list[m].seqNo))
  {
    SameNodes(list, s);
    assert s[k] in list;
    assert s == s[..k] + s[k..];
    var r := s[k..] + s[..k];
    assert r[|r| - k..] + r[..|r| - k] == s;
    assert MovedToEnd(list, r, k);
    RotationOrder(s, k);
    TwinsBeforeAndAfterSort(list, s, m, k);
  }

  lemma TwinsBeforeAndAfterSort(list: seq<Node>, s: seq<Node>, m: nat, k: nat)
    requires Arrival(list) && StablySorted(s) && forall x :: x in list <==> x in s
    requires m < |list| && k < |s| && s[k] == list[m]
    ensures NoTwinBefore(s, k) <==> NoTwinBefore(list, m)
    ensures AllEqual(s, s[k].seqNo) <==> AllEqual(list, s[k].seqNo)
  {
    if i :| 0 <= i < k && s[i].seqNo == s[k].seqNo {
      assert s[i] in list && Before(s[i], s[k]);
    }
    if i :| 0 <= i < m && list[i].seqNo == list[m].seqNo {
      assert list[i] in s;
      var j :| 0 <= j < |s| && s[j] == list[i];
      assert !(k < j);
    }
    if i :| 0 <= i < |s| && s[i].seqNo != s[k].seqNo {
      assert s[i] in list;
    }
    if i :| 0 <= i < |list| && list[i].seqNo != s[k].seqNo {
      assert list[i] in s;
    }
  }

  /** The place of the first node with a larger number, found from the back. */
  method Insert(s: seq<Node>, x: Node) returns (r: seq<Node>)
    requires StablySorted(s) && forall i :: 0 <= i < |s| ==> s[i].id < x.id
    ensures StablySorted(r) && multiset(r) == multiset(s) + multiset{x}
    ensures forall i :: 0 <= i < |r| ==> r[i].id <= x.id
  {
    var j := |s|;
    while 0 < j && x.seqNo < s[j - 1].seqNo
      invariant 0 <= j <= |s| && forall i :: j <= i < |s| ==> x.seqNo < s[i].seqNo
    {
      j := j - 1;
    }
    InsertSorted(s, x, j);
    InsertNodes(s, x, j);
    r := s[..j] + [x] + s[j..];
  }

  lemma InsertSorted(s: seq<Node>, x: Node, j: nat)
    requires StablySorted(s) && j <= |s| && forall i :: 0 <= i < |s| ==> s[i].id < x.id
    requires (0 < j ==> s[j - 1].seqNo <= x.seqNo) && forall i :: j <= i < |s| ==> x.seqNo < s[i].seqNo
    ensures StablySorted(s[..j] + [x] + s[j..])
  {
    var front, back := s[..j], s[j..];
    forall i | 0 <= i < |front| ensures Before(front[i], x) {
      assert i < j - 1 ==> Before(s[i], s[j - 1]);
    }
    forall i | 0 <= i < |back| ensures Before(x, back[i]) {
      assert back[i] == s[j + i];
    }
    SandwichSorted(front, x, back);
  }

  lemma InsertNodes(s: seq<Node>, x: Node, j: nat)
    requires j <= |s|
    ensures var r := s[..j] + [x] + s[j..];
            && multiset(r) == multiset(s) + multiset{x}
            && forall i :: 0 <= i < |r| ==> r[i] == x || r[i] in s
  {
    assert s == s[..j] + s[j..];
  }

  lemma SandwichSorted(front: seq<Node>, x: Node, back: seq<Node>)
    requires StablySorted(front) && StablySorted(back)
    requires forall i :: 0 <= i < |front| ==> Before(front[i], x)
    requires forall i :: 0 <= i < |back| ==> Before(x, back[i])
    ensures StablySorted(front + [x] + back)
  {
    var r := front + [x] + back;
    forall i, j | 0 <= i < j < |r| ensures Before(r[i], r[j]) {
      var f := |front|;
      if j < f {
        assert r[i] == front[i] && r[j] == front[j];
      } else if i < f {
        assert r[i] == front[i] && r[j] == if j == f then x else back[j - f - 1];
      } else {
        assert r[i] == (if i == f then x else back[i - f - 1]) && r[j] == back[j - f - 1];
      }
    }
  }

  // ---------------------------------------------------------------------------------------------
  // A SYN carried by the first packet
  // ---------------------------------------------------------------------------------------------

  /**
   A SYN on the first packet is never recorded. Without a later one, the list is in wraparound order
   relative to it exactly when no packet has a numerically smaller sequence number.
   */
  lemma FirstSynOrder(list: seq<Node>, r: seq<Node>)
    requires list != [] && Arrival(list) && AllTcp(list) && RecordedSyn(list) == None && Arranged(list, r)
    ensures OrderedFrom(r, list[0].seqNo) <==> forall i :: 0 <= i < |list| ==> list[0].seqNo <= list[i].seqNo
  {
    SameNodes(list, r);
    assert list[0] in r;
    var k :| 0 <= k < |r| && r[k] == list[0];
    UnrotatedOrder(r, k);
    assert forall i :: 0 <= i < |list| ==> list[i] in r;
    assert forall i :: 0 <= i < |r| ==> r[i] in list;
  }

  /** A handshake that wraps around right after its SYN is put in the wrong order. */
  lemma WrappedHandshakeIsMisordered(r: seq<Node>)
    requires Arranged([Node(0, Tcp, 0xFFFF_FFFF, true), Node(1, Tcp, 0, false)], r)
    ensures !OrderedFrom(r, 0xFFFF_FFFF)
  {
    var list := [Node(0, Tcp, 0xFFFF_FFFF, true), Node(1, Tcp, 0, false)];
    FirstSynOrder(list, r);
    assert list[1].seqNo < list[0].seqNo;
  }
}
