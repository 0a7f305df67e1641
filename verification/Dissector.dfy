/**
 The alternative header lookup: a tuple of memoised header addresses, filled by a search over the
 possible parents of a header. It reads memory without checking how much was captured.
 */
module Dissector {
  import opened Options
  import opened WireFormat
  import opened PacketFormat

  datatype Header = Eth | Ip4 | TcpHdr | UdpHdr | IcmpHdr | Data

  /** Address of a slot that was not looked up yet; 0 is the null pointer. */
  const UNDEFINED: nat := 0xdeadbeef

  const VLAN_SIZE: nat := 18
  const ICMP: nat := 1
  const ICMP_SIZE: nat := 8

  /** Memory from the start of the frame on. */
  type Memory = nat -> byte

  /** `header_traits<H>::parents_type`, in search order */
  function Parents(h: Header): seq<Header> {
    match h
    case Eth => []
    case Ip4 => [Eth]
    case TcpHdr | UdpHdr | IcmpHdr => [Ip4]
    case Data => [UdpHdr, TcpHdr, IcmpHdr, Ip4, Eth]
  }

  /** `header_traits<H>::proto`; 0 accepts every parent. */
  function ProtoOf(h: Header): nat {
    match h
    case Ip4 => TYPE_IP4
    case TcpHdr => TCP
    case UdpHdr => UDP
    case IcmpHdr => ICMP
    case _ => 0
  }

  function Depth(h: Header): nat {
    match h
    case Eth => 0
    case Ip4 => 1
    case Data => 3
    case _ => 2
  }

  /** `p->proto()` of the header `h` at offset `o` */
  function NextProto(mem: Memory, h: Header, o: nat): nat {
    match h
    case Eth => U16(mem(o + 12), mem(o + 13))
    case Ip4 => mem(o + 9)
    case _ => 0
  }

  /** `p->size_of()` of the header `h` at offset `o` */
  function SizeOf(mem: Memory, h: Header, o: nat): nat {
    match h
    case Eth => if NextProto(mem, Eth, o) == TYPE_1Q then VLAN_SIZE else ETH_SIZE
    case Ip4 => mem(o) % 16 * 4
    case TcpHdr => mem(o + 12) / 16 * 4
    case UdpHdr => UDP_SIZE
    case IcmpHdr => ICMP_SIZE
    case Data => 0
  }

  // ---------------------------------------------------------------------------------------------
  // Where the headers are, without search or memo
  // ---------------------------------------------------------------------------------------------

  function IpOffset(mem: Memory): Option<nat> {
    if NextProto(mem, Eth, 0) == TYPE_IP4 then Some(ETH_SIZE) else None
  }

  function L4Offset(mem: Memory, proto: nat): Option<nat> {
    if IpOffset(mem).Some? && mem(ETH_SIZE + 9) == proto then Some(ETH_SIZE + mem(ETH_SIZE) % 16 * 4) else None
  }

  function DataOffset(mem: Memory): nat {
    if L4Offset(mem, UDP).Some? then L4Offset(mem, UDP).value + UDP_SIZE
    else if L4Offset(mem, TCP).Some? then
      L4Offset(mem, TCP).value + mem(L4Offset(mem, TCP).value + 12) / 16 * 4
    else if L4Offset(mem, ICMP).Some? then L4Offset(mem, ICMP).value + ICMP_SIZE
    else if IpOffset(mem).Some? then ETH_SIZE + mem(ETH_SIZE) % 16 * 4
    else SizeOf(mem, Eth, 0)
  }

  function Offset(mem: Memory, h: Header): Option<nat> {
    match h
    case Eth => Some(0)
    case Ip4 => IpOffset(mem)
    case TcpHdr => L4Offset(mem, TCP)
    case UdpHdr => L4Offset(mem, UDP)
    case IcmpHdr => L4Offset(mem, ICMP)
    case Data => Some(DataOffset(mem))
  }

  function Address(base: nat, o: Option<nat>): nat { if o.Some? then base + o.value else 0 }

  /** The first parent at index `n` or later that exists and announces `proto` (or any, if 0). */
  function FindParent(mem: Memory, parents: seq<Header>, n: nat, proto: nat): Option<nat>
    requires n <= |parents|
    decreases |parents| - n
  {
    if n == |parents| then None
    else
      var o := Offset(mem, parents[n]);
      if o.Some? && (proto == 0 || proto == NextProto(mem, parents[n], o.value))
      then Some(o.value + SizeOf(mem, parents[n], o.value))
      else FindParent(mem, parents, n + 1, proto)
  }

  /** The header behind the parent that the search finds is where the header is. */
  lemma SearchFindsHeader(mem: Memory, h: Header)
    requires h != Eth
    ensures FindParent(mem, Parents(h), 0, ProtoOf(h)) == Offset(mem, h)
  {
    if h == Data {
      assert FindParent(mem, Parents(Data), 4, 0) == Some(SizeOf(mem, Eth, 0));
      assert FindParent(mem, Parents(Data), 3, 0)
          == if IpOffset(mem).Some? then Some(ETH_SIZE + mem(ETH_SIZE) % 16 * 4) else Some(SizeOf(mem, Eth, 0));
      assert FindParent(mem, Parents(Data), 2, 0)
          == if L4Offset(mem, ICMP).Some? then Some(L4Offset(mem, ICMP).value + ICMP_SIZE)
             else FindParent(mem, Parents(Data), 3, 0);
    }
  }

  class Slice {
    const mem: Memory
    const base: nat
    var slots: map<Header, nat>

    /** The Ethernet slot points to the frame; every other slot is not looked up yet or holds its header. */
    ghost predicate Valid()
      reads this
    {
      && 0 < base && base != UNDEFINED
      && (forall h: Header :: h in slots)
      && slots[Eth] == base
      && forall h: Header :: slots[h] == UNDEFINED || slots[h] == Address(base, Offset(mem, h))
    }

    constructor (mem: Memory, base: nat)
      requires 0 < base && base != UNDEFINED
      ensures Valid() && this.mem == mem && this.base == base
    {
      this.mem, this.base := mem, base;
      slots := map[Eth := base, Ip4 := UNDEFINED, TcpHdr := UNDEFINED, UdpHdr := UNDEFINED, IcmpHdr := UNDEFINED,
                   Data := UNDEFINED];
      new;
      forall h: Header ensures h in slots && (h == Eth || slots[h] == UNDEFINED) {
        assert h.Eth? || h.Ip4? || h.TcpHdr? || h.UdpHdr? || h.IcmpHdr? || h.Data?;
      }
    }

    /** Whatever was looked up before, the answer is the address of the header, or null without one. */
    method GetHeader(h: Header) returns (p: nat)
      requires Valid()
      modifies this
      ensures Valid() && p == Address(base, Offset(mem, h))
      ensures p != UNDEFINED ==> slots[h] == p
      decreases Depth(h), 1, 0
    {
      if slots[h] != UNDEFINED {
        return slots[h];
      }
      var parent, size := GetParent(h, 0);
      SearchFindsHeader(mem, h);
      slots := slots[h := if parent == 0 then 0 else parent + size];
      return slots[h];
    }

    /** The search over the parents from index `n` on; the parent's address and size. */
    method GetParent(h: Header, n: nat) returns (p: nat, size: nat)
      requires Valid() && h != Eth && n <= |Parents(h)|
      modifies this
      ensures Valid()
      ensures p == 0 <==> FindParent(mem, Parents(h), n, ProtoOf(h)).None?
      ensures p != 0 ==> p + size == base + FindParent(mem, Parents(h), n, ProtoOf(h)).value
      decreases Depth(h), 0, |Parents(h)| - n
    {
      if n == |Parents(h)| {
        return 0, 0;
      }
      var parent := Parents(h)[n];
      p := GetHeader(parent);
      if p != 0 && (ProtoOf(h) == 0 || ProtoOf(h) == NextProto(mem, parent, p - base)) {
        return p, SizeOf(mem, parent, p - base);
      }
      p, size := GetParent(h, n + 1);
    }
  }

  /** Where the headers of a frame are, read off its bytes. */
  lemma OffsetsOnBytes(mem: Memory)
    ensures mem(12) == 0x08 && mem(13) == 0x00 ==>
              var l4 := 14 + mem(14) as int % 16 * 4;
              && Offset(mem, Ip4) == Some(14)
              && (mem(23) == 1 ==> Offset(mem, IcmpHdr) == Some(l4) && Offset(mem, Data) == Some(l4 + 8))
              && (mem(23) == 17 ==> Offset(mem, UdpHdr) == Some(l4) && Offset(mem, Data) == Some(l4 + 8))
              && (mem(23) == 6 ==> Offset(mem, TcpHdr) == Some(l4)
                                   && Offset(mem, Data) == Some(l4 + mem(l4 + 12) as int / 16 * 4))
              && (mem(23) != 1 && mem(23) != 6 && mem(23) != 17 ==> Offset(mem, Data) == Some(l4))
    ensures !(mem(12) == 0x08 && mem(13) == 0x00) ==>
              && Offset(mem, Ip4) == None
              && Offset(mem, TcpHdr) == None && Offset(mem, UdpHdr) == None && Offset(mem, IcmpHdr) == None
              && Offset(mem, Data) == Some(if mem(12) == 0x81 && mem(13) == 0x00 then 18 else 14)
  {
  }

  /** The sentinel lies 14 to 134 bytes above the frame, a whole number of words behind the Ethernet header. */
  predicate SentinelInReach(base: nat) {
    ETH_SIZE <= UNDEFINED - base <= 134 && (UNDEFINED - base - ETH_SIZE) % 4 == 0
  }

  lemma OffsetsAreAligned(mem: Memory, h: Header)
    ensures Offset(mem, h).Some? && h != Eth ==>
              var o := Offset(mem, h).value; ETH_SIZE <= o <= 134 && (o - ETH_SIZE) % 4 == 0
  {
  }

  lemma NeverUndefined(mem: Memory, base: nat, h: Header)
    requires 0 < base && base != UNDEFINED && !SentinelInReach(base)
    ensures Address(base, Offset(mem, h)) != UNDEFINED
  {
    OffsetsAreAligned(mem, h);
  }

  /** An Ethernet frame with IPv4 and TCP headers of `ihl` and `doff` words. */
  function TcpFrame(ihl: nat, doff: nat): Memory
    requires ihl < 16 && doff < 16
  {
    (i: nat) => if i == 12 then 8
                else if i == ETH_SIZE then ihl
                else if i == ETH_SIZE + 9 then TCP
                else if i == ETH_SIZE + ihl * 4 + 12 then doff * 16
                else 0
  }

  /** A frame whose payload starts at the sentinel's address. */
  lemma UndefinedIsReached(base: nat) returns (mem: Memory)
    requires SentinelInReach(base)
    ensures Address(base, Offset(mem, Data)) == UNDEFINED
  {
    var words := (UNDEFINED - base - ETH_SIZE) / 4;
    var ihl := if words < 16 then words else 15;
    mem := TcpFrame(ihl, words - ihl);
    assert L4Offset(mem, TCP) == Some(ETH_SIZE + ihl * 4);
    assert mem(ETH_SIZE + ihl * 4 + 12) == (words - ihl) * 16;
    DataBehind(mem, TCP, ETH_SIZE + ihl * 4);
  }

  /** A lookup can return the sentinel exactly for those frame addresses. */
  lemma UndefinedExactlyWhen(base: nat)
    requires 0 < base && base != UNDEFINED
    ensures (exists mem: Memory, h: Header :: Address(base, Offset(mem, h)) == UNDEFINED) <==> SentinelInReach(base)
  {
    if SentinelInReach(base) {
      var mem := UndefinedIsReached(base);
      assert Address(base, Offset(mem, Data)) == UNDEFINED;
    } else {
      forall mem: Memory, h: Header ensures Address(base, Offset(mem, h)) != UNDEFINED {
        NeverUndefined(mem, base, h);
      }
    }
  }

  // ---------------------------------------------------------------------------------------------
  // Comparison with the packet class
  // ---------------------------------------------------------------------------------------------

  ghost predicate Captured(f: Frame, mem: Memory) {
    f.mac == ETHERNET && ETH_SIZE <= |f.bytes| && forall i :: 0 <= i < |f.bytes| ==> mem(i) == f.bytes[i]
  }

  /** `k` tags follow each other, a full Ethernet header's worth of bytes being left at each of them. */
  ghost predicate Tags(b: seq<byte>, k: nat) {
    && 4 * k + ETH_SIZE <= |b|
    && forall i :: 0 <= i < k ==> TagAt(b, i)
  }

  predicate TagAt(b: seq<byte>, i: nat) {
    2 * ETH_SIZE + 4 * i <= |b| && U16At(b, 12 + 4 * i) == TYPE_1Q
  }

  /** The type behind `k` tags is IPv4. */
  ghost predicate TaggedIp(b: seq<byte>, k: nat) {
    0 < k && Tags(b, k) && U16At(b, 12 + 4 * k) == TYPE_IP4
  }

  /** The loop over tags finds an IPv4 header exactly behind a chain of tags that ends in IPv4. */
  lemma {:induction false} SkipFindsIp(b: seq<byte>, n: nat) returns (k: nat)
    requires Tags(b, n)
    ensures var l := SkipTags(b, ETH_SIZE + 4 * n, U16At(b, 12 + 4 * n));
            if l.ip.Some? then n <= k && Tags(b, k) && U16At(b, 12 + 4 * k) == TYPE_IP4 && l.ip == Some(ETH_SIZE + 4 * k)
            else forall j :: n <= j && Tags(b, j) ==> U16At(b, 12 + 4 * j) != TYPE_IP4
    decreases |b| - 4 * n
  {
    k := n;
    if TagAt(b, n) {
      k := SkipFindsIp(b, n + 1);
    } else {
      assert forall j :: n < j && Tags(b, j) ==> TagAt(b, n);
    }
  }

  /**
   On Ethernet frames the two find the same IPv4 header unless the frame is tagged and its tags lead to
   one, which the packet class finds and the dissector does not.
   */
  lemma SameIpHeaderExactlyWhen(f: Frame, mem: Memory)
    requires Captured(f, mem)
    ensures Offset(mem, Ip4) == Parse(f).link.ip <==> !exists k :: TaggedIp(f.bytes, k)
    ensures forall k :: TaggedIp(f.bytes, k) ==> Offset(mem, Ip4) == None && Parse(f).link.ip.Some?
  {
    var b := f.bytes;
    assert NextProto(mem, Eth, 0) == U16At(b, 12) && Parse(f).link == SkipTags(b, ETH_SIZE, U16At(b, 12));
    var k := SkipFindsIp(b, 0);
    forall j | TaggedIp(b, j) ensures U16At(b, 12) == TYPE_1Q {
      assert TagAt(b, 0);
    }
    if U16At(b, 12) == TYPE_1Q && Parse(f).link.ip.Some? {
      assert TaggedIp(b, k);
    }
  }

  /** A tagged frame of 28 bytes. */
  lemma TaggedFrameDiffers(g: Garbage) returns (f: Frame, mem: Memory)
    ensures Captured(f, mem) && |f.bytes| == 28 && TaggedIp(f.bytes, 1)
    ensures Parse(f).link.ip == Some(18) && Offset(mem, Ip4) == None
  {
    mem := (i: nat) => if i == 12 then 0x81 else if i == 16 then 8 else 0;
    f := Frame(seq(28, i requires 0 <= i < 28 => mem(i)), ETHERNET, g);
    var b := f.bytes;
    assert U16At(b, 12) == TYPE_1Q && U16At(b, 16) == TYPE_IP4;
    assert SkipTags(b, 18, U16At(b, 16)) == LinkAt(TYPE_IP4, 18);
    assert TagAt(b, 0);
  }

  lemma UntaggedLink(f: Frame, mem: Memory)
    requires Captured(f, mem) && NextProto(mem, Eth, 0) == TYPE_IP4
    ensures Parse(f).link == Link(TYPE_IP4, Some(ETH_SIZE))
  {
  }

  /** On untagged frames with a captured IPv4 header the two agree on the transport header. */
  lemma SameTransportHeader(f: Frame, mem: Memory)
    requires Captured(f, mem) && NextProto(mem, Eth, 0) == TYPE_IP4 && Parse(f).net.complete
    ensures var n := Parse(f).net.fields;
            && n.proto == mem(ETH_SIZE + 9)
            && (n.l4.Some? ==> L4Offset(mem, n.proto) == n.l4)
  {
    UntaggedLink(f, mem);
    var n := IpAt(f.bytes, ETH_SIZE);
    assert Parse(f).net.fields == n;
    assert mem(ETH_SIZE) == f.bytes[ETH_SIZE] && mem(ETH_SIZE + 9) == f.bytes[ETH_SIZE + 9];
  }

  /** Where `Packet` sees a payload, read off the bytes. */
  lemma BodyByProtocol(f: Frame)
    requires Parse(f).body.at.Some?
    ensures var n := Parse(f).net.fields;
            && Parse(f).net.complete && n.l4.Some? && n.proto in {TCP, UDP}
            && (n.proto == UDP ==> Parse(f).body.at == Some(n.l4.value + UDP_SIZE))
            && (n.proto == TCP ==> n.l4.value + TCP_SIZE <= |f.bytes|
                                   && Parse(f).body.at == Some(n.l4.value + f.bytes[n.l4.value + 12] / 16 * 4))
  {
    var n, t := Parse(f).net.fields, Parse(f).tcp;
    assert Parse(f).body == BodyIn(f, n, t) && t == TcpIn(f, n);
  }

  lemma DataBehind(mem: Memory, proto: nat, o: nat)
    requires L4Offset(mem, proto) == Some(o)
    ensures proto == UDP ==> DataOffset(mem) == o + UDP_SIZE
    ensures proto == TCP ==> DataOffset(mem) == o + mem(o + 12) / 16 * 4
  {
  }

  lemma PayloadOffset(mem: Memory, b: seq<byte>, n: NetFields, at: nat)
    requires n.l4.Some? && n.proto in {TCP, UDP} && L4Offset(mem, n.proto) == n.l4
    requires n.proto == UDP ==> at == n.l4.value + UDP_SIZE
    requires n.proto == TCP ==> n.l4.value + TCP_SIZE <= |b| && at == n.l4.value + b[n.l4.value + 12] / 16 * 4
    requires forall i :: 0 <= i < |b| ==> mem(i) == b[i]
    ensures DataOffset(mem) == at
  {
    DataBehind(mem, n.proto, n.l4.value);
  }

  /** And on the payload, whenever `Packet` finds one. */
  lemma SamePayload(f: Frame, mem: Memory)
    requires Captured(f, mem) && NextProto(mem, Eth, 0) == TYPE_IP4 && Parse(f).body.at.Some?
    ensures Offset(mem, Data) == Parse(f).body.at
  {
    BodyByProtocol(f);
    SameTransportHeader(f, mem);
    PayloadOffset(mem, f.bytes, Parse(f).net.fields, Parse(f).body.at.value);
  }
}
