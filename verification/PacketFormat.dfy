/**
 What a captured frame contains: one eager parse of its link, IPv4, port and TCP headers, written as
 functions of the bytes alone.
 */
module PacketFormat {
  import opened Options
  import opened WireFormat
  import opened FlowRecords

  const ETHERNET: int := 1
  const RAW_IP: int := 2

  const TYPE_IP4: nat := 0x0800
  const TYPE_1Q: nat := 0x8100
  const RUNT_L2: nat := 0xFFF2
  const RUNT_L3: nat := 0xFFF3
  const RUNT_L4: nat := 0xFFF4

  const TCP: nat := 6
  const UDP: nat := 17

  // Sizes of the packed header structs
  const ETH_SIZE: nat := 14
  const TAG_SIZE: nat := 4
  const IP4_SIZE: nat := 20
  const PORTS_SIZE: nat := 4
  const UDP_SIZE: nat := 8
  const TCP_SIZE: nat := 17

  datatype IpFields = IpFields(tos: nat, ttl: nat, length: nat, headerLength: nat)

  /** What the IPv4 stage fills: addresses, protocol, header fields and the start of the next header. */
  datatype NetFields = NetFields(src: nat, dst: nat, proto: nat, ip: IpFields, l4: Option<nat>)

  datatype PortFields = PortFields(src: nat, dst: nat, udpLength: nat)

  datatype TcpFields = TcpFields(flags: nat, seqNo: nat, ackNo: nat, urgent: nat, window: nat, headerLength: nat)

  /** Where the payload starts, and the length that the IP header promises for it. */
  datatype Body = Body(at: Option<nat>, length: nat)

  /** What the fields hold that the constructor leaves uninitialised. */
  datatype Garbage = Garbage(pktType: nat, ip: IpFields, tcp: TcpFields, udpLength: nat)

  datatype Frame = Frame(bytes: seq<byte>, mac: int, garbage: Garbage)

  function U16At(b: seq<byte>, i: nat): (r: nat)
    requires i + 2 <= |b|
    ensures r < 0x1_0000
  {
    U16(b[i], b[i + 1])
  }

  function U32At(b: seq<byte>, i: nat): nat
    requires i + 4 <= |b|
  {
    U16At(b, i) * 0x1_0000 + U16At(b, i + 2)
  }

  // ---------------------------------------------------------------------------------------------
  // Reading one header
  // ---------------------------------------------------------------------------------------------

  function IpAt(b: seq<byte>, o: nat): (n: NetFields)
    requires o + IP4_SIZE <= |b|
    ensures n.l4.Some? ==> o <= n.l4.value <= |b|
  {
    var headerLength := b[o] % 16 * 4;
    NetFields(U32At(b, o + 12), U32At(b, o + 16), b[o + 9],
              IpFields(b[o + 1], b[o + 8], U16At(b, o + 2), headerLength),
              if headerLength <= |b| - o then Some(o + headerLength) else None)
  }

  function PortsAt(b: seq<byte>, o: nat, proto: nat, udpLength: nat): PortFields
    requires o + PORTS_SIZE <= |b|
  {
    PortFields(U16At(b, o), U16At(b, o + 2),
               if proto == UDP && o + UDP_SIZE <= |b| then U16At(b, o + 4) else udpLength)
  }

  function TcpAt(b: seq<byte>, o: nat): TcpFields
    requires o + TCP_SIZE <= |b|
  {
    TcpFields(b[o + 13], U32At(b, o + 4), U32At(b, o + 8), b[o + 16], b[o + 14], b[o + 12] / 16 * 4)
  }

  /** The payload behind a transport header of `size` bytes; the length is computed in 64 bits and may wrap. */
  function BodyAt(n: NetFields, o: nat, size: nat): Body {
    Body(Some(o + size), (n.ip.length - n.ip.headerLength - size) % U64)
  }

  // ---------------------------------------------------------------------------------------------
  // Link layer
  // ---------------------------------------------------------------------------------------------

  /** Packet type, and where the IPv4 header starts if there is one. */
  datatype Link = Link(kind: nat, ip: Option<nat>)

  function LinkAt(kind: nat, off: nat): Link { Link(kind, if kind == TYPE_IP4 then Some(off) else None) }

  /** Skips 802.1Q tags; a frame too short for another Ethernet header ends as a runt. */
  function SkipTags(b: seq<byte>, off: nat, kind: nat): (l: Link)
    requires off <= |b|
    ensures l.ip.Some? ==> off <= l.ip.value <= |b| && (l.ip.value - off) % TAG_SIZE == 0
    ensures l.kind != TYPE_1Q && (l.ip.Some? <==> l.kind == TYPE_IP4)
    decreases |b| - off
  {
    if kind != TYPE_1Q then LinkAt(kind, off)
    else if |b| - off < ETH_SIZE then Link(RUNT_L2, None)
    else SkipTags(b, off + TAG_SIZE, U16At(b, off + 2))
  }

  /** `start` is the packet type before parsing, which an unknown encapsulation leaves as it is. */
  function LinkOf(b: seq<byte>, mac: int, start: nat): (l: Link)
    ensures l.ip.Some? ==> l.ip.value <= |b|
    ensures l.ip.Some? <==> l.kind == TYPE_IP4
  {
    if mac == ETHERNET then
      if |b| < ETH_SIZE then Link(RUNT_L2, None) else SkipTags(b, ETH_SIZE, U16At(b, 12))
    else LinkAt(if mac == RAW_IP then TYPE_IP4 else start, 0)
  }

  // ---------------------------------------------------------------------------------------------
  // The eager parse
  // ---------------------------------------------------------------------------------------------

  /** `complete` says that the fixed part of an IPv4 header was captured. */
  datatype NetPart = NetPart(complete: bool, fields: NetFields)

  /** `runt` says that a TCP or UDP header is cut before its ports end. */
  datatype PortsPart = PortsPart(runt: bool, fields: PortFields)

  /** `complete` says that a TCP header was captured, `runt` that there is one which is cut short. */
  datatype TcpPart = TcpPart(complete: bool, runt: bool, fields: TcpFields)

  datatype View = View(link: Link, net: NetPart, ports: PortsPart, tcp: TcpPart, body: Body)

  function NetIn(f: Frame, link: Link): (n: NetPart)
    ensures n.fields.l4.Some? ==>
              n.complete && link.ip.Some? && link.ip.value <= n.fields.l4.value <= |f.bytes|
    ensures n.complete ==> link.ip.Some?
    ensures !n.complete ==> n.fields == NetFields(0, 0, 0, f.garbage.ip, None)
  {
    if link.ip.Some? && link.ip.value + IP4_SIZE <= |f.bytes|
    then NetPart(true, IpAt(f.bytes, link.ip.value))
    else NetPart(false, NetFields(0, 0, 0, f.garbage.ip, None))
  }

  predicate HasPorts(n: NetFields) { n.l4.Some? && (n.proto == TCP || n.proto == UDP) }

  function PortsIn(f: Frame, n: NetFields): PortsPart {
    if HasPorts(n) && n.l4.value + PORTS_SIZE <= |f.bytes|
    then PortsPart(false, PortsAt(f.bytes, n.l4.value, n.proto, f.garbage.udpLength))
    else PortsPart(HasPorts(n), PortFields(0, 0, f.garbage.udpLength))
  }

  predicate HasTcp(n: NetFields) { n.l4.Some? && n.proto == TCP }

  function TcpIn(f: Frame, n: NetFields): TcpPart {
    if HasTcp(n) && n.l4.value + TCP_SIZE <= |f.bytes|
    then TcpPart(true, false, TcpAt(f.bytes, n.l4.value))
    else TcpPart(false, HasTcp(n), f.garbage.tcp)
  }

  function BodyIn(f: Frame, n: NetFields, t: TcpPart): (r: Body)
    ensures r.at.Some? ==> n.l4.Some? && n.l4.value <= r.at.value <= |f.bytes|
  {
    if n.l4.Some? && n.proto == UDP && n.l4.value + UDP_SIZE <= |f.bytes| then BodyAt(n, n.l4.value, UDP_SIZE)
    else if t.complete && HasTcp(n) && n.l4.value + t.fields.headerLength <= |f.bytes|
    then BodyAt(n, n.l4.value, t.fields.headerLength)
    else Body(None, 0)
  }

  /** Everything there is to know about a frame, in one go. */
  function Parse(f: Frame): View {
    var link := LinkOf(f.bytes, f.mac, f.garbage.pktType);
    var net := NetIn(f, link);
    var tcp := TcpIn(f, net.fields);
    View(link, net, PortsIn(f, net.fields), tcp, BodyIn(f, net.fields, tcp))
  }

  // ---------------------------------------------------------------------------------------------
  // Accessors
  // ---------------------------------------------------------------------------------------------

  /** The accessors of a packet that parse on demand. */
  datatype Query =
    | IpHeader | L4Header | Payload | PayloadLength | L3Protocol
    | IpSrc | IpDst | SrcPort | DstPort | L4Protocol | Key
    | IpTos | IpTtl | IpLength | IpHeaderLength
    | TcpFlags | TcpAck | TcpUrgent | TcpSeq | TcpWindow | TcpHeaderLength | UdpLength

  datatype Answer = Number(n: nat) | Maybe(o: Option<nat>) | Tuple(k: FlowKey)

  const ACK_BIT: nat := 16
  const URG_BIT: nat := 32

  function IfSet(flags: nat, bit: nat, value: nat): Answer
    requires bit != 0
  {
    Maybe(if flags / bit % 2 == 1 then Some(value) else None)
  }

  /** The group of fields a query reads. */
  datatype Group = TypeGroup | LinkGroup | NetGroup | PortsGroup | TcpGroup | BodyGroup

  function GroupOf(q: Query): Group {
    match q
    case L3Protocol => TypeGroup
    case IpHeader => LinkGroup
    case SrcPort | DstPort | UdpLength | Key => PortsGroup
    case TcpFlags | TcpAck | TcpUrgent | TcpSeq | TcpWindow | TcpHeaderLength => TcpGroup
    case Payload | PayloadLength => BodyGroup
    case _ => NetGroup
  }

  /** What a query answers according to the eager parse. */
  function Eager(v: View, q: Query): Answer {
    match GroupOf(q)
    case TypeGroup => Number(v.link.kind)
    case LinkGroup => Maybe(v.link.ip)
    case NetGroup => OfNet(v.net.fields, q)
    case PortsGroup => OfPorts(v.net.fields, v.ports.fields, q)
    case TcpGroup => OfTcp(v.tcp.fields, q)
    case BodyGroup => OfBody(v.body, q)
  }

  function OfNet(n: NetFields, q: Query): Answer {
    match q
    case L4Header => Maybe(n.l4)
    case IpSrc => Number(n.src)
    case IpDst => Number(n.dst)
    case L4Protocol => Number(n.proto)
    case IpTos => Number(n.ip.tos)
    case IpTtl => Number(n.ip.ttl)
    case IpLength => Number(n.ip.length)
    case _ => Number(n.ip.headerLength)
  }

  function OfPorts(n: NetFields, p: PortFields, q: Query): Answer {
    match q
    case SrcPort => Number(p.src)
    case DstPort => Number(p.dst)
    case UdpLength => Number(p.udpLength)
    case _ => Tuple(FlowKey(n.src, n.dst, p.src, p.dst, n.proto))
  }

  function OfTcp(t: TcpFields, q: Query): Answer {
    match q
    case TcpFlags => Number(t.flags)
    case TcpAck => IfSet(t.flags, ACK_BIT, t.ackNo)
    case TcpUrgent => IfSet(t.flags, URG_BIT, t.urgent)
    case TcpSeq => Number(t.seqNo)
    case TcpWindow => Number(t.window)
    case _ => Number(t.headerLength)
  }

  function OfBody(b: Body, q: Query): Answer { if q == Payload then Maybe(b.at) else Number(b.length) }
}
