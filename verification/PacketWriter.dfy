/**
 Frames written field by field, as the packed structs of the program lay them out, and the theorem that
 every accessor of a packet answers the value that was written, or what it answers when the capture was
 cut before that value.
 */
module PacketWriter {
  import opened Options
  import opened WireFormat
  import opened FlowRecords
  import opened PacketFormat
  import opened PacketStages

  type U8 = x: nat | x < 0x100
  type Nibble = x: nat | x < 16

  // ---------------------------------------------------------------------------------------------
  // What is written
  // ---------------------------------------------------------------------------------------------

  /** Numbers of 16 and 32 bits by their bytes, the most significant first. */
  datatype Pair = Pair(hi: byte, lo: byte)
  datatype Quad = Quad(a: byte, b: byte, c: byte, d: byte)

  function Num2(v: Pair): nat { v.hi * 0x100 + v.lo }

  function Num4(v: Quad): nat { v.a * 0x100_0000 + v.b * 0x1_0000 + v.c * 0x100 + v.d }

  /** Every number has such bytes, and only one choice of them. */
  lemma PairOf(n: nat) returns (v: Pair)
    requires n < 0x1_0000
    ensures Num2(v) == n && forall u: Pair :: Num2(u) == n ==> u == v
  {
    v := Pair(n / 0x100, n % 0x100);
  }

  lemma QuadOf(n: nat) returns (v: Quad)
    requires n < 0x1_0000_0000
    ensures Num4(v) == n && forall u: Quad :: Num4(u) == n ==> u == v
  {
    var hi := PairOf(n / 0x1_0000);
    var lo := PairOf(n % 0x1_0000);
    v := Quad(hi.hi, hi.lo, lo.hi, lo.lo);
    forall u: Quad | Num4(u) == n ensures u == v {
      assert Num2(Pair(u.a, u.b)) == n / 0x1_0000 && Num2(Pair(u.c, u.d)) == n % 0x1_0000;
    }
  }

  datatype IpValues = IpValues(version: Nibble, ihl: Nibble, tos: U8, length: Pair, ident: Pair,
                               fragment: Pair, ttl: U8, checksum: Pair, src: Quad, dst: Quad)

  datatype FlagValues = FlagValues(fin: bool, syn: bool, rst: bool, psh: bool, ack: bool, urg: bool, ece: bool, cwr: bool)

  datatype TcpValues = TcpValues(src: Pair, dst: Pair, seqNo: Quad, ackNo: Quad, offset: Nibble,
                                 reserved: Nibble, flags: FlagValues, window: U8, checksum: U8, urgent: U8)

  datatype UdpValues = UdpValues(src: Pair, dst: Pair, length: Pair, checksum: Pair)

  /** `rest` is what follows the fixed part of the header: options and payload. */
  datatype Transport =
    | TcpHeader(tcp: TcpValues, rest: seq<byte>)
    | UdpHeader(udp: UdpValues, rest: seq<byte>)
    | OtherHeader(proto: U8, rest: seq<byte>)

  /** An Ethernet header with its tags, or nothing in front of the IPv4 header. */
  datatype Encapsulation = Ethernet(addresses: seq<byte>, tags: seq<Pair>) | RawIp

  datatype Written = Written(link: Encapsulation, ip: IpValues, options: seq<byte>, transport: Transport)

  predicate Writable(w: Written) {
    && (w.link.Ethernet? ==> |w.link.addresses| == 12)
    && |w.options| + 20 == w.ip.ihl * 4
    && (w.transport.OtherHeader? ==> w.transport.proto != 6 && w.transport.proto != 17)
  }

  // ---------------------------------------------------------------------------------------------
  // The bytes
  // ---------------------------------------------------------------------------------------------

  function Bytes2(v: Pair): (r: seq<byte>)
    ensures |r| == 2
  {
    [v.hi, v.lo]
  }

  function Bytes4(v: Quad): (r: seq<byte>)
    ensures |r| == 4
  {
    [v.a, v.b, v.c, v.d]
  }

  function FlagByte(f: FlagValues): byte {
    (if f.fin then 0x01 else 0) + (if f.syn then 0x02 else 0) + (if f.rst then 0x04 else 0) + (if f.psh then 0x08 else 0)
    + (if f.ack then 0x10 else 0) + (if f.urg then 0x20 else 0) + (if f.ece then 0x40 else 0) + (if f.cwr then 0x80 else 0)
  }

  /** `ip4hdr` */
  function IpBytes(v: IpValues, proto: U8): (r: seq<byte>)
    ensures |r| == 20
  {
    [v.version * 16 + v.ihl, v.tos] + Bytes2(v.length) + Bytes2(v.ident) + Bytes2(v.fragment) + [v.ttl, proto]
    + Bytes2(v.checksum) + Bytes4(v.src) + Bytes4(v.dst)
  }

  /** `tcphdr`, whose last three fields are one byte each */
  function TcpBytes(v: TcpValues): (r: seq<byte>)
    ensures |r| == 17
  {
    Bytes2(v.src) + Bytes2(v.dst) + Bytes4(v.seqNo) + Bytes4(v.ackNo)
    + [v.offset * 16 + v.reserved, FlagByte(v.flags), v.window, v.checksum, v.urgent]
  }

  /** `udphdr` */
  function UdpBytes(v: UdpValues): (r: seq<byte>)
    ensures |r| == 8
  {
    Bytes2(v.src) + Bytes2(v.dst) + Bytes2(v.length) + Bytes2(v.checksum)
  }

  function ProtoOf(t: Transport): U8 {
    match t
    case TcpHeader(_, _) => 6
    case UdpHeader(_, _) => 17
    case OtherHeader(proto, _) => proto
  }

  function TransportBytes(t: Transport): seq<byte> {
    match t
    case TcpHeader(tcp, rest) => TcpBytes(tcp) + rest
    case UdpHeader(udp, rest) => UdpBytes(udp) + rest
    case OtherHeader(_, rest) => rest
  }

  /** The types and tags between the addresses and the IPv4 header. */
  function TypeBytes(tags: seq<Pair>): (r: seq<byte>)
    ensures |r| == 2 + 4 * |tags|
  {
    if tags == [] then [0x08, 0x00] else [0x81, 0x00] + Bytes2(tags[0]) + TypeBytes(tags[1..])
  }

  function LinkBytes(e: Encapsulation): seq<byte> {
    if e.RawIp? then [] else e.addresses + TypeBytes(e.tags)
  }

  function FrameBytes(w: Written): seq<byte> {
    LinkBytes(w.link) + (IpBytes(w.ip, ProtoOf(w.transport)) + w.options + TransportBytes(w.transport))
  }

  /** The first `n` bytes of a written frame, as captured. */
  function Captured(w: Written, n: nat, g: Garbage): Frame
    requires n <= |FrameBytes(w)|
  {
    Frame(FrameBytes(w)[..n], if w.link.RawIp? then 2 else 1, g)
  }

  // ---------------------------------------------------------------------------------------------
  // What the accessors are to answer
  // ---------------------------------------------------------------------------------------------

  /** Where the IPv4 header and the transport header start. */
  function IpStart(w: Written): nat { if w.link.RawIp? then 0 else 14 + 4 * |w.link.tags| }

  function TransportStart(w: Written): nat { IpStart(w) + 4 * w.ip.ihl }

  /** What a capture of `n` bytes shows. A tag is skipped only when 14 bytes follow the type in front of it. */
  predicate LinkSeen(w: Written, n: nat) {
    match w.link
    case RawIp => true
    case Ethernet(_, tags) => if tags == [] then 14 <= n else IpStart(w) + 10 <= n
  }

  predicate IpSeen(w: Written, n: nat) { LinkSeen(w, n) && IpStart(w) + 20 <= n }

  /** `size` bytes of the transport header. */
  predicate TransportSeen(w: Written, n: nat, size: nat) { IpSeen(w, n) && TransportStart(w) + size <= n }

  predicate PortsSeen(w: Written, n: nat) { !w.transport.OtherHeader? && TransportSeen(w, n, 4) }

  predicate TcpSeen(w: Written, n: nat) { w.transport.TcpHeader? && TransportSeen(w, n, 17) }

  function PayloadStart(w: Written, n: nat): Option<nat> {
    match w.transport
    case TcpHeader(tcp, rest) =>
      if TcpSeen(w, n) && TransportSeen(w, n, 4 * tcp.offset) then Some(TransportStart(w) + 4 * tcp.offset) else None
    case UdpHeader(_, _) => if TransportSeen(w, n, 8) then Some(TransportStart(w) + 8) else None
    case OtherHeader(_, _) => None
  }

  /** The length field minus both headers, as a `size_t`. */
  function PayloadSize(start: Option<nat>, ip: nat, length: nat): nat {
    if start.None? then 0 else (length - (start.value - ip)) % 0x1_0000_0000_0000_0000
  }

  function WrittenBody(w: Written, n: nat): Body {
    Body(PayloadStart(w, n), PayloadSize(PayloadStart(w, n), IpStart(w), Num2(w.ip.length)))
  }

  function WrittenSrcPort(w: Written, n: nat): nat {
    if !PortsSeen(w, n) then 0
    else if w.transport.TcpHeader? then Num2(w.transport.tcp.src) else Num2(w.transport.udp.src)
  }

  function WrittenDstPort(w: Written, n: nat): nat {
    if !PortsSeen(w, n) then 0
    else if w.transport.TcpHeader? then Num2(w.transport.tcp.dst) else Num2(w.transport.udp.dst)
  }

  function WrittenUdpLength(w: Written, n: nat, g: Garbage): nat {
    if w.transport.UdpHeader? && TransportSeen(w, n, 8) then Num2(w.transport.udp.length) else g.udpLength
  }

  function IfSeen(seen: bool, value: nat): nat { if seen then value else 0 }

  /** The answer to every query in terms of the values written; fields that were not seen keep what they held. */
  function Expected(w: Written, n: nat, g: Garbage, q: Query): Answer {
    var ip := IpSeen(w, n);
    match q
    case IpHeader => Maybe(if LinkSeen(w, n) then Some(IpStart(w)) else None)
    case L4Header => Maybe(if TransportSeen(w, n, 0) then Some(TransportStart(w)) else None)
    case Payload => Maybe(PayloadStart(w, n))
    case PayloadLength => Number(WrittenBody(w, n).length)
    case L3Protocol => Number(if LinkSeen(w, n) then 0x0800 else 0xFFF2)
    case IpSrc => Number(IfSeen(ip, Num4(w.ip.src)))
    case IpDst => Number(IfSeen(ip, Num4(w.ip.dst)))
    case SrcPort => Number(WrittenSrcPort(w, n))
    case DstPort => Number(WrittenDstPort(w, n))
    case L4Protocol => Number(IfSeen(ip, ProtoOf(w.transport)))
    case Key => Tuple(FlowKey(IfSeen(ip, Num4(w.ip.src)), IfSeen(ip, Num4(w.ip.dst)),
                              WrittenSrcPort(w, n), WrittenDstPort(w, n), IfSeen(ip, ProtoOf(w.transport))))
    case IpTos => Number(if ip then w.ip.tos else g.ip.tos)
    case IpTtl => Number(if ip then w.ip.ttl else g.ip.ttl)
    case IpLength => Number(if ip then Num2(w.ip.length) else g.ip.length)
    case IpHeaderLength => Number(if ip then 4 * w.ip.ihl else g.ip.headerLength)
    case UdpLength => Number(WrittenUdpLength(w, n, g))
    case TcpFlags => Number(if TcpSeen(w, n) then FlagByte(w.transport.tcp.flags) else g.tcp.flags)
    case TcpAck =>
      Maybe(if TcpSeen(w, n) then
              if w.transport.tcp.flags.ack then Some(Num4(w.transport.tcp.ackNo)) else None
            else if g.tcp.flags / 16 % 2 == 1 then Some(g.tcp.ackNo) else None)
    case TcpUrgent =>
      Maybe(if TcpSeen(w, n) then
              if w.transport.tcp.flags.urg then Some(w.transport.tcp.urgent) else None
            else if g.tcp.flags / 32 % 2 == 1 then Some(g.tcp.urgent) else None)
    case TcpSeq => Number(if TcpSeen(w, n) then Num4(w.transport.tcp.seqNo) else g.tcp.seqNo)
    case TcpWindow => Number(if TcpSeen(w, n) then w.transport.tcp.window else g.tcp.window)
    case TcpHeaderLength => Number(if TcpSeen(w, n) then 4 * w.transport.tcp.offset else g.tcp.headerLength)
  }

  // ---------------------------------------------------------------------------------------------
  // Reading back single fields
  // ---------------------------------------------------------------------------------------------

  lemma ReadBytes2(b: seq<byte>, i: nat, v: Pair)
    requires i + 2 <= |b| && b[i..i + 2] == Bytes2(v)
    ensures U16At(b, i) == Num2(v)
  {
    assert b[i] == b[i..i + 2][0] && b[i + 1] == b[i..i + 2][1];
  }

  lemma ReadBytes4(b: seq<byte>, i: nat, v: Quad)
    requires i + 4 <= |b| && b[i..i + 4] == Bytes4(v)
    ensures U32At(b, i) == Num4(v)
  {
    assert b[i] == b[i..i + 4][0] && b[i + 1] == b[i..i + 4][1] && b[i + 2] == b[i..i + 4][2] && b[i + 3] == b[i..i + 4][3];
  }

  /** Fields of one, two and four bytes at place `i` of a header that starts at `o`. */
  lemma Field1(b: seq<byte>, o: nat, header: seq<byte>, i: nat)
    requires o + |header| <= |b| && b[o..o + |header|] == header && i < |header|
    ensures b[o + i] == header[i]
  {
    assert b[o..o + |header|][i] == b[o + i];
  }

  lemma Field2(b: seq<byte>, o: nat, header: seq<byte>, i: nat, v: Pair)
    requires o + |header| <= |b| && b[o..o + |header|] == header && i + 2 <= |header| && header[i..i + 2] == Bytes2(v)
    ensures U16At(b, o + i) == Num2(v)
  {
    SliceOfSlice(b, o, o + |header|, i, i + 2);
    ReadBytes2(b, o + i, v);
  }

  lemma Field4(b: seq<byte>, o: nat, header: seq<byte>, i: nat, v: Quad)
    requires o + |header| <= |b| && b[o..o + |header|] == header && i + 4 <= |header| && header[i..i + 4] == Bytes4(v)
    ensures U32At(b, o + i) == Num4(v)
  {
    SliceOfSlice(b, o, o + |header|, i, i + 4);
    ReadBytes4(b, o + i, v);
  }

  lemma FlagBits(f: FlagValues)
    ensures FlagByte(f) / 16 % 2 == (if f.ack then 1 else 0) && FlagByte(f) / 32 % 2 == if f.urg then 1 else 0
  {
  }

  lemma IpSlices(v: IpValues, proto: U8)
    ensures var h := IpBytes(v, proto);
            && h[0] as int == v.version * 16 + v.ihl && h[1] == v.tos && h[8] == v.ttl && h[9] == proto
            && h[2..4] == Bytes2(v.length) && h[12..16] == Bytes4(v.src) && h[16..20] == Bytes4(v.dst)
  {
  }

  lemma IpFieldsReadBack(b: seq<byte>, o: nat, v: IpValues, proto: U8)
    requires o + 20 <= |b| && b[o..o + 20] == IpBytes(v, proto)
    ensures IpAt(b, o) == NetFields(Num4(v.src), Num4(v.dst), proto, IpFields(v.tos, v.ttl, Num2(v.length), 4 * v.ihl),
                                    if o + 4 * v.ihl <= |b| then Some(o + 4 * v.ihl) else None)
  {
    IpSlices(v, proto);
    IpPartsReadBack(b, o, IpBytes(v, proto), v);
  }

  lemma IpPartsReadBack(b: seq<byte>, o: nat, h: seq<byte>, v: IpValues)
    requires |h| == 20 && o + 20 <= |b| && b[o..o + 20] == h
    requires h[2..4] == Bytes2(v.length) && h[12..16] == Bytes4(v.src) && h[16..20] == Bytes4(v.dst)
    requires h[0] as int == v.version * 16 + v.ihl
    ensures IpAt(b, o) == NetFields(Num4(v.src), Num4(v.dst), h[9], IpFields(h[1], h[8], Num2(v.length), 4 * v.ihl),
                                    if o + 4 * v.ihl <= |b| then Some(o + 4 * v.ihl) else None)
  {
    Field2(b, o, h, 2, v.length);
    Field4(b, o, h, 12, v.src);
    Field4(b, o, h, 16, v.dst);
    Field1(b, o, h, 0);
    Field1(b, o, h, 1);
    Field1(b, o, h, 8);
    Field1(b, o, h, 9);
    HeaderWords(b[o], v.version, v.ihl);
    IpAtParts(b, o, Num4(v.src), Num4(v.dst), Num2(v.length), 4 * v.ihl);
  }

  lemma IpAtParts(b: seq<byte>, o: nat, src: nat, dst: nat, length: nat, headerLength: nat)
    requires o + 20 <= |b| && b[o] as int % 16 * 4 == headerLength
    requires U32At(b, o + 12) == src && U32At(b, o + 16) == dst && U16At(b, o + 2) == length
    ensures IpAt(b, o) == NetFields(src, dst, b[o + 9], IpFields(b[o + 1], b[o + 8], length, headerLength),
                                    if o + headerLength <= |b| then Some(o + headerLength) else None)
  {
  }

  lemma HeaderWords(x: byte, high: Nibble, low: Nibble)
    requires x as int == high * 16 + low
    ensures x % 16 * 4 == 4 * low && x / 16 * 4 == 4 * high
  {
    HighNibble(high, low);
  }

  /** The ports are the first four bytes of either header, and a UDP length the next two. */
  lemma PortFieldsReadBack(b: seq<byte>, o: nat, h: seq<byte>, proto: nat, src: Pair, dst: Pair, len: Pair,
                           before: nat)
    requires 4 <= |h| && o + |h| <= |b| && b[o..o + |h|] == h && h[0..2] == Bytes2(src) && h[2..4] == Bytes2(dst)
    requires o + 8 <= |b| && proto == 17 ==> |h| == 8 && h[4..6] == Bytes2(len)
    ensures PortsAt(b, o, proto, before)
            == PortFields(Num2(src), Num2(dst), if proto == 17 && o + 8 <= |b| then Num2(len) else before)
  {
    Field2(b, o, h, 0, src);
    Field2(b, o, h, 2, dst);
    if o + 8 <= |b| && proto == 17 {
      Field2(b, o, h, 4, len);
    }
  }

  lemma TcpSlices(v: TcpValues)
    ensures var h := TcpBytes(v);
            && h[0..2] == Bytes2(v.src) && h[2..4] == Bytes2(v.dst)
            && h[4..8] == Bytes4(v.seqNo) && h[8..12] == Bytes4(v.ackNo)
            && h[12] as int == v.offset * 16 + v.reserved && h[13] == FlagByte(v.flags)
            && h[14] == v.window && h[16] == v.urgent
  {
  }

  lemma TcpFieldsReadBack(b: seq<byte>, o: nat, v: TcpValues)
    requires o + 17 <= |b| && b[o..o + 17] == TcpBytes(v)
    ensures TcpAt(b, o) == TcpFields(FlagByte(v.flags), Num4(v.seqNo), Num4(v.ackNo), v.urgent, v.window, 4 * v.offset)
  {
    TcpSlices(v);
    TcpPartsReadBack(b, o, TcpBytes(v), v);
  }

  lemma TcpPartsReadBack(b: seq<byte>, o: nat, h: seq<byte>, v: TcpValues)
    requires |h| == 17 && o + 17 <= |b| && b[o..o + 17] == h
    requires h[4..8] == Bytes4(v.seqNo) && h[8..12] == Bytes4(v.ackNo)
    requires h[12] as int == v.offset * 16 + v.reserved
    ensures TcpAt(b, o) == TcpFields(h[13], Num4(v.seqNo), Num4(v.ackNo), h[16], h[14], 4 * v.offset)
  {
    Field4(b, o, h, 4, v.seqNo);
    Field4(b, o, h, 8, v.ackNo);
    Field1(b, o, h, 12);
    Field1(b, o, h, 13);
    Field1(b, o, h, 14);
    Field1(b, o, h, 16);
    HeaderWords(b[o + 12], v.offset, v.reserved);
  }

  lemma HighNibble(high: Nibble, low: Nibble)
    ensures (high * 16 + low) / 16 == high && (high * 16 + low) % 16 == low
  {
  }

  // ---------------------------------------------------------------------------------------------
  // Finding the headers
  // ---------------------------------------------------------------------------------------------

  /** A tag chain, of which the first `m` bytes were captured. */
  predicate TypesCut(b: seq<byte>, i: nat, tags: seq<Pair>, m: nat) {
    && 2 <= m <= 2 + 4 * |tags| && i + m <= |b| && (i + m < |b| ==> m == 2 + 4 * |tags|)
    && b[i..i + m] == TypeBytes(tags)[..m]
  }

  lemma FirstType(b: seq<byte>, i: nat, tags: seq<Pair>, m: nat)
    requires TypesCut(b, i, tags, m)
    ensures U16At(b, i) == if tags == [] then 0x0800 else 0x8100
  {
    assert b[i] == b[i..i + m][0] && b[i + 1] == b[i..i + m][1];
    assert TypeBytes(tags)[..m][0] == TypeBytes(tags)[0] && TypeBytes(tags)[..m][1] == TypeBytes(tags)[1];
  }

  lemma NextType(b: seq<byte>, i: nat, tags: seq<Pair>, m: nat)
    requires TypesCut(b, i, tags, m) && tags != [] && i + 6 <= |b|
    ensures TypesCut(b, i + 4, tags[1..], m - 4)
  {
    var types := TypeBytes(tags);
    SliceOfSlice(b, i, i + m, 4, m);
    assert types[4..] == TypeBytes(tags[1..]);
    SliceOfCut(types, m, 4, m);
    assert types[4..][..m - 4] == types[4..m];
  }

  /** Tags behind the addresses are skipped, and the IPv4 header is found behind them unless the capture is too short. */
  lemma {:induction false} TagsAreSkipped(b: seq<byte>, i: nat, tags: seq<Pair>, m: nat)
    requires TypesCut(b, i, tags, m)
    ensures SkipTags(b, i + 2, U16At(b, i))
            == if tags == [] || i + 12 + 4 * |tags| <= |b| then Link(0x0800, Some(i + 2 + 4 * |tags|))
               else Link(0xFFF2, None)
    decreases |tags|
  {
    FirstType(b, i, tags, m);
    if tags != [] && i + 16 <= |b| {
      NextType(b, i, tags, m);
      TagsAreSkipped(b, i + 4, tags[1..], m - 4);
    }
  }

  /** Where the parts of a written frame are. */
  lemma PartsOfFrame(w: Written)
    requires Writable(w)
    ensures var b, o, t := FrameBytes(w), IpStart(w), TransportStart(w);
            && |LinkBytes(w.link)| == o && b[..o] == LinkBytes(w.link)
            && o + 20 <= t <= |b| && b[o..o + 20] == IpBytes(w.ip, ProtoOf(w.transport))
            && b[t..] == TransportBytes(w.transport)
  {
    var link, ip, rest := LinkBytes(w.link), IpBytes(w.ip, ProtoOf(w.transport)), TransportBytes(w.transport);
    assert FrameBytes(w) == link + ip + w.options + rest;
    assert |link| == IpStart(w);
  }

  lemma SliceOfCut<A>(s: seq<A>, n: nat, i: nat, j: nat)
    requires i <= j <= n <= |s|
    ensures s[..n][i..j] == s[i..j]
  {
  }

  lemma SliceOfSecond<A>(a: seq<A>, b: seq<A>, k: nat)
    requires k <= |b|
    ensures (a + b)[|a|..|a| + k] == b[..k]
  {
  }

  lemma SliceOfTail<A>(s: seq<A>, n: nat, i: nat, k: nat, tail: seq<A>)
    requires i + k <= n <= |s| && s[i..] == tail
    ensures k <= |tail| && s[..n][i..i + k] == tail[..k]
  {
  }

  function WrittenLink(w: Written, n: nat): Link {
    if LinkSeen(w, n) then Link(0x0800, Some(IpStart(w))) else Link(0xFFF2, None)
  }

  lemma LinkReadBack(w: Written, n: nat, g: Garbage)
    requires Writable(w) && n <= |FrameBytes(w)|
    ensures var f := Captured(w, n, g);
            LinkOf(f.bytes, f.mac, g.pktType) == WrittenLink(w, n)
  {
    PartsOfFrame(w);
    if w.link.Ethernet? && 14 <= n {
      var whole, b, tags := FrameBytes(w), FrameBytes(w)[..n], w.link.tags;
      var e := 14 + 4 * |tags|;
      var m := if n < e then n - 12 else e - 12;
      assert whole[..e] == w.link.addresses + TypeBytes(tags);
      SliceOfCut(whole, n, 12, 12 + m);
      SliceOfCut(whole, e, 12, 12 + m);
      SliceOfSecond(w.link.addresses, TypeBytes(tags), m);
      TagsAreSkipped(b, 12, tags, m);
    }
  }

  function WrittenNet(w: Written, n: nat, g: Garbage): NetFields {
    if IpSeen(w, n) then
      NetFields(Num4(w.ip.src), Num4(w.ip.dst), ProtoOf(w.transport),
                IpFields(w.ip.tos, w.ip.ttl, Num2(w.ip.length), 4 * w.ip.ihl),
                if TransportSeen(w, n, 0) then Some(TransportStart(w)) else None)
    else NetFields(0, 0, 0, g.ip, None)
  }

  lemma NetPartReadBack(w: Written, f: Frame)
    requires IpSeen(w, |f.bytes|) ==> IpAt(f.bytes, IpStart(w)) == WrittenNet(w, |f.bytes|, f.garbage)
    ensures var n := |f.bytes|;
            NetIn(f, WrittenLink(w, n)) == NetPart(IpSeen(w, n), WrittenNet(w, n, f.garbage))
  {
  }

  lemma NetReadBack(w: Written, n: nat, g: Garbage)
    requires Writable(w) && n <= |FrameBytes(w)|
    ensures var v := Parse(Captured(w, n, g));
            v.link == WrittenLink(w, n) && v.net == NetPart(IpSeen(w, n), WrittenNet(w, n, g))
  {
    var o := IpStart(w);
    LinkReadBack(w, n, g);
    PartsOfFrame(w);
    if IpSeen(w, n) {
      SliceOfCut(FrameBytes(w), n, o, o + 20);
      IpFieldsReadBack(FrameBytes(w)[..n], o, w.ip, ProtoOf(w.transport));
    }
    NetPartReadBack(w, Captured(w, n, g));
  }

  /** The first `size` bytes of the transport header are read where they were written. */
  lemma TransportReadBack(w: Written, n: nat, size: nat)
    requires Writable(w) && n <= |FrameBytes(w)| && TransportStart(w) + size <= n
    ensures size <= |TransportBytes(w.transport)|
    ensures var t := TransportStart(w); FrameBytes(w)[..n][t..t + size] == TransportBytes(w.transport)[..size]
  {
    var t := TransportStart(w);
    PartsOfFrame(w);
    SliceOfTail(FrameBytes(w), n, t, size, TransportBytes(w.transport));
  }

  lemma PortsReadBack(w: Written, n: nat, g: Garbage)
    requires Writable(w) && n <= |FrameBytes(w)|
    ensures Parse(Captured(w, n, g)).ports
            == PortsPart(!w.transport.OtherHeader? && TransportSeen(w, n, 0) && !PortsSeen(w, n),
                         PortFields(WrittenSrcPort(w, n), WrittenDstPort(w, n), WrittenUdpLength(w, n, g)))
  {
    var f := Captured(w, n, g);
    NetReadBack(w, n, g);
    assert Parse(f).ports == PortsIn(f, WrittenNet(w, n, g));
    if PortsSeen(w, n) {
      SeenPortsReadBack(w, n, g);
    }
  }

  lemma TcpPrefix(tcp: TcpValues, rest: seq<byte>)
    ensures var h := (TcpBytes(tcp) + rest)[..4]; h[0..2] == Bytes2(tcp.src) && h[2..4] == Bytes2(tcp.dst)
  {
    assert (TcpBytes(tcp) + rest)[..4] == Bytes2(tcp.src) + Bytes2(tcp.dst);
  }

  lemma UdpPrefix(udp: UdpValues, rest: seq<byte>, size: nat)
    requires size == 4 || size == 8
    ensures var h := (UdpBytes(udp) + rest)[..size];
            && h[0..2] == Bytes2(udp.src) && h[2..4] == Bytes2(udp.dst)
            && (size == 8 ==> h[4..6] == Bytes2(udp.length))
  {
    assert (UdpBytes(udp) + rest)[..8] == UdpBytes(udp);
    assert (UdpBytes(udp) + rest)[..4] == Bytes2(udp.src) + Bytes2(udp.dst);
  }

  lemma SeenPortsReadBack(w: Written, n: nat, g: Garbage)
    requires Writable(w) && n <= |FrameBytes(w)| && PortsSeen(w, n)
    ensures PortsAt(FrameBytes(w)[..n], TransportStart(w), ProtoOf(w.transport), g.udpLength)
            == PortFields(WrittenSrcPort(w, n), WrittenDstPort(w, n), WrittenUdpLength(w, n, g))
  {
    var b, o := FrameBytes(w)[..n], TransportStart(w);
    match w.transport
    case TcpHeader(tcp, rest) =>
      TransportReadBack(w, n, 4);
      TcpPrefix(tcp, rest);
      PortFieldsReadBack(b, o, TransportBytes(w.transport)[..4], 6, tcp.src, tcp.dst, tcp.src, g.udpLength);
    case UdpHeader(udp, rest) =>
      var size := if o + 8 <= n then 8 else 4;
      TransportReadBack(w, n, size);
      UdpPrefix(udp, rest, size);
      PortFieldsReadBack(b, o, TransportBytes(w.transport)[..size], 17, udp.src, udp.dst, udp.length, g.udpLength);
  }

  function WrittenTcp(w: Written, n: nat, g: Garbage): TcpFields {
    if TcpSeen(w, n) then
      var v := w.transport.tcp;
      TcpFields(FlagByte(v.flags), Num4(v.seqNo), Num4(v.ackNo), v.urgent, v.window, 4 * v.offset)
    else g.tcp
  }

  function WrittenTcpPart(w: Written, n: nat, g: Garbage): TcpPart {
    TcpPart(TcpSeen(w, n), w.transport.TcpHeader? && TransportSeen(w, n, 0) && !TcpSeen(w, n), WrittenTcp(w, n, g))
  }

  lemma SeenTcpReadBack(w: Written, n: nat, g: Garbage)
    requires Writable(w) && n <= |FrameBytes(w)| && TcpSeen(w, n)
    ensures TcpAt(FrameBytes(w)[..n], TransportStart(w)) == WrittenTcp(w, n, g)
  {
    TransportReadBack(w, n, 17);
    assert TransportBytes(w.transport)[..17] == TcpBytes(w.transport.tcp);
    TcpFieldsReadBack(FrameBytes(w)[..n], TransportStart(w), w.transport.tcp);
  }

  lemma TcpPartReadBack(w: Written, f: Frame)
    requires w.transport.OtherHeader? ==> w.transport.proto != 6
    requires var n := |f.bytes|;
             TcpSeen(w, n) ==> TcpAt(f.bytes, TransportStart(w)) == WrittenTcp(w, n, f.garbage)
    ensures var n := |f.bytes|; TcpIn(f, WrittenNet(w, n, f.garbage)) == WrittenTcpPart(w, n, f.garbage)
  {
  }

  lemma TcpReadBack(w: Written, n: nat, g: Garbage)
    requires Writable(w) && n <= |FrameBytes(w)|
    ensures Parse(Captured(w, n, g)).tcp == WrittenTcpPart(w, n, g)
  {
    NetReadBack(w, n, g);
    if TcpSeen(w, n) {
      SeenTcpReadBack(w, n, g);
    }
    TcpPartReadBack(w, Captured(w, n, g));
  }

  /** The payload in terms of where it starts, for any header values. */
  lemma BodyPart(f: Frame, net: NetFields, tcp: TcpPart, ip: nat, start: Option<nat>)
    requires net.l4.Some? ==> net.l4.value == ip + net.ip.headerLength
    requires start == if net.l4.Some? && net.proto == 17 && net.l4.value + 8 <= |f.bytes| then Some(net.l4.value + 8)
                      else if tcp.complete && net.l4.Some? && net.proto == 6
                              && net.l4.value + tcp.fields.headerLength <= |f.bytes|
                      then Some(net.l4.value + tcp.fields.headerLength) else None
    ensures BodyIn(f, net, tcp) == Body(start, PayloadSize(start, ip, net.ip.length))
  {
    if start.Some? {
      var size := start.value - net.l4.value;
      assert net.ip.length - net.ip.headerLength - size == net.ip.length - (start.value - ip);
      assert BodyIn(f, net, tcp) == BodyAt(net, net.l4.value, size);
    }
  }

  lemma BodyPartReadBack(w: Written, f: Frame, net: NetFields, tcp: TcpPart)
    requires w.transport.OtherHeader? ==> w.transport.proto != 6 && w.transport.proto != 17
    requires var n := |f.bytes|;
             && net.l4 == (if TransportSeen(w, n, 0) then Some(TransportStart(w)) else None)
             && (net.l4.Some? ==> net.proto == ProtoOf(w.transport) && net.ip.headerLength == 4 * w.ip.ihl)
             && tcp.complete == TcpSeen(w, n) && (tcp.complete ==> tcp.fields.headerLength == 4 * w.transport.tcp.offset)
    ensures var start := PayloadStart(w, |f.bytes|);
            BodyIn(f, net, tcp) == Body(start, PayloadSize(start, IpStart(w), net.ip.length))
  {
    BodyPart(f, net, tcp, IpStart(w), PayloadStart(w, |f.bytes|));
  }

  lemma BodyReadBack(w: Written, n: nat, g: Garbage)
    requires Writable(w) && n <= |FrameBytes(w)|
    ensures Parse(Captured(w, n, g)).body == WrittenBody(w, n)
  {
    var f := Captured(w, n, g);
    NetReadBack(w, n, g);
    TcpReadBack(w, n, g);
    BodyPartReadBack(w, f, Parse(f).net.fields, Parse(f).tcp);
  }

  // ---------------------------------------------------------------------------------------------
  // The theorem
  // ---------------------------------------------------------------------------------------------

  lemma NetAnswers(w: Written, n: nat, g: Garbage, q: Query)
    requires GroupOf(q) == NetGroup
    ensures OfNet(WrittenNet(w, n, g), q) == Expected(w, n, g, q)
  {
  }

  lemma PortAnswers(w: Written, n: nat, g: Garbage, q: Query)
    requires GroupOf(q) == PortsGroup
    ensures OfPorts(WrittenNet(w, n, g),
                    PortFields(WrittenSrcPort(w, n), WrittenDstPort(w, n), WrittenUdpLength(w, n, g)), q)
            == Expected(w, n, g, q)
  {
  }

  lemma TcpAnswers(w: Written, n: nat, g: Garbage, q: Query)
    requires GroupOf(q) == TcpGroup
    ensures OfTcp(WrittenTcp(w, n, g), q) == Expected(w, n, g, q)
  {
    if w.transport.TcpHeader? {
      FlagBits(w.transport.tcp.flags);
    }
  }

  /**
   Every accessor answers what was written: for all values of the header fields, any number of tags, IPv4
   options, any bytes behind the headers, and wherever the capture ends.
   */
  lemma AccessorsAnswerWhatWasWritten(w: Written, n: nat, g: Garbage, q: Query)
    requires Writable(w) && n <= |FrameBytes(w)|
    ensures Eager(Parse(Captured(w, n, g)), q) == Expected(w, n, g, q)
  {
    NetReadBack(w, n, g);
    match GroupOf(q)
    case TypeGroup =>
    case LinkGroup =>
    case NetGroup => NetAnswers(w, n, g, q);
    case PortsGroup => PortsReadBack(w, n, g); PortAnswers(w, n, g, q);
    case TcpGroup => TcpReadBack(w, n, g); TcpAnswers(w, n, g, q);
    case BodyGroup => BodyReadBack(w, n, g);
  }

  /** In a whole frame no header is cut. */
  lemma WholeFrameIsNoRunt(w: Written, g: Garbage)
    requires Writable(w)
    ensures !Runt(Parse(Captured(w, |FrameBytes(w)|, g)))
  {
    var n := |FrameBytes(w)|;
    PartsOfFrame(w);
    NetReadBack(w, n, g);
    PortsReadBack(w, n, g);
    TcpReadBack(w, n, g);
  }

  /** And so after any history of accessor calls; `l3_protocol` too, unless the capture ends inside a header. */
  lemma HistoryAnswersWhatWasWritten(w: Written, n: nat, g: Garbage, history: seq<Query>, q: Query)
    requires Writable(w) && n <= |FrameBytes(w)|
    requires q == L3Protocol ==> n == |FrameBytes(w)|
    ensures AnswerAfter(Captured(w, n, g), history, q) == Expected(w, n, g, q)
  {
    var f := Captured(w, n, g);
    AccessorsAnswerWhatWasWritten(w, n, g, q);
    if q == L3Protocol {
      WholeFrameIsNoRunt(w, g);
      L3ProtocolIsStableExactlyWhen(f);
      assert L3After(f, history) == Number(Parse(f).link.kind);
    } else {
      HistoryDoesNotMatter(f, history, q);
    }
  }

  /** The answer of a packet object after a history of other calls. */
  function AnswerAfter(f: Frame, history: seq<Query>, q: Query): Answer {
    Ask(f.bytes, f.mac, History(f.bytes, f.mac, Empty(f.garbage), history), q)
  }
}
