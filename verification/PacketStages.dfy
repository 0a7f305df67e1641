/**
 Parsing on demand, on values: four stages fill a cache, each at most once, and accessors run the
 stage they need. Whatever was asked before, an accessor answers what the eager parse gives.
 */
module PacketStages {
  import opened Options
  import opened WireFormat
  import opened PacketFormat

  datatype Flags = Flags(mac: bool, ip: bool, ports: bool, l4: bool)

  /** The cached fields, grouped by the stage that fills them. */
  datatype Cache = Cache(done: Flags, pktType: nat, iphdr: Option<nat>, net: NetFields, ports: PortFields,
                         tcp: TcpFields, body: Body)

  function Empty(g: Garbage): Cache {
    Cache(Flags(false, false, false, false), g.pktType, None, NetFields(0, 0, 0, g.ip, None),
          PortFields(0, 0, g.udpLength), g.tcp, Body(None, 0))
  }

  /** `parse_mac` */
  function MacStage(b: seq<byte>, mac: int, c: Cache): Cache {
    if c.done.mac then c
    else
      var link := LinkOf(b, mac, c.pktType);
      c.(pktType := link.kind, iphdr := if link.ip.Some? then link.ip else c.iphdr,
         done := if link.ip.Some? then c.done.(mac := true) else Flags(true, true, true, true))
  }

  function IpBody(b: seq<byte>, c: Cache): Cache {
    if c.iphdr.None? then c.(done := c.done.(ip := true))
    else if c.iphdr.value + IP4_SIZE <= |b| then
      var n := IpAt(b, c.iphdr.value);
      c.(net := n.(l4 := if n.l4.Some? then n.l4 else c.net.l4), done := c.done.(ip := true))
    else c.(pktType := RUNT_L3, done := Flags(c.done.mac, true, true, true))
  }

  /** `parse_iphdr` */
  function IpStage(b: seq<byte>, mac: int, c: Cache): Cache {
    if c.done.ip then c else IpBody(b, MacStage(b, mac, c))
  }

  function PortsBody(b: seq<byte>, c: Cache): Cache {
    if !HasPorts(c.net) then c.(done := c.done.(ports := true))
    else
      var o := c.net.l4.value;
      if o + PORTS_SIZE <= |b| then
        c.(ports := PortsAt(b, o, c.net.proto, c.ports.udpLength),
           body := if c.net.proto == UDP && o + UDP_SIZE <= |b| then BodyAt(c.net, o, UDP_SIZE) else c.body,
           done := c.done.(ports := true))
      else c.(pktType := RUNT_L4, done := c.done.(ports := true, l4 := true))
  }

  /** `parse_ports` */
  function PortsStage(b: seq<byte>, mac: int, c: Cache): Cache {
    if c.done.ports then c else PortsBody(b, IpStage(b, mac, c))
  }

  function TcpBody(b: seq<byte>, c: Cache): Cache {
    if !HasTcp(c.net) then c.(done := c.done.(l4 := true))
    else
      var o := c.net.l4.value;
      if o + TCP_SIZE <= |b| then
        var t := TcpAt(b, o);
        c.(ports := c.ports.(src := U16At(b, o), dst := U16At(b, o + 2)), tcp := t,
           body := if o + t.headerLength <= |b| then BodyAt(c.net, o, t.headerLength) else c.body,
           done := c.done.(l4 := true))
      else c.(pktType := RUNT_L4, done := c.done.(l4 := true))
  }

  /** `parse_tcphdr` */
  function TcpStage(b: seq<byte>, mac: int, c: Cache): Cache {
    if c.done.l4 then c else TcpBody(b, IpStage(b, mac, c))
  }

  /** `payload`: the stage depends on the protocol. */
  function BodyStage(b: seq<byte>, mac: int, c: Cache): Cache {
    var c' := IpStage(b, mac, c);
    if c'.net.proto == TCP then TcpStage(b, mac, c') else PortsStage(b, mac, c')
  }

  /** The cache after an accessor of the given group ran. */
  function After(b: seq<byte>, mac: int, c: Cache, g: Group): Cache {
    match g
    case TypeGroup | LinkGroup => MacStage(b, mac, c)
    case NetGroup => IpStage(b, mac, c)
    case PortsGroup => PortsStage(b, mac, c)
    case TcpGroup => TcpStage(b, mac, c)
    case BodyGroup => BodyStage(b, mac, c)
  }

  /** What an accessor reads from the cache. */
  function Read(c: Cache, q: Query): Answer {
    match GroupOf(q)
    case TypeGroup => Number(c.pktType)
    case LinkGroup => Maybe(c.iphdr)
    case NetGroup => OfNet(c.net, q)
    case PortsGroup => OfPorts(c.net, c.ports, q)
    case TcpGroup => OfTcp(c.tcp, q)
    case BodyGroup => OfBody(c.body, q)
  }

  function Ask(b: seq<byte>, mac: int, c: Cache, q: Query): Answer { Read(After(b, mac, c, GroupOf(q)), q) }

  function History(b: seq<byte>, mac: int, c: Cache, qs: seq<Query>): Cache {
    if qs == [] then c else After(b, mac, History(b, mac, c, qs[..|qs| - 1]), GroupOf(qs[|qs| - 1]))
  }

  // ---------------------------------------------------------------------------------------------
  // The invariant of the cache
  // ---------------------------------------------------------------------------------------------

  /** The packet type once the link layer is parsed; later stages may have marked the packet as a runt. */
  predicate TypeOk(v: View, c: Cache) {
    && (v.link.ip.None? ==> c.pktType == v.link.kind)
    && (v.link.ip.Some? && !v.net.complete ==> c.pktType == if c.done.ip then RUNT_L3 else TYPE_IP4)
    && (v.net.complete ==> c.pktType == if (c.done.ports && v.ports.runt) || (c.done.l4 && v.tcp.runt)
                                        then RUNT_L4 else TYPE_IP4)
  }

  /** Later stages are only done after earlier ones; without a usable header the rest is marked as done. */
  predicate FlagsOk(v: View, d: Flags) {
    && (d.ip ==> d.mac) && (d.ports || d.l4 ==> d.ip)
    && (d.mac && v.link.ip.None? ==> d.ip && d.ports && d.l4)
    && (d.ip && !v.net.complete ==> d.ports && d.l4)
    && (d.ports && v.ports.runt ==> d.l4)
  }

  predicate PortsOk(v: View, e: Cache, c: Cache) {
    && c.ports.udpLength == (if c.done.ports then v.ports.fields.udpLength else e.ports.udpLength)
    && (if c.done.ports || (c.done.l4 && v.tcp.complete)
        then c.ports.src == v.ports.fields.src && c.ports.dst == v.ports.fields.dst
        else c.ports.src == 0 && c.ports.dst == 0)
  }

  predicate BodyKnown(v: View, d: Flags) { if v.net.fields.proto == TCP then d.l4 else d.ports }

  /** Each group of fields holds what the eager parse gives once its stage is done, and is untouched before. */
  predicate Agrees(v: View, e: Cache, c: Cache) {
    && FlagsOk(v, c.done)
    && c.iphdr == (if c.done.mac then v.link.ip else None)
    && (if c.done.mac then TypeOk(v, c) else c.pktType == e.pktType)
    && c.net == (if c.done.ip then v.net.fields else e.net)
    && PortsOk(v, e, c)
    && c.tcp == (if c.done.l4 then v.tcp.fields else e.tcp)
    && c.body == (if BodyKnown(v, c.done) then v.body else Body(None, 0))
  }

  lemma MacStageAgrees(f: Frame, c: Cache)
    requires Agrees(Parse(f), Empty(f.garbage), c)
    ensures Agrees(Parse(f), Empty(f.garbage), MacStage(f.bytes, f.mac, c))
  {
  }

  lemma IpBodyAgrees(f: Frame, c: Cache)
    requires Agrees(Parse(f), Empty(f.garbage), c) && c.done.mac && (!c.done.ip || c.iphdr.None?)
    ensures Agrees(Parse(f), Empty(f.garbage), IpBody(f.bytes, c))
  {
  }

  lemma IpStageAgrees(f: Frame, c: Cache)
    requires Agrees(Parse(f), Empty(f.garbage), c)
    ensures Agrees(Parse(f), Empty(f.garbage), IpStage(f.bytes, f.mac, c)) && IpStage(f.bytes, f.mac, c).done.ip
  {
    if !c.done.ip {
      MacStageAgrees(f, c);
      IpBodyAgrees(f, MacStage(f.bytes, f.mac, c));
    }
  }

  lemma PortsBodyAgrees(f: Frame, c: Cache)
    requires Agrees(Parse(f), Empty(f.garbage), c) && c.done.ip
    ensures Agrees(Parse(f), Empty(f.garbage), PortsBody(f.bytes, c))
  {
  }

  lemma PortsStageAgrees(f: Frame, c: Cache)
    requires Agrees(Parse(f), Empty(f.garbage), c)
    ensures Agrees(Parse(f), Empty(f.garbage), PortsStage(f.bytes, f.mac, c)) && PortsStage(f.bytes, f.mac, c).done.ports
  {
    if !c.done.ports {
      IpStageAgrees(f, c);
      PortsBodyAgrees(f, IpStage(f.bytes, f.mac, c));
    }
  }

  lemma TcpBodyAgrees(f: Frame, c: Cache)
    requires Agrees(Parse(f), Empty(f.garbage), c) && c.done.ip
    ensures Agrees(Parse(f), Empty(f.garbage), TcpBody(f.bytes, c))
  {
  }

  lemma TcpStageAgrees(f: Frame, c: Cache)
    requires Agrees(Parse(f), Empty(f.garbage), c)
    ensures Agrees(Parse(f), Empty(f.garbage), TcpStage(f.bytes, f.mac, c)) && TcpStage(f.bytes, f.mac, c).done.l4
  {
    if !c.done.l4 {
      IpStageAgrees(f, c);
      TcpBodyAgrees(f, IpStage(f.bytes, f.mac, c));
    }
  }

  lemma BodyStageAgrees(f: Frame, c: Cache)
    requires Agrees(Parse(f), Empty(f.garbage), c)
    ensures var c' := BodyStage(f.bytes, f.mac, c);
            Agrees(Parse(f), Empty(f.garbage), c') && c'.body == Parse(f).body
  {
    var c' := IpStage(f.bytes, f.mac, c);
    IpStageAgrees(f, c);
    PortsStageAgrees(f, c');
    TcpStageAgrees(f, c');
  }

  lemma AfterAgrees(f: Frame, c: Cache, g: Group)
    requires Agrees(Parse(f), Empty(f.garbage), c)
    ensures Agrees(Parse(f), Empty(f.garbage), After(f.bytes, f.mac, c, g))
  {
    match g
    case TypeGroup | LinkGroup => MacStageAgrees(f, c);
    case NetGroup => IpStageAgrees(f, c);
    case PortsGroup => PortsStageAgrees(f, c);
    case TcpGroup => TcpStageAgrees(f, c);
    case BodyGroup => BodyStageAgrees(f, c);
  }

  lemma AskIsEager(f: Frame, c: Cache, q: Query)
    requires Agrees(Parse(f), Empty(f.garbage), c) && q != L3Protocol
    ensures Ask(f.bytes, f.mac, c, q) == Eager(Parse(f), q)
  {
    match GroupOf(q)
    case TypeGroup => assert false;
    case LinkGroup => MacStageAgrees(f, c);
    case NetGroup => IpStageAgrees(f, c);
    case PortsGroup => PortsStageAgrees(f, c);
    case TcpGroup => TcpStageAgrees(f, c);
    case BodyGroup => BodyStageAgrees(f, c);
  }

  lemma {:induction false} HistoryAgrees(f: Frame, history: seq<Query>)
    ensures Agrees(Parse(f), Empty(f.garbage), History(f.bytes, f.mac, Empty(f.garbage), history))
    decreases |history|
  {
    if history != [] {
      var before := history[..|history| - 1];
      HistoryAgrees(f, before);
      AfterAgrees(f, History(f.bytes, f.mac, Empty(f.garbage), before), GroupOf(history[|history| - 1]));
    }
  }

  // ---------------------------------------------------------------------------------------------
  // The laws
  // ---------------------------------------------------------------------------------------------

  /** Whatever was asked before, an accessor other than `l3_protocol` answers what the eager parse gives. */
  lemma HistoryDoesNotMatter(f: Frame, history: seq<Query>, q: Query)
    requires q != L3Protocol
    ensures Ask(f.bytes, f.mac, History(f.bytes, f.mac, Empty(f.garbage), history), q) == Eager(Parse(f), q)
  {
    HistoryAgrees(f, history);
    AskIsEager(f, History(f.bytes, f.mac, Empty(f.garbage), history), q);
  }

  /** At all times the header pointers are ordered and lie within the captured bytes. */
  lemma PointersInBounds(f: Frame, history: seq<Query>)
    ensures var c := History(f.bytes, f.mac, Empty(f.garbage), history);
            && (c.iphdr.Some? ==> c.iphdr.value <= |f.bytes|)
            && (c.net.l4.Some? ==> c.iphdr.Some? && c.iphdr.value <= c.net.l4.value <= |f.bytes|)
            && (c.body.at.Some? ==> c.net.l4.Some? && c.net.l4.value <= c.body.at.value <= |f.bytes|)
  {
    HistoryAgrees(f, history);
  }

  /** An IPv4 header, the ports or a TCP header were announced but not captured. */
  predicate Runt(v: View) { (v.link.ip.Some? && !v.net.complete) || v.ports.runt || v.tcp.runt }

  function L3After(f: Frame, history: seq<Query>): Answer {
    Ask(f.bytes, f.mac, History(f.bytes, f.mac, Empty(f.garbage), history), L3Protocol)
  }

  /** `l3_protocol` answers the link-layer type after every history exactly when the frame is not a runt. */
  lemma L3ProtocolIsStableExactlyWhen(f: Frame)
    ensures (forall history :: L3After(f, history) == Number(Parse(f).link.kind)) <==> !Runt(Parse(f))
  {
    forall history | !Runt(Parse(f)) ensures L3After(f, history) == Number(Parse(f).link.kind) {
      HistoryAgrees(f, history);
      MacStageAgrees(f, History(f.bytes, f.mac, Empty(f.garbage), history));
    }
    if Runt(Parse(f)) {
      var q := if Parse(f).ports.runt then SrcPort else if Parse(f).tcp.runt then TcpSeq else IpSrc;
      RuntShows(f, q);
      assert L3After(f, [q]) != Number(Parse(f).link.kind);
    }
  }

  /** The stage that misses a header says so: 0xFFF3 for the IPv4 header, 0xFFF4 for one behind it. */
  lemma RuntShows(f: Frame, q: Query)
    requires Runt(Parse(f))
    requires q == if Parse(f).ports.runt then SrcPort else if Parse(f).tcp.runt then TcpSeq else IpSrc
    ensures L3After(f, [q]) == Number(if q == IpSrc then 0xFFF3 else 0xFFF4) && Parse(f).link.kind == 0x0800
  {
    var e := Empty(f.garbage);
    var c := After(f.bytes, f.mac, e, GroupOf(q));
    assert [q][..0] == [] && History(f.bytes, f.mac, e, [q]) == c;
    IpStageAgrees(f, e);
    PortsStageAgrees(f, e);
    TcpStageAgrees(f, e);
    MacStageAgrees(f, c);
  }

  /** A frame that shows it: an Ethernet header announcing IPv4 and nothing behind it. */
  lemma L3ProtocolChanges(g: Garbage) returns (f: Frame)
    ensures L3After(f, []) == Number(TYPE_IP4) && L3After(f, [IpSrc]) == Number(RUNT_L3)
  {
    f := Frame([0, 0, 0, 0, 0, 0, 0, 0, 0, 0, 0, 0, 8, 0], ETHERNET, g);
    assert U16At(f.bytes, 12) == TYPE_IP4;
    assert [IpSrc][..0] == [];
  }
}
