/** The packet object: the parsing stages write its fields, and the accessors run the stages. */
module PacketClass {
  import opened Options
  import opened WireFormat
  import opened FlowRecords
  import opened PacketFormat
  import opened PacketStages

  class Packet {
    const bytes: seq<byte>
    const mac: int
    ghost const garbage: Garbage   // what the uninitialised fields hold at first
    var machdrParsed: bool
    var iphdrParsed: bool
    var portsParsed: bool
    var l4hdrParsed: bool
    var pktType: nat
    var iphdr: Option<nat>         // header pointers are offsets into the buffer
    var net: NetFields             // the addresses and the protocol of m_key, m_ip* and m_l4hdr_ptr
    var ports: PortFields          // the ports of m_key and m_udplen
    var tcp: TcpFields             // m_tcp*
    var body: PacketFormat.Body    // m_l4payload_ptr and m_payload_len

    ghost function TheFrame(): Frame { Frame(bytes, mac, garbage) }

    ghost function Now(): Cache
      reads this
    {
      Cache(Flags(machdrParsed, iphdrParsed, portsParsed, l4hdrParsed), pktType, iphdr, net, ports, tcp, body)
    }

    ghost predicate Valid()
      reads this
    {
      Agrees(Parse(TheFrame()), Empty(garbage), Now())
    }

    constructor (bytes: seq<byte>, mac: int, garbage: Garbage)
      ensures Valid() && TheFrame() == Frame(bytes, mac, garbage) && Now() == Empty(garbage)
    {
      this.bytes, this.mac, this.garbage := bytes, mac, garbage;
      machdrParsed, iphdrParsed, portsParsed, l4hdrParsed := false, false, false, false;
      pktType, iphdr := garbage.pktType, None;
      net := NetFields(0, 0, 0, garbage.ip, None);
      ports, tcp, body := PortFields(0, 0, garbage.udpLength), garbage.tcp, Body(None, 0);
    }

    method ParseMac()
      requires Valid()
      modifies this
      ensures Valid() && Now() == MacStage(bytes, mac, old(Now()))
    {
      MacStageAgrees(TheFrame(), Now());
      if machdrParsed {
        return;
      }
      var off, kind := ReadLink();
      pktType := kind;
      if kind == TYPE_IP4 {
        iphdr := Some(off);
      } else {
        iphdrParsed, portsParsed, l4hdrParsed := true, true, true;
      }
      machdrParsed := true;
    }

    /** The link-layer part of `parse_mac`, with the loop over 802.1Q tags. */
    method ReadLink() returns (off: nat, kind: nat)
      ensures LinkAt(kind, off) == LinkOf(bytes, mac, pktType)
    {
      off, kind := 0, pktType;
      if mac == ETHERNET {
        if |bytes| < ETH_SIZE {
          return 0, RUNT_L2;
        }
        kind, off := U16At(bytes, 12), ETH_SIZE;
        while kind == TYPE_1Q
          invariant ETH_SIZE <= off <= |bytes| && SkipTags(bytes, off, kind) == LinkOf(bytes, mac, pktType)
          decreases |bytes| - off
        {
          if |bytes| - off < ETH_SIZE {
            return off, RUNT_L2;
          }
          kind, off := U16At(bytes, off + 2), off + TAG_SIZE;
        }
      } else if mac == RAW_IP {
        kind := TYPE_IP4;
      }
    }

    method ParseIpHeader()
      requires Valid()
      modifies this
      ensures Valid() && iphdrParsed && Now() == IpStage(bytes, mac, old(Now()))
    {
      IpStageAgrees(TheFrame(), Now());
      if iphdrParsed {
        return;
      }
      ParseMac();
      FillIp();
    }

    method FillIp()
      requires iphdr.Some? ==> iphdr.value <= |bytes|
      modifies this`net, this`pktType, this`iphdrParsed, this`portsParsed, this`l4hdrParsed
      ensures Now() == IpBody(bytes, old(Now()))
    {
      if iphdr.Some? {
        var o := iphdr.value;
        var left: nat := |bytes| - o;
        if IP4_SIZE <= left {
          var headerLength := bytes[o] % 16 * 4;
          net := NetFields(U32At(bytes, o + 12), U32At(bytes, o + 16), bytes[o + 9],
                           IpFields(bytes[o + 1], bytes[o + 8], U16At(bytes, o + 2), headerLength), net.l4);
          if headerLength <= left {
            net := net.(l4 := Some(o + headerLength));
          }
        } else {
          pktType := RUNT_L3;
          portsParsed, l4hdrParsed := true, true;
        }
      }
      iphdrParsed := true;
    }

    method ParsePorts()
      requires Valid()
      modifies this
      ensures Valid() && portsParsed && Now() == PortsStage(bytes, mac, old(Now()))
    {
      PortsStageAgrees(TheFrame(), Now());
      if portsParsed {
        return;
      }
      ParseIpHeader();
      FillPorts();
    }

    method FillPorts()
      requires net.l4.Some? ==> net.l4.value <= |bytes|
      modifies this`ports, this`body, this`pktType, this`portsParsed, this`l4hdrParsed
      ensures Now() == PortsBody(bytes, old(Now()))
    {
      if net.l4.Some? && (net.proto == TCP || net.proto == UDP) {
        var o := net.l4.value;
        var left: nat := |bytes| - o;
        if PORTS_SIZE <= left {
          ports := ports.(src := U16At(bytes, o), dst := U16At(bytes, o + 2));
          if net.proto == UDP && UDP_SIZE <= left {
            ports := ports.(udpLength := U16At(bytes, o + 4));
            body := Body(Some(o + UDP_SIZE), (net.ip.length - net.ip.headerLength - UDP_SIZE) % U64);
          }
        } else {
          pktType := RUNT_L4;
          l4hdrParsed := true;
        }
      }
      portsParsed := true;
    }

    method ParseTcpHeader()
      requires Valid()
      modifies this
      ensures Valid() && l4hdrParsed && Now() == TcpStage(bytes, mac, old(Now()))
    {
      TcpStageAgrees(TheFrame(), Now());
      if l4hdrParsed {
        return;
      }
      ParseIpHeader();
      FillTcp();
    }

    method FillTcp()
      requires net.l4.Some? ==> net.l4.value <= |bytes|
      modifies this`ports, this`tcp, this`body, this`pktType, this`l4hdrParsed
      ensures Now() == TcpBody(bytes, old(Now()))
    {
      if net.l4.Some? && net.proto == TCP {
        var o := net.l4.value;
        var left: nat := |bytes| - o;
        if TCP_SIZE <= left {
          ports := ports.(src := U16At(bytes, o), dst := U16At(bytes, o + 2));
          tcp := TcpFields(bytes[o + 13], U32At(bytes, o + 4), U32At(bytes, o + 8), bytes[o + 16], bytes[o + 14],
                           bytes[o + 12] / 16 * 4);
          if tcp.headerLength <= left {
            body := Body(Some(o + tcp.headerLength),
                         (net.ip.length - net.ip.headerLength - tcp.headerLength) % U64);
          }
        } else {
          pktType := RUNT_L4;
        }
      }
      l4hdrParsed := true;
    }

    /** `payload` */
    method ParsePayload()
      requires Valid()
      modifies this
      ensures Valid() && Now() == BodyStage(bytes, mac, old(Now()))
    {
      ParseIpHeader();
      if net.proto == TCP {
        ParseTcpHeader();
      } else {
        ParsePorts();
      }
    }

    /** The accessors: each runs the stage it needs and returns cached fields. */
    method Access(q: Query) returns (a: Answer)
      requires Valid()
      modifies this
      ensures Valid() && Now() == After(bytes, mac, old(Now()), GroupOf(q))
      ensures a == Read(Now(), q)
    {
      match GroupOf(q)
      case TypeGroup => ParseMac(); a := Number(pktType);
      case LinkGroup => ParseMac(); a := Maybe(iphdr);
      case NetGroup => ParseIpHeader(); a := OfNet(net, q);
      case PortsGroup => ParsePorts(); a := OfPorts(net, ports, q);
      case TcpGroup => ParseTcpHeader(); a := OfTcp(tcp, q);
      case BodyGroup => ParsePayload(); a := OfBody(body, q);
    }

    /** Any sequence of accessor calls on a packet in any state. */
    method AccessAll(qs: seq<Query>) returns (answers: seq<Answer>)
      requires Valid()
      modifies this
      ensures Valid() && |answers| == |qs|
      ensures forall i :: 0 <= i < |qs| && qs[i] != L3Protocol ==> answers[i] == Eager(Parse(TheFrame()), qs[i])
    {
      answers := [];
      for i := 0 to |qs|
        invariant Valid() && |answers| == i
        invariant forall k :: 0 <= k < i && qs[k] != L3Protocol ==> answers[k] == Eager(Parse(TheFrame()), qs[k])
      {
        ghost var before := Now();
        var a := Access(qs[i]);
        if qs[i] != L3Protocol {
          AskIsEager(TheFrame(), before, qs[i]);
        }
        answers := answers + [a];
      }
    }
  }
}
