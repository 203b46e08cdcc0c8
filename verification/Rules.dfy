/**
 Program rules: what each match condition asks of a frame's headers, and what the first match does.
 Ports and addresses are kept as they lie in the frame, in network byte order.
 */
module Rules {
  import opened Options
  import opened Words
  import opened Frames
  import opened Headers

  type Port = p: Bytes | |p| == 2 witness [0, 0]
  type Address4 = a: Bytes | |a| == 4 witness [0, 0, 0, 0]
  type Address6 = a: Bytes | |a| == 16 witness seq(16, _ => 0)

  /** A bitmap with one bit for each of the 65536 ports. */
  type PortSet = s: Bytes | |s| == 8192 witness seq(8192, _ => 0)

  datatype QuicFlow = QuicFlow(port: Port, cidOffset: nat, cidData: Bytes)
  datatype Tuple<Address> = Tuple(source: Address, destination: Address, sourcePort: Port, destinationPort: Port)

  datatype Match =
    | All
    | Udp
    | UdpDst(port: Port)
    | Ipv4DstMask(address4: Address4, mask4: Address4)
    | Ipv6DstMask(address6: Address6, mask6: Address6)
    | QuicFlowSrcCid(flow: QuicFlow)
    | QuicFlowDstCid(flow: QuicFlow)
    | Ipv4UdpTuple(tuple4: Tuple<Address4>)
    | Ipv6UdpTuple(tuple6: Tuple<Address6>)
    | UdpPortSet(ports: PortSet)
    | Ipv4UdpPortSet(address4: Address4, ports: PortSet)
    | Ipv6UdpPortSet(address6: Address6, ports: PortSet)
    | Ipv4TcpPortSet(address4: Address4, ports: PortSet)
    | Ipv6TcpPortSet(address6: Address6, ports: PortSet)
    | TcpDst(port: Port)
    | TcpQuicFlowSrcCid(flow: QuicFlow)
    | TcpQuicFlowDstCid(flow: QuicFlow)
    | TcpControlDst(port: Port)
    | IpNextHeader(nextHeader: byte)
    | InnerIpv4DstMaskUdp(address4: Address4, mask4: Address4)
    | InnerIpv6DstMaskUdp(address6: Address6, mask6: Address6)
    | Icmpv4EchoReplyIpDst(address4: Address4)
    | Icmpv6EchoReplyIpDst(address6: Address6)

  datatype Target = Xsk(socket: nat) | XskMapByQueueId(entry: Option<nat>)

  datatype Action = Drop | Pass | Redirect(target: Target) | L2Fwd | Ebpf

  datatype Rule = Rule(condition: Match, action: Action)

  datatype RxAction = RxDrop | RxPass | RxTx

  datatype Counter = InspectDropped | InspectPassed | InspectRedirected | InspectForwarded

  /** The verdict on a frame, the socket it is pended for, and the statistic it bumps. */
  datatype Outcome = Outcome(action: RxAction, redirect: Option<nat>, counter: Counter)

  /** `(ip & mask) == prefix`, octet by octet. */
  predicate PrefixMatch(ip: Bytes, prefix: Bytes, mask: Bytes)
    requires |ip| == |prefix| == |mask|
  {
    forall i :: 0 <= i < |ip| ==> BitAnd(ip[i] as nat, mask[i] as nat) == prefix[i] as nat
  }

  /** The bit of a port in a port set, indexed by the port's little-endian load. */
  predicate TestBit(ports: PortSet, port: Port) {
    var index := port[0] as nat + 256 * port[1] as nat;
    (ports[index / 8] as nat / Pow2(index % 8)) % 2 == 1
  }

  predicate CidMatch(wantsLong: bool, quic: Quic, flow: QuicFlow) {
    && wantsLong == quic.isLong
    && flow.cidOffset + |flow.cidData| <= |quic.cid|
    && quic.cid[flow.cidOffset..flow.cidOffset + |flow.cidData|] == flow.cidData
  }

  predicate IsControl(tcp: TcpHeader) {
    BitAnd(TcpFlags(tcp), 0x07) != 0
  }

  predicate UdpTo(h: Layers, port: Port) {
    h.udp.Some? && DestinationPort(h.udp.value) == port
  }

  predicate TcpTo(h: Layers, port: Port) {
    h.tcp.Some? && DestinationPort(h.tcp.value) == port
  }

  /** When a condition holds of a frame with these facts. */
  predicate Matches(m: Match, facts: Facts) {
    var h := facts.layers;
    match m
    case All => true
    case Udp => h.udp.Some?
    case UdpDst(port) => UdpTo(h, port)
    case Ipv4DstMask(address, mask) => h.ip4.Some? && PrefixMatch(Destination4(h.ip4.value), address, mask)
    case Ipv6DstMask(address, mask) => h.ip6.Some? && PrefixMatch(Destination6(h.ip6.value), address, mask)
    case QuicFlowSrcCid(flow) => UdpTo(h, flow.port) && facts.quic.Some? && CidMatch(true, facts.quic.value, flow)
    case QuicFlowDstCid(flow) => UdpTo(h, flow.port) && facts.quic.Some? && CidMatch(false, facts.quic.value, flow)
    case Ipv4UdpTuple(t) =>
      && h.udp.Some? && h.ip4.Some?
      && SourcePort(h.udp.value) == t.sourcePort && DestinationPort(h.udp.value) == t.destinationPort
      && Source4(h.ip4.value) == t.source && Destination4(h.ip4.value) == t.destination
    case Ipv6UdpTuple(t) =>
      && h.udp.Some? && h.ip6.Some?
      && SourcePort(h.udp.value) == t.sourcePort && DestinationPort(h.udp.value) == t.destinationPort
      && Source6(h.ip6.value) == t.source && Destination6(h.ip6.value) == t.destination
    case UdpPortSet(ports) => h.udp.Some? && TestBit(ports, DestinationPort(h.udp.value))
    case Ipv4UdpPortSet(address, ports) =>
      h.ip4.Some? && Destination4(h.ip4.value) == address && h.udp.Some? && TestBit(ports, DestinationPort(h.udp.value))
    case Ipv6UdpPortSet(address, ports) =>
      h.ip6.Some? && Destination6(h.ip6.value) == address && h.udp.Some? && TestBit(ports, DestinationPort(h.udp.value))
    case Ipv4TcpPortSet(address, ports) =>
      h.ip4.Some? && Destination4(h.ip4.value) == address && h.tcp.Some? && TestBit(ports, DestinationPort(h.tcp.value))
    case Ipv6TcpPortSet(address, ports) =>
      h.ip6.Some? && Destination6(h.ip6.value) == address && h.tcp.Some? && TestBit(ports, DestinationPort(h.tcp.value))
    case TcpDst(port) => TcpTo(h, port)
    case TcpQuicFlowSrcCid(flow) => TcpTo(h, flow.port) && facts.quic.Some? && CidMatch(true, facts.quic.value, flow)
    case TcpQuicFlowDstCid(flow) => TcpTo(h, flow.port) && facts.quic.Some? && CidMatch(false, facts.quic.value, flow)
    case TcpControlDst(port) => TcpTo(h, port) && IsControl(h.tcp.value)
    case IpNextHeader(next) =>
      (h.ip4.Some? && Protocol(h.ip4.value) == next) || (h.ip6.Some? && NextHeader(h.ip6.value) == next)
    case InnerIpv4DstMaskUdp(address, mask) =>
      && facts.inner.ip4.Some? && Protocol(facts.inner.ip4.value) == PROTO_UDP
      && PrefixMatch(Destination4(facts.inner.ip4.value), address, mask)
    case InnerIpv6DstMaskUdp(address, mask) =>
      && facts.inner.ip6.Some? && NextHeader(facts.inner.ip6.value) == PROTO_UDP
      && PrefixMatch(Destination6(facts.inner.ip6.value), address, mask)
    case Icmpv4EchoReplyIpDst(address) =>
      && h.ip4.Some? && facts.icmp.Some? && facts.icmp.value[0] == 0 && facts.icmp.value[1] == 0
      && Destination4(h.ip4.value) == address
    case Icmpv6EchoReplyIpDst(address) =>
      && h.ip6.Some? && facts.icmp.Some? && facts.icmp.value[0] == 129 && facts.icmp.value[1] == 0
      && Destination6(h.ip6.value) == address
  }

  function Apply(action: Action, hasEthernet: bool): Outcome {
    match action
    case Redirect(Xsk(socket)) => Outcome(RxDrop, Some(socket), InspectRedirected)
    case Redirect(XskMapByQueueId(Some(socket))) => Outcome(RxDrop, Some(socket), InspectRedirected)
    case Redirect(XskMapByQueueId(None)) => Outcome(RxDrop, None, InspectDropped)
    case Drop => Outcome(RxDrop, None, InspectDropped)
    case Ebpf => Outcome(RxDrop, None, InspectDropped)
    case Pass => Outcome(RxPass, None, InspectPassed)
    case L2Fwd => if hasEthernet then Outcome(RxTx, None, InspectForwarded) else Outcome(RxDrop, None, InspectDropped)
  }

  /** The first rule whose condition holds decides; with none, the frame passes. */
  function Decide(rules: seq<Rule>, facts: Facts): Outcome {
    if rules == [] then Outcome(RxPass, None, InspectPassed)
    else if Matches(rules[0].condition, facts) then Apply(rules[0].action, facts.layers.eth.Some?)
    else Decide(rules[1..], facts)
  }

  /** `Decide` picks the lowest matching index. */
  lemma {:induction false} DecideFirst(rules: seq<Rule>, facts: Facts, i: nat)
    requires i <= |rules|
    requires forall j :: 0 <= j < i ==> !Matches(rules[j].condition, facts)
    ensures Decide(rules, facts) == Decide(rules[i..], facts)
    ensures i < |rules| && Matches(rules[i].condition, facts) ==>
              Decide(rules, facts) == Apply(rules[i].action, facts.layers.eth.Some?)
    ensures i == |rules| ==> Decide(rules, facts) == Outcome(RxPass, None, InspectPassed)
    decreases i
  {
    if i > 0 {
      DecideFirst(rules[1..], facts, i - 1);
      assert rules[1..][i - 1..] == rules[i..];
    }
  }
}
