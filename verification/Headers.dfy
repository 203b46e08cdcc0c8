/**
 The protocol headers a rule can look at, read off the flat bytes of a frame: Ethernet II, IPv4
 (section 3.1 of RFC 791), IPv6 (section 3 of RFC 8200), UDP (RFC 768), TCP (section 3.1 of
 RFC 9293) and the version-independent QUIC header (sections 5.1 and 5.2 of RFC 8999).
 These functions know nothing of buffers; they are the reference the fragmented parser is held to.
 */
module Headers {
  import opened Options
  import opened Words
  import opened Frames

  const ETHERNET_SIZE: nat := 14
  const IPV4_SIZE: nat := 20
  const IPV6_SIZE: nat := 40
  const UDP_SIZE: nat := 8
  const TCP_SIZE: nat := 20
  const ICMP_SIZE: nat := 4
  const QUIC_LONG_SIZE: nat := 6

  /** The limit on connection IDs the driver is built with; all that is proved holds for any other. */
  const MAX_CID: nat := 20

  const ETHERTYPE_IPV4: Bytes := [0x08, 0x00]
  const ETHERTYPE_IPV6: Bytes := [0x86, 0xDD]

  const PROTO_IPV4: byte := 4
  const PROTO_TCP: byte := 6
  const PROTO_UDP: byte := 17
  const PROTO_IPV6: byte := 41

  type EthernetHeader = h: Bytes | |h| == 14 witness seq(14, _ => 0)
  type Ipv4Header = h: Bytes | |h| == 20 witness seq(20, _ => 0)
  type Ipv6Header = h: Bytes | |h| == 40 witness seq(40, _ => 0)
  type UdpHeader = h: Bytes | |h| == 8 witness seq(8, _ => 0)
  type TcpHeader = h: Bytes | |h| == 20 witness seq(20, _ => 0)
  type IcmpHeader = h: Bytes | |h| == 4 witness seq(4, _ => 0)

  function EtherType(h: EthernetHeader): Bytes { h[12..14] }

  function Ihl(h: Ipv4Header): nat { (h[0] % 16) as nat }
  function Version(b: byte): nat { (b / 16) as nat }
  function Protocol(h: Ipv4Header): byte { h[9] }
  function Source4(h: Ipv4Header): Bytes { h[12..16] }
  function Destination4(h: Ipv4Header): Bytes { h[16..20] }

  function NextHeader(h: Ipv6Header): byte { h[6] }
  function Source6(h: Ipv6Header): Bytes { h[8..24] }
  function Destination6(h: Ipv6Header): Bytes { h[24..40] }

  function SourcePort(h: Bytes): Bytes
    requires |h| >= 4
  { h[0..2] }

  function DestinationPort(h: Bytes): Bytes
    requires |h| >= 4
  { h[2..4] }

  /** The TCP data offset in bytes. */
  function TcpLength(h: TcpHeader): nat { 4 * (h[12] / 16) as nat }
  function TcpFlags(h: TcpHeader): nat { h[13] as nat }

  /** What is known of a frame through layer 4, and the bytes behind the innermost header. */
  datatype Layers = Layers(
    eth: Option<EthernetHeader>,
    ip4: Option<Ipv4Header>,
    ip6: Option<Ipv6Header>,
    udp: Option<UdpHeader>,
    tcp: Option<TcpHeader>,
    transport: Option<Bytes>,
    ipPayload: Option<Bytes>)

  const NO_LAYERS := Layers(None, None, None, None, None, None, None)

  function FlatTransport(h: Layers, proto: byte, rest: Bytes): Layers {
    if proto == PROTO_UDP then
      if |rest| < UDP_SIZE then h
      else h.(udp := Some(rest[..UDP_SIZE]), transport := Some(rest[UDP_SIZE..]))
    else if proto == PROTO_TCP then
      if |rest| < TCP_SIZE || |rest| < TcpLength(rest[..TCP_SIZE]) then h
      else h.(tcp := Some(rest[..TCP_SIZE]), transport := Some(rest[TcpLength(rest[..TCP_SIZE])..]))
    else h.(ipPayload := Some(rest))
  }

  function FlatIp(h: Layers, etherType: Bytes, rest: Bytes): Layers {
    if etherType == ETHERTYPE_IPV4 then
      if |rest| < IPV4_SIZE || Ihl(rest[..IPV4_SIZE]) != 5 then h
      else FlatTransport(h.(ip4 := Some(rest[..IPV4_SIZE])), Protocol(rest[..IPV4_SIZE]), rest[IPV4_SIZE..])
    else if etherType == ETHERTYPE_IPV6 then
      if |rest| < IPV6_SIZE then h
      else FlatTransport(h.(ip6 := Some(rest[..IPV6_SIZE])), NextHeader(rest[..IPV6_SIZE]), rest[IPV6_SIZE..])
    else h
  }

  /** The headers of a frame that lies in one piece. */
  function FlatLayers(flat: Bytes): Layers {
    if |flat| < ETHERNET_SIZE then NO_LAYERS
    else FlatIp(NO_LAYERS.(eth := Some(flat[..ETHERNET_SIZE])), EtherType(flat[..ETHERNET_SIZE]), flat[ETHERNET_SIZE..])
  }

  datatype Quic = Quic(isLong: bool, cid: Bytes)

  /** Room for a header that is copied together: a long header with two connection IDs of the limit. */
  function QuicStorage(maxCid: nat): nat {
    QUIC_LONG_SIZE + 1 + 2 * maxCid
  }

  /** Length of a long QUIC header through its source connection ID, once its lengths are present. */
  function QuicLongLength(p: Bytes): nat
    requires |p| > QUIC_LONG_SIZE && |p| > QUIC_LONG_SIZE + p[5] as nat
  {
    QUIC_LONG_SIZE + 1 + p[5] as nat + p[QUIC_LONG_SIZE + p[5] as nat] as nat
  }

  ghost predicate IsLongQuic(p: Bytes) {
    && |p| > QUIC_LONG_SIZE
    && p[0] >= 128
    && |p| > QUIC_LONG_SIZE + p[5] as nat
    && |p| >= QuicLongLength(p)
  }

  /** The source connection ID of a long header, or up to `maxCid` bytes of destination ID of a short one. */
  function FlatQuic(p: Bytes, maxCid: nat): Option<Quic> {
    if |p| == 0 then None
    else if p[0] < 128 then Some(Quic(false, p[1..1 + Min(|p| - 1, maxCid)]))
    else if |p| <= QUIC_LONG_SIZE || |p| <= QUIC_LONG_SIZE + p[5] as nat || |p| < QuicLongLength(p) then None
    else Some(Quic(true, p[QUIC_LONG_SIZE + 1 + p[5] as nat..QuicLongLength(p)]))
  }

  /** The inner IP header of an IP-in-IP payload. */
  datatype Inner = Inner(ip4: Option<Ipv4Header>, ip6: Option<Ipv6Header>)

  function FlatInner(proto: byte, p: Bytes): Inner {
    if proto == PROTO_IPV4 && |p| >= IPV4_SIZE && Version(p[0]) == 4 && Ihl(p[..IPV4_SIZE]) == 5 then
      Inner(Some(p[..IPV4_SIZE]), None)
    else if proto == PROTO_IPV6 && |p| >= IPV6_SIZE && Version(p[0]) == 6 then
      Inner(None, Some(p[..IPV6_SIZE]))
    else Inner(None, None)
  }

  /** The protocol number the IP header carries; only read when there is one. */
  function OuterProtocol(h: Layers): byte {
    if h.ip4.Some? then Protocol(h.ip4.value)
    else if h.ip6.Some? then NextHeader(h.ip6.value)
    else 255
  }

  function FlatIcmp(p: Bytes): Option<IcmpHeader> {
    if |p| < ICMP_SIZE then None else Some(p[..ICMP_SIZE])
  }

  /** Everything any rule can ask about a frame. */
  datatype Facts = Facts(layers: Layers, quic: Option<Quic>, inner: Inner, icmp: Option<IcmpHeader>)

  function FlatFacts(flat: Bytes, maxCid: nat): Facts {
    var h := FlatLayers(flat);
    Facts(
      h,
      if h.transport.Some? then FlatQuic(h.transport.value, maxCid) else None,
      if h.ipPayload.Some? then FlatInner(OuterProtocol(h), h.ipPayload.value) else Inner(None, None),
      if h.ipPayload.Some? then FlatIcmp(h.ipPayload.value) else None)
  }

  /** Layers are nested: each one found lies behind the one that announces it, and the payload is a
      suffix of the frame. */
  lemma {:induction false} LayersNest(flat: Bytes)
    ensures var h := FlatLayers(flat);
            && (h.eth.Some? <==> |flat| >= ETHERNET_SIZE)
            && !(h.ip4.Some? && h.ip6.Some?)
            && (h.ip4.Some? ==> h.eth.Some? && EtherType(h.eth.value) == ETHERTYPE_IPV4)
            && (h.ip6.Some? ==> h.eth.Some? && EtherType(h.eth.value) == ETHERTYPE_IPV6)
            && (h.udp.Some? ==> OuterProtocol(h) == PROTO_UDP && h.tcp.None?)
            && (h.tcp.Some? ==> OuterProtocol(h) == PROTO_TCP)
            && (h.transport.Some? <==> h.udp.Some? || h.tcp.Some?)
            && (h.udp.Some? || h.tcp.Some? || h.ipPayload.Some? ==> h.ip4.Some? || h.ip6.Some?)
            && (h.transport.Some? ==>
                  |h.transport.value| < |flat| && h.transport.value == flat[|flat| - |h.transport.value|..])
            && (h.ipPayload.Some? ==>
                  && h.transport.None? && |h.ipPayload.value| < |flat|
                  && h.ipPayload.value == flat[|flat| - |h.ipPayload.value|..])
  {
  }
}
