/**
 The rule engine: rules are tried in order against a lazily filled header cache, and the first
 match decides. The verdict depends on the frame and the rules alone, never on what earlier rules
 happened to cache.
 */
module Inspect {
  import opened Options
  import opened Words
  import opened Frames
  import opened Headers
  import opened FrameCache
  import opened Rules
  import opened Forward

  datatype QuicCache = QuicCache(cached: bool, valid: bool, isLongHeader: bool, cidLength: nat, cid: Bytes)

  /** The inner IPv4 and IPv6 headers share a pointer. */
  datatype InnerCache = InnerCache(cached: bool, ip4Valid: bool, ip6Valid: bool, hdr: Bytes)

  datatype IcmpCache = IcmpCache(icmp4Cached: bool, icmp4Valid: bool, icmp6Cached: bool, icmp6Valid: bool)

  datatype LayerFlags = LayerFlags(eth: bool, ip4: bool, ip6: bool, udp: bool, tcp: bool, transportPayload: bool)

  /** ICMP headers have no pointer of their own: they share the transport header's. */
  datatype Cache = Cache(cached: LayerFlags, layers: LayerCache, quic: QuicCache, inner: InnerCache, icmp: IcmpCache)

  const NO_FLAGS := LayerFlags(false, false, false, false, false, false)
  const ALL_FLAGS := LayerFlags(true, true, true, true, true, true)
  const NO_QUIC := QuicCache(false, false, false, 0, [])
  const NO_INNER := InnerCache(false, false, false, [])
  const NO_ICMP := IcmpCache(false, false, false, false)
  const EMPTY_CACHE := Cache(NO_FLAGS, EMPTY_LAYERS, NO_QUIC, NO_INNER, NO_ICMP)

  ghost predicate QuicShows(c: QuicCache, q: Option<Quic>) {
    && (c.valid <==> q.Some?)
    && (c.valid ==>
          && c.isLongHeader == q.value.isLong
          && c.cidLength == |q.value.cid| <= |c.cid|
          && c.cid[..c.cidLength] == q.value.cid)
  }

  ghost predicate InnerShows(c: InnerCache, inner: Inner) {
    && (c.ip4Valid <==> inner.ip4.Some?)
    && (c.ip4Valid ==> c.hdr == inner.ip4.value)
    && (c.ip6Valid <==> inner.ip6.Some?)
    && (c.ip6Valid ==> c.hdr == inner.ip6.value)
  }

  ghost predicate IcmpShows(valid: bool, hdr: Bytes, icmp: Option<IcmpHeader>) {
    && (valid <==> icmp.Some?)
    && (valid ==> hdr == icmp.value)
  }

  /** What is cached agrees with the facts; what is not cached is blank. */
  ghost predicate Agrees(f: Frame, facts: Facts, c: Cache) {
    && (c.cached == NO_FLAGS || c.cached == ALL_FLAGS)
    && (c.cached == NO_FLAGS ==> c == EMPTY_CACHE)
    && (c.cached == ALL_FLAGS ==> Shows(f, c.layers, facts.layers))
    && (if c.quic.cached then c.layers.transportPayloadValid && QuicShows(c.quic, facts.quic) else !c.quic.valid)
    && (if c.inner.cached then c.layers.ipPayloadValid && InnerShows(c.inner, facts.inner)
        else !c.inner.ip4Valid && !c.inner.ip6Valid)
    && (c.layers.ip4Valid ==> !c.icmp.icmp6Cached)
    && (c.layers.ip6Valid ==> !c.icmp.icmp4Cached)
    && (c.icmp.icmp4Cached ==>
          c.layers.ip4Valid && c.layers.ipPayloadValid
            && IcmpShows(c.icmp.icmp4Valid, c.layers.transportHdr, facts.icmp))
    && (c.icmp.icmp6Cached ==>
          c.layers.ip6Valid && c.layers.ipPayloadValid
            && IcmpShows(c.icmp.icmp6Valid, c.layers.transportHdr, facts.icmp))
    && (!c.icmp.icmp4Cached && !c.icmp.icmp6Cached ==> c.icmp == NO_ICMP)
  }

  method EnsureLayers(f: Frame, cached: bool, c0: Cache, ghost facts: Facts) returns (c: Cache)
    requires ValidFrame(f) && facts.layers == SplitLayers(f)
    requires Agrees(f, facts, c0) && cached == c0.cached.eth
    ensures Agrees(f, facts, c) && c.cached == ALL_FLAGS
  {
    c := c0;
    if !cached {
      var layers := ParseFrame(f);
      c := c.(cached := ALL_FLAGS, layers := layers);
    }
  }

  // ---- QUIC ----

  ghost predicate Enough(q: Option<Quic>, maxCid: nat) {
    q.Some? && (q.value.isLong || |q.value.cid| == maxCid)
  }

  /** A prefix of a long header is as good as the whole once it reaches the source connection ID. */
  lemma {:induction false} LongQuicPrefix(p: Bytes, n: nat, maxCid: nat)
    requires 0 < n <= |p| && p[0] >= 128
    ensures FlatQuic(p[..n], maxCid) == if IsLongQuic(p) && QuicLongLength(p) <= n then FlatQuic(p, maxCid) else None
  {
    var q := p[..n];
    if n > QUIC_LONG_SIZE && n > QUIC_LONG_SIZE + p[5] as nat {
      assert QuicLongLength(q) == QuicLongLength(p);
      if QuicLongLength(p) <= n {
        var from := QUIC_LONG_SIZE + 1 + p[5] as nat;
        assert q[from..QuicLongLength(p)] == p[from..QuicLongLength(p)];
      }
    }
  }

  lemma {:induction false} ShortQuicPrefix(p: Bytes, n: nat, maxCid: nat)
    requires 0 < n <= |p| && p[0] < 128
    ensures FlatQuic(p[..n], maxCid) == Some(Quic(false, p[1..1 + Min(n - 1, maxCid)]))
    ensures n > maxCid || n == |p| ==> FlatQuic(p[..n], maxCid) == FlatQuic(p, maxCid)
  {
    assert p[..n][1..1 + Min(n - 1, maxCid)] == p[1..1 + Min(n - 1, maxCid)];
  }

  /** The bytes left in a payload's buffer are the front of the payload, and all of it when the
      frame has no fragment ring. */
  lemma {:induction false} ContiguousPayload(f: Frame, payload: Payload, p: Bytes)
    requires PayloadIs(f, payload, p)
    ensures |payload.buffer| - payload.offset == RunFrom(f, |Flat(f)| - |p|) <= |p|
    ensures payload.buffer[payload.offset..] == p[..|payload.buffer| - payload.offset]
    ensures f.ring.None? ==> payload.buffer[payload.offset..] == p && |payload.buffer| - payload.offset == |p|
  {
    AheadInBuffer(f, PayloadCursor(f, payload), |Flat(f)| - |p|);
  }

  lemma {:induction false} QuicInOneBuffer(f: Frame, p: Bytes, run: nat, c: QuicCache, maxCid: nat)
    requires ValidFrame(f) && |p| <= |Flat(f)| && run == RunFrom(f, |Flat(f)| - |p|) <= |p|
    requires run == |p| || Enough(FlatQuic(p[..run], maxCid), maxCid)
    requires QuicShows(c, FlatQuic(p[..run], maxCid))
    ensures QuicShows(c, SplitQuic(f, p, maxCid))
  {
    if run == |p| {
      assert p[..run] == p;
    } else if p[0] >= 128 {
      LongQuicPrefix(p, run, maxCid);
    } else {
      ShortQuicPrefix(p, run, maxCid);
    }
  }

  lemma {:induction false} QuicAcrossBuffers(f: Frame, p: Bytes, run: nat, n: nat, maxCid: nat)
    requires ValidFrame(f) && |p| <= |Flat(f)| && run == RunFrom(f, |Flat(f)| - |p|) <= |p|
    requires !Enough(FlatQuic(p[..run], maxCid), maxCid)
    requires n == Min(QuicStorage(maxCid), |p|)
    ensures FlatQuic(p[..n], maxCid) == SplitQuic(f, p, maxCid)
    ensures FlatQuic(p[..n], maxCid).None? ==> FlatQuic(p[..run], maxCid).None?
  {
    if |p| > 0 {
      if p[0] >= 128 {
        LongQuicPrefix(p, n, maxCid);
        if run > 0 {
          LongQuicPrefix(p, run, maxCid);
        }
      } else {
        ShortQuicPrefix(p, n, maxCid);
      }
    }
  }

  lemma {:induction false} SliceOfSuffix(s: Bytes, from: nat, n: nat)
    requires from + n <= |s|
    ensures s[from..][..n] == s[from..from + n]
  {
  }

  /** Parses a header that lies in one piece; false asks for more data if there is any. */
  method ParseQuicHeaderPayload(payload: Bytes, c0: QuicCache, maxCid: nat) returns (enough: bool, c: QuicCache)
    ensures enough <==> Enough(FlatQuic(payload, maxCid), maxCid)
    ensures FlatQuic(payload, maxCid).Some? || !c0.valid ==> QuicShows(c, FlatQuic(payload, maxCid))
    ensures FlatQuic(payload, maxCid).None? ==> c.valid == c0.valid
    ensures c.cached == c0.cached
  {
    c := c0;
    if |payload| < 1 {
      return false, c;
    }
    if payload[0] >= 128 {
      if |payload| < QUIC_LONG_SIZE {
        return false, c;
      }
      var destCidLength := payload[5] as nat;
      if |payload| < QUIC_LONG_SIZE + destCidLength + 1 {
        return false, c;
      }
      c := c.(cidLength := payload[QUIC_LONG_SIZE + destCidLength] as nat);
      if |payload| < QUIC_LONG_SIZE + destCidLength + 1 + c.cidLength {
        return false, c;
      }
      SliceOfSuffix(payload, QUIC_LONG_SIZE + destCidLength + 1, c.cidLength);
      c := c.(cid := payload[QUIC_LONG_SIZE + destCidLength + 1..], valid := true, isLongHeader := true);
      return true, c;
    }
    SliceOfSuffix(payload, 1, Min(|payload| - 1, maxCid));
    c := c.(cidLength := Min(|payload| - 1, maxCid), cid := payload[1..], valid := true, isLongHeader := false);
    enough := c.cidLength == maxCid;
  }

  /** Copies a header that straddles buffers together, as much of it as there is storage for, and parses that. */
  method ReparseQuicHeader(f: Frame, payload: Payload, maxCid: nat, c0: QuicCache, ghost p: Bytes, ghost run: nat)
    returns (c: QuicCache)
    requires PayloadIs(f, payload, p) && f.ring.Some? && run == RunFrom(f, |Flat(f)| - |p|) <= |p|
    requires !Enough(FlatQuic(p[..run], maxCid), maxCid) && (FlatQuic(p[..run], maxCid).None? ==> !c0.valid)
    ensures c.cached == c0.cached && QuicShows(c, SplitQuic(f, p, maxCid))
  {
    QuicAcrossBuffers(f, p, run, Min(QuicStorage(maxCid), |p|), maxCid);
    var header := ReadPayload(f, payload, QuicStorage(maxCid), p);
    var enough;
    enough, c := ParseQuicHeaderPayload(header, c0, maxCid);
  }

  method ParseQuicHeader(f: Frame, payload: Payload, maxCid: nat, ghost p: Bytes) returns (c: QuicCache)
    requires PayloadIs(f, payload, p)
    ensures c.cached && QuicShows(c, SplitQuic(f, p, maxCid))
  {
    var contiguous := payload.buffer[payload.offset..];
    ContiguousPayload(f, payload, p);
    assert contiguous == p[..|contiguous|];
    var enough;
    enough, c := ParseQuicHeaderPayload(contiguous, NO_QUIC.(cached := true), maxCid);
    if !enough && f.ring.Some? {
      c := ReparseQuicHeader(f, payload, maxCid, c, p, |contiguous|);
    } else {
      QuicInOneBuffer(f, p, |contiguous|, c, maxCid);
    }
  }

  /** Reads up to `size` bytes of a payload through the fragment ring. */
  method ReadPayload(f: Frame, payload: Payload, size: nat, ghost p: Bytes) returns (header: Bytes)
    requires PayloadIs(f, payload, p) && f.ring.Some?
    ensures header == p[..Min(size, |p|)]
  {
    var end;
    header, end := GetContiguousHeaderLength(f, PayloadCursor(f, payload), size, |Flat(f)| - |p|);
  }

  // ---- Inner IP ----

  /** Parses an inner IP header that lies in one piece; false asks for more data if there is any. */
  method ParseInnerIpHeaderPayload(payload: Bytes, proto: byte, c0: InnerCache) returns (enough: bool, c: InnerCache)
    requires !c0.ip4Valid && !c0.ip6Valid
    ensures c.cached == c0.cached && InnerShows(c, FlatInner(proto, payload))
    ensures enough <==>
              (proto == PROTO_IPV4 ==> |payload| >= IPV4_SIZE) && (proto == PROTO_IPV6 ==> |payload| >= IPV6_SIZE)
  {
    c := c0;
    if proto == PROTO_IPV4 {
      if |payload| < IPV4_SIZE {
        return false, c;
      }
      c := c.(hdr := payload[..IPV4_SIZE]);
      if Version(c.hdr[0]) == 4 && Ihl(c.hdr) == 5 {
        c := c.(ip4Valid := true);
      }
    } else if proto == PROTO_IPV6 {
      if |payload| < IPV6_SIZE {
        return false, c;
      }
      c := c.(hdr := payload[..IPV6_SIZE]);
      if Version(c.hdr[0]) == 6 {
        c := c.(ip6Valid := true);
      }
    }
    enough := true;
  }

  /** Any prefix that holds the inner header shows the same header. */
  lemma {:induction false} InnerPrefix(proto: byte, p: Bytes, n: nat)
    requires n <= |p|
    requires n < |p| ==> (proto == PROTO_IPV4 ==> n >= IPV4_SIZE) && (proto == PROTO_IPV6 ==> n >= IPV6_SIZE)
    ensures FlatInner(proto, p[..n]) == FlatInner(proto, p)
  {
    if n == |p| {
      assert p[..n] == p;
    } else if proto == PROTO_IPV4 {
      assert p[..n][..IPV4_SIZE] == p[..IPV4_SIZE];
    } else if proto == PROTO_IPV6 {
      assert p[..n][..IPV6_SIZE] == p[..IPV6_SIZE];
    }
  }

  method ParseInnerIpHeader(f: Frame, payload: Payload, proto: byte, ghost p: Bytes) returns (c: InnerCache)
    requires PayloadIs(f, payload, p)
    ensures c.cached && InnerShows(c, FlatInner(proto, p))
  {
    var contiguous := payload.buffer[payload.offset..];
    ContiguousPayload(f, payload, p);
    var enough;
    enough, c := ParseInnerIpHeaderPayload(contiguous, proto, NO_INNER.(cached := true));
    if !enough && f.ring.Some? {
      var size := if proto == PROTO_IPV4 then IPV4_SIZE else IPV6_SIZE;
      var header := ReadPayload(f, payload, size, p);
      InnerPrefix(proto, p, |header|);
      enough, c := ParseInnerIpHeaderPayload(header, proto, c);
    } else {
      InnerPrefix(proto, p, |contiguous|);
    }
  }

  // ---- ICMP ----

  /** The part both ICMP parsers share: a header in the payload's own buffer is taken as it is, and
      with a fragment ring the header is read again, but only for the IP-in-IP protocol numbers. */
  method ParseIcmpHeader(
    f: Frame, payload: Payload, proto: byte, isIp4: bool, hdr0: Bytes, ghost h: Layers, ghost p: Bytes)
    returns (c: IcmpCache, hdr: Bytes)
    requires PayloadIs(f, payload, p)
    requires isIp4 == h.ip4.Some? && (isIp4 || h.ip6.Some?) && proto == OuterProtocol(h)
    ensures c.icmp4Cached == isIp4 && c.icmp6Cached == !isIp4
    ensures IcmpShows(if isIp4 then c.icmp4Valid else c.icmp6Valid, hdr, SplitIcmp(f, h, p))
  {
    c, hdr := NO_ICMP.(icmp4Cached := isIp4, icmp6Cached := !isIp4), hdr0;
    ContiguousPayload(f, payload, p);
    if payload.offset + ICMP_SIZE <= |payload.buffer| {
      hdr := payload.buffer[payload.offset..][..ICMP_SIZE];
      c := if isIp4 then c.(icmp4Valid := true) else c.(icmp6Valid := true);
    }
    if f.ring.Some? && (proto == PROTO_IPV4 || proto == PROTO_IPV6) {
      hdr := ReadPayload(f, payload, ICMP_SIZE, p);
      var valid := |hdr| == ICMP_SIZE;
      c := if proto == PROTO_IPV4 then c.(icmp4Valid := valid) else c.(icmp6Valid := valid);
    }
  }

  // ---- Matching ----

  /** A header found implies the ones that announce it. */
  ghost predicate Nested(h: Layers) {
    && !(h.ip4.Some? && h.ip6.Some?)
    && (h.ip4.Some? ==> h.eth.Some? && EtherType(h.eth.value) == ETHERTYPE_IPV4)
    && (h.ip6.Some? ==> h.eth.Some? && EtherType(h.eth.value) == ETHERTYPE_IPV6)
    && (h.udp.Some? || h.tcp.Some? || h.ipPayload.Some? ==> h.ip4.Some? || h.ip6.Some?)
    && (h.transport.Some? <==> h.udp.Some? || h.tcp.Some?)
    && (h.ipPayload.Some? ==> h.transport.None?)
  }

  lemma {:induction false} SplitNested(f: Frame, maxCid: nat)
    requires ValidFrame(f)
    ensures FactsOf(f, SplitFacts(f, maxCid)) && QuicOf(f, SplitFacts(f, maxCid), maxCid)
  {
    LayersNest(Flat(f));
  }

  ghost predicate QuicOf(f: Frame, facts: Facts, maxCid: nat)
    requires ValidFrame(f)
  {
    facts.layers.transport.Some? ==>
      |facts.layers.transport.value| <= |Flat(f)| && facts.quic == SplitQuic(f, facts.layers.transport.value, maxCid)
  }

  /** Each fact that can be reached through the layers is what `SplitFacts` says. */
  ghost predicate FactsOf(f: Frame, facts: Facts)
    requires ValidFrame(f)
  {
    var h := facts.layers;
    && h == SplitLayers(f)
    && Nested(h)
    && (h.transport.Some? ==> |h.transport.value| <= |Flat(f)|)
    && (h.ipPayload.Some? ==>
          && |h.ipPayload.value| <= |Flat(f)|
          && facts.inner == FlatInner(OuterProtocol(h), h.ipPayload.value)
          && facts.icmp == SplitIcmp(f, h, h.ipPayload.value))
    && (h.ipPayload.None? ==> facts.inner == Inner(None, None) && facts.icmp == None)
  }

  /** Compares ports and addresses; the frame's EtherType says which kind of address it holds. */
  method UdpTupleMatch(c: LayerCache, m: Match, ghost facts: Facts) returns (matched: bool)
    requires HeadersShown(c, facts.layers) && Nested(facts.layers) && c.udpValid
    requires m.Ipv4UdpTuple? || m.Ipv6UdpTuple?
    ensures matched == Matches(m, facts)
  {
    if EtherType(c.ethHdr) == ETHERTYPE_IPV4 {
      matched := m.Ipv4UdpTuple?
        && SourcePort(c.transportHdr) == m.tuple4.sourcePort
           && DestinationPort(c.transportHdr) == m.tuple4.destinationPort
        && Source4(c.ipHdr) == m.tuple4.source && Destination4(c.ipHdr) == m.tuple4.destination;
    } else {
      matched := m.Ipv6UdpTuple?
        && SourcePort(c.transportHdr) == m.tuple6.sourcePort
           && DestinationPort(c.transportHdr) == m.tuple6.destinationPort
        && Source6(c.ipHdr) == m.tuple6.source && Destination6(c.ipHdr) == m.tuple6.destination;
    }
  }

  predicate UsesUdp(m: Match) {
    m.Udp? || m.UdpDst? || m.UdpPortSet? || m.Ipv4UdpTuple? || m.Ipv6UdpTuple? || m.Ipv4UdpPortSet? || m.Ipv6UdpPortSet?
  }

  predicate UsesTcp(m: Match) {
    m.TcpDst? || m.TcpControlDst? || m.Ipv4TcpPortSet? || m.Ipv6TcpPortSet?
  }

  predicate UsesQuic(m: Match) {
    m.QuicFlowSrcCid? || m.QuicFlowDstCid? || m.TcpQuicFlowSrcCid? || m.TcpQuicFlowDstCid?
  }

  predicate UsesInner(m: Match) {
    m.InnerIpv4DstMaskUdp? || m.InnerIpv6DstMaskUdp?
  }

  predicate UsesIcmp(m: Match) {
    m.Icmpv4EchoReplyIpDst? || m.Icmpv6EchoReplyIpDst?
  }

  method MatchUdp(c: LayerCache, m: Match, ghost facts: Facts) returns (matched: bool)
    requires HeadersShown(c, facts.layers) && Nested(facts.layers) && UsesUdp(m)
    ensures matched == Matches(m, facts)
  {
    if !c.udpValid {
      return false;
    }
    match m
    case Udp => matched := true;
    case UdpDst(port) => matched := DestinationPort(c.transportHdr) == port;
    case UdpPortSet(ports) => matched := TestBit(ports, DestinationPort(c.transportHdr));
    case Ipv4UdpTuple(_) => matched := UdpTupleMatch(c, m, facts);
    case Ipv6UdpTuple(_) => matched := UdpTupleMatch(c, m, facts);
    case Ipv4UdpPortSet(address, ports) =>
      matched := c.ip4Valid && Destination4(c.ipHdr) == address && TestBit(ports, DestinationPort(c.transportHdr));
    case Ipv6UdpPortSet(address, ports) =>
      matched := c.ip6Valid && Destination6(c.ipHdr) == address && TestBit(ports, DestinationPort(c.transportHdr));
  }

  method MatchTcp(c: LayerCache, m: Match, ghost facts: Facts) returns (matched: bool)
    requires HeadersShown(c, facts.layers) && UsesTcp(m)
    ensures matched == Matches(m, facts)
  {
    if !c.tcpValid {
      return false;
    }
    match m
    case TcpDst(port) => matched := DestinationPort(c.transportHdr) == port;
    case TcpControlDst(port) => matched := DestinationPort(c.transportHdr) == port && IsControl(c.transportHdr);
    case Ipv4TcpPortSet(address, ports) =>
      matched := c.ip4Valid && Destination4(c.ipHdr) == address && TestBit(ports, DestinationPort(c.transportHdr));
    case Ipv6TcpPortSet(address, ports) =>
      matched := c.ip6Valid && Destination6(c.ipHdr) == address && TestBit(ports, DestinationPort(c.transportHdr));
  }

  method MatchIp(c: LayerCache, m: Match, ghost facts: Facts) returns (matched: bool)
    requires HeadersShown(c, facts.layers) && (m.Ipv4DstMask? || m.Ipv6DstMask? || m.IpNextHeader?)
    ensures matched == Matches(m, facts)
  {
    match m
    case Ipv4DstMask(address, mask) => matched := c.ip4Valid && PrefixMatch(Destination4(c.ipHdr), address, mask);
    case Ipv6DstMask(address, mask) => matched := c.ip6Valid && PrefixMatch(Destination6(c.ipHdr), address, mask);
    case IpNextHeader(next) =>
      matched := (c.ip4Valid && Protocol(c.ipHdr) == next) || (c.ip6Valid && NextHeader(c.ipHdr) == next);
  }

  lemma {:induction false} SliceOfPrefix(s: Bytes, n: nat, from: nat, to: nat)
    requires from <= to <= n <= |s|
    ensures s[..n][from..to] == s[from..to]
  {
    assert forall i :: 0 <= i < to - from ==> s[..n][from..to][i] == s[from..to][i];
  }

  method QuicCidMatch(c: QuicCache, wantsLong: bool, flow: QuicFlow, ghost q: Quic) returns (matched: bool)
    requires c.valid && QuicShows(c, Some(q))
    ensures matched == CidMatch(wantsLong, q, flow)
  {
    if wantsLong != c.isLongHeader {
      return false;
    }
    var end := flow.cidOffset + |flow.cidData|;
    if c.cidLength < end {
      return false;
    }
    SliceOfPrefix(c.cid, c.cidLength, flow.cidOffset, end);
    matched := c.cid[flow.cidOffset..end] == flow.cidData;
  }

  method CacheQuic(f: Frame, c0: Cache, maxCid: nat, ghost facts: Facts) returns (c: Cache)
    requires ValidFrame(f) && FactsOf(f, facts) && QuicOf(f, facts, maxCid)
    requires Agrees(f, facts, c0) && c0.cached == ALL_FLAGS && c0.layers.transportPayloadValid
    ensures Agrees(f, facts, c) && c == c0.(quic := c.quic) && c.quic.cached
  {
    var quic := ParseQuicHeader(f, c0.layers.transportPayload, maxCid, facts.layers.transport.value);
    c := c0.(quic := quic);
  }

  ghost predicate QuicPortShown(m: Match, h: Layers)
    requires UsesQuic(m)
  {
    if m.QuicFlowSrcCid? || m.QuicFlowDstCid? then UdpTo(h, m.flow.port) else TcpTo(h, m.flow.port)
  }

  /** Whether the transport a QUIC rule asks for is there, with its port and a payload. */
  method QuicPort(c: LayerCache, m: Match, ghost facts: Facts) returns (shown: bool)
    requires HeadersShown(c, facts.layers) && Nested(facts.layers) && UsesQuic(m)
    requires c.transportPayloadValid <==> facts.layers.transport.Some?
    ensures if shown then QuicPortShown(m, facts.layers) && c.transportPayloadValid else !Matches(m, facts)
  {
    var valid := if m.QuicFlowSrcCid? || m.QuicFlowDstCid? then c.udpValid else c.tcpValid;
    shown := valid && c.transportPayloadValid && DestinationPort(c.transportHdr) == m.flow.port;
  }

  method QuicMatch(c: QuicCache, m: Match, ghost facts: Facts) returns (matched: bool)
    requires UsesQuic(m) && QuicPortShown(m, facts.layers) && QuicShows(c, facts.quic)
    ensures matched == Matches(m, facts)
  {
    matched := false;
    if c.valid {
      matched := QuicCidMatch(c, m.QuicFlowSrcCid? || m.TcpQuicFlowSrcCid?, m.flow, facts.quic.value);
    }
  }

  method MatchQuic(f: Frame, c0: Cache, m: Match, maxCid: nat, ghost facts: Facts) returns (matched: bool, c: Cache)
    requires ValidFrame(f) && FactsOf(f, facts) && QuicOf(f, facts, maxCid)
    requires Agrees(f, facts, c0) && c0.cached == ALL_FLAGS && UsesQuic(m)
    ensures Agrees(f, facts, c) && c.cached == ALL_FLAGS
    ensures matched == Matches(m, facts)
  {
    c := c0;
    var shown := QuicPort(c.layers, m, facts);
    if !shown {
      return false, c;
    }
    if !c.quic.cached {
      c := CacheQuic(f, c, maxCid, facts);
    }
    matched := QuicMatch(c.quic, m, facts);
  }

  method CacheInner(f: Frame, c0: Cache, ghost facts: Facts) returns (c: Cache)
    requires ValidFrame(f) && FactsOf(f, facts)
    requires Agrees(f, facts, c0) && c0.cached == ALL_FLAGS && c0.layers.ipPayloadValid
    ensures Agrees(f, facts, c) && c.cached == ALL_FLAGS && c.inner.cached
  {
    var layers := c0.layers;
    var proto := if layers.ip4Valid then Protocol(layers.ipHdr) else NextHeader(layers.ipHdr);
    var inner := ParseInnerIpHeader(f, layers.ipPayload, proto, facts.layers.ipPayload.value);
    c := c0.(inner := inner);
  }

  method InnerMatch(c: InnerCache, m: Match, ghost facts: Facts) returns (matched: bool)
    requires InnerShows(c, facts.inner) && UsesInner(m)
    ensures matched == Matches(m, facts)
  {
    match m
    case InnerIpv4DstMaskUdp(address, mask) =>
      matched := c.ip4Valid && Protocol(c.hdr) == PROTO_UDP && PrefixMatch(Destination4(c.hdr), address, mask);
    case InnerIpv6DstMaskUdp(address, mask) =>
      matched := c.ip6Valid && NextHeader(c.hdr) == PROTO_UDP && PrefixMatch(Destination6(c.hdr), address, mask);
  }

  lemma {:induction false} NoInner(m: Match, facts: Facts)
    requires UsesInner(m) && facts.inner == Inner(None, None)
    ensures !Matches(m, facts)
  {
  }

  method MatchInner(f: Frame, c0: Cache, m: Match, ghost facts: Facts) returns (matched: bool, c: Cache)
    requires ValidFrame(f) && FactsOf(f, facts)
    requires Agrees(f, facts, c0) && c0.cached == ALL_FLAGS && UsesInner(m)
    ensures Agrees(f, facts, c) && c.cached == ALL_FLAGS
    ensures matched == Matches(m, facts)
  {
    c := c0;
    if !c.layers.ipPayloadValid {
      NoInner(m, facts);
      return false, c;
    }
    if !c.inner.cached {
      c := CacheInner(f, c, facts);
    }
    matched := InnerMatch(c.inner, m, facts);
  }

  method CacheIcmp(f: Frame, c0: Cache, ghost facts: Facts) returns (c: Cache)
    requires ValidFrame(f) && FactsOf(f, facts)
    requires Agrees(f, facts, c0) && c0.cached == ALL_FLAGS && c0.layers.ipPayloadValid
    ensures Agrees(f, facts, c) && c.cached == ALL_FLAGS && c.layers.ip4Valid == c0.layers.ip4Valid
    ensures c.icmp.icmp4Cached == c.layers.ip4Valid && c.icmp.icmp6Cached == !c.layers.ip4Valid
  {
    var layers := c0.layers;
    var proto := if layers.ip4Valid then Protocol(layers.ipHdr) else NextHeader(layers.ipHdr);
    var icmp, hdr := ParseIcmpHeader(f, layers.ipPayload, proto, layers.ip4Valid, layers.transportHdr,
                                     facts.layers, facts.layers.ipPayload.value);
    c := c0.(icmp := icmp, layers := layers.(transportHdr := hdr));
  }

  method EchoReplyMatch(layers: LayerCache, icmp: IcmpCache, m: Match, ghost facts: Facts) returns (matched: bool)
    requires HeadersShown(layers, facts.layers) && UsesIcmp(m)
    requires m.Icmpv4EchoReplyIpDst? ==> layers.ip4Valid && IcmpShows(icmp.icmp4Valid, layers.transportHdr, facts.icmp)
    requires m.Icmpv6EchoReplyIpDst? ==> layers.ip6Valid && IcmpShows(icmp.icmp6Valid, layers.transportHdr, facts.icmp)
    ensures matched == Matches(m, facts)
  {
    var hdr := layers.transportHdr;
    match m
    case Icmpv4EchoReplyIpDst(address) =>
      matched := icmp.icmp4Valid && hdr[0] == 0 && hdr[1] == 0 && Destination4(layers.ipHdr) == address;
    case Icmpv6EchoReplyIpDst(address) =>
      matched := icmp.icmp6Valid && hdr[0] == 129 && hdr[1] == 0 && Destination6(layers.ipHdr) == address;
  }

  /** Whether the layers an ICMP rule asks for are there. */
  method EchoReplyLayers(c: LayerCache, m: Match, ghost facts: Facts) returns (shown: bool)
    requires HeadersShown(c, facts.layers) && UsesIcmp(m) && (facts.layers.ipPayload.None? ==> facts.icmp.None?)
    requires c.ipPayloadValid <==> facts.layers.ipPayload.Some?
    ensures if shown then c.ipPayloadValid && (if m.Icmpv4EchoReplyIpDst? then c.ip4Valid else c.ip6Valid)
            else !Matches(m, facts)
  {
    shown := c.ipPayloadValid && (if m.Icmpv4EchoReplyIpDst? then c.ip4Valid else c.ip6Valid);
  }

  method MatchIcmp(f: Frame, c0: Cache, m: Match, ghost facts: Facts) returns (matched: bool, c: Cache)
    requires ValidFrame(f) && FactsOf(f, facts)
    requires Agrees(f, facts, c0) && c0.cached == ALL_FLAGS && UsesIcmp(m)
    ensures Agrees(f, facts, c) && c.cached == ALL_FLAGS
    ensures matched == Matches(m, facts)
  {
    c := c0;
    var isIp4 := m.Icmpv4EchoReplyIpDst?;
    var shown := EchoReplyLayers(c.layers, m, facts);
    if !shown {
      return false, c;
    }
    if !(if isIp4 then c.icmp.icmp4Cached else c.icmp.icmp6Cached) {
      c := CacheIcmp(f, c, facts);
    }
    matched := EchoReplyMatch(c.layers, c.icmp, m, facts);
  }

  /** Whether a rule's guard finds the layers it needs cached. */
  predicate LayersCached(c: Cache, m: Match) {
    if m.QuicFlowSrcCid? || m.QuicFlowDstCid? then c.cached.udp && c.cached.transportPayload
    else if m.TcpQuicFlowSrcCid? || m.TcpQuicFlowDstCid? then c.cached.tcp && c.cached.transportPayload
    else if UsesUdp(m) then c.cached.udp
    else if UsesTcp(m) then c.cached.tcp
    else if m.IpNextHeader? then c.cached.ip4 || c.cached.ip6
    else if m.Ipv4DstMask? || m.InnerIpv4DstMaskUdp? || m.Icmpv4EchoReplyIpDst? then c.cached.ip4
    else c.cached.ip6
  }

  /** One rule's condition, parsing whatever of the frame it needs and finds not yet cached. */
  method MatchRule(f: Frame, c0: Cache, m: Match, maxCid: nat, ghost facts: Facts) returns (matched: bool, c: Cache)
    requires ValidFrame(f) && FactsOf(f, facts) && QuicOf(f, facts, maxCid)
    requires Agrees(f, facts, c0)
    ensures Agrees(f, facts, c)
    ensures matched == Matches(m, facts)
  {
    if m.All? {
      return true, c0;
    }
    c := EnsureLayers(f, LayersCached(c0, m), c0, facts);
    if UsesQuic(m) {
      matched, c := MatchQuic(f, c, m, maxCid, facts);
    } else if UsesInner(m) {
      matched, c := MatchInner(f, c, m, facts);
    } else if UsesIcmp(m) {
      matched, c := MatchIcmp(f, c, m, facts);
    } else if UsesUdp(m) {
      matched := MatchUdp(c.layers, m, facts);
    } else if UsesTcp(m) {
      matched := MatchTcp(c.layers, m, facts);
    } else {
      matched := MatchIp(c.layers, m, facts);
    }
  }

  lemma {:induction false} EthernetShown(f: Frame, facts: Facts)
    requires ValidFrame(f) && FactsOf(f, facts) && facts.layers.eth.Some?
    ensures |Flat(f)| >= ETHERNET_SIZE && facts.layers.eth.value == Flat(f)[..ETHERNET_SIZE]
  {
    LayersNest(Flat(f));
  }

  /** Exchanges the addresses of a frame whose Ethernet header is whole, parsing it if need be. */
  method ForwardFrame(f: Frame, c0: Cache, ghost facts: Facts) returns (ok: bool, g: Frame)
    requires ValidFrame(f) && FactsOf(f, facts) && Agrees(f, facts, c0)
    ensures ok == facts.layers.eth.Some?
    ensures if ok then |Flat(f)| >= ETHERNET_SIZE && SameShape(f, g) && Flat(g) == Swapped(Flat(f)) else g == f
  {
    var c := EnsureLayers(f, c0.cached.eth, c0, facts);
    ok, g := c.layers.ethValid, f;
    if ok {
      EthernetShown(f, facts);
      g := SwapAddresses(f, c.layers.ethHdr);
    }
  }

  /** Tries the rules in order. Whatever the cache holds along the way, the verdict is that of the
      first rule that matches the frame's facts, or pass when none does; only a forwarded frame is
      changed, and only in its addresses. */
  method Inspect(f: Frame, rules: seq<Rule>, maxCid: nat) returns (o: Outcome, g: Frame)
    requires ValidFrame(f)
    ensures o == Decide(rules, SplitFacts(f, maxCid))
    ensures o.counter != InspectForwarded ==> g == f
    ensures o.counter == InspectForwarded ==>
              |Flat(f)| >= ETHERNET_SIZE && SameShape(f, g) && Flat(g) == Swapped(Flat(f))
  {
    ghost var facts := SplitFacts(f, maxCid);
    SplitNested(f, maxCid);
    g := f;
    var cache := EMPTY_CACHE;
    var i := 0;
    while i < |rules|
      invariant 0 <= i <= |rules|
      invariant Agrees(f, facts, cache)
      invariant forall j :: 0 <= j < i ==> !Matches(rules[j].condition, facts)
    {
      var matched;
      matched, cache := MatchRule(f, cache, rules[i].condition, maxCid, facts);
      if matched {
        DecideFirst(rules, facts, i);
        var forwarded := false;
        if rules[i].action.L2Fwd? {
          forwarded, g := ForwardFrame(f, cache, facts);
        }
        o := Apply(rules[i].action, forwarded);
        return;
      }
      i := i + 1;
    }
    DecideFirst(rules, facts, i);
    o := Outcome(RxPass, None, InspectPassed);
  }
}
