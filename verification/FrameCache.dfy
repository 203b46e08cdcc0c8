/**
 The per-frame header cache: headers are parsed once, on demand, first in one pass over the first
 buffer and, when that runs out, through the fragment ring. `SplitFacts` says exactly what the
 cache ends up knowing of a frame, for every way of splitting it into buffers.
 */
module FrameCache {
  import opened Options
  import opened Words
  import opened Frames
  import opened Headers

  // ---- What the parsers make of a split frame ----

  /** A TCP header with a data offset below 5 that is not all in the first buffer: the contiguous
      pass accepts such a header and the fragmented pass does not. */
  ghost predicate ShortTcpSplit(f: Frame)
    requires ValidFrame(f)
  {
    var h := FlatLayers(Flat(f));
    && h.tcp.Some? && h.transport.Some?
    && TcpLength(h.tcp.value) < TCP_SIZE
    && |f.buffer| < |Flat(f)| - |h.transport.value| - TcpLength(h.tcp.value) + TCP_SIZE
  }

  ghost function SplitLayers(f: Frame): Layers
    requires ValidFrame(f)
  {
    var h := FlatLayers(Flat(f));
    if ShortTcpSplit(f) then h.(tcp := None, transport := None) else h
  }

  /** A complete long QUIC header that outgrows the header storage and is not all in the buffer
      its payload starts in. */
  ghost predicate LongQuicSplit(f: Frame, p: Bytes, maxCid: nat)
    requires ValidFrame(f) && |p| <= |Flat(f)|
  {
    && IsLongQuic(p)
    && QuicLongLength(p) > QuicStorage(maxCid)
    && RunFrom(f, |Flat(f)| - |p|) < QuicLongLength(p)
  }

  ghost function SplitQuic(f: Frame, p: Bytes, maxCid: nat): Option<Quic>
    requires ValidFrame(f) && |p| <= |Flat(f)|
  {
    if LongQuicSplit(f, p, maxCid) then None else FlatQuic(p, maxCid)
  }

  /** An ICMP header that straddles buffers; only IP-in-IP protocols are read across buffers. */
  ghost predicate IcmpSplit(f: Frame, h: Layers, p: Bytes)
    requires ValidFrame(f) && |p| <= |Flat(f)|
  {
    && RunFrom(f, |Flat(f)| - |p|) < ICMP_SIZE
    && !(h.ip4.Some? && OuterProtocol(h) == PROTO_IPV4)
    && !(h.ip4.None? && h.ip6.Some? && OuterProtocol(h) == PROTO_IPV6)
  }

  ghost function SplitIcmp(f: Frame, h: Layers, p: Bytes): Option<IcmpHeader>
    requires ValidFrame(f) && |p| <= |Flat(f)|
  {
    if IcmpSplit(f, h, p) then None else FlatIcmp(p)
  }

  /** What the cache knows of a frame. */
  ghost function SplitFacts(f: Frame, maxCid: nat): Facts
    requires ValidFrame(f)
  {
    LayersNest(Flat(f));
    var h := SplitLayers(f);
    Facts(
      h,
      if h.transport.Some? then SplitQuic(f, h.transport.value, maxCid) else None,
      if h.ipPayload.Some? then FlatInner(OuterProtocol(h), h.ipPayload.value) else Inner(None, None),
      if h.ipPayload.Some? then SplitIcmp(f, h, h.ipPayload.value) else None)
  }

  // ---- Resuming a flat parse behind the headers already found ----

  ghost function Resume(h: Layers, rest: Bytes): Layers {
    if h.eth.None? then FlatLayers(rest)
    else if h.ip4.None? && h.ip6.None? then FlatIp(h, EtherType(h.eth.value), rest)
    else FlatTransport(h, OuterProtocol(h), rest)
  }

  /** Part way through: the headers in `h` end at byte `at` and none of the rest is known. */
  ghost predicate Partial(f: Frame, h: Layers, at: nat)
    requires ValidFrame(f)
  {
    && at <= |Flat(f)|
    && FlatLayers(Flat(f)) == Resume(h, Flat(f)[at..])
    && h.udp.None? && h.tcp.None? && h.transport.None? && h.ipPayload.None?
    && (h.ip4.Some? || h.ip6.Some? ==> h.eth.Some? && at > ETHERNET_SIZE)
    && (h.ip4.Some? ==> h.ip6.None? && EtherType(h.eth.value) == ETHERTYPE_IPV4)
    && (h.ip6.Some? ==> EtherType(h.eth.value) == ETHERTYPE_IPV6)
    && (h.eth.Some? && h.ip4.None? && h.ip6.None? ==> at == ETHERNET_SIZE)
    && (h.eth.None? ==> h == NO_LAYERS && at == 0)
  }

  /** The first buffer does not hold the header that follows byte `at`; `h` says which one. */
  ghost predicate Starved(f: Frame, h: Layers, at: nat)
    requires ValidFrame(f) && Partial(f, h, at)
  {
    var room := |f.buffer| - at;
    && room >= 0
    && if h.eth.None? then room < ETHERNET_SIZE
       else if h.ip4.None? && h.ip6.None? then
         || (EtherType(h.eth.value) == ETHERTYPE_IPV4 && room < IPV4_SIZE)
         || (EtherType(h.eth.value) == ETHERTYPE_IPV6 && room < IPV6_SIZE)
       else
         || (OuterProtocol(h) == PROTO_UDP && room < UDP_SIZE)
         || (OuterProtocol(h) == PROTO_TCP && room < TCP_SIZE)
         || (OuterProtocol(h) == PROTO_TCP && at + TCP_SIZE <= |Flat(f)|
            && room < TcpLength(Flat(f)[at..at + TCP_SIZE]))
  }

  /** The fragmented pass stands past the first buffer, or at the header that buffer lacks. */
  ghost predicate Beyond(f: Frame, h: Layers, at: nat)
    requires ValidFrame(f) && Partial(f, h, at)
  {
    |f.buffer| < at || Starved(f, h, at)
  }

  lemma {:induction false} EndsHere(f: Frame, h: Layers, at: nat)
    requires ValidFrame(f) && Partial(f, h, at)
    requires h.eth.None? ==> |Flat(f)| < at + ETHERNET_SIZE
    requires h.eth.Some? && h.ip4.None? && h.ip6.None? ==>
               || (EtherType(h.eth.value) == ETHERTYPE_IPV4 && |Flat(f)| < at + IPV4_SIZE)
               || (EtherType(h.eth.value) == ETHERTYPE_IPV6 && |Flat(f)| < at + IPV6_SIZE)
               || (EtherType(h.eth.value) != ETHERTYPE_IPV4 && EtherType(h.eth.value) != ETHERTYPE_IPV6)
    requires h.ip4.Some? || h.ip6.Some? ==>
               || (OuterProtocol(h) == PROTO_UDP && |Flat(f)| < at + UDP_SIZE)
               || (OuterProtocol(h) == PROTO_TCP && |Flat(f)| < at + TCP_SIZE)
    ensures SplitLayers(f) == h
  {
  }

  /** With no fragments to turn to, the headers found so far are all there are. */
  lemma {:induction false} StarvedWithoutRing(f: Frame, h: Layers, at: nat)
    requires ValidFrame(f) && Partial(f, h, at) && Starved(f, h, at) && |Flat(f)| == |f.buffer|
    ensures SplitLayers(f) == h
  {
    if at + TCP_SIZE <= |Flat(f)| {
      assert Flat(f)[at..][..TCP_SIZE] == Flat(f)[at..at + TCP_SIZE];
    }
  }

  lemma {:induction false} FlatOfBare(f: Frame)
    requires f.ring.None?
    ensures Flat(f) == f.buffer
  {
    assert Pieces(f)[1..] == [];
    assert Concat(Pieces(f)[1..]) == [];
  }

  lemma {:induction false} FoundEthernet(f: Frame)
    requires ValidFrame(f) && ETHERNET_SIZE <= |Flat(f)|
    ensures Partial(f, NO_LAYERS.(eth := Some(Flat(f)[..ETHERNET_SIZE])), ETHERNET_SIZE)
  {
  }

  lemma {:induction false} FoundIpv4(f: Frame, h: Layers)
    requires ValidFrame(f) && Partial(f, h, ETHERNET_SIZE) && h.eth.Some? && h.ip4.None? && h.ip6.None?
    requires EtherType(h.eth.value) == ETHERTYPE_IPV4 && ETHERNET_SIZE + IPV4_SIZE <= |Flat(f)|
    ensures Ihl(Flat(f)[14..34]) == 5 ==> Partial(f, h.(ip4 := Some(Flat(f)[14..34])), 34)
    ensures Ihl(Flat(f)[14..34]) != 5 ==> SplitLayers(f) == h
  {
    assert Flat(f)[14..][..20] == Flat(f)[14..34];
    assert Flat(f)[14..][20..] == Flat(f)[34..];
  }

  lemma {:induction false} FoundIpv6(f: Frame, h: Layers)
    requires ValidFrame(f) && Partial(f, h, ETHERNET_SIZE) && h.eth.Some? && h.ip4.None? && h.ip6.None?
    requires EtherType(h.eth.value) == ETHERTYPE_IPV6 && ETHERNET_SIZE + IPV6_SIZE <= |Flat(f)|
    ensures Partial(f, h.(ip6 := Some(Flat(f)[14..54])), 54)
  {
    assert Flat(f)[14..][..40] == Flat(f)[14..54];
    assert Flat(f)[14..][40..] == Flat(f)[54..];
  }

  lemma {:induction false} FoundUdp(f: Frame, h: Layers, at: nat)
    requires ValidFrame(f) && Partial(f, h, at) && (h.ip4.Some? || h.ip6.Some?)
    requires OuterProtocol(h) == PROTO_UDP && at + UDP_SIZE <= |Flat(f)|
    ensures SplitLayers(f)
         == h.(udp := Some(Flat(f)[at..at + UDP_SIZE]), transport := Some(Flat(f)[at + UDP_SIZE..]))
  {
    assert Flat(f)[at..][..UDP_SIZE] == Flat(f)[at..at + UDP_SIZE];
    assert Flat(f)[at..][UDP_SIZE..] == Flat(f)[at + UDP_SIZE..];
  }

  lemma {:induction false} FoundTcp(f: Frame, h: Layers, at: nat, tcp: TcpHeader, n: nat)
    requires ValidFrame(f) && Partial(f, h, at) && (h.ip4.Some? || h.ip6.Some?)
    requires OuterProtocol(h) == PROTO_TCP && at + TCP_SIZE <= |Flat(f)|
    requires tcp == Flat(f)[at..at + TCP_SIZE] && n == TcpLength(tcp) && at + n <= |Flat(f)|
    requires n >= TCP_SIZE || at + TCP_SIZE <= |f.buffer|
    ensures SplitLayers(f) == h.(tcp := Some(tcp), transport := Some(Flat(f)[at + n..]))
  {
    assert Flat(f)[at..][..TCP_SIZE] == tcp;
    assert Flat(f)[at..][n..] == Flat(f)[at + n..];
  }

  lemma {:induction false} LostTcp(f: Frame, h: Layers, at: nat, tcp: TcpHeader)
    requires ValidFrame(f) && Partial(f, h, at) && (h.ip4.Some? || h.ip6.Some?)
    requires OuterProtocol(h) == PROTO_TCP && at + TCP_SIZE <= |Flat(f)|
    requires tcp == Flat(f)[at..at + TCP_SIZE]
    requires at + TcpLength(tcp) > |Flat(f)| || (TcpLength(tcp) < TCP_SIZE && Beyond(f, h, at))
    ensures SplitLayers(f) == h
  {
    assert Flat(f)[at..][..TCP_SIZE] == tcp;
    var n := TcpLength(tcp);
    if at + n <= |Flat(f)| {
      assert Flat(f)[at..][n..] == Flat(f)[at + n..];
    }
  }

  // ---- The cache ----

  /** Where a payload starts; the fragment fields are set only by the fragmented pass. */
  datatype Payload = Payload(buffer: Bytes, offset: nat, fragmentIndex: u32, fragmentCount: nat, isFragmented: bool)

  const NO_PAYLOAD := Payload([], 0, 0, 0, false)

  function PayloadCursor(f: Frame, p: Payload): Cursor {
    if p.isFragmented then Cursor(p.buffer, p.offset, p.fragmentIndex, p.fragmentCount)
    else StartAt(f, p.offset)
  }

  /** The payload is the tail `bytes` of the frame. */
  ghost predicate PayloadIs(f: Frame, p: Payload, bytes: Bytes) {
    && ValidFrame(f)
    && |bytes| <= |Flat(f)|
    && var at := |Flat(f)| - |bytes|;
    && bytes == Flat(f)[at..]
    && StandsAt(f, PayloadCursor(f, p), at)
    && p.buffer == PayloadCursor(f, p).buffer
    && p.offset <= |p.buffer|
    && |p.buffer| - p.offset == RunFrom(f, at)
  }

  lemma {:induction false} FirstBufferPayload(f: Frame, at: nat)
    requires ValidFrame(f) && at <= |f.buffer|
    ensures at <= |Flat(f)|
    ensures PayloadIs(f, Payload(f.buffer, at, 0, 0, false), Flat(f)[at..])
  {
    StandsInFirstBuffer(f, at);
  }

  lemma {:induction false} BufferSlice(f: Frame, from: nat, to: nat)
    requires ValidFrame(f) && from <= to <= |f.buffer|
    ensures |f.buffer| <= |Flat(f)|
    ensures f.buffer[from..to] == Flat(f)[from..to]
  {
    StandsInFirstBuffer(f, 0);
    assert Flat(f)[..|f.buffer|][from..to] == Flat(f)[from..to];
  }

  lemma {:induction false} FragmentPayload(f: Frame, c: Cursor, at: nat)
    requires StandsAt(f, c, at) && at <= |Flat(f)|
    requires |c.buffer| - c.offset == RunFrom(f, at)
    ensures PayloadIs(f, Payload(c.buffer, c.offset, c.fragmentIndex, c.remaining, true), Flat(f)[at..])
  {
  }

  /** The layer part of the frame cache: flags, header contents and payload positions. */
  datatype LayerCache = LayerCache(
    ethValid: bool, ip4Valid: bool, ip6Valid: bool, udpValid: bool, tcpValid: bool,
    transportPayloadValid: bool, ipPayloadValid: bool,
    ethHdr: Bytes, ipHdr: Bytes, transportHdr: Bytes,
    transportPayload: Payload, ipPayload: Payload)

  const EMPTY_LAYERS := LayerCache(false, false, false, false, false, false, false, [], [], [], NO_PAYLOAD, NO_PAYLOAD)

  /** The headers the cache points to, without the payloads. */
  ghost predicate HeadersShown(c: LayerCache, h: Layers) {
    && (c.ethValid <==> h.eth.Some?) && (c.ethValid ==> c.ethHdr == h.eth.value)
    && (c.ip4Valid <==> h.ip4.Some?) && (c.ip4Valid ==> c.ipHdr == h.ip4.value)
    && (c.ip6Valid <==> h.ip6.Some?) && (c.ip6Valid ==> c.ipHdr == h.ip6.value)
    && (c.udpValid <==> h.udp.Some?) && (c.udpValid ==> c.transportHdr == h.udp.value)
    && (c.tcpValid <==> h.tcp.Some?) && (c.tcpValid ==> c.transportHdr == h.tcp.value)
  }

  /** The cache shows exactly these layers of the frame. */
  ghost predicate Shows(f: Frame, c: LayerCache, h: Layers) {
    && ValidFrame(f) && HeadersShown(c, h)
    && (c.transportPayloadValid <==> h.transport.Some?)
    && (c.transportPayloadValid ==> PayloadIs(f, c.transportPayload, h.transport.value))
    && (c.ipPayloadValid <==> h.ipPayload.Some?)
    && (c.ipPayloadValid ==> PayloadIs(f, c.ipPayload, h.ipPayload.value))
  }

  // ---- The contiguous pass ----

  /** One pass over the first buffer. Unless it is done, the header behind `offset` is not all in
      that buffer. */
  method ParseContiguous(f: Frame) returns (done: bool, c: LayerCache, offset: nat, ghost h: Layers)
    requires ValidFrame(f)
    ensures Shows(f, c, h)
    ensures done ==> h == SplitLayers(f)
    ensures !done ==> Partial(f, h, offset) && Starved(f, h, offset)
  {
    var buffer := f.buffer;
    c, offset, h := EMPTY_LAYERS, 0, NO_LAYERS;
    if |buffer| < ETHERNET_SIZE {
      StandsInFirstBuffer(f, 0);
      assert Flat(f)[0..] == Flat(f);
      return false, c, offset, h;
    }
    BufferSlice(f, 0, ETHERNET_SIZE);
    FoundEthernet(f);
    c := c.(ethHdr := buffer[..ETHERNET_SIZE], ethValid := true);
    offset := ETHERNET_SIZE;
    h := h.(eth := Some(c.ethHdr));

    var proto: byte;
    if EtherType(c.ethHdr) == ETHERTYPE_IPV4 {
      if |buffer| < offset + IPV4_SIZE {
        return false, c, offset, h;
      }
      BufferSlice(f, offset, offset + IPV4_SIZE);
      FoundIpv4(f, h);
      c := c.(ipHdr := buffer[offset..offset + IPV4_SIZE]);
      if Ihl(c.ipHdr) != 5 {
        return true, c, offset, h;
      }
      c := c.(ip4Valid := true);
      offset := offset + IPV4_SIZE;
      h := h.(ip4 := Some(c.ipHdr));
      proto := Protocol(c.ipHdr);
    } else if EtherType(c.ethHdr) == ETHERTYPE_IPV6 {
      if |buffer| < offset + IPV6_SIZE {
        return false, c, offset, h;
      }
      BufferSlice(f, offset, offset + IPV6_SIZE);
      FoundIpv6(f, h);
      c := c.(ipHdr := buffer[offset..offset + IPV6_SIZE], ip6Valid := true);
      offset := offset + IPV6_SIZE;
      h := h.(ip6 := Some(c.ipHdr));
      proto := NextHeader(c.ipHdr);
    } else {
      EndsHere(f, h, offset);
      return true, c, offset, h;
    }
    done, c, h := ParseContiguousTransport(f, c, offset, proto, h);
  }

  method ParseContiguousTransport(f: Frame, c0: LayerCache, offset: nat, proto: byte, ghost h0: Layers)
    returns (done: bool, c: LayerCache, ghost h: Layers)
    requires Shows(f, c0, h0) && Partial(f, h0, offset) && (h0.ip4.Some? || h0.ip6.Some?)
    requires proto == OuterProtocol(h0) && offset <= |f.buffer|
    ensures Shows(f, c, h)
    ensures done ==> h == SplitLayers(f)
    ensures !done ==> h == h0 && Starved(f, h, offset)
  {
    if proto == PROTO_UDP {
      done, c, h := ParseContiguousUdp(f, c0, offset, h0);
    } else if proto == PROTO_TCP {
      done, c, h := ParseContiguousTcp(f, c0, offset, h0);
    } else {
      FirstBufferPayload(f, offset);
      h := h0.(ipPayload := Some(Flat(f)[offset..]));
      c := c0.(ipPayload := Payload(f.buffer, offset, 0, 0, false), ipPayloadValid := true);
      done := true;
    }
  }

  lemma {:induction false} SettledFirstUdp(f: Frame, c: LayerCache, h: Layers, at: nat, udp: UdpHeader)
    requires Shows(f, c, h) && Partial(f, h, at) && (h.ip4.Some? || h.ip6.Some?)
    requires OuterProtocol(h) == PROTO_UDP && at + UDP_SIZE <= |f.buffer| <= |Flat(f)|
    requires udp == Flat(f)[at..at + UDP_SIZE]
    ensures Shows(f,
                  c.(transportHdr := udp, udpValid := true,
                     transportPayload := Payload(f.buffer, at + UDP_SIZE, 0, 0, false), transportPayloadValid := true),
                  SplitLayers(f))
  {
    FirstBufferPayload(f, at + UDP_SIZE);
    FoundUdp(f, h, at);
  }

  method ParseContiguousUdp(f: Frame, c0: LayerCache, offset: nat, ghost h0: Layers)
    returns (done: bool, c: LayerCache, ghost h: Layers)
    requires Shows(f, c0, h0) && Partial(f, h0, offset) && (h0.ip4.Some? || h0.ip6.Some?)
    requires OuterProtocol(h0) == PROTO_UDP && offset <= |f.buffer|
    ensures Shows(f, c, h)
    ensures done ==> h == SplitLayers(f)
    ensures !done ==> h == h0 && Starved(f, h, offset)
  {
    if |f.buffer| < offset + UDP_SIZE {
      return false, c0, h0;
    }
    BufferSlice(f, offset, offset + UDP_SIZE);
    var header := f.buffer[offset..offset + UDP_SIZE];
    SettledFirstUdp(f, c0, h0, offset, header);
    c := c0.(transportHdr := header, udpValid := true,
             transportPayload := Payload(f.buffer, offset + UDP_SIZE, 0, 0, false), transportPayloadValid := true);
    done, h := true, SplitLayers(f);
  }

  lemma {:induction false} SettledFirstTcp(f: Frame, c: LayerCache, h: Layers, at: nat, tcp: TcpHeader, n: nat)
    requires Shows(f, c, h) && Partial(f, h, at) && (h.ip4.Some? || h.ip6.Some?)
    requires OuterProtocol(h) == PROTO_TCP && at + TCP_SIZE <= |f.buffer| <= |Flat(f)|
    requires tcp == Flat(f)[at..at + TCP_SIZE] && n == TcpLength(tcp) && at + n <= |f.buffer|
    ensures Shows(f,
                  c.(transportHdr := tcp, tcpValid := true,
                     transportPayload := Payload(f.buffer, at + n, 0, 0, false), transportPayloadValid := true),
                  SplitLayers(f))
  {
    FirstBufferPayload(f, at + n);
    FoundTcp(f, h, at, tcp, n);
  }

  method ParseContiguousTcp(f: Frame, c0: LayerCache, offset: nat, ghost h0: Layers)
    returns (done: bool, c: LayerCache, ghost h: Layers)
    requires Shows(f, c0, h0) && Partial(f, h0, offset) && (h0.ip4.Some? || h0.ip6.Some?)
    requires OuterProtocol(h0) == PROTO_TCP && offset <= |f.buffer|
    ensures Shows(f, c, h)
    ensures done ==> h == SplitLayers(f)
    ensures !done ==> h == h0 && Starved(f, h, offset)
  {
    if |f.buffer| < offset + TCP_SIZE {
      return false, c0, h0;
    }
    BufferSlice(f, offset, offset + TCP_SIZE);
    var header := f.buffer[offset..offset + TCP_SIZE];
    var headerLength := TcpLength(header);
    if |f.buffer| < offset + headerLength {
      return false, c0, h0;
    }
    SettledFirstTcp(f, c0, h0, offset, header, headerLength);
    c := c0.(transportHdr := header, tcpValid := true,
             transportPayload := Payload(f.buffer, offset + headerLength, 0, 0, false), transportPayloadValid := true);
    done, h := true, SplitLayers(f);
  }

  // ---- The fragmented pass ----

  method ParseFragmentedUdp(f: Frame, c0: LayerCache, start: Cursor, ghost at: nat, ghost h: Layers)
    returns (c: LayerCache)
    requires f.ring.Some? && Shows(f, c0, h) && Partial(f, h, at) && (h.ip4.Some? || h.ip6.Some?)
    requires OuterProtocol(h) == PROTO_UDP && StandsAt(f, start, at)
    ensures Shows(f, c, SplitLayers(f))
  {
    var valid, header, end := GetContiguousHeader(f, start, UDP_SIZE, at);
    c := c0.(transportHdr := header, udpValid := valid);
    if !valid {
      EndsHere(f, h, at);
      return;
    }
    FoundUdp(f, h, at);
    FragmentPayload(f, end, at + UDP_SIZE);
    c := c.(transportPayload := Payload(end.buffer, end.offset, end.fragmentIndex, end.remaining, true),
            transportPayloadValid := true);
  }

  /** The fixed TCP header is read and is long enough; step over its options. */
  method SkipTcpOptions(f: Frame, start: Cursor, headerLength: nat, ghost at: nat) returns (valid: bool, end: Cursor)
    requires f.ring.Some? && headerLength >= TCP_SIZE
    requires StandsAt(f, start, at + TCP_SIZE) && at + TCP_SIZE <= |Flat(f)|
    requires |start.buffer| - start.offset == RunFrom(f, at + TCP_SIZE)
    ensures valid <==> at + headerLength <= |Flat(f)|
    ensures valid ==> StandsAt(f, end, at + headerLength)
    ensures valid ==> |end.buffer| - end.offset == RunFrom(f, at + headerLength)
  {
    valid, end := true, start;
    if headerLength > TCP_SIZE {
      var options;
      valid, options, end := GetContiguousHeader(f, start, headerLength - TCP_SIZE, at + TCP_SIZE);
    }
  }

  lemma {:induction false} SettledTcp(f: Frame, c: LayerCache, h: Layers, at: nat, tcp: TcpHeader, n: nat, end: Cursor)
    requires f.ring.Some? && Shows(f, c, h) && Partial(f, h, at) && (h.ip4.Some? || h.ip6.Some?)
    requires OuterProtocol(h) == PROTO_TCP && at + TCP_SIZE <= |Flat(f)|
    requires tcp == Flat(f)[at..at + TCP_SIZE] == c.transportHdr && n == TcpLength(tcp) >= TCP_SIZE
    requires at + n <= |Flat(f)| && StandsAt(f, end, at + n) && |end.buffer| - end.offset == RunFrom(f, at + n)
    ensures Shows(f,
                  c.(tcpValid := true,
                     transportPayload := Payload(end.buffer, end.offset, end.fragmentIndex, end.remaining, true),
                     transportPayloadValid := true),
                  SplitLayers(f))
  {
    FoundTcp(f, h, at, tcp, n);
    FragmentPayload(f, end, at + n);
  }

  method ParseFragmentedTcp(f: Frame, c0: LayerCache, start: Cursor, ghost at: nat, ghost h: Layers)
    returns (c: LayerCache)
    requires f.ring.Some? && Shows(f, c0, h) && Partial(f, h, at) && (h.ip4.Some? || h.ip6.Some?)
    requires OuterProtocol(h) == PROTO_TCP && StandsAt(f, start, at) && Beyond(f, h, at)
    ensures Shows(f, c, SplitLayers(f))
  {
    var valid, header, end := GetContiguousHeader(f, start, TCP_SIZE, at);
    c := c0.(transportHdr := header);
    if !valid {
      EndsHere(f, h, at);
      return;
    }
    if TcpLength(header) < TCP_SIZE {
      LostTcp(f, h, at, header);
      return;
    }
    var headerLength := TcpLength(header);
    valid, end := SkipTcpOptions(f, end, headerLength, at);
    if valid {
      SettledTcp(f, c, h, at, header, headerLength, end);
      c := c.(tcpValid := true,
              transportPayload := Payload(end.buffer, end.offset, end.fragmentIndex, end.remaining, true),
              transportPayloadValid := true);
    } else {
      LostTcp(f, h, at, header);
    }
  }

  method ParseFragmentedTransport(f: Frame, c0: LayerCache, start: Cursor, ghost at: nat, proto: byte, ghost h: Layers)
    returns (c: LayerCache)
    requires f.ring.Some? && Shows(f, c0, h) && Partial(f, h, at) && (h.ip4.Some? || h.ip6.Some?)
    requires OuterProtocol(h) == proto && StandsAt(f, start, at) && Beyond(f, h, at)
    requires |start.buffer| - start.offset == RunFrom(f, at)
    ensures Shows(f, c, SplitLayers(f))
  {
    if proto == PROTO_UDP {
      c := ParseFragmentedUdp(f, c0, start, at, h);
    } else if proto == PROTO_TCP {
      c := ParseFragmentedTcp(f, c0, start, at, h);
    } else {
      FragmentPayload(f, start, at);
      c := c0.(ipPayload := Payload(start.buffer, start.offset, start.fragmentIndex, start.remaining, true),
               ipPayloadValid := true);
    }
  }

  method ParseFragmentedIp(f: Frame, c0: LayerCache, start: Cursor, ghost h0: Layers)
    returns (ok: bool, c: LayerCache, end: Cursor, ghost at: nat, proto: byte, ghost h: Layers)
    requires f.ring.Some? && Shows(f, c0, h0) && Partial(f, h0, ETHERNET_SIZE)
    requires h0.eth.Some? && h0.ip4.None? && h0.ip6.None?
    requires StandsAt(f, start, ETHERNET_SIZE) && Beyond(f, h0, ETHERNET_SIZE)
    ensures !ok ==> Shows(f, c, SplitLayers(f))
    ensures ok ==>
              && Shows(f, c, h) && Partial(f, h, at) && (h.ip4.Some? || h.ip6.Some?)
              && OuterProtocol(h) == proto && StandsAt(f, end, at) && Beyond(f, h, at)
              && |end.buffer| - end.offset == RunFrom(f, at)
  {
    c, end, at, proto, h := c0, start, ETHERNET_SIZE, 0, h0;
    var header;
    if EtherType(c.ethHdr) == ETHERTYPE_IPV4 {
      ok, header, end := GetContiguousHeader(f, start, IPV4_SIZE, ETHERNET_SIZE);
      c := c.(ipHdr := header);
      if !ok {
        EndsHere(f, h0, ETHERNET_SIZE);
        return;
      }
      FoundIpv4(f, h0);
      ok := Ihl(header) == 5;
      if !ok {
        return;
      }
      c := c.(ip4Valid := true);
      at, proto, h := 34, Protocol(header), h0.(ip4 := Some(header));
    } else if EtherType(c.ethHdr) == ETHERTYPE_IPV6 {
      ok, header, end := GetContiguousHeader(f, start, IPV6_SIZE, ETHERNET_SIZE);
      c := c.(ipHdr := header);
      if !ok {
        EndsHere(f, h0, ETHERNET_SIZE);
        return;
      }
      FoundIpv6(f, h0);
      c := c.(ip6Valid := true);
      at, proto, h := 54, NextHeader(header), h0.(ip6 := Some(header));
    } else {
      EndsHere(f, h0, ETHERNET_SIZE);
      ok := false;
    }
  }

  /** Picks up where the first buffer ran out and reads the rest through the fragment ring. */
  method ParseFragmentedFrame(f: Frame, c0: LayerCache, offset: nat, ghost h0: Layers) returns (c: LayerCache)
    requires f.ring.Some? && Shows(f, c0, h0) && Partial(f, h0, offset) && Starved(f, h0, offset)
    ensures Shows(f, c, SplitLayers(f))
  {
    c := c0;
    var cursor := StartAt(f, offset);
    StandsInFirstBuffer(f, offset);
    ghost var at, h := offset, h0;
    if !c.ethValid {
      var ok, header;
      ok, header, cursor := GetContiguousHeader(f, cursor, ETHERNET_SIZE, 0);
      c := c.(ethHdr := header, ethValid := ok);
      if !ok {
        EndsHere(f, h0, 0);
        return;
      }
      FoundEthernet(f);
      at, h := ETHERNET_SIZE, NO_LAYERS.(eth := Some(header));
    }
    var ok, proto := true, 0;
    if c.ip4Valid {
      proto := Protocol(c.ipHdr);
    } else if c.ip6Valid {
      proto := NextHeader(c.ipHdr);
    } else {
      ok, c, cursor, at, proto, h := ParseFragmentedIp(f, c, cursor, h);
    }
    if ok {
      c := ParseFragmentedTransport(f, c, cursor, at, proto, h);
    }
  }

  /** Parses Ethernet through TCP or UDP. What the cache then shows depends on the frame alone. */
  method ParseFrame(f: Frame) returns (c: LayerCache)
    requires ValidFrame(f)
    ensures Shows(f, c, SplitLayers(f))
  {
    var done, offset;
    ghost var h;
    done, c, offset, h := ParseContiguous(f);
    if !done {
      if f.ring.Some? {
        c := ParseFragmentedFrame(f, c, offset, h);
      } else {
        FlatOfBare(f);
        StarvedWithoutRing(f, h, offset);
      }
    }
  }
}
