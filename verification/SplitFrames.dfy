/**
 Splitting a frame into buffers should not change the verdict on it. `SplitSafe` says for which
 splits it does not: exactly those that avoid three corners where the pass over fragments reads
 less than the pass over one buffer.
 */
module SplitFrames {
  import opened Options
  import opened Words
  import opened Frames
  import opened Headers
  import opened FrameCache
  import opened Rules
  import opened Inspect

  /** An ICMP echo reply whose header straddles buffers. */
  ghost predicate EchoReplySplit(f: Frame)
    requires ValidFrame(f)
  {
    LayersNest(Flat(f));
    var h := FlatLayers(Flat(f));
    && h.ipPayload.Some?
    && var p := h.ipPayload.value;
    && IcmpSplit(f, h, p)
    && |p| >= ICMP_SIZE
    && p[1] == 0
    && ((h.ip4.Some? && p[0] == 0) || (h.ip6.Some? && p[0] == 129))
  }

  ghost predicate QuicCidSplit(f: Frame, maxCid: nat)
    requires ValidFrame(f)
  {
    LayersNest(Flat(f));
    var h := FlatLayers(Flat(f));
    h.transport.Some? && LongQuicSplit(f, h.transport.value, maxCid)
  }

  ghost predicate SplitSafe(f: Frame, maxCid: nat)
    requires ValidFrame(f)
  {
    !ShortTcpSplit(f) && !QuicCidSplit(f, maxCid) && !EchoReplySplit(f)
  }

  /** The frame's verdict is that of its flat bytes, for every program. */
  ghost predicate SplitInvisible(f: Frame, maxCid: nat)
    requires ValidFrame(f)
  {
    forall rules: seq<Rule> :: Decide(rules, SplitFacts(f, maxCid)) == Decide(rules, FlatFacts(Flat(f), maxCid))
  }

  lemma {:induction false} SafeMatches(f: Frame, m: Match, maxCid: nat)
    requires ValidFrame(f) && SplitSafe(f, maxCid)
    ensures Matches(m, SplitFacts(f, maxCid)) == Matches(m, FlatFacts(Flat(f), maxCid))
  {
    LayersNest(Flat(f));
    var split, flat := SplitFacts(f, maxCid), FlatFacts(Flat(f), maxCid);
    assert split.layers == flat.layers && split.quic == flat.quic && split.inner == flat.inner;
    if split.icmp != flat.icmp {
      assert !Matches(m, split) || !UsesIcmp(m);
    }
  }

  lemma {:induction false} SafeDecides(f: Frame, rules: seq<Rule>, maxCid: nat)
    requires ValidFrame(f) && SplitSafe(f, maxCid)
    ensures Decide(rules, SplitFacts(f, maxCid)) == Decide(rules, FlatFacts(Flat(f), maxCid))
  {
    if rules != [] {
      SafeMatches(f, rules[0].condition, maxCid);
      SafeDecides(f, rules[1..], maxCid);
    }
  }

  lemma {:induction false} DecideOne(rule: Rule, facts: Facts)
    ensures Decide([rule], facts)
         == if Matches(rule.condition, facts) then Apply(rule.action, facts.layers.eth.Some?)
            else Outcome(RxPass, None, InspectPassed)
  {
    assert [rule][1..] == [];
  }

  /** A rule that only one of two sets of facts matches tells them apart. */
  lemma {:induction false} Distinguishes(f: Frame, m: Match, maxCid: nat)
    requires ValidFrame(f)
    requires Matches(m, FlatFacts(Flat(f), maxCid)) && !Matches(m, SplitFacts(f, maxCid))
    ensures !SplitInvisible(f, maxCid)
  {
    DecideOne(Rule(m, Drop), FlatFacts(Flat(f), maxCid));
    DecideOne(Rule(m, Drop), SplitFacts(f, maxCid));
    assert Decide([Rule(m, Drop)], SplitFacts(f, maxCid)) != Decide([Rule(m, Drop)], FlatFacts(Flat(f), maxCid));
  }

  lemma {:induction false} ShortTcpShows(f: Frame, maxCid: nat)
    requires ValidFrame(f) && ShortTcpSplit(f)
    ensures !SplitInvisible(f, maxCid)
  {
    LayersNest(Flat(f));
    Distinguishes(f, TcpDst(DestinationPort(FlatLayers(Flat(f)).tcp.value)), maxCid);
  }

  lemma {:induction false} QuicCidShows(f: Frame, maxCid: nat)
    requires ValidFrame(f) && QuicCidSplit(f, maxCid) && !ShortTcpSplit(f)
    ensures !SplitInvisible(f, maxCid)
  {
    LayersNest(Flat(f));
    var h := FlatLayers(Flat(f));
    if h.udp.Some? {
      Distinguishes(f, QuicFlowSrcCid(QuicFlow(DestinationPort(h.udp.value), 0, [])), maxCid);
    } else {
      Distinguishes(f, TcpQuicFlowSrcCid(QuicFlow(DestinationPort(h.tcp.value), 0, [])), maxCid);
    }
  }

  lemma {:induction false} EchoReplyShows(f: Frame, maxCid: nat)
    requires ValidFrame(f) && EchoReplySplit(f)
    ensures !SplitInvisible(f, maxCid)
  {
    LayersNest(Flat(f));
    var h := FlatLayers(Flat(f));
    if h.ip4.Some? {
      Distinguishes(f, Icmpv4EchoReplyIpDst(Destination4(h.ip4.value)), maxCid);
    } else {
      Distinguishes(f, Icmpv6EchoReplyIpDst(Destination6(h.ip6.value)), maxCid);
    }
  }

  /** No program can tell the split frame from its flat bytes exactly when the split is safe. */
  lemma {:induction false} SplitInvisibleExactly(f: Frame, maxCid: nat)
    requires ValidFrame(f)
    ensures SplitInvisible(f, maxCid) <==> SplitSafe(f, maxCid)
  {
    if SplitSafe(f, maxCid) {
      forall rules: seq<Rule>
        ensures Decide(rules, SplitFacts(f, maxCid)) == Decide(rules, FlatFacts(Flat(f), maxCid))
      {
        SafeDecides(f, rules, maxCid);
      }
    } else if ShortTcpSplit(f) {
      ShortTcpShows(f, maxCid);
    } else if QuicCidSplit(f, maxCid) {
      QuicCidShows(f, maxCid);
    } else {
      EchoReplyShows(f, maxCid);
    }
  }

  /** In particular a frame in one buffer is always read as its flat bytes. */
  lemma {:induction false} WholeFrameIsSafe(f: Frame, maxCid: nat)
    requires ValidFrame(f) && (f.ring.None? || f.ring.value.count == 0)
    ensures SplitSafe(f, maxCid)
  {
    LayersNest(Flat(f));
    PieceInFlat(Pieces(f), 0);
    var h := FlatLayers(Flat(f));
    if h.transport.Some? {
      StandsInFirstBuffer(f, |Flat(f)| - |h.transport.value|);
    }
    if h.ipPayload.Some? {
      StandsInFirstBuffer(f, |Flat(f)| - |h.ipPayload.value|);
    }
  }

  // ---- One frame for each unsafe corner ----

  /** A frame of a first buffer and one fragment. */
  function TwoPart(first: Bytes, second: Bytes): Frame {
    Frame(first, Some(FragmentRing([second], 0, 1)))
  }

  lemma {:induction false} FlatOfTwo(first: Bytes, second: Bytes)
    ensures ValidFrame(TwoPart(first, second))
    ensures Flat(TwoPart(first, second)) == first + second
  {
    assert RingSize(1) by {
      assert Pow2(0) == 1;
    }
    var f := TwoPart(first, second);
    var pieces := Pieces(f);
    assert pieces[1] == f.ring.value.elements[FragmentSlot(f.ring.value, 0)];
    assert pieces == [first, second];
    assert pieces[1..] == [second];
    assert pieces[1..][1..] == [];
    assert Concat(pieces[1..]) == second + Concat([]);
  }

  /** Ethernet and IPv4 headers that announce `proto`, followed by zeros. */
  function Ipv4Bytes(proto: byte, size: nat): Bytes {
    seq(size, i => if i == 12 then 8 else if i == 14 then 0x45 else if i == 23 then proto else 0)
  }

  lemma {:induction false} Ipv4BytesParse(proto: byte, size: nat, rest: Bytes)
    requires size >= 34
    ensures var flat := Ipv4Bytes(proto, size) + rest;
            && |flat| >= 34
            && FlatLayers(flat)
            == FlatTransport(NO_LAYERS.(eth := Some(flat[..14]), ip4 := Some(flat[14..34])), proto, flat[34..])
  {
    var flat := Ipv4Bytes(proto, size) + rest;
    assert flat[14..][..20] == flat[14..34];
    assert flat[14..][20..] == flat[34..];
    assert EtherType(flat[..14]) == [flat[12], flat[13]];
    assert flat[14..34][0] == flat[14] == 0x45;
    assert Protocol(flat[14..34]) == flat[23];
  }

  /** TCP with data offset zero, its header in the fragment. */
  lemma {:induction false} ShortTcpExample(maxCid: nat)
    ensures exists f: Frame :: ValidFrame(f) && ShortTcpSplit(f) && !SplitInvisible(f, maxCid)
  {
    var first, second: Bytes := Ipv4Bytes(PROTO_TCP, 34), seq(20, _ => 0);
    var f := TwoPart(first, second);
    FlatOfTwo(first, second);
    Ipv4BytesParse(PROTO_TCP, 34, second);
    assert Flat(f)[34..] == second;
    assert second[..TCP_SIZE] == second;
    SplitInvisibleExactly(f, maxCid);
    assert ShortTcpSplit(f);
  }

  /** A long QUIC header with two connection IDs of the greatest length, all in the fragment. */
  lemma {:induction false} QuicCidExample(maxCid: nat)
    requires maxCid < 255
    ensures exists f: Frame :: ValidFrame(f) && QuicCidSplit(f, maxCid) && !SplitInvisible(f, maxCid)
  {
    var first: Bytes := Ipv4Bytes(PROTO_UDP, 42);
    var second: Bytes := seq(517, i => if i == 0 then 128 else if i == 5 || i == 261 then 255 else 0);
    var f := TwoPart(first, second);
    FlatOfTwo(first, second);
    Ipv4BytesParse(PROTO_UDP, 42, second);
    var flat := Flat(f);
    assert flat[34..][UDP_SIZE..] == second;
    LayersNest(flat);
    StandsInFirstBuffer(f, 42);
    SplitInvisibleExactly(f, maxCid);
    assert QuicLongLength(second) == 517;
    assert QuicCidSplit(f, maxCid);
  }

  /** The QUIC corner is there for every limit below 255, the driver's 20 among them, and for no other. */
  lemma {:induction false} QuicCornerExactly(maxCid: nat)
    ensures (exists f: Frame :: ValidFrame(f) && QuicCidSplit(f, maxCid)) <==> maxCid < 255
  {
    if maxCid < 255 {
      QuicCidExample(maxCid);
    }
  }

  /** An ICMP echo reply whose ICMP header is in the fragment. */
  lemma {:induction false} EchoReplyExample(maxCid: nat)
    ensures exists f: Frame :: ValidFrame(f) && EchoReplySplit(f) && !SplitInvisible(f, maxCid)
  {
    var first, second: Bytes := Ipv4Bytes(1, 34), [0, 0, 0, 0];
    var f := TwoPart(first, second);
    FlatOfTwo(first, second);
    Ipv4BytesParse(1, 34, second);
    assert Flat(f)[34..] == second;
    LayersNest(Flat(f));
    StandsInFirstBuffer(f, 34);
    SplitInvisibleExactly(f, maxCid);
    assert EchoReplySplit(f);
  }
}
