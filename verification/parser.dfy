/**
 * parse_packet: Ethernet with up to two 802.1Q/802.1ad tags, the IPv4
 * header of section 3.1 of RFC 791, and the TCP (section 3.1 of RFC 9293),
 * UDP and ICMP headers, turned into a Packet record.
 */
module Parser {
  import opened Ints
  import opened Wrappers
  import opened BpfTypes
  import opened BpfHelpers

  const ETH_HLEN: nat := 14
  const VLAN_HLEN: nat := 4
  const ETH_P_IP: u16 := 0x0800
  const ETH_P_8021Q: u16 := 0x8100
  const ETH_P_8021AD: u16 := 0x88A8
  const IPV4_MIN_HLEN: nat := 20
  const TCP_MIN_HLEN: nat := 20
  const UDP_HLEN: nat := 8
  const ICMP_HLEN: nat := 8
  const MAX_VLAN_TAGS: nat := 2

  /**
   * The outcome of parse_packet: 0 with the filled record, or -1 with the
   * record as far as it had been filled when parsing stopped (the caller
   * reports a parse error from it).
   */
  datatype ParseResult = Parsed(pkt: Packet) | Malformed(partial: Packet)
  {
    function Record(): Packet { if Parsed? then pkt else partial }
  }

  predicate IsVlanType(t: u16) { t == ETH_P_8021Q || t == ETH_P_8021AD }

  // ---- Field accessors on the raw frame ----

  /** IHL: the low nibble of the first IPv4 header byte, in 32-bit words. */
  function Ihl(frame: seq<u8>, l3: nat): (r: nat)
    requires l3 < |frame|
    ensures r < 16
  {
    frame[l3] % 16
  }

  /** The 16-bit flags/fragment-offset field of the IPv4 header. */
  function FragOffField(frame: seq<u8>, l3: nat): (r: u16)
    requires l3 + IPV4_MIN_HLEN <= |frame|
  {
    Be16At(frame, l3 + 6)
  }

  /** The 13-bit fragment offset (in 8-byte units). */
  function FragOffset(f: u16): (r: nat)
    ensures r < 0x2000
  {
    f % 0x2000
  }

  /** The More Fragments bit (0x2000). */
  predicate MoreFragments(f: u16) { (f / 0x2000) % 2 == 1 }

  /** TCP data offset: the high nibble of byte 12 of the TCP header, in 32-bit words. */
  function DataOffset(frame: seq<u8>, l4: nat): (r: nat)
    requires l4 + TCP_MIN_HLEN <= |frame|
    ensures r < 16
  {
    frame[l4 + 12] / 16
  }

  /** The flag byte of a TCP header through extract_tcp_flags. */
  function TcpFlagsAt(frame: seq<u8>, l4: nat): (r: bv8)
    requires l4 + TCP_MIN_HLEN <= |frame|
    ensures r == frame[l4 + 13] as bv8
  {
    var b := frame[l4 + 13];
    ExtractTcpFlagsIsHeaderByte(b);
    ExtractTcpFlags(Bit(b, 0), Bit(b, 1), Bit(b, 2), Bit(b, 3), Bit(b, 4), Bit(b, 5), Bit(b, 6), Bit(b, 7))
  }

  /** `a - b` when positive, else 0 (the parser's saturating subtractions). */
  function SatSub(a: nat, b: nat): (r: nat)
    ensures r + b >= a && (a >= b ==> r == a - b) && (a <= b ==> r == 0)
  {
    if a > b then a - b else 0
  }

  // ---- VLAN tags ----

  /**
   * The VLAN loop: while the type is a VLAN TPID, and at most `budget`
   * times, step over a 4-byte tag and read the inner type. None is the -1
   * of a tag cut off by the end of the frame.
   */
  function SkipVlans(frame: seq<u8>, l3: nat, proto: u16, budget: nat): (r: Option<(nat, u16)>)
    requires l3 <= |frame|
    ensures r.Some? ==> l3 <= r.value.0 <= l3 + VLAN_HLEN * budget && r.value.0 <= |frame|
    ensures r.Some? ==> (r.value.0 - l3) % VLAN_HLEN == 0
    ensures r.Some? && r.value.0 == l3 ==> r.value.1 == proto
    ensures r.Some? && r.value.0 > l3 ==> IsVlanType(proto) && r.value.1 == Be16At(frame, r.value.0 - 2)
    ensures !IsVlanType(proto) || budget == 0 ==> r == Some((l3, proto))
    decreases budget
  {
    if budget == 0 || !IsVlanType(proto) then Some((l3, proto))
    else if !BoundsCheck(l3, VLAN_HLEN, |frame|) then None
    else SkipVlans(frame, l3 + VLAN_HLEN, Be16At(frame, l3 + 2), budget - 1)
  }

  // ---- L4 ----

  /** Sets the payload offset and the first-four-bytes hash for a payload starting at `p`. */
  function WithPayload(pkt: Packet, p: nat): (r: Packet)
    requires pkt.payload.None?
    ensures r == pkt.(payload := r.payload, payloadHash4 := r.payloadHash4)
    ensures r.payload.Some? <==> p < |pkt.frame|
    ensures r.payload.Some? ==> r.payload.value == p
    ensures p + 4 <= |pkt.frame| ==> r.payloadHash4 == Le32At(pkt.frame, p)
    ensures p + 4 > |pkt.frame| ==> r.payloadHash4 == pkt.payloadHash4
  {
    if p + 4 <= |pkt.frame| then pkt.(payload := Some(p), payloadHash4 := Le32At(pkt.frame, p))
    else if p < |pkt.frame| then pkt.(payload := Some(p))
    else pkt
  }

  /** The L4 part of parse_packet, from the first byte after the IPv4 header. */
  function ParseL4(pkt: Packet, l4: nat, l4Len: u16): (r: ParseResult)
    requires l4 <= |pkt.frame| && pkt.payload.None?
    ensures r.Record().frame == pkt.frame && r.Record().srcIp == pkt.srcIp && r.Record().dstIp == pkt.dstIp
    ensures r.Record().ipProto == pkt.ipProto && r.Record().pktLen == pkt.pktLen
    ensures r.Record().iph == pkt.iph && r.Record().isFragment == pkt.isFragment
    ensures r.Record().ethProto == pkt.ethProto
    ensures r.Parsed? ==> r.pkt.l4 == Some(l4)
  {
    var frame := pkt.frame;
    if pkt.ipProto == IPPROTO_TCP then
      if !BoundsCheck(l4, TCP_MIN_HLEN, |frame|) then Malformed(pkt)
      else
        var withHdr := pkt.(l4 := Some(l4), srcPort := Be16At(frame, l4), dstPort := Be16At(frame, l4 + 2),
                            tcpFlags := TcpFlagsAt(frame, l4),
                            tcpSeq := Be32At(frame, l4 + 4), tcpAckSeq := Be32At(frame, l4 + 8));
        var thl := DataOffset(frame, l4) * 4;
        if thl < TCP_MIN_HLEN then Malformed(withHdr)
        else Parsed(WithPayload(withHdr.(l4PayloadLen := SatSub(l4Len, thl)), l4 + thl))
    else if pkt.ipProto == IPPROTO_UDP then
      if !BoundsCheck(l4, UDP_HLEN, |frame|) then Malformed(pkt)
      else
        var withHdr := pkt.(l4 := Some(l4), srcPort := Be16At(frame, l4), dstPort := Be16At(frame, l4 + 2),
                            l4PayloadLen := SatSub(l4Len, UDP_HLEN));
        Parsed(WithPayload(withHdr, l4 + UDP_HLEN))
    else if pkt.ipProto == IPPROTO_ICMP then
      if !BoundsCheck(l4, ICMP_HLEN, |frame|) then Malformed(pkt)
      else Parsed(pkt.(l4 := Some(l4), srcPort := 0, dstPort := frame[l4], l4PayloadLen := SatSub(l4Len, ICMP_HLEN)))
    else
      Parsed(pkt.(l4 := Some(l4), l4PayloadLen := l4Len))
  }

  // ---- The whole parser ----

  /** The IPv4 fields parse_packet copies into the record. */
  function WithIpv4(pkt: Packet, l3: nat): (r: Packet)
    requires l3 + IPV4_MIN_HLEN <= |pkt.frame|
  {
    var frame := pkt.frame;
    pkt.(iph := Some(l3), ipProto := frame[l3 + 9], srcIp := Be32At(frame, l3 + 12),
         dstIp := Be32At(frame, l3 + 16), pktLen := Be16At(frame, l3 + 2), ttl := frame[l3 + 8])
  }

  /**
   * parse_packet. A success carries an IPv4 header that starts after the
   * Ethernet header and zero, one or two VLAN tags, whose IHL is at least 5
   * and whose IHL × 4 bytes lie in the frame; `isFragment` is set exactly
   * when the fragment offset is nonzero or MF is set.
   */
  function ParsePacket(frame: seq<u8>): (r: ParseResult)
    ensures r.Record().frame == frame
    ensures |frame| < ETH_HLEN ==> r.Malformed?
    ensures r.Parsed? ==>
      && r.pkt.ethProto == ETH_P_IP
      && r.pkt.iph.Some?
      && var l3 := r.pkt.iph.value;
      && l3 in {14, 18, 22}
      && l3 + IPV4_MIN_HLEN <= |frame|
      && Be16At(frame, l3 - 2) == ETH_P_IP
      && Ihl(frame, l3) >= 5
      && l3 + Ihl(frame, l3) * 4 <= |frame|
      && r.pkt.srcIp == Be32At(frame, l3 + 12) && r.pkt.dstIp == Be32At(frame, l3 + 16)
      && r.pkt.ipProto == frame[l3 + 9] && r.pkt.pktLen == Be16At(frame, l3 + 2)
      && (r.pkt.isFragment <==> FragOffset(FragOffField(frame, l3)) != 0 || MoreFragments(FragOffField(frame, l3)))
  {
    var p0 := EmptyPacket(frame);
    if !BoundsCheck(0, ETH_HLEN, |frame|) then Malformed(p0)
    else
      var p1 := p0.(ethProto := Be16At(frame, 12));
      match SkipVlans(frame, ETH_HLEN, p1.ethProto, MAX_VLAN_TAGS)
      case None => Malformed(p1)
      case Some((l3, proto)) =>
        var p2 := p1.(ethProto := proto);
        if proto != ETH_P_IP then Malformed(p2)
        else ParseIpv4(p2, l3)
  }

  /**
   * The IPv4 part of parse_packet, from the header at `l3` on: a header
   * that fits, an IHL of at least 5 words that fits too, the fields
   * copied, and the L4 part unless the fragment offset is nonzero.
   */
  function ParseIpv4(pkt: Packet, l3: nat): (r: ParseResult)
    requires ETH_HLEN <= l3 <= |pkt.frame|
    requires pkt.iph.None? && pkt.l4.None? && pkt.payload.None? && !pkt.isFragment
    ensures r.Record().frame == pkt.frame && r.Record().ethProto == pkt.ethProto
    ensures r.Parsed? ==> WellFormed(r.pkt)
    ensures r.Parsed? ==>
      && r.pkt.iph == Some(l3)
      && l3 + IPV4_MIN_HLEN <= |pkt.frame|
      && Ihl(pkt.frame, l3) >= 5
      && l3 + Ihl(pkt.frame, l3) * 4 <= |pkt.frame|
      && r.pkt.srcIp == Be32At(pkt.frame, l3 + 12) && r.pkt.dstIp == Be32At(pkt.frame, l3 + 16)
      && r.pkt.ipProto == pkt.frame[l3 + 9] && r.pkt.pktLen == Be16At(pkt.frame, l3 + 2)
      && (r.pkt.isFragment <==> FragOffset(FragOffField(pkt.frame, l3)) != 0 || MoreFragments(FragOffField(pkt.frame, l3)))
  {
    var frame := pkt.frame;
    if !BoundsCheck(l3, IPV4_MIN_HLEN, |frame|) then Malformed(pkt)
    else if Ihl(frame, l3) < 5 then Malformed(pkt)
    else if !BoundsCheck(l3, Ihl(frame, l3) * 4, |frame|) then Malformed(pkt)
    else
      var hl := Ihl(frame, l3) * 4;
      var p4 := Ipv4Record(pkt, l3);
      if FragOffset(FragOffField(frame, l3)) != 0 then Parsed(p4)
      else ParseL4(p4, l3 + hl, SatSub(p4.pktLen, hl))
  }

  /** The record once the IPv4 header is read: its fields copied and the fragment flag set. */
  function Ipv4Record(pkt: Packet, l3: nat): (r: Packet)
    requires l3 + IPV4_MIN_HLEN <= |pkt.frame|
    ensures r.frame == pkt.frame && r.payload == pkt.payload && r.l4 == pkt.l4 && r.iph == Some(l3)
    ensures r.ipProto == pkt.frame[l3 + 9] && r.pktLen == Be16At(pkt.frame, l3 + 2)
    ensures r.payloadHash4 == pkt.payloadHash4
  {
    var p3 := WithIpv4(pkt, l3);
    var f := FragOffField(pkt.frame, l3);
    if FragOffset(f) != 0 || MoreFragments(f) then p3.(isFragment := true) else p3
  }

  /** Without a VLAN tag, an IPv4 frame's parse is the IPv4 part's from offset 14. */
  lemma UntaggedIpv4(frame: seq<u8>)
    requires |frame| >= ETH_HLEN && Be16At(frame, 12) == ETH_P_IP
    ensures ParsePacket(frame) == ParseIpv4(EmptyPacket(frame).(ethProto := ETH_P_IP), ETH_HLEN)
  {
    assert SkipVlans(frame, ETH_HLEN, ETH_P_IP, MAX_VLAN_TAGS) == Some((ETH_HLEN, ETH_P_IP));
  }

  /** Every accepted frame, tagged or not, is parsed by the IPv4 part from where the tags end. */
  lemma ParsedThroughIpv4(frame: seq<u8>)
    requires ParsePacket(frame).Parsed?
    ensures |frame| >= ETH_HLEN
    ensures var v := SkipVlans(frame, ETH_HLEN, Be16At(frame, 12), MAX_VLAN_TAGS);
      && v.Some? && v.value.1 == ETH_P_IP && ETH_HLEN <= v.value.0 <= |frame|
      && ParsePacket(frame) == ParseIpv4(EmptyPacket(frame).(ethProto := ETH_P_IP), v.value.0)
  {
  }

  /** A first fragment (or an unfragmented packet) whose header fits goes on to the L4 part. */
  lemma Ipv4ToL4(pkt: Packet, l3: nat, l4Len: u16)
    requires ETH_HLEN <= l3 && l3 + IPV4_MIN_HLEN <= |pkt.frame|
    requires pkt.iph.None? && pkt.l4.None? && pkt.payload.None? && !pkt.isFragment
    requires Ihl(pkt.frame, l3) >= 5 && l3 + Ihl(pkt.frame, l3) * 4 <= |pkt.frame|
    requires FragOffset(FragOffField(pkt.frame, l3)) == 0
    requires l4Len == SatSub(Be16At(pkt.frame, l3 + 2), Ihl(pkt.frame, l3) * 4)
    ensures ParseIpv4(pkt, l3) == ParseL4(Ipv4Record(pkt, l3), l3 + Ihl(pkt.frame, l3) * 4, l4Len)
  {
    assert BoundsCheck(l3, IPV4_MIN_HLEN, |pkt.frame|);
    assert BoundsCheck(l3, Ihl(pkt.frame, l3) * 4, |pkt.frame|);
    assert Ipv4Record(pkt, l3).pktLen == Be16At(pkt.frame, l3 + 2);
  }

  /**
   * What every record parse_packet accepts guarantees to the modules that
   * read header bytes through it: the IPv4 header follows the Ethernet
   * header and lies inside the frame, an L4 header follows it directly
   * (IHL × 4 bytes after its start, IHL at least 5), the L4
   * header of its protocol lies inside the frame, and so does a recorded
   * payload start.
   */
  predicate WellFormed(p: Packet)
  {
    && (p.iph.Some? ==> ETH_HLEN <= p.iph.value && p.iph.value + IPV4_MIN_HLEN <= |p.frame|)
    && (p.l4.Some? ==> p.iph.Some? && p.iph.value < |p.frame| && Ihl(p.frame, p.iph.value) >= 5
                        && p.l4.value == p.iph.value + Ihl(p.frame, p.iph.value) * 4)
    && (p.l4.Some? && p.ipProto == IPPROTO_TCP ==> p.l4.value + TCP_MIN_HLEN <= |p.frame|)
    && (p.l4.Some? && p.ipProto == IPPROTO_UDP ==> p.l4.value + UDP_HLEN <= |p.frame|)
    && (p.l4.Some? && p.ipProto == IPPROTO_ICMP ==> p.l4.value + ICMP_HLEN <= |p.frame|)
    && (p.payload.Some? ==> p.payload.value < |p.frame|)
  }

  /** Every record parse_packet accepts is well formed. */
  lemma ParsedIsWellFormed(frame: seq<u8>)
    requires ParsePacket(frame).Parsed?
    ensures WellFormed(ParsePacket(frame).pkt)
  {
  }

  // ---- Properties ----

  /** A frame too short for a 20-byte IPv4 header after its link-layer header is rejected. */
  lemma TruncatedIpv4Rejected(frame: seq<u8>)
    requires |frame| >= ETH_HLEN
    requires !IsVlanType(Be16At(frame, 12))
    requires |frame| < ETH_HLEN + IPV4_MIN_HLEN
    ensures ParsePacket(frame).Malformed?
  {
  }

  /** Any final ethertype other than IPv4 (IPv6 0x86DD, say) is rejected. */
  lemma NonIpv4Rejected(frame: seq<u8>)
    requires |frame| >= ETH_HLEN
    requires !IsVlanType(Be16At(frame, 12)) && Be16At(frame, 12) != ETH_P_IP
    ensures ParsePacket(frame).Malformed?
  {
  }

  /** A third VLAN tag is not skipped, so a triple-tagged frame is rejected. */
  lemma TripleTaggedRejected(frame: seq<u8>)
    requires |frame| >= 26
    requires IsVlanType(Be16At(frame, 12)) && IsVlanType(Be16At(frame, 16)) && IsVlanType(Be16At(frame, 20))
    ensures ParsePacket(frame).Malformed?
  {
    assert SkipVlans(frame, 22, Be16At(frame, 20), 0) == Some((22, Be16At(frame, 20)));
  }

  /** An IHL below 5 words is rejected. */
  lemma ShortIhlRejected(frame: seq<u8>)
    requires |frame| >= ETH_HLEN + IPV4_MIN_HLEN
    requires Be16At(frame, 12) == ETH_P_IP
    requires Ihl(frame, ETH_HLEN) < 5
    ensures ParsePacket(frame).Malformed?
  {
  }

  /**
   * A non-first fragment is accepted without looking at L4: ports, TCP
   * flags and payload length keep their zero initial values.
   */
  lemma NonFirstFragmentHasNoL4(frame: seq<u8>)
    requires ParsePacket(frame).Parsed?
    requires FragOffset(FragOffField(frame, ParsePacket(frame).pkt.iph.value)) != 0
    ensures var p := ParsePacket(frame).pkt;
      p.isFragment && p.l4.None? && p.srcPort == 0 && p.dstPort == 0 && p.tcpFlags == 0
      && p.l4PayloadLen == 0 && p.payload.None?
  {
  }

  /**
   * For a TCP segment the payload length is the IP total length minus the
   * IP header and the TCP header (data offset × 4), saturating at 0; a data
   * offset below 5 words is rejected.
   */
  lemma TcpLengths(frame: seq<u8>, l3: nat)
    requires l3 == ETH_HLEN && l3 + IPV4_MIN_HLEN <= |frame|
    requires Be16At(frame, 12) == ETH_P_IP && Ihl(frame, l3) >= 5
    requires l3 + Ihl(frame, l3) * 4 + TCP_MIN_HLEN <= |frame|
    requires frame[l3 + 9] == IPPROTO_TCP && FragOffset(FragOffField(frame, l3)) == 0
    ensures var l4 := l3 + Ihl(frame, l3) * 4;
      var r := ParsePacket(frame);
      && (DataOffset(frame, l4) < 5 <==> r.Malformed?)
      && (r.Parsed? ==> r.pkt.l4PayloadLen == SatSub(SatSub(Be16At(frame, l3 + 2), Ihl(frame, l3) * 4), DataOffset(frame, l4) * 4))
      && (r.Parsed? ==> r.pkt.tcpFlags == frame[l4 + 13] as bv8 && r.pkt.srcPort == Be16At(frame, l4))
  {
    hide *;
    UntaggedIpv4(frame);
    var pkt := EmptyPacket(frame).(ethProto := ETH_P_IP);
    var hl := Ihl(frame, l3) * 4;
    var len := SatSub(Be16At(frame, l3 + 2), hl);
    Ipv4ToL4(pkt, l3, len);
    ParseL4Tcp(Ipv4Record(pkt, l3), l3 + hl, len);
  }

  /** The TCP branch of the L4 part: a data offset below 5 is rejected; the flags, ports and payload length come from the header. */
  lemma ParseL4Tcp(pkt: Packet, l4: nat, l4Len: u16)
    requires l4 + TCP_MIN_HLEN <= |pkt.frame| && pkt.payload.None? && pkt.ipProto == IPPROTO_TCP
    ensures var r := ParseL4(pkt, l4, l4Len);
      && (DataOffset(pkt.frame, l4) < 5 <==> r.Malformed?)
      && (r.Parsed? ==> r.pkt.l4PayloadLen == SatSub(l4Len, DataOffset(pkt.frame, l4) * 4))
      && (r.Parsed? ==> r.pkt.tcpFlags == pkt.frame[l4 + 13] as bv8 && r.pkt.srcPort == Be16At(pkt.frame, l4))
  {
  }

  /** ICMP: source port 0, destination port the ICMP type, payload after the 8-byte header. */
  lemma IcmpPseudoPorts(frame: seq<u8>, l3: nat)
    requires l3 == ETH_HLEN && l3 + IPV4_MIN_HLEN <= |frame|
    requires Be16At(frame, 12) == ETH_P_IP && Ihl(frame, l3) >= 5
    requires l3 + Ihl(frame, l3) * 4 + ICMP_HLEN <= |frame|
    requires frame[l3 + 9] == IPPROTO_ICMP && FragOffset(FragOffField(frame, l3)) == 0
    ensures var l4 := l3 + Ihl(frame, l3) * 4;
      var r := ParsePacket(frame);
      && r.Parsed? && r.pkt.srcPort == 0 && r.pkt.dstPort == frame[l4]
      && r.pkt.l4PayloadLen == SatSub(SatSub(Be16At(frame, l3 + 2), Ihl(frame, l3) * 4), ICMP_HLEN)
  {
    UntaggedIpv4(frame);
    var pkt := EmptyPacket(frame).(ethProto := ETH_P_IP);
    Ipv4ToL4(pkt, l3, SatSub(Be16At(frame, l3 + 2), Ihl(frame, l3) * 4));
  }

  /** A protocol other than TCP, UDP and ICMP keeps the whole L4 length as payload. */
  lemma OtherProtocolKeepsL4Length(frame: seq<u8>, l3: nat)
    requires l3 == ETH_HLEN && l3 + IPV4_MIN_HLEN <= |frame|
    requires Be16At(frame, 12) == ETH_P_IP && Ihl(frame, l3) >= 5
    requires l3 + Ihl(frame, l3) * 4 <= |frame|
    requires frame[l3 + 9] !in {IPPROTO_TCP, IPPROTO_UDP, IPPROTO_ICMP} && FragOffset(FragOffField(frame, l3)) == 0
    ensures var r := ParsePacket(frame);
      r.Parsed? && r.pkt.l4PayloadLen == SatSub(Be16At(frame, l3 + 2), Ihl(frame, l3) * 4)
  {
    UntaggedIpv4(frame);
    var pkt := EmptyPacket(frame).(ethProto := ETH_P_IP);
    Ipv4ToL4(pkt, l3, SatSub(Be16At(frame, l3 + 2), Ihl(frame, l3) * 4));
  }
}
