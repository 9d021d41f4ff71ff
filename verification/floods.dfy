/**
 * The three flood filters of the pipeline: ack_flood_check (pure ACKs of
 * untracked flows), udp_flood_check (amplification responses by source
 * port and payload size) and icmp_flood_check (oversized or unusual ICMP).
 */
module Floods {
  import opened Ints
  import opened Wrappers
  import opened BpfTypes
  import opened Parser
  import opened Conntrack

  // ---- ACK flood ----

  /** ack_flood_check's result: the verdict and effects, and the conntrack table. */
  datatype AckResult = AckResult(outcome: Outcome, conntrack: ConntrackTable)

  /**
   * ack_flood_check. Only TCP segments whose flags are exactly ACK are
   * examined, and only while conntrack is on. An entry in the original
   * direction is touched as forward traffic, else one in the reply
   * direction as reverse traffic, and the segment passes; with no entry in
   * either direction it is dropped with one ack_flood_dropped increment
   * and one event. States are not stepped here.
   */
  function AckFloodCheck(p: Packet, cfg: Config, ct: ConntrackTable, now: u64): (r: AckResult)
    ensures r.outcome.verdict in {Pass, Drop}
    ensures p.ipProto != IPPROTO_TCP || p.tcpFlags != TCP_FLAG_ACK || GetConfig(cfg, CFG_CONNTRACK_ENABLE) == 0 ==>
      r == AckResult(PassOutcome(), ct)
    ensures r.outcome.verdict == Drop <==>
      && p.ipProto == IPPROTO_TCP && p.tcpFlags == TCP_FLAG_ACK && GetConfig(cfg, CFG_CONNTRACK_ENABLE) != 0
      && ForwardKey(p) !in ct && ReverseKey(p) !in ct
    ensures r.outcome.verdict == Drop ==>
      && r.conntrack == ct && r.outcome.bumps == [AckFloodDropped]
      && r.outcome.events == [DropEvent(p, now, ATTACK_ACK_FLOOD, DROP_ACK_INVALID)]
    ensures r.outcome.verdict == Pass ==> r.outcome == PassOutcome()
    ensures r.conntrack.Keys == ct.Keys
    ensures forall k :: k in ct && k != ForwardKey(p) && k != ReverseKey(p) ==> r.conntrack[k] == ct[k]
    ensures r.conntrack != ct && ForwardKey(p) in ct ==>
      r.conntrack == ct[ForwardKey(p) := TouchForward(ct[ForwardKey(p)], now, p.pktLen)]
    ensures r.conntrack != ct && ForwardKey(p) !in ct ==>
      r.conntrack == ct[ReverseKey(p) := TouchReverse(ct[ReverseKey(p)], now, p.pktLen)]
  {
    if p.ipProto != IPPROTO_TCP then AckResult(PassOutcome(), ct)
    else if p.tcpFlags != TCP_FLAG_ACK then AckResult(PassOutcome(), ct)
    else if GetConfig(cfg, CFG_CONNTRACK_ENABLE) == 0 then AckResult(PassOutcome(), ct)
    else
      var fwd := ForwardKey(p);
      var rev := ReverseKey(p);
      if fwd in ct then AckResult(PassOutcome(), ct[fwd := TouchForward(ct[fwd], now, p.pktLen)])
      else if rev in ct then AckResult(PassOutcome(), ct[rev := TouchReverse(ct[rev], now, p.pktLen)])
      else
        AckResult(Outcome(Drop, [AckFloodDropped], [DropEvent(p, now, ATTACK_ACK_FLOOD, DROP_ACK_INVALID)]), ct)
  }

  /** An ACK with PSH (or any other flag) set is never examined. */
  lemma AckWithOtherFlagsPasses(p: Packet, cfg: Config, ct: ConntrackTable, now: u64)
    requires p.tcpFlags == TCP_FLAG_ACK | TCP_FLAG_PSH
    ensures AckFloodCheck(p, cfg, ct, now) == AckResult(PassOutcome(), ct)
  {
  }

  // ---- UDP flood and amplification ----

  const PORT_DNS: u16 := 53
  const PORT_NTP: u16 := 123
  const PORT_SSDP: u16 := 1900
  const PORT_MEMCACHED: u16 := 11211
  const PORT_CHARGEN: u16 := 19
  const PORT_CLDAP: u16 := 389
  const PORT_SNMP: u16 := 161

  const DNS_AMP_THRESHOLD: u16 := 512
  const NTP_AMP_THRESHOLD: u16 := 468
  const SSDP_AMP_THRESHOLD: u16 := 256
  const MEMCACHED_AMP_THRESHOLD: u16 := 1400
  const GENERIC_AMP_THRESHOLD: u16 := 256
  const PORT_MAP_THRESHOLD: u16 := 512

  /**
   * The amplification-sensitive ports (port_proto_map), keyed by host-order
   * port; a missing port reads as no flags.
   */
  type PortProtoMap = map<u16, u32>

  /** One amplification rule: the source ports it covers, its size bound and what a drop records. */
  datatype AmpRule = AmpRule(ports: set<u16>, threshold: u16, counter: Counter, attack: u8, reason: u8)

  /** The fixed rules in the order udp_flood_check tries them. */
  function AmpRules(): (rules: seq<AmpRule>)
    ensures |rules| == 5
  {
    [ AmpRule({PORT_DNS}, DNS_AMP_THRESHOLD, DnsAmpDropped, ATTACK_DNS_AMP, DROP_DNS_AMP),
      AmpRule({PORT_NTP}, NTP_AMP_THRESHOLD, NtpAmpDropped, ATTACK_NTP_AMP, DROP_NTP_AMP),
      AmpRule({PORT_SSDP}, SSDP_AMP_THRESHOLD, UdpFloodDropped, ATTACK_SSDP_AMP, DROP_UDP_FLOOD),
      AmpRule({PORT_MEMCACHED}, MEMCACHED_AMP_THRESHOLD, UdpFloodDropped, ATTACK_MEMCACHED_AMP, DROP_UDP_FLOOD),
      AmpRule({PORT_CHARGEN, PORT_CLDAP, PORT_SNMP}, GENERIC_AMP_THRESHOLD, UdpFloodDropped, ATTACK_UDP_FLOOD, DROP_UDP_FLOOD) ]
  }

  predicate RuleHits(rule: AmpRule, port: u16, payloadLen: u16)
  {
    port in rule.ports && payloadLen > rule.threshold
  }

  /** The port map's rule: a registered port with nonzero flags and more than 512 payload bytes. */
  predicate PortMapHits(ports: PortProtoMap, port: u16, payloadLen: u16)
  {
    port in ports && ports[port] != 0 && payloadLen > PORT_MAP_THRESHOLD
  }

  /** The declarative reading: a UDP datagram is an amplification response when some rule covers it. */
  predicate IsAmplification(p: Packet, ports: PortProtoMap)
  {
    p.ipProto == IPPROTO_UDP
    && ((exists i :: 0 <= i < |AmpRules()| && RuleHits(AmpRules()[i], p.srcPort, p.l4PayloadLen))
        || PortMapHits(ports, p.srcPort, p.l4PayloadLen))
  }

  /**
   * udp_flood_check. Non-UDP passes. Otherwise the fixed rules are tried
   * in order (DNS, NTP, SSDP, memcached, then CHARGEN/CLDAP/SNMP), then the
   * port map; the first that fires drops with its counter and event. Every
   * threshold is a strict bound on the L4 payload length.
   */
  function UdpFloodCheck(p: Packet, ports: PortProtoMap, now: u64): (o: Outcome)
    ensures o.verdict == Drop <==> IsAmplification(p, ports)
    ensures o.verdict != Drop ==> o == PassOutcome()
    ensures o.verdict == Drop ==>
      && |o.bumps| == 1 && |o.events| == 1
      && o.events[0].action == ACTION_DROP && o.events[0].srcPort == p.srcPort
      && o.bumps[0] in {DnsAmpDropped, NtpAmpDropped, UdpFloodDropped}
    ensures o.verdict == Drop && p.srcPort == PORT_DNS && p.l4PayloadLen > DNS_AMP_THRESHOLD ==>
      o == Outcome(Drop, [DnsAmpDropped], [DropEvent(p, now, ATTACK_DNS_AMP, DROP_DNS_AMP)])
    ensures o.verdict == Drop && p.srcPort == PORT_NTP && p.l4PayloadLen > NTP_AMP_THRESHOLD ==>
      o == Outcome(Drop, [NtpAmpDropped], [DropEvent(p, now, ATTACK_NTP_AMP, DROP_NTP_AMP)])
    ensures p.ipProto == IPPROTO_UDP ==>
      forall i :: 0 <= i < |AmpRules()| && RuleHits(AmpRules()[i], p.srcPort, p.l4PayloadLen) ==>
        o == Outcome(Drop, [AmpRules()[i].counter], [DropEvent(p, now, AmpRules()[i].attack, AmpRules()[i].reason)])
    ensures p.ipProto == IPPROTO_UDP && PortMapHits(ports, p.srcPort, p.l4PayloadLen)
            && (forall i :: 0 <= i < |AmpRules()| ==> !RuleHits(AmpRules()[i], p.srcPort, p.l4PayloadLen)) ==>
      o == Outcome(Drop, [UdpFloodDropped], [DropEvent(p, now, ATTACK_UDP_FLOOD, DROP_UDP_FLOOD)])
  {
    AmpRulesDisjoint();
    if p.ipProto != IPPROTO_UDP then PassOutcome()
    else
      var i := FirstRule(AmpRules(), p.srcPort, p.l4PayloadLen, 0);
      if i < |AmpRules()| then
        var rule := AmpRules()[i];
        Outcome(Drop, [rule.counter], [DropEvent(p, now, rule.attack, rule.reason)])
      else if PortMapHits(ports, p.srcPort, p.l4PayloadLen) then
        Outcome(Drop, [UdpFloodDropped], [DropEvent(p, now, ATTACK_UDP_FLOOD, DROP_UDP_FLOOD)])
      else PassOutcome()
  }

  /** The index of the first rule from `from` on that fires, or |rules| when none does. */
  function FirstRule(rules: seq<AmpRule>, port: u16, payloadLen: u16, from: nat): (i: nat)
    requires from <= |rules|
    ensures from <= i <= |rules|
    ensures i < |rules| ==> RuleHits(rules[i], port, payloadLen)
    ensures forall j :: from <= j < i ==> !RuleHits(rules[j], port, payloadLen)
    decreases |rules| - from
  {
    if from == |rules| then from
    else if RuleHits(rules[from], port, payloadLen) then from
    else FirstRule(rules, port, payloadLen, from + 1)
  }

  /** The fixed rules cover disjoint ports, so their order never matters. */
  lemma AmpRulesDisjoint()
    ensures forall i, j :: 0 <= i < j < |AmpRules()| ==> AmpRules()[i].ports !! AmpRules()[j].ports
  {
  }

  /** A reply exactly at a threshold still passes: every bound is strict. */
  lemma DnsAtThresholdPasses(p: Packet, now: u64)
    requires p.ipProto == IPPROTO_UDP && p.srcPort == PORT_DNS && p.l4PayloadLen == DNS_AMP_THRESHOLD
    ensures UdpFloodCheck(p, map[], now) == PassOutcome()
  {
    assert !IsAmplification(p, map[]) by {
      forall i | 0 <= i < |AmpRules()|
        ensures !RuleHits(AmpRules()[i], p.srcPort, p.l4PayloadLen)
      {
      }
    }
  }

  /** Growing a payload never turns a drop into a pass. */
  lemma UdpDropMonotoneInSize(p: Packet, ports: PortProtoMap, now: u64, bigger: u16)
    requires UdpFloodCheck(p, ports, now).verdict == Drop
    requires bigger >= p.l4PayloadLen
    ensures UdpFloodCheck(p.(l4PayloadLen := bigger), ports, now).verdict == Drop
  {
    var q := p.(l4PayloadLen := bigger);
    if exists i :: 0 <= i < |AmpRules()| && RuleHits(AmpRules()[i], p.srcPort, p.l4PayloadLen) {
      var i :| 0 <= i < |AmpRules()| && RuleHits(AmpRules()[i], p.srcPort, p.l4PayloadLen);
      assert RuleHits(AmpRules()[i], q.srcPort, q.l4PayloadLen);
    }
  }

  // ---- ICMP flood ----

  /** The largest ICMP message (header plus payload) let through. */
  const ICMP_MAX_SIZE: nat := 1024

  const ICMP_ECHO_REPLY: u8 := 0
  const ICMP_DEST_UNREACHABLE: u8 := 3
  const ICMP_ECHO_REQUEST: u8 := 8
  const ICMP_TIME_EXCEEDED: u8 := 11

  /** The ICMP types let through (section 4 of RFC 792 numbers them). */
  predicate AllowedIcmpType(t: u8)
  {
    t == ICMP_ECHO_REPLY || t == ICMP_DEST_UNREACHABLE || t == ICMP_ECHO_REQUEST || t == ICMP_TIME_EXCEEDED
  }

  /**
   * icmp_flood_check. A packet that is not ICMP, or whose ICMP header is
   * missing or runs past the frame, passes. An ICMP message longer than
   * 1024 bytes, or of a type other than echo reply, destination
   * unreachable, echo request and time exceeded, is dropped with one
   * icmp_flood_dropped increment and one event.
   */
  function IcmpFloodCheck(p: Packet, now: u64): (o: Outcome)
    ensures o.verdict == Drop <==>
      && p.ipProto == IPPROTO_ICMP && p.l4.Some? && p.l4.value + ICMP_HLEN <= |p.frame|
      && (p.l4PayloadLen + ICMP_HLEN > ICMP_MAX_SIZE || !AllowedIcmpType(p.frame[p.l4.value]))
    ensures o.verdict == Drop ==>
      o.bumps == [IcmpFloodDropped] && o.events == [DropEvent(p, now, ATTACK_ICMP_FLOOD, DROP_ICMP_FLOOD)]
    ensures o.verdict != Drop ==> o == PassOutcome()
  {
    if p.ipProto != IPPROTO_ICMP || p.l4.None? then PassOutcome()
    else if p.l4.value + ICMP_HLEN > |p.frame| then PassOutcome()
    else
      var icmpType := p.frame[p.l4.value];
      if p.l4PayloadLen + ICMP_HLEN > ICMP_MAX_SIZE then
        Outcome(Drop, [IcmpFloodDropped], [DropEvent(p, now, ATTACK_ICMP_FLOOD, DROP_ICMP_FLOOD)])
      else if !AllowedIcmpType(icmpType) then
        Outcome(Drop, [IcmpFloodDropped], [DropEvent(p, now, ATTACK_ICMP_FLOOD, DROP_ICMP_FLOOD)])
      else PassOutcome()
  }
}
