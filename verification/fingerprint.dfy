/**
 * fingerprint_check: attack signatures loaded by the control plane, each a
 * conjunction of optional tests on protocol, TCP flags, ports, length and
 * the first four payload bytes.
 */
module Fingerprint {
  import opened Ints
  import opened Wrappers
  import opened BpfTypes
  import opened Parser
  import opened BpfHelpers

  /** At most this many signatures are examined per packet. */
  const MAX_SIG_CHECK: nat := 64

  /**
   * payload_hash_4bytes: the first four L4 payload bytes of a TCP or UDP
   * packet (read as a host-order word), or 0 when there are fewer than four
   * or the packet is neither.
   */
  function PayloadHash4Bytes(p: Packet): (r: u32)
    requires WellFormed(p)
  {
    if p.ipProto == IPPROTO_TCP && p.l4.Some? then
      var start := p.l4.value + DataOffset(p.frame, p.l4.value) * 4;
      if start + 4 > |p.frame| then 0 else Le32At(p.frame, start)
    else if p.ipProto == IPPROTO_UDP && p.l4.Some? then
      var start := p.l4.value + UDP_HLEN;
      if start + 4 > |p.frame| then 0 else Le32At(p.frame, start)
    else 0
  }

  /** On the L4 part of parsing: the recorded hash is the recomputed one. */
  lemma ParseL4HashAgrees(pkt: Packet, l4: nat, l4Len: u16)
    requires l4 <= |pkt.frame| && pkt.payload.None? && pkt.payloadHash4 == 0
    requires pkt.iph.Some? && ETH_HLEN <= pkt.iph.value && pkt.iph.value + IPV4_MIN_HLEN <= |pkt.frame|
    requires Ihl(pkt.frame, pkt.iph.value) >= 5 && l4 == pkt.iph.value + Ihl(pkt.frame, pkt.iph.value) * 4
    ensures var r := ParseL4(pkt, l4, l4Len);
      r.Parsed? ==> WellFormed(r.pkt) && PayloadHash4Bytes(r.pkt) == r.pkt.payloadHash4
  {
    var r := ParseL4(pkt, l4, l4Len);
    if r.Parsed? {
      if pkt.ipProto == IPPROTO_TCP {
        assert r.pkt.frame == pkt.frame && r.pkt.l4 == Some(l4);
        assert WellFormed(r.pkt);
        assert PayloadHash4Bytes(r.pkt) == r.pkt.payloadHash4;
      } else if pkt.ipProto == IPPROTO_UDP {
        assert WellFormed(r.pkt);
        assert PayloadHash4Bytes(r.pkt) == r.pkt.payloadHash4;
      } else {
        assert WellFormed(r.pkt);
        assert PayloadHash4Bytes(r.pkt) == r.pkt.payloadHash4;
      }
    }
  }

  /** On the IPv4 part of parsing: the recorded hash is the recomputed one. */
  lemma Ipv4HashAgrees(pkt: Packet, l3: nat)
    requires ETH_HLEN <= l3 <= |pkt.frame|
    requires pkt.iph.None? && pkt.l4.None? && pkt.payload.None? && !pkt.isFragment && pkt.payloadHash4 == 0
    ensures var r := ParseIpv4(pkt, l3);
      r.Parsed? ==> WellFormed(r.pkt) && PayloadHash4Bytes(r.pkt) == r.pkt.payloadHash4
  {
    var r := ParseIpv4(pkt, l3);
    if r.Parsed? {
      var frame := pkt.frame;
      if FragOffset(FragOffField(frame, l3)) == 0 {
        var hl := Ihl(frame, l3) * 4;
        var len := SatSub(Be16At(frame, l3 + 2), hl);
        Ipv4ToL4(pkt, l3, len);
        ParseL4HashAgrees(Ipv4Record(pkt, l3), l3 + hl, len);
      }
    }
  }

  /** The hash recomputed here is the one parse_packet recorded. */
  lemma PayloadHashAgreesWithParser(frame: seq<u8>)
    requires ParsePacket(frame).Parsed?
    ensures var p := ParsePacket(frame).pkt;
      WellFormed(p) && PayloadHash4Bytes(p) == p.payloadHash4
  {
    ParsedThroughIpv4(frame);
    var v := SkipVlans(frame, ETH_HLEN, Be16At(frame, 12), MAX_VLAN_TAGS);
    Ipv4HashAgrees(EmptyPacket(frame).(ethProto := ETH_P_IP), v.value.0);
  }

  /** A (0, 0) range is a wildcard; otherwise the value must lie in the inclusive range. */
  predicate InRangeOrAny(v: nat, lo: nat, hi: nat)
  {
    (lo == 0 && hi == 0) || (lo <= v <= hi)
  }

  /** The flag test: no mask, or the masked flags equal the wanted ones. */
  predicate FlagsAccepted(flags: bv8, mask: bv8, want: bv8)
  {
    mask == 0 || flags & mask == want
  }

  /** The meaning of a signature: every field it sets agrees with the packet. */
  predicate SigMatches(sig: AttackSig, p: Packet)
    requires WellFormed(p)
  {
    && (sig.protocol == 0 || sig.protocol == p.ipProto)
    && FlagsAccepted(p.tcpFlags, sig.flagsMask, sig.flagsMatch)
    && InRangeOrAny(p.srcPort, sig.srcPortMin, sig.srcPortMax)
    && InRangeOrAny(p.dstPort, sig.dstPortMin, sig.dstPortMax)
    && InRangeOrAny(p.pktLen, sig.pktLenMin, sig.pktLenMax)
    && (sig.payloadHash == 0 || sig.payloadHash == PayloadHash4Bytes(p))
  }

  /** How many signature slots are examined for a stored count. */
  function Examined(count: Option<u32>): (n: nat)
    ensures n <= MAX_SIG_CHECK
    ensures count.Some? && count.value <= MAX_SIG_CHECK ==> n == count.value
    ensures count.None? ==> n == 0
  {
    match count
    case None => 0
    case Some(c) => if c > MAX_SIG_CHECK then MAX_SIG_CHECK else c
  }

  /** Some examined signature slot holds a signature that matches the packet. */
  predicate SignatureHit(p: Packet, sigCount: Option<u32>, sigs: map<u32, AttackSig>)
    requires WellFormed(p)
  {
    exists i: u32 :: i < Examined(sigCount) && i in sigs && SigMatches(sigs[i], p)
  }

  /** What fingerprint_check decides, stated without the scan. */
  function FingerprintOutcome(p: Packet, sigCount: Option<u32>, sigs: map<u32, AttackSig>, now: u64): (o: Outcome)
    requires WellFormed(p)
    ensures o.verdict == Drop <==> SignatureHit(p, sigCount, sigs)
  {
    if SignatureHit(p, sigCount, sigs) then Outcome(Drop, [AclDropped], [DropEvent(p, now, ATTACK_NONE, DROP_FINGERPRINT)])
    else PassOutcome()
  }

  /**
   * fingerprint_check. A missing or zero count passes. Otherwise the
   * packet is dropped exactly when one of the first min(count, 64)
   * signatures matches it; the drop bumps acl_dropped once and emits one
   * DROP_FINGERPRINT event.
   */
  method FingerprintCheck(p: Packet, sigCount: Option<u32>, sigs: map<u32, AttackSig>, now: u64)
    returns (o: Outcome)
    requires WellFormed(p)
    ensures sigCount.None? || sigCount.value == 0 ==> o == PassOutcome()
    ensures o.verdict == Drop <==>
      exists i: u32 :: i < Examined(sigCount) && i in sigs && SigMatches(sigs[i], p)
    ensures o.verdict == Drop ==>
      o.bumps == [AclDropped] && o.events == [DropEvent(p, now, ATTACK_NONE, DROP_FINGERPRINT)]
    ensures o.verdict != Drop ==> o == PassOutcome()
    ensures o == FingerprintOutcome(p, sigCount, sigs, now)
  {
    if sigCount.None? || sigCount.value == 0 {
      return PassOutcome();
    }
    var count := Examined(sigCount);
    var phash: u32 := 0;
    var phashComputed := false;
    var i: u32 := 0;
    while i < MAX_SIG_CHECK as u32 && i < count as u32
      invariant i <= count
      invariant phashComputed ==> phash == PayloadHash4Bytes(p)
      invariant forall j: u32 :: j < i && j in sigs ==> !SigMatches(sigs[j], p)
    {
      if i in sigs {
        var sig := sigs[i];
        if sig.payloadHash != 0 && !phashComputed {
          phash := PayloadHash4Bytes(p);
          phashComputed := true;
        }
        if SigPasses(sig, p, phash) {
          return Outcome(Drop, [AclDropped], [DropEvent(p, now, ATTACK_NONE, DROP_FINGERPRINT)]);
        }
      }
      i := i + 1;
    }
    return PassOutcome();
  }

  /**
   * The per-signature tests in the order the C applies them, each failing
   * test skipping the signature; `phash` is the payload hash, computed by
   * the caller on first need.
   */
  function SigPasses(sig: AttackSig, p: Packet, phash: u32): (r: bool)
    requires WellFormed(p)
    requires sig.payloadHash != 0 ==> phash == PayloadHash4Bytes(p)
    ensures r <==> SigMatches(sig, p)
  {
    if sig.protocol != 0 && sig.protocol != p.ipProto then false
    else if !FlagsAccepted(p.tcpFlags, sig.flagsMask, sig.flagsMatch) then false
    else if (sig.srcPortMin != 0 || sig.srcPortMax != 0)
         && (p.srcPort < sig.srcPortMin || p.srcPort > sig.srcPortMax) then false
    else if (sig.dstPortMin != 0 || sig.dstPortMax != 0)
         && (p.dstPort < sig.dstPortMin || p.dstPort > sig.dstPortMax) then false
    else if (sig.pktLenMin != 0 || sig.pktLenMax != 0)
         && (p.pktLen < sig.pktLenMin || p.pktLen > sig.pktLenMax) then false
    else if sig.payloadHash != 0 && phash != sig.payloadHash then false
    else true
  }

  /** A signature whose every field is zero matches every packet. */
  lemma ZeroSignatureMatchesAll(p: Packet)
    requires WellFormed(p)
    ensures SigMatches(AttackSig(0, 0, 0, 0, 0, 0, 0, 0, 0, 0), p)
  {
  }

  /**
   * A signature that differs from a matching one only in its protocol
   * field matches too when that field is 0: protocol 0 is a wildcard.
   */
  lemma ProtocolZeroIsWildcard(sig: AttackSig, p: Packet, q: Packet)
    requires WellFormed(p) && WellFormed(q)
    requires SigMatches(sig, p) && q == p.(ipProto := q.ipProto)
    requires sig.payloadHash == 0
    ensures SigMatches(sig.(protocol := 0), q)
  {
  }
}
