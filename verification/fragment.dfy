/** fragment_check: every IPv4 fragment is dropped. */
module Fragment {
  import opened Ints
  import opened BpfTypes
  import opened Parser

  /** Below this total length a first fragment is a tiny-fragment attack. */
  const FRAG_MIN_SIZE: nat := 68

  /** The fragment offset in bytes: the 13-bit field times 8 (section 3.1 of RFC 791). */
  function OffsetBytes(fragOff: u16): (r: u16)
    ensures r % 8 == 0 && (r == 0 <==> FragOffset(fragOff) == 0)
  {
    FragOffset(fragOff) * 8
  }

  /** Why a fragment was dropped; both branches have the same effects. */
  predicate TinyFirstFragment(p: Packet, fragOff: u16)
  {
    OffsetBytes(fragOff) == 0 && p.pktLen < FRAG_MIN_SIZE
  }

  /**
   * A packet not marked as a fragment, or without a readable IPv4 header,
   * passes. Otherwise a nonzero offset or a set MF bit drops it, with one
   * fragment_dropped increment and one DROP_FRAGMENT event, whether or not
   * it is a tiny first fragment.
   */
  function FragmentCheck(p: Packet, now: u64): (o: Outcome)
    ensures !p.isFragment || p.iph.None? ==> o == PassOutcome()
    ensures o.verdict == Drop <==>
      p.isFragment && p.iph.Some? && p.iph.value + IPV4_MIN_HLEN <= |p.frame|
      && (FragOffset(FragOffField(p.frame, p.iph.value)) != 0 || MoreFragments(FragOffField(p.frame, p.iph.value)))
    ensures o.verdict == Drop ==>
      o.bumps == [FragmentDropped] && o.events == [DropEvent(p, now, ATTACK_FRAGMENT, DROP_FRAGMENT)]
    ensures o.verdict != Drop ==> o == PassOutcome()
  {
    if !p.isFragment then PassOutcome()
    else if p.iph.None? then PassOutcome()
    else if p.iph.value + IPV4_MIN_HLEN > |p.frame| then PassOutcome()
    else
      var fragOff := FragOffField(p.frame, p.iph.value);
      if OffsetBytes(fragOff) > 0 || MoreFragments(fragOff) then
        if TinyFirstFragment(p, fragOff) then
          Outcome(Drop, [FragmentDropped], [DropEvent(p, now, ATTACK_FRAGMENT, DROP_FRAGMENT)])
        else
          Outcome(Drop, [FragmentDropped], [DropEvent(p, now, ATTACK_FRAGMENT, DROP_FRAGMENT)])
      else PassOutcome()
  }

  /** Every fragment that parse_packet accepts is dropped here. */
  lemma ParsedFragmentsDropped(frame: seq<u8>, now: u64)
    requires ParsePacket(frame).Parsed? && ParsePacket(frame).pkt.isFragment
    ensures FragmentCheck(ParsePacket(frame).pkt, now).verdict == Drop
  {
  }

  /** Parsed packets that are not fragments pass. */
  lemma ParsedNonFragmentsPass(frame: seq<u8>, now: u64)
    requires ParsePacket(frame).Parsed? && !ParsePacket(frame).pkt.isFragment
    ensures FragmentCheck(ParsePacket(frame).pkt, now) == PassOutcome()
  {
  }
}
