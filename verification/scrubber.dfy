/**
 * xdp_ddos_scrubber: the data-plane entry point. The frame is parsed and
 * then handed to the verdict modules in a fixed order; the first drop ends
 * processing, the SYN stage alone can bounce the frame back, and a packet
 * that survives every stage updates conntrack and passes.
 */
module Scrubber {
  import opened Ints
  import opened Wrappers
  import opened BpfTypes
  import opened BpfHelpers
  import opened Parser
  import opened Acl
  import opened Fragment
  import opened Fingerprint
  import opened SynFlood
  import opened Floods
  import opened RateLimiter
  import opened Conntrack

  /** The XDP return codes the entry point uses. */
  datatype XdpAction = XdpDrop | XdpPass | XdpTx

  /** The maps the data plane only reads (written by the control plane). */
  datatype Tables = Tables(
    config: Config,
    whitelist: LpmTrie,
    blacklist: LpmTrie,
    sigCount: Option<u32>,
    sigs: map<u32, AttackSig>,
    cookies: Option<SynCookieCtx>,
    ports: PortProtoMap)

  /** The maps the data plane writes, the statistics record and the event stream. */
  datatype State = State(
    conntrack: ConntrackTable,
    sources: SourceBuckets,
    global: GlobalBuckets,
    stats: Stats,
    events: seq<Event>)

  /** The action, the frame as it leaves (rewritten only for XDP_TX) and the new state. */
  datatype ScrubResult = ScrubResult(action: XdpAction, frame: seq<u8>, state: State)

  /** The counters stats_rx, stats_tx and stats_drop own; no module increments them. */
  predicate TrafficCounter(c: Counter)
  {
    c in {RxPackets, RxBytes, TxPackets, TxBytes, DroppedPackets, DroppedBytes}
  }

  /** A module's increments touch only its own counters. */
  predicate ModuleBumps(bumps: seq<Counter>)
  {
    forall i :: 0 <= i < |bumps| ==> !TrafficCounter(bumps[i])
  }

  /** A module's effects recorded: its increments applied and its events appended. */
  function Record(s: State, o: Outcome): (r: State)
    ensures r.conntrack == s.conntrack && r.sources == s.sources && r.global == s.global
    ensures r.events == s.events + o.events
    ensures forall c :: Count(r.stats, c) == Count(s.stats, c) + Occurrences(o.bumps, c)
    ensures ModuleBumps(o.bumps) ==> forall c :: TrafficCounter(c) ==> Count(r.stats, c) == Count(s.stats, c)
  {
    forall c ensures Count(ApplyBumps(s.stats, o.bumps), c) == Count(s.stats, c) + Occurrences(o.bumps, c) {
      ApplyBumpsCounts(s.stats, o.bumps, c);
    }
    forall c | ModuleBumps(o.bumps) && TrafficCounter(c) ensures Occurrences(o.bumps, c) == 0 {
      ModuleBumpsMissTraffic(o.bumps, c);
    }
    s.(stats := ApplyBumps(s.stats, o.bumps), events := s.events + o.events)
  }

  lemma {:induction false} ModuleBumpsMissTraffic(bumps: seq<Counter>, c: Counter)
    requires ModuleBumps(bumps) && TrafficCounter(c)
    ensures Occurrences(bumps, c) == 0
    decreases |bumps|
  {
    if |bumps| > 0 {
      assert !TrafficCounter(bumps[0]);
      ModuleBumpsMissTraffic(bumps[1..], c);
    }
  }

  /** Stage 2 to 4 drop without stats_drop: the ACL, fragment and fingerprint stages. */
  predicate EarlyDrop(t: Tables, p: Packet)
    requires WellFormed(p)
  {
    || AclCheck(p, t.whitelist, t.blacklist, 0).verdict == Drop
    || FragmentCheck(p, 0).verdict == Drop
    || SignatureHit(p, t.sigCount, t.sigs)
  }

  /**
   * stats_rx is not touched, and the packet is counted exactly once: by
   * stats_drop when dropped, by stats_tx when passed or sent back.
   */
  predicate Accounted(before: Stats, after: Stats, a: XdpAction)
  {
    && Count(after, RxPackets) == Count(before, RxPackets)
    && Count(after, TxPackets) == Count(before, TxPackets) + (if a == XdpDrop then 0 else 1)
    && Count(after, DroppedPackets) == Count(before, DroppedPackets) + (if a == XdpDrop then 1 else 0)
  }

  /** A late stage's drop: its effects, then stats_drop for the packet's length. */
  function LateDrop(s: State, o: Outcome, p: Packet): (r: ScrubResult)
    requires ModuleBumps(o.bumps)
    ensures r.action == XdpDrop && r.frame == p.frame
    ensures Accounted(s.stats, r.state.stats, r.action)
    ensures r.state.events == s.events + o.events
    ensures r.state.conntrack == s.conntrack && r.state.sources == s.sources && r.state.global == s.global
  {
    var s1 := Record(s, o);
    ScrubResult(XdpDrop, p.frame, s1.(stats := StatsDrop(s1.stats, p.pktLen)))
  }

  /** Stage 11 and 12: conntrack records the packet, which is counted as transmitted and passes. */
  function Admit(t: Tables, s: State, p: Packet, now: u64): (r: ScrubResult)
    ensures r.action == XdpPass && r.frame == p.frame
    ensures r.state.conntrack == ConntrackUpdate(p, t.config, s.conntrack, now).table
    ensures r.state.sources == s.sources && r.state.global == s.global && r.state.events == s.events
    ensures Accounted(s.stats, r.state.stats, r.action)
    ensures Count(r.state.stats, TxBytes) == Count(s.stats, TxBytes) + p.pktLen
  {
    hide *;
    var ct := ConntrackUpdate(p, t.config, s.conntrack, now);
    ConntrackBumpsAreModuleBumps(p, t.config, s.conntrack, now);
    ModuleThenTx(s, Outcome(Pass, ct.bumps, []), p.pktLen);
    var s11 := Record(s, Outcome(Pass, ct.bumps, [])).(conntrack := ct.table);
    ScrubResult(XdpPass, p.frame, s11.(stats := StatsTx(s11.stats, p.pktLen)))
  }

  /** A module's own increments followed by stats_tx account the packet as transmitted. */
  lemma ModuleThenTx(s: State, o: Outcome, len: u16)
    requires ModuleBumps(o.bumps)
    ensures var after := StatsTx(Record(s, o).stats, len);
      Accounted(s.stats, after, XdpPass) && Count(after, TxBytes) == Count(s.stats, TxBytes) + len
  {
    hide *;
    var after := StatsTx(Record(s, o).stats, len);
    PacketCountersAreTraffic();
    AccountedIntro(s.stats, after, XdpPass);
  }

  lemma AccountedIntro(before: Stats, after: Stats, a: XdpAction)
    requires Count(after, RxPackets) == Count(before, RxPackets)
    requires Count(after, TxPackets) == Count(before, TxPackets) + (if a == XdpDrop then 0 else 1)
    requires Count(after, DroppedPackets) == Count(before, DroppedPackets) + (if a == XdpDrop then 1 else 0)
    ensures Accounted(before, after, a)
  {
  }

  /** Conntrack increments only its own counters. */
  lemma ConntrackBumpsAreModuleBumps(p: Packet, cfg: Config, ct: ConntrackTable, now: u64)
    ensures ModuleBumps(ConntrackUpdate(p, cfg, ct, now).bumps)
  {
    var r := ConntrackUpdate(p, cfg, ct, now);
    assert r.bumps == [] || r.bumps == [ConntrackNew] || r.bumps == [ConntrackEstablished];
  }

  /** Stages 9 and 10, the per-source and global rate limits, then admission. */
  function RateStages(t: Tables, s: State, p: Packet, now: u64): (r: ScrubResult)
    ensures r.action in {XdpDrop, XdpPass} && r.frame == p.frame
    ensures Accounted(s.stats, r.state.stats, r.action)
    ensures r.action == XdpPass <==>
      && RateLimitCheck(p, t.config, s.sources, now).outcome.verdict != Drop
      && GlobalRateCheck(p, t.config, s.global, now).outcome.verdict != Drop
    ensures r.action == XdpPass ==>
      && r.state.conntrack == ConntrackUpdate(p, t.config, s.conntrack, now).table
      && r.state.sources == RateLimitCheck(p, t.config, s.sources, now).buckets
      && r.state.global == GlobalRateCheck(p, t.config, s.global, now).buckets
      && r.state.events == s.events
  {
    var rl := RateLimitCheck(p, t.config, s.sources, now);
    var s9 := s.(sources := rl.buckets);
    if rl.outcome.verdict == Drop then LateDrop(s9, rl.outcome, p)
    else
      var g := GlobalRateCheck(p, t.config, s9.global, now);
      var s10 := s9.(global := g.buckets);
      if g.outcome.verdict == Drop then LateDrop(s10, g.outcome, p)
      else Admit(t, s10, p, now)
  }

  /**
   * Stages 6 to 8: ACK flood, UDP amplification and ICMP, then the rate
   * stages. A drop at any of them is counted by stats_drop; a packet that
   * survives them all is counted as transmitted.
   */
  function LateStages(t: Tables, s: State, p: Packet, now: u64): (r: ScrubResult)
    ensures r.action in {XdpDrop, XdpPass} && r.frame == p.frame
    ensures Accounted(s.stats, r.state.stats, r.action)
    ensures r.action == XdpPass <==>
      && AckFloodCheck(p, t.config, s.conntrack, now).outcome.verdict != Drop
      && !IsAmplification(p, t.ports)
      && IcmpFloodCheck(p, now).verdict != Drop
      && RateLimitCheck(p, t.config, s.sources, now).outcome.verdict != Drop
      && GlobalRateCheck(p, t.config, s.global, now).outcome.verdict != Drop
    ensures r.action == XdpPass ==>
      && r.state.conntrack == ConntrackUpdate(p, t.config, AckFloodCheck(p, t.config, s.conntrack, now).conntrack, now).table
      && r.state.sources == RateLimitCheck(p, t.config, s.sources, now).buckets
      && r.state.global == GlobalRateCheck(p, t.config, s.global, now).buckets
      && r.state.events == s.events
  {
    var ack := AckFloodCheck(p, t.config, s.conntrack, now);
    var s6 := s.(conntrack := ack.conntrack);
    if ack.outcome.verdict == Drop then LateDrop(s6, ack.outcome, p)
    else
      var udp := UdpFloodCheck(p, t.ports, now);
      if udp.verdict == Drop then LateDrop(s6, udp, p)
      else
        var icmp := IcmpFloodCheck(p, now);
        if icmp.verdict == Drop then LateDrop(s6, icmp, p)
        else RateStages(t, s6, p, now)
  }

  /** The SYN stage's bounce: its effects, then stats_tx, and the rewritten frame goes back out. */
  function Bounce(s: State, o: Outcome, reply: seq<u8>, p: Packet): (r: ScrubResult)
    requires ModuleBumps(o.bumps)
    ensures r.action == XdpTx && r.frame == reply
    ensures Accounted(s.stats, r.state.stats, r.action)
    ensures r.state.conntrack == s.conntrack && r.state.sources == s.sources && r.state.global == s.global
  {
    var s1 := Record(s, o);
    ScrubResult(XdpTx, reply, s1.(stats := StatsTx(s1.stats, p.pktLen)))
  }

  /**
   * Stage 5 and on: the SYN stage's bounce is counted by stats_tx and its
   * drop by stats_drop; a pass goes on to the later stages.
   */
  function SynOnward(hash: SipHash, t: Tables, s: State, p: Packet, now: u64): (r: ScrubResult)
    requires WellFormed(p)
    ensures Accounted(s.stats, r.state.stats, r.action)
    ensures r.action == XdpTx <==> CookiesApply(p, t.config) && IsPureSyn(p.tcpFlags) && t.cookies.Some?
    ensures r.action == XdpTx ==>
      && r.frame == SynAckFrame(p.frame, p.iph.value, p.l4.value, ReplyCookie(hash, p, t.cookies.value))
      && r.state.conntrack == s.conntrack && r.state.sources == s.sources && r.state.global == s.global
    ensures r.action != XdpTx ==> r.frame == p.frame
  {
    var syn := SynFloodCheck(hash, p, t.config, t.cookies, s.conntrack, now);
    SynBumpsAreModuleBumps(hash, p, t.config, t.cookies, s.conntrack, now);
    var s5 := s.(conntrack := syn.conntrack);
    if syn.outcome.verdict == Tx then Bounce(s5, syn.outcome, syn.frame, p)
    else if syn.outcome.verdict == Drop then LateDrop(s5, syn.outcome, p)
    else LateStages(t, Record(s5, syn.outcome), p, now)
  }

  /** The SYN stage increments only its own counters. */
  lemma SynBumpsAreModuleBumps(hash: SipHash, p: Packet, cfg: Config, cookies: Option<SynCookieCtx>,
                               ct: ConntrackTable, now: u64)
    requires WellFormed(p)
    ensures ModuleBumps(SynFloodCheck(hash, p, cfg, cookies, ct, now).outcome.bumps)
  {
    var o := SynFloodCheck(hash, p, cfg, cookies, ct, now).outcome;
    assert o.bumps == [] || o.bumps == [SynCookiesSent] || o.bumps == [SynCookiesFailed] || o.bumps == [SynCookiesValidated];
  }

  /** A packet the SYN stage and everything after it let through passed every check, in order. */
  lemma SynOnwardPassRanEveryStage(hash: SipHash, t: Tables, s: State, p: Packet, now: u64)
    requires WellFormed(p)
    ensures SynOnward(hash, t, s, p, now).action == XdpPass ==>
      (var syn := SynFloodCheck(hash, p, t.config, t.cookies, s.conntrack, now);
       && syn.outcome.verdict == Pass
       && var ack := AckFloodCheck(p, t.config, syn.conntrack, now);
       && ack.outcome.verdict != Drop
       && !IsAmplification(p, t.ports)
       && IcmpFloodCheck(p, now).verdict != Drop
       && RateLimitCheck(p, t.config, s.sources, now).outcome.verdict != Drop
       && GlobalRateCheck(p, t.config, s.global, now).outcome.verdict != Drop
       && SynOnward(hash, t, s, p, now).state.conntrack == ConntrackUpdate(p, t.config, ack.conntrack, now).table)
  {
    var r := SynOnward(hash, t, s, p, now);
    if r.action == XdpPass {
      var syn := SynFloodCheck(hash, p, t.config, t.cookies, s.conntrack, now);
      assert syn.outcome.verdict == Pass;
      var s5 := Record(s.(conntrack := syn.conntrack), syn.outcome);
      assert s5.conntrack == syn.conntrack && s5.sources == s.sources && s5.global == s.global;
      assert r == LateStages(t, s5, p, now);
    }
  }

  /**
   * Stages 2 to 4: ACL, fragment and fingerprint drops record only the
   * module's own counter and event, not stats_drop.
   */
  function Stages(hash: SipHash, t: Tables, s: State, p: Packet, now: u64): (r: ScrubResult)
    requires WellFormed(p)
    ensures EarlyDrop(t, p) ==>
      && r.action == XdpDrop && r.frame == p.frame
      && r.state.conntrack == s.conntrack && r.state.sources == s.sources && r.state.global == s.global
      && (forall c :: TrafficCounter(c) ==> Count(r.state.stats, c) == Count(s.stats, c))
      && |r.state.events| == |s.events| + 1
    ensures !EarlyDrop(t, p) ==> r == SynOnward(hash, t, s, p, now)
  {
    var acl := AclCheck(p, t.whitelist, t.blacklist, now);
    if acl.verdict == Drop then ScrubResult(XdpDrop, p.frame, Record(s, acl))
    else
      var frag := FragmentCheck(p, now);
      if frag.verdict == Drop then ScrubResult(XdpDrop, p.frame, Record(s, frag))
      else
        var fp := FingerprintOutcome(p, t.sigCount, t.sigs, now);
        if fp.verdict == Drop then ScrubResult(XdpDrop, p.frame, Record(s, fp))
        else SynOnward(hash, t, s, p, now)
  }

  /** A parsed frame: stats_rx, then the stages. */
  function Received(hash: SipHash, t: Tables, s: State, p: Packet, now: u64): (r: ScrubResult)
    requires WellFormed(p)
    ensures Count(r.state.stats, RxPackets) == Count(s.stats, RxPackets) + 1
    ensures EarlyDrop(t, p) ==>
      && r.action == XdpDrop
      && Count(r.state.stats, DroppedPackets) == Count(s.stats, DroppedPackets)
      && Count(r.state.stats, TxPackets) == Count(s.stats, TxPackets)
    ensures !EarlyDrop(t, p) ==>
      Count(r.state.stats, DroppedPackets) + Count(r.state.stats, TxPackets)
      == Count(s.stats, DroppedPackets) + Count(s.stats, TxPackets) + 1
    ensures r.action == XdpTx ==>
      && CookiesApply(p, t.config) && IsPureSyn(p.tcpFlags) && t.cookies.Some?
      && r.frame == SynAckFrame(p.frame, p.iph.value, p.l4.value, ReplyCookie(hash, p, t.cookies.value))
    ensures r.action != XdpTx ==> r.frame == p.frame
  {
    ReceivedAccounting(hash, t, s, p, now);
    Stages(hash, t, s.(stats := StatsRx(s.stats, p.pktLen)), p, now)
  }

  /** stats_rx, then the stages: how the packet and drop counters move. */
  lemma ReceivedAccounting(hash: SipHash, t: Tables, s: State, p: Packet, now: u64)
    requires WellFormed(p)
    ensures var r := Stages(hash, t, s.(stats := StatsRx(s.stats, p.pktLen)), p, now);
      && Count(r.state.stats, RxPackets) == Count(s.stats, RxPackets) + 1
      && (EarlyDrop(t, p) ==>
            && Count(r.state.stats, DroppedPackets) == Count(s.stats, DroppedPackets)
            && Count(r.state.stats, TxPackets) == Count(s.stats, TxPackets))
      && (!EarlyDrop(t, p) ==>
            Count(r.state.stats, DroppedPackets) + Count(r.state.stats, TxPackets)
            == Count(s.stats, DroppedPackets) + Count(s.stats, TxPackets) + 1)
  {
    hide *;
    var s1 := s.(stats := StatsRx(s.stats, p.pktLen));
    var r := Stages(hash, t, s1, p, now);
    if EarlyDrop(t, p) {
      PacketCountersAreTraffic();
    } else {
      AccountedCounts(s1.stats, r.state.stats, r.action);
    }
  }

  lemma PacketCountersAreTraffic()
    ensures TrafficCounter(RxPackets) && TrafficCounter(TxPackets) && TrafficCounter(DroppedPackets) && TrafficCounter(TxBytes)
  {
  }

  lemma AccountedCounts(before: Stats, after: Stats, a: XdpAction)
    requires Accounted(before, after, a)
    ensures Count(after, RxPackets) == Count(before, RxPackets)
    ensures Count(after, DroppedPackets) + Count(after, TxPackets) == Count(before, DroppedPackets) + Count(before, TxPackets) + 1
  {
  }

  /**
   * xdp_ddos_scrubber. With the scrubber disabled the frame passes and
   * nothing is recorded. A frame that does not parse is dropped, counted by
   * stats_drop with length 0, and reported with one DROP_PARSE_ERROR event
   * built from the partly filled record. A parsed frame is counted as
   * received and goes through the stages; only the SYN stage can send a
   * frame back, and only that frame is rewritten.
   */
  function Scrub(hash: SipHash, t: Tables, s: State, frame: seq<u8>, now: u64): (r: ScrubResult)
    ensures GetConfig(t.config, CFG_ENABLED) == 0 ==> r == ScrubResult(XdpPass, frame, s)
    ensures GetConfig(t.config, CFG_ENABLED) != 0 && ParsePacket(frame).Malformed? ==>
      r == ScrubResult(XdpDrop, frame,
             s.(stats := StatsDrop(s.stats, 0),
                events := s.events + [DropEvent(ParsePacket(frame).partial, now, ATTACK_NONE, DROP_PARSE_ERROR)]))
    ensures GetConfig(t.config, CFG_ENABLED) != 0 && ParsePacket(frame).Parsed? ==>
      Count(r.state.stats, RxPackets) == Count(s.stats, RxPackets) + 1
    ensures r.action == XdpTx ==>
      && GetConfig(t.config, CFG_ENABLED) != 0 && ParsePacket(frame).Parsed?
      && var p := ParsePacket(frame).pkt;
      && CookiesApply(p, t.config) && IsPureSyn(p.tcpFlags) && t.cookies.Some?
    ensures r.action != XdpTx ==> r.frame == frame
  {
    if GetConfig(t.config, CFG_ENABLED) == 0 then ScrubResult(XdpPass, frame, s)
    else
      match ParsePacket(frame)
      case Malformed(partial) =>
        ScrubResult(XdpDrop, frame,
          s.(stats := StatsDrop(s.stats, 0),
             events := s.events + [DropEvent(partial, now, ATTACK_NONE, DROP_PARSE_ERROR)]))
      case Parsed(p) =>
        ParsedIsWellFormed(frame);
        Received(hash, t, s, p, now)
  }

  /**
   * Every packet that is counted as received is counted once more: as
   * transmitted or as dropped, except that an ACL, fragment or fingerprint
   * drop is counted by its module's own counter only.
   */
  lemma ReceivedPacketsAccounted(hash: SipHash, t: Tables, s: State, frame: seq<u8>, now: u64)
    requires GetConfig(t.config, CFG_ENABLED) != 0 && ParsePacket(frame).Parsed?
    ensures var p := ParsePacket(frame).pkt;
      var r := Scrub(hash, t, s, frame, now);
      WellFormed(p)
      && (EarlyDrop(t, p) ==>
            && r.action == XdpDrop
            && Count(r.state.stats, DroppedPackets) == Count(s.stats, DroppedPackets)
            && Count(r.state.stats, TxPackets) == Count(s.stats, TxPackets))
      && (!EarlyDrop(t, p) ==>
            Count(r.state.stats, DroppedPackets) + Count(r.state.stats, TxPackets)
            == Count(s.stats, DroppedPackets) + Count(s.stats, TxPackets) + 1)
  {
    ParsedIsWellFormed(frame);
  }

  /** The one frame the scrubber sends back is the SYN-ACK carrying the cookie for the SYN it answers. */
  lemma BounceIsSynAck(hash: SipHash, t: Tables, s: State, frame: seq<u8>, now: u64)
    ensures Scrub(hash, t, s, frame, now).action == XdpTx ==>
      && ParsePacket(frame).Parsed? && WellFormed(ParsePacket(frame).pkt)
      && t.cookies.Some?
      && Scrub(hash, t, s, frame, now).frame
         == SynAckFrame(frame, ParsePacket(frame).pkt.iph.value, ParsePacket(frame).pkt.l4.value,
                        ReplyCookie(hash, ParsePacket(frame).pkt, t.cookies.value))
  {
    if Scrub(hash, t, s, frame, now).action == XdpTx {
      ParsedIsWellFormed(frame);
    }
  }

  /**
   * A frame the enabled scrubber passes parsed, survived every stage in
   * order, and left conntrack as conntrack_update makes it after the SYN
   * and ACK stages' changes.
   */
  lemma PassRanEveryStage(hash: SipHash, t: Tables, s: State, frame: seq<u8>, now: u64)
    requires GetConfig(t.config, CFG_ENABLED) != 0
    ensures Scrub(hash, t, s, frame, now).action == XdpPass ==>
      ParsePacket(frame).Parsed? && WellFormed(ParsePacket(frame).pkt)
    ensures Scrub(hash, t, s, frame, now).action == XdpPass ==>
      var p := ParsePacket(frame).pkt;
      && !AclCheck(p, t.whitelist, t.blacklist, now).verdict.Drop?
      && !FragmentCheck(p, now).verdict.Drop?
      && !SignatureHit(p, t.sigCount, t.sigs)
      && var syn := SynFloodCheck(hash, p, t.config, t.cookies, s.conntrack, now);
      && syn.outcome.verdict == Pass
      && var ack := AckFloodCheck(p, t.config, syn.conntrack, now);
      && ack.outcome.verdict != Drop
      && !IsAmplification(p, t.ports)
      && IcmpFloodCheck(p, now).verdict != Drop
      && RateLimitCheck(p, t.config, s.sources, now).outcome.verdict != Drop
      && GlobalRateCheck(p, t.config, s.global, now).outcome.verdict != Drop
      && Scrub(hash, t, s, frame, now).state.conntrack == ConntrackUpdate(p, t.config, ack.conntrack, now).table
  {
    if Scrub(hash, t, s, frame, now).action == XdpPass {
      ParsedIsWellFormed(frame);
      var p := ParsePacket(frame).pkt;
      var s1 := s.(stats := StatsRx(s.stats, p.pktLen));
      assert Scrub(hash, t, s, frame, now) == Stages(hash, t, s1, p, now);
      assert !EarlyDrop(t, p);
      SynOnwardPassRanEveryStage(hash, t, s1, p, now);
    }
  }
}
