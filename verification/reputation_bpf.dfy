/**
 * reputation.h: a per-source reputation score that violations raise and
 * time lowers; a source whose score reaches the threshold is blocked for
 * good (until the control plane clears it). Port-scan detection counts
 * the distinct destination ports a source touches within ten seconds.
 */
module ReputationBpf {
  import opened Ints
  import opened Wrappers
  import opened BpfTypes
  import opened BpfHelpers

  const PORT_SCAN_WINDOW_NS: u64 := 10_000_000_000
  const PORT_SCAN_THRESHOLD: u32 := 20
  const REP_DECAY_INTERVAL_NS: u64 := 1_000_000_000
  const REP_MAX_DECAY_INTERVALS: u64 := 60
  const REP_SCORE_CAP: u32 := 1000
  const REP_DEFAULT_THRESHOLD: u64 := 500

  /** REP_WEIGHT_PORT_SCAN and REP_WEIGHT_DECAY_TICK, which no header in this model defines. */
  datatype Weights = Weights(portScan: u32, decayTick: u32)

  // ---- Port scan tracking ----

  /**
   * A source's scan window (struct port_scan_entry): its start, the
   * distinct-port count, and the port bitmap. The bitmap's two 32-bit
   * words hold one bit per port from 0 to 63; it is modelled as the set of
   * ports whose bits are set.
   */
  datatype ScanEntry = ScanEntry(windowStartNs: u64, distinctPorts: u32, bitmap: set<u16>)

  type ScanTable = map<u32, ScanEntry>

  /** The bitmap records `port`. */
  predicate Marked(e: ScanEntry, port: u16)
  {
    port in e.bitmap
  }

  /** Sets `port`'s bit; ports from 64 up have no bit and leave the bitmap as it is. */
  function MarkPort(e: ScanEntry, port: u16): (r: ScanEntry)
    ensures r.windowStartNs == e.windowStartNs && r.distinctPorts == e.distinctPorts
    ensures forall q: u16 :: Marked(r, q) <==> Marked(e, q) || (q == port && port < 64)
  {
    if port < 64 then e.(bitmap := e.bitmap + {port}) else e
  }

  /** A new window opened by a packet to `port` at `now`. */
  function FreshScan(now: u64, port: u16): (e: ScanEntry)
    ensures e.windowStartNs == now && e.distinctPorts == 1
    ensures forall q: u16 :: Marked(e, q) <==> q == port && port < 64
  {
    MarkPort(ScanEntry(now, 1, {}), port)
  }

  datatype ScanResult = ScanResult(penalty: u32, scans: ScanTable, bumps: seq<Counter>)

  /**
   * port_scan_detect. A source's first packet, or its first after the
   * window has run out, opens a new window counting one port. Within the
   * window a port below 64 counts once however often it recurs, while
   * every packet to a higher port counts as new. Once the count passes 20
   * every further packet returns the port-scan penalty and counts one
   * port_scan_detected.
   */
  function PortScanDetect(src: u32, port: u16, now: u64, scans: ScanTable, w: Weights): (r: ScanResult)
    ensures src in r.scans && r.scans == scans[src := r.scans[src]]
    ensures src !in scans || Sub64(now, scans[src].windowStartNs) > PORT_SCAN_WINDOW_NS ==>
      r == ScanResult(0, scans[src := FreshScan(now, port)], [])
    ensures src in scans && Sub64(now, scans[src].windowStartNs) <= PORT_SCAN_WINDOW_NS ==>
      var e := scans[src];
      && r.scans[src].windowStartNs == e.windowStartNs
      && (forall q: u16 :: Marked(r.scans[src], q) <==> Marked(e, q) || (q == port && port < 64))
      && r.scans[src].distinctPorts == (if Marked(e, port) then e.distinctPorts else Add32(e.distinctPorts, 1))
    ensures r.penalty != 0 ==> r.penalty == w.portScan
    ensures r.bumps == (if r.scans[src].distinctPorts > PORT_SCAN_THRESHOLD && src in scans
                          && Sub64(now, scans[src].windowStartNs) <= PORT_SCAN_WINDOW_NS
                        then [PortScanDetected] else [])
    ensures r.bumps != [] ==> r.penalty == w.portScan
    ensures r.bumps == [] ==> r.penalty == 0
  {
    if src !in scans then ScanResult(0, scans[src := FreshScan(now, port)], [])
    else
      var e := scans[src];
      if Sub64(now, e.windowStartNs) > PORT_SCAN_WINDOW_NS then ScanResult(0, scans[src := FreshScan(now, port)], [])
      else
        var seen := Marked(e, port);
        var e' := MarkPort(e, port).(distinctPorts := if seen then e.distinctPorts else (e.distinctPorts + 1) % U32_LIMIT);
        if e'.distinctPorts > PORT_SCAN_THRESHOLD then ScanResult(w.portScan, scans[src := e'], [PortScanDetected])
        else ScanResult(0, scans[src := e'], [])
  }

  /** A source's packets to `ports`, in order, all at time `now`. */
  function ScanRun(src: u32, ports: seq<u16>, now: u64, scans: ScanTable, w: Weights): (r: ScanTable)
    decreases |ports|
  {
    if |ports| == 0 then scans
    else PortScanDetect(src, ports[|ports| - 1], now, ScanRun(src, ports[..|ports| - 1], now, scans, w), w).scans
  }

  /** The distinct ports below 64 among `ports`. */
  function LowPorts(ports: seq<u16>): (s: set<u16>)
  {
    set i | 0 <= i < |ports| && ports[i] < 64 :: ports[i]
  }

  /** How many of `ports` are 64 or higher. */
  function HighCount(ports: seq<u16>): (n: nat)
    ensures n <= |ports|
    decreases |ports|
  {
    if |ports| == 0 then 0
    else HighCount(ports[..|ports| - 1]) + (if ports[|ports| - 1] >= 64 then 1 else 0)
  }

  lemma LowPortsSnoc(ports: seq<u16>, x: u16)
    ensures LowPorts(ports + [x]) == LowPorts(ports) + (if x < 64 then {x} else {})
  {
    var s := ports + [x];
    assert forall i :: 0 <= i < |ports| ==> s[i] == ports[i];
    assert s[|ports|] == x;
    forall q | q in LowPorts(s) ensures q in LowPorts(ports) + (if x < 64 then {x} else {}) {
      var i :| 0 <= i < |s| && s[i] < 64 && s[i] == q;
      if i < |ports| { assert ports[i] == q; }
    }
  }

  /**
   * Within one window a source's count is the number of distinct ports
   * below 64 it touched plus the number of its packets to higher ports,
   * and the bitmap holds exactly those low ports.
   */
  lemma {:induction false} ScanCountsDistinctPorts(src: u32, ports: seq<u16>, now: u64, scans: ScanTable, w: Weights)
    requires src !in scans && 1 <= |ports| < U32_LIMIT
    ensures src in ScanRun(src, ports, now, scans, w)
    ensures var e := ScanRun(src, ports, now, scans, w)[src];
      && e.windowStartNs == now
      && e.distinctPorts == |LowPorts(ports)| + HighCount(ports)
      && e.bitmap == LowPorts(ports)
    decreases |ports|
  {
    var n := |ports|;
    var last := ports[n - 1];
    var init := ports[..n - 1];
    assert ports == init + [last];
    LowPortsSnoc(init, last);
    assert HighCount(ports) == HighCount(init) + (if last >= 64 then 1 else 0);
    if n == 1 {
      assert init == [];
      assert LowPorts(init) == {};
      assert HighCount(init) == 0;
      assert ScanRun(src, init, now, scans, w) == scans;
      assert ScanRun(src, ports, now, scans, w)[src] == FreshScan(now, last);
      assert |LowPorts(ports)| == (if last < 64 then 1 else 0);
    } else {
      ScanCountsDistinctPorts(src, init, now, scans, w);
      LowPortsBound(init);
      ScanStep(src, init, last, now, ScanRun(src, init, now, scans, w), w);
    }
  }

  /** One more packet in the same window extends the count of ScanCountsDistinctPorts. */
  lemma ScanStep(src: u32, init: seq<u16>, last: u16, now: u64, before: ScanTable, w: Weights)
    requires src in before && before[src].windowStartNs == now
    requires before[src].distinctPorts == |LowPorts(init)| + HighCount(init) <= |init| < U32_LIMIT - 1
    requires before[src].bitmap == LowPorts(init)
    ensures var d := PortScanDetect(src, last, now, before, w).scans[src];
      && d.windowStartNs == now
      && d.distinctPorts == |LowPorts(init + [last])| + HighCount(init) + (if last >= 64 then 1 else 0)
      && d.bitmap == LowPorts(init + [last])
  {
    var e := before[src];
    LowPortsSnoc(init, last);
    assert Sub64(now, e.windowStartNs) == 0;
    var d := PortScanDetect(src, last, now, before, w).scans[src];
    MarkedBitmap(e, d, last);
    if last >= 64 {
      assert !Marked(e, last);
    } else if Marked(e, last) {
      assert LowPorts(init + [last]) == LowPorts(init);
    } else {
      assert |LowPorts(init + [last])| == |LowPorts(init)| + 1;
    }
  }

  /** A bitmap that gained exactly `port`'s bit (when it has one). */
  lemma MarkedBitmap(e: ScanEntry, d: ScanEntry, port: u16)
    requires forall q: u16 :: Marked(d, q) <==> Marked(e, q) || (q == port && port < 64)
    ensures d.bitmap == e.bitmap + (if port < 64 then {port} else {})
  {
    assert forall q: u16 :: q in d.bitmap <==> Marked(d, q);
  }

  lemma {:induction false} LowPortsBound(ports: seq<u16>)
    ensures |LowPorts(ports)| + HighCount(ports) <= |ports|
    decreases |ports|
  {
    if |ports| > 0 {
      var init := ports[..|ports| - 1];
      assert ports == init + [ports[|ports| - 1]];
      LowPortsSnoc(init, ports[|ports| - 1]);
      LowPortsBound(init);
    }
  }

  // ---- Reputation entries ----

  /** A source's reputation (struct ip_reputation, as the control plane mirrors it). */
  datatype RepEntry = RepEntry(
    score: u32,
    totalPackets: u32,
    droppedPackets: u32,
    violationCount: u32,
    firstSeenNs: u64,
    lastSeenNs: u64,
    lastDecayNs: u64,
    distinctPorts: u16,
    blocked: u8,
    flags: u8)

  type RepTable = map<u32, RepEntry>

  /** Scores are kept at or below 1000. */
  function CapScore(s: u32): (r: u32)
    ensures r <= REP_SCORE_CAP && r <= s
    ensures s <= REP_SCORE_CAP ==> r == s
  {
    if s > REP_SCORE_CAP then REP_SCORE_CAP else s
  }

  predicate ScoresCapped(reps: RepTable)
  {
    forall a :: a in reps ==> reps[a].score <= REP_SCORE_CAP
  }

  /**
   * reputation_penalize. With reputation off nothing changes. A new source
   * starts at the penalty with one violation; a known one has the penalty
   * added (wrapping in 32 bits, then capped at 1000), one more violation,
   * and its last-seen time moved to `now`.
   */
  function Penalize(src: u32, weight: u32, cfg: Config, reps: RepTable, now: u64): (r: RepTable)
    ensures GetConfig(cfg, CFG_REPUTATION_ENABLE) == 0 ==> r == reps
    ensures GetConfig(cfg, CFG_REPUTATION_ENABLE) != 0 ==> src in r && r == reps[src := r[src]]
    ensures GetConfig(cfg, CFG_REPUTATION_ENABLE) != 0 && src !in reps ==>
      r[src] == RepEntry(weight, 0, 0, 1, now, now, now, 0, 0, 0)
    ensures GetConfig(cfg, CFG_REPUTATION_ENABLE) != 0 && src in reps ==>
      var e := reps[src];
      && r[src].score == CapScore(Add32(e.score, weight))
      && r[src].violationCount == Add32(e.violationCount, 1)
      && r[src] == e.(score := r[src].score, violationCount := r[src].violationCount, lastSeenNs := now)
  {
    if GetConfig(cfg, CFG_REPUTATION_ENABLE) == 0 then reps
    else if src !in reps then reps[src := RepEntry(weight, 0, 0, 1, now, now, now, 0, 0, 0)]
    else
      var e := reps[src];
      var raised := (e.score + weight) % U32_LIMIT;
      reps[src := e.(score := if raised > REP_SCORE_CAP then REP_SCORE_CAP else raised,
                     violationCount := (e.violationCount + 1) % U32_LIMIT, lastSeenNs := now)]
  }

  /** A penalty no larger than the cap keeps every score capped, and never lowers a capped score. */
  lemma PenalizeKeepsCap(src: u32, weight: u32, cfg: Config, reps: RepTable, now: u64)
    requires ScoresCapped(reps) && weight <= REP_SCORE_CAP
    ensures ScoresCapped(Penalize(src, weight, cfg, reps, now))
    ensures src in reps && GetConfig(cfg, CFG_REPUTATION_ENABLE) != 0 ==>
      Penalize(src, weight, cfg, reps, now)[src].score >= reps[src].score
  {
  }

  /**
   * The decay step: once more than a second has passed since the last
   * decay, the score drops by the decay tick per whole second elapsed
   * (counting at most 60 seconds, the product taken in 32 bits), not
   * below 0, and the decay time moves to `now`.
   */
  function Decay(e: RepEntry, now: u64, tick: u32): (r: RepEntry)
    ensures r.score <= e.score
    ensures Sub64(now, e.lastDecayNs) <= REP_DECAY_INTERVAL_NS ==> r == e
    ensures Sub64(now, e.lastDecayNs) > REP_DECAY_INTERVAL_NS ==>
      r == e.(score := r.score, lastDecayNs := now)
      && var n := Sub64(now, e.lastDecayNs) / REP_DECAY_INTERVAL_NS;
         var k := if n > REP_MAX_DECAY_INTERVALS then REP_MAX_DECAY_INTERVALS else n;
         r.score == (if e.score > Mul32(k, tick) then e.score - Mul32(k, tick) else 0)
  {
    var elapsed := (now - e.lastDecayNs) % U64_LIMIT;
    if elapsed > REP_DECAY_INTERVAL_NS then
      var intervals := elapsed / REP_DECAY_INTERVAL_NS;
      var capped := if intervals > 60 then 60 else intervals;
      var total := (capped * tick) % U32_LIMIT;
      e.(score := if e.score > total then e.score - total else 0, lastDecayNs := now)
    else e
  }

  /** After two idle seconds or more, a score no larger than twice the tick (tick below 2^31) is back to 0. */
  lemma DecayForgivesSmallScores(e: RepEntry, now: u64, tick: u32)
    requires Sub64(now, e.lastDecayNs) >= 2 * REP_DECAY_INTERVAL_NS
    requires 60 * tick < U32_LIMIT && e.score <= 2 * tick
    ensures Decay(e, now, tick).score == 0
  {
    var n := Sub64(now, e.lastDecayNs) / REP_DECAY_INTERVAL_NS;
    assert n >= 2;
    var k := if n > REP_MAX_DECAY_INTERVALS then REP_MAX_DECAY_INTERVALS else n;
    assert 2 <= k <= 60;
    assert 2 * tick <= k * tick <= 60 * tick by { MulMonotone(tick, 2, k); MulMonotone(tick, k, 60); }
    assert Mul32(k, tick) == k * tick;
  }

  // ---- The verdict ----

  datatype RepResult = RepResult(outcome: Outcome, reps: RepTable, scans: ScanTable, stats: Stats)

  /** The blocking threshold: the configured one (500 when unset), truncated to 32 bits. */
  function RepThreshold(cfg: Config): (t: u32)
    ensures GetConfig(cfg, CFG_REPUTATION_THRESH) == 0 ==> t == REP_DEFAULT_THRESHOLD
    ensures 0 < GetConfig(cfg, CFG_REPUTATION_THRESH) < U32_LIMIT ==> t == GetConfig(cfg, CFG_REPUTATION_THRESH)
  {
    var thr := GetConfig(cfg, CFG_REPUTATION_THRESH);
    (if thr == 0 then REP_DEFAULT_THRESHOLD else thr) % U32_LIMIT
  }

  /** A known, unblocked source's entry after the packet is counted, the score decayed and any scan penalty added. */
  function Scored(e: RepEntry, scan: ScanResult, now: u64, w: Weights): (r: RepEntry)
    ensures scan.penalty == 0 ==> r.score <= e.score
    ensures r.score <= REP_SCORE_CAP || r.score <= e.score
    ensures r.blocked == e.blocked && r.droppedPackets == e.droppedPackets
  {
    var counted := e.(totalPackets := (e.totalPackets + 1) % U32_LIMIT, lastSeenNs := now);
    var decayed := Decay(counted, now, w.decayTick);
    if scan.penalty > 0 then
      var raised := (decayed.score + scan.penalty) % U32_LIMIT;
      decayed.(score := if raised > REP_SCORE_CAP then REP_SCORE_CAP else raised,
               violationCount := (decayed.violationCount + 1) % U32_LIMIT)
    else decayed
  }

  /**
   * A reputation drop: the given module counters, stats_drop for the
   * packet's length, and one drop event; the tables are the ones given.
   */
  function RepDrop(p: Packet, codes: ExtCodes, now: u64, bumps: seq<Counter>,
                   reps: RepTable, scans: ScanTable, stats: Stats): (r: RepResult)
    ensures r.outcome.verdict == Drop && r.outcome.bumps == bumps
    ensures r.outcome.events == [DropEvent(p, now, codes.attackReputation, codes.dropReputation)]
    ensures r.reps == reps && r.scans == scans
    ensures Count(r.stats, DroppedPackets) == Count(stats, DroppedPackets) + 1
    ensures Count(r.stats, DroppedBytes) == Count(stats, DroppedBytes) + p.pktLen
    ensures forall c :: c != DroppedPackets && c != DroppedBytes ==> Count(r.stats, c) == Count(stats, c)
  {
    RepResult(Outcome(Drop, bumps, [DropEvent(p, now, codes.attackReputation, codes.dropReputation)]),
              reps, scans, StatsDrop(stats, p.pktLen))
  }

  /**
   * reputation_check. With reputation off nothing changes. A new source is
   * entered with score 0, has its port-scan window opened, and passes. A
   * blocked source is dropped at once. Any other source is counted, its
   * score decayed, any port-scan penalty added, and it is blocked and
   * dropped when the score reaches the threshold. Only the packet's own
   * source's entries change. Both drops also call stats_drop.
   */
  function ReputationCheck(p: Packet, cfg: Config, reps: RepTable, scans: ScanTable, stats: Stats, w: Weights,
                           codes: ExtCodes, now: u64): (r: RepResult)
    ensures GetConfig(cfg, CFG_REPUTATION_ENABLE) == 0 ==> r == RepResult(PassOutcome(), reps, scans, stats)
    ensures GetConfig(cfg, CFG_REPUTATION_ENABLE) != 0 ==>
      && p.srcIp in r.reps && r.reps == reps[p.srcIp := r.reps[p.srcIp]]
      && (forall a :: a != p.srcIp ==> (a in r.scans <==> a in scans) && (a in scans ==> r.scans[a] == scans[a]))
    ensures GetConfig(cfg, CFG_REPUTATION_ENABLE) != 0 && p.srcIp !in reps ==>
      r.outcome.verdict == Pass && r.reps[p.srcIp].score == 0 && r.reps[p.srcIp].blocked == 0
    ensures r.outcome.verdict == Drop <==>
      GetConfig(cfg, CFG_REPUTATION_ENABLE) != 0 && p.srcIp in reps
      && (reps[p.srcIp].blocked != 0 || r.reps[p.srcIp].score >= RepThreshold(cfg))
    ensures r.outcome.verdict == Drop ==> r.reps[p.srcIp].blocked != 0
    ensures p.srcIp in reps && reps[p.srcIp].blocked != 0 && GetConfig(cfg, CFG_REPUTATION_ENABLE) != 0 ==>
      r.scans == scans && r.reps[p.srcIp].score == reps[p.srcIp].score
      && r.outcome == RepDrop(p, codes, now, [ReputationDropped], r.reps, r.scans, stats).outcome
    ensures r.outcome.verdict != Drop ==> r.outcome.verdict == Pass && r.outcome.events == []
    ensures p.srcIp in reps && reps[p.srcIp].blocked == 0 && r.outcome.verdict == Drop ==>
      r.outcome.events == [DropEvent(p, now, codes.attackReputation, codes.dropReputation)]
      && |r.outcome.bumps| >= 2 && r.outcome.bumps[|r.outcome.bumps| - 2..] == [ReputationDropped, ReputationAutoBlocked]
    ensures r.outcome.verdict == Drop ==> r.stats == StatsDrop(stats, p.pktLen)
    ensures r.outcome.verdict != Drop ==> r.stats == stats
  {
    if GetConfig(cfg, CFG_REPUTATION_ENABLE) == 0 then RepResult(PassOutcome(), reps, scans, stats)
    else if p.srcIp !in reps then
      var scan := PortScanDetect(p.srcIp, p.dstPort, now, scans, w);
      RepResult(Outcome(Pass, scan.bumps, []), reps[p.srcIp := RepEntry(0, 1, 0, 0, now, now, now, 0, 0, 0)], scan.scans, stats)
    else
      var e := reps[p.srcIp];
      if e.blocked != 0 then
        var e' := e.(totalPackets := (e.totalPackets + 1) % U32_LIMIT,
                     droppedPackets := (e.droppedPackets + 1) % U32_LIMIT, lastSeenNs := now);
        RepDrop(p, codes, now, [ReputationDropped], reps[p.srcIp := e'], scans, stats)
      else RepScore(p, cfg, reps, scans, stats, w, codes, now)
  }

  /**
   * reputation_check for a tracked source that is not blocked: the packet
   * is counted, the score decayed and any port-scan penalty added; the
   * source is blocked and dropped when the score reaches the threshold.
   */
  function RepScore(p: Packet, cfg: Config, reps: RepTable, scans: ScanTable, stats: Stats, w: Weights,
                    codes: ExtCodes, now: u64): (r: RepResult)
    requires p.srcIp in reps && reps[p.srcIp].blocked == 0
    ensures p.srcIp in r.reps && r.reps == reps[p.srcIp := r.reps[p.srcIp]]
    ensures forall a :: a != p.srcIp ==> (a in r.scans <==> a in scans) && (a in scans ==> r.scans[a] == scans[a])
    ensures r.reps[p.srcIp] == Scored(reps[p.srcIp], PortScanDetect(p.srcIp, p.dstPort, now, scans, w), now, w)
                                 .(blocked := r.reps[p.srcIp].blocked, droppedPackets := r.reps[p.srcIp].droppedPackets)
    ensures r.outcome.verdict == Drop <==> r.reps[p.srcIp].score >= RepThreshold(cfg)
    ensures r.outcome.verdict == Drop ==>
      && r.reps[p.srcIp].blocked != 0
      && r.outcome.events == [DropEvent(p, now, codes.attackReputation, codes.dropReputation)]
      && |r.outcome.bumps| >= 2 && r.outcome.bumps[|r.outcome.bumps| - 2..] == [ReputationDropped, ReputationAutoBlocked]
      && r.stats == StatsDrop(stats, p.pktLen)
    ensures r.outcome.verdict != Drop ==> r.outcome.verdict == Pass && r.outcome.events == [] && r.stats == stats
  {
    var scan := PortScanDetect(p.srcIp, p.dstPort, now, scans, w);
    var s := Scored(reps[p.srcIp], scan, now, w);
    if s.score >= RepThreshold(cfg) then
      var blocked := s.(blocked := 1, droppedPackets := (s.droppedPackets + 1) % U32_LIMIT);
      RepDrop(p, codes, now, scan.bumps + [ReputationDropped, ReputationAutoBlocked],
              reps[p.srcIp := blocked], scan.scans, stats)
    else RepResult(Outcome(Pass, scan.bumps, []), reps[p.srcIp := s], scan.scans, stats)
  }

  /** Once a source is dropped it stays dropped: every later packet from it is dropped too. */
  lemma BlockIsSticky(p: Packet, q: Packet, cfg: Config, reps: RepTable, scans: ScanTable, stats: Stats, w: Weights,
                      codes: ExtCodes, now: u64, later: u64)
    requires ReputationCheck(p, cfg, reps, scans, stats, w, codes, now).outcome.verdict == Drop
    requires q.srcIp == p.srcIp
    ensures var r := ReputationCheck(p, cfg, reps, scans, stats, w, codes, now);
      ReputationCheck(q, cfg, r.reps, r.scans, r.stats, w, codes, later).outcome.verdict == Drop
  {
  }

  /** The checks keep every score at or below the cap. */
  lemma CheckKeepsCap(p: Packet, cfg: Config, reps: RepTable, scans: ScanTable, stats: Stats, w: Weights,
                      codes: ExtCodes, now: u64)
    requires ScoresCapped(reps)
    ensures ScoresCapped(ReputationCheck(p, cfg, reps, scans, stats, w, codes, now).reps)
  {
  }
}
