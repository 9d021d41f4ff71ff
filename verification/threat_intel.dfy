/**
 * threat_intel.h: sources listed by external threat feeds. A feed entry
 * carries a confidence (0 to 100) and an action (drop, rate-limit,
 * monitor); the confidence a drop or a rate limit needs falls as the
 * escalation level rises.
 */
module ThreatIntel {
  import opened Ints
  import opened Wrappers
  import opened BpfTypes
  import opened RateLimiter
  import opened BpfHelpers

  /** A flagged source gets a quarter of its protocol's rate. */
  const THREAT_INTEL_RATE_LIMIT_DIVISOR: u64 := 4

  const THREAT_ACTION_DROP: u8 := 0
  const THREAT_ACTION_RATE_LIMIT: u8 := 1
  const THREAT_ACTION_MONITOR: u8 := 2

  /**
   * The two fields of a feed entry the data plane reads (struct
   * threat_intel_entry is not part of this model; its feed and type
   * fields are only reported).
   */
  datatype ThreatEntry = ThreatEntry(confidence: u8, action: u8)

  /** The threat trie: the entry of the longest stored prefix covering a key, if any. */
  type ThreatTrie = LpmKey -> Option<ThreatEntry>

  /** The confidence needed to drop and to rate-limit at an escalation level. */
  datatype Thresholds = Thresholds(drop: u8, rateLimit: u8)

  function ThresholdsAt(escalation: u64): (t: Thresholds)
    ensures t.rateLimit < t.drop
    ensures escalation < ESCALATION_HIGH ==> t == Thresholds(80, 50)
    ensures escalation == ESCALATION_HIGH ==> t == Thresholds(50, 30)
    ensures escalation >= ESCALATION_CRITICAL ==> t == Thresholds(30, 10)
  {
    if escalation >= ESCALATION_CRITICAL then Thresholds(30, 10)
    else if escalation >= ESCALATION_HIGH then Thresholds(50, 30)
    else Thresholds(80, 50)
  }

  /** Both thresholds only fall as escalation rises. */
  lemma ThresholdsMonotone(lo: u64, hi: u64)
    requires lo <= hi
    ensures ThresholdsAt(hi).drop <= ThresholdsAt(lo).drop
    ensures ThresholdsAt(hi).rateLimit <= ThresholdsAt(lo).rateLimit
  {
  }

  datatype ThreatResult = ThreatResult(outcome: Outcome, rates: AdaptiveRates, stats: Stats)

  function EntryFor(trie: ThreatTrie, src: u32): (e: Option<ThreatEntry>)
  {
    trie(LpmKey(32, src))
  }

  /** The source is listed for dropping with at least the confidence the current level needs. */
  predicate ThreatBlocked(p: Packet, cfg: Config, trie: ThreatTrie)
  {
    var e := EntryFor(trie, p.srcIp);
    GetConfig(cfg, CFG_THREAT_INTEL_EN) != 0 && e.Some? && e.value.action == THREAT_ACTION_DROP
    && e.value.confidence >= ThresholdsAt(GetConfig(cfg, CFG_ESCALATION_LEVEL)).drop
  }

  /**
   * threat_intel_check. A drop counts one threat_intel_dropped, calls
   * stats_drop and emits one drop event. A rate-limit entry with enough
   * confidence installs a
   * quarter of the protocol's rate as the source's override; a monitor
   * entry passes with one pass event whatever its confidence; anything
   * else passes silently.
   */
  function ThreatIntelCheck(p: Packet, cfg: Config, trie: ThreatTrie, rates: AdaptiveRates, stats: Stats,
                            codes: ExtCodes, now: u64): (r: ThreatResult)
    ensures GetConfig(cfg, CFG_THREAT_INTEL_EN) == 0 || EntryFor(trie, p.srcIp).None? ==>
      r == ThreatResult(PassOutcome(), rates, stats)
    ensures r.outcome.verdict == Drop <==> ThreatBlocked(p, cfg, trie)
    ensures r.outcome.verdict == Drop ==>
      r.outcome == Outcome(Drop, [ThreatIntelDropped], [DropEvent(p, now, codes.attackThreatIntel, codes.dropThreatIntel)])
    ensures r.outcome.verdict == Drop ==> r.stats == StatsDrop(stats, p.pktLen) && r.rates == rates
    ensures r.outcome.verdict != Drop ==> r.stats == stats
    ensures r.outcome.verdict != Drop ==> r.outcome.verdict == Pass && r.outcome.bumps == []
    ensures r.rates != rates ==>
      var e := EntryFor(trie, p.srcIp).value;
      e.action == THREAT_ACTION_RATE_LIMIT && e.confidence >= ThresholdsAt(GetConfig(cfg, CFG_ESCALATION_LEVEL)).rateLimit
    ensures (GetConfig(cfg, CFG_THREAT_INTEL_EN) != 0 && EntryFor(trie, p.srcIp).Some?
             && EntryFor(trie, p.srcIp).value.action == THREAT_ACTION_RATE_LIMIT
             && EntryFor(trie, p.srcIp).value.confidence >= ThresholdsAt(GetConfig(cfg, CFG_ESCALATION_LEVEL)).rateLimit) ==>
      r.rates == Tighten(p, cfg, rates, THREAT_INTEL_RATE_LIMIT_DIVISOR, true)
    ensures r.outcome.events != [] && r.outcome.verdict == Pass ==>
      EntryFor(trie, p.srcIp).value.action == THREAT_ACTION_MONITOR
      && r.outcome.events == [MakeEvent(p, now, codes.attackThreatIntel, ACTION_PASS, 0, 0, 0)]
  {
    if GetConfig(cfg, CFG_THREAT_INTEL_EN) == 0 then ThreatResult(PassOutcome(), rates, stats)
    else
      match trie(LpmKey(32, p.srcIp))
      case None => ThreatResult(PassOutcome(), rates, stats)
      case Some(e) =>
        var t := ThresholdsAt(GetConfig(cfg, CFG_ESCALATION_LEVEL));
        if e.action == THREAT_ACTION_DROP then
          if e.confidence >= t.drop then
            ThreatResult(Outcome(Drop, [ThreatIntelDropped], [DropEvent(p, now, codes.attackThreatIntel, codes.dropThreatIntel)]), rates, StatsDrop(stats, p.pktLen))
          else ThreatResult(PassOutcome(), rates, stats)
        else if e.action == THREAT_ACTION_RATE_LIMIT then
          if e.confidence >= t.rateLimit then
            ThreatResult(PassOutcome(), Tighten(p, cfg, rates, THREAT_INTEL_RATE_LIMIT_DIVISOR, true), stats)
          else ThreatResult(PassOutcome(), rates, stats)
        else if e.action == THREAT_ACTION_MONITOR then
          ThreatResult(Outcome(Pass, [], [MakeEvent(p, now, codes.attackThreatIntel, ACTION_PASS, 0, 0, 0)]), rates, stats)
        else ThreatResult(PassOutcome(), rates, stats)
  }

  /** Raising the escalation level never lets through a source a lower level dropped. */
  lemma ThreatEscalationOnlyAddsDrops(p: Packet, cfg: Config, trie: ThreatTrie, rates: AdaptiveRates, stats: Stats,
                                      codes: ExtCodes, now: u64, level: u64)
    requires GetConfig(cfg, CFG_ESCALATION_LEVEL) <= level
    requires ThreatIntelCheck(p, cfg, trie, rates, stats, codes, now).outcome.verdict == Drop
    ensures ThreatIntelCheck(p, cfg[CFG_ESCALATION_LEVEL := level], trie, rates, stats, codes, now).outcome.verdict == Drop
  {
    var cfg' := cfg[CFG_ESCALATION_LEVEL := level];
    assert GetConfig(cfg', CFG_THREAT_INTEL_EN) == GetConfig(cfg, CFG_THREAT_INTEL_EN);
    assert GetConfig(cfg', CFG_ESCALATION_LEVEL) == level;
    ThresholdsMonotone(GetConfig(cfg, CFG_ESCALATION_LEVEL), level);
  }

  /** A drop-listed source with confidence 30 or more is dropped at CRITICAL; below 30 it never is. */
  lemma ThreatCriticalFloor(p: Packet, cfg: Config, trie: ThreatTrie, rates: AdaptiveRates, stats: Stats, codes: ExtCodes,
                            now: u64)
    requires GetConfig(cfg, CFG_THREAT_INTEL_EN) != 0 && EntryFor(trie, p.srcIp).Some?
    requires EntryFor(trie, p.srcIp).value.action == THREAT_ACTION_DROP
    ensures EntryFor(trie, p.srcIp).value.confidence < 30 ==>
      ThreatIntelCheck(p, cfg, trie, rates, stats, codes, now).outcome.verdict == Pass
    ensures GetConfig(cfg, CFG_ESCALATION_LEVEL) >= ESCALATION_CRITICAL && EntryFor(trie, p.srcIp).value.confidence >= 30 ==>
      ThreatIntelCheck(p, cfg, trie, rates, stats, codes, now).outcome.verdict == Drop
  {
  }
}
