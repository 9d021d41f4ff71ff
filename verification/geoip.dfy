/**
 * geoip.h: per-country policy. The source address is looked up in the
 * GeoIP trie for a country code, and the country's policy decides: drop,
 * pass under a stricter per-source rate, pass with a monitoring event, or
 * pass. At CRITICAL escalation an address without a country, or a country
 * without a policy, is dropped.
 */
module Geoip {
  import opened Ints
  import opened Wrappers
  import opened BpfTypes
  import opened RateLimiter
  import opened BpfHelpers

  /** The policy actions, as the control plane writes them (geoip.go). */
  const GEOIP_ACTION_PASS: u8 := 0
  const GEOIP_ACTION_DROP: u8 := 1
  const GEOIP_ACTION_RATE_LIMIT: u8 := 2
  const GEOIP_ACTION_MONITOR: u8 := 3

  /** A country-mapped source gets half its protocol's rate. */
  const GEOIP_RATE_LIMIT_DIVISOR: u64 := 2

  /** The GeoIP trie: the country code of the longest stored prefix covering a key, if any. */
  type GeoTrie = LpmKey -> Option<u16>

  /** The per-country policy map. */
  type GeoPolicy = map<u16, u8>

  datatype GeoResult = GeoResult(outcome: Outcome, rates: AdaptiveRates, stats: Stats)

  /** The country of a source address: a /32 lookup in the trie. */
  function CountryOf(geo: GeoTrie, src: u32): (c: Option<u16>)
  {
    geo(LpmKey(32, src))
  }

  /** The action that applies to a source, or None when its country or the country's policy is unknown. */
  function PolicyFor(geo: GeoTrie, policy: GeoPolicy, src: u32): (a: Option<u8>)
    ensures a.Some? ==> CountryOf(geo, src).Some? && CountryOf(geo, src).value in policy
    ensures a.Some? ==> a.value == policy[CountryOf(geo, src).value]
  {
    match CountryOf(geo, src)
    case None => None
    case Some(c) => if c in policy then Some(policy[c]) else None
  }

  /** A country drop: one geoip_dropped, stats_drop for the packet's length, one drop event. */
  function GeoDrop(p: Packet, codes: ExtCodes, now: u64, rates: AdaptiveRates, stats: Stats): (r: GeoResult)
    ensures r.outcome.verdict == Drop && r.outcome.bumps == [GeoipDropped]
    ensures r.outcome.events == [DropEvent(p, now, codes.attackGeoipBlock, codes.dropGeoip)]
    ensures r.rates == rates
    ensures Count(r.stats, DroppedPackets) == Count(stats, DroppedPackets) + 1
    ensures Count(r.stats, DroppedBytes) == Count(stats, DroppedBytes) + p.pktLen
    ensures forall c :: c != DroppedPackets && c != DroppedBytes ==> Count(r.stats, c) == Count(stats, c)
  {
    GeoResult(Outcome(Drop, [GeoipDropped], [DropEvent(p, now, codes.attackGeoipBlock, codes.dropGeoip)]),
              rates, StatsDrop(stats, p.pktLen))
  }

  /** The packet is dropped by country: an explicit drop policy, or no policy at CRITICAL escalation. */
  predicate GeoBlocked(p: Packet, cfg: Config, geo: GeoTrie, policy: GeoPolicy)
  {
    var a := PolicyFor(geo, policy, p.srcIp);
    GetConfig(cfg, CFG_GEOIP_ENABLE) != 0
    && ((a.None? && GetConfig(cfg, CFG_ESCALATION_LEVEL) >= ESCALATION_CRITICAL)
        || a == Some(GEOIP_ACTION_DROP))
  }

  /**
   * geoip_check. A disabled module passes everything untouched. A drop
   * counts one geoip_dropped, calls stats_drop and emits one drop event; a rate-limit policy
   * passes after installing half the protocol's rate as the source's
   * override; a monitor policy passes with one pass event; every other
   * action passes silently. Only a rate-limit policy changes the overrides.
   */
  function GeoipCheck(p: Packet, cfg: Config, geo: GeoTrie, policy: GeoPolicy, rates: AdaptiveRates, stats: Stats,
                      codes: ExtCodes, now: u64): (r: GeoResult)
    ensures GetConfig(cfg, CFG_GEOIP_ENABLE) == 0 ==> r == GeoResult(PassOutcome(), rates, stats)
    ensures r.outcome.verdict == Drop <==> GeoBlocked(p, cfg, geo, policy)
    ensures r.outcome.verdict == Drop ==> r == GeoDrop(p, codes, now, rates, stats)
    ensures r.outcome.verdict != Drop ==> r.stats == stats
    ensures r.outcome.verdict != Drop ==> r.outcome.verdict == Pass && r.outcome.bumps == []
    ensures r.rates != rates ==>
      GetConfig(cfg, CFG_GEOIP_ENABLE) != 0 && PolicyFor(geo, policy, p.srcIp) == Some(GEOIP_ACTION_RATE_LIMIT)
    ensures GetConfig(cfg, CFG_GEOIP_ENABLE) != 0 && PolicyFor(geo, policy, p.srcIp) == Some(GEOIP_ACTION_RATE_LIMIT) ==>
      r.rates == Tighten(p, cfg, rates, GEOIP_RATE_LIMIT_DIVISOR, true)
    ensures r.outcome.events != [] && r.outcome.verdict == Pass ==>
      PolicyFor(geo, policy, p.srcIp) == Some(GEOIP_ACTION_MONITOR)
      && r.outcome.events == [MakeEvent(p, now, codes.attackGeoipBlock, ACTION_PASS, 0, 0, 0)]
  {
    if GetConfig(cfg, CFG_GEOIP_ENABLE) == 0 then GeoResult(PassOutcome(), rates, stats)
    else
      var critical := GetConfig(cfg, CFG_ESCALATION_LEVEL) >= ESCALATION_CRITICAL;
      match geo(LpmKey(32, p.srcIp))
      case None =>
        if critical then GeoDrop(p, codes, now, rates, stats) else GeoResult(PassOutcome(), rates, stats)
      case Some(country) =>
        if country !in policy then
          if critical then GeoDrop(p, codes, now, rates, stats) else GeoResult(PassOutcome(), rates, stats)
        else
          var action := policy[country];
          if action == GEOIP_ACTION_DROP then GeoDrop(p, codes, now, rates, stats)
          else if action == GEOIP_ACTION_RATE_LIMIT then
            GeoResult(PassOutcome(), Tighten(p, cfg, rates, GEOIP_RATE_LIMIT_DIVISOR, true), stats)
          else if action == GEOIP_ACTION_MONITOR then
            GeoResult(Outcome(Pass, [], [MakeEvent(p, now, codes.attackGeoipBlock, ACTION_PASS, 0, 0, 0)]), rates, stats)
          else GeoResult(PassOutcome(), rates, stats)
  }

  /** Raising the escalation level never lets through a packet a lower level dropped. */
  lemma GeoEscalationOnlyAddsDrops(p: Packet, cfg: Config, geo: GeoTrie, policy: GeoPolicy, rates: AdaptiveRates, stats: Stats,
                                   codes: ExtCodes, now: u64, level: u64)
    requires GetConfig(cfg, CFG_ESCALATION_LEVEL) <= level
    requires GeoipCheck(p, cfg, geo, policy, rates, stats, codes, now).outcome.verdict == Drop
    ensures GeoipCheck(p, cfg[CFG_ESCALATION_LEVEL := level], geo, policy, rates, stats, codes, now).outcome.verdict == Drop
  {
    var cfg' := cfg[CFG_ESCALATION_LEVEL := level];
    assert GetConfig(cfg', CFG_GEOIP_ENABLE) == GetConfig(cfg, CFG_GEOIP_ENABLE);
    assert GetConfig(cfg', CFG_ESCALATION_LEVEL) == level;
  }

  /**
   * At CRITICAL escalation the module is default-deny: a packet passes
   * exactly when its country has an explicit policy other than drop.
   */
  lemma GeoCriticalIsDefaultDeny(p: Packet, cfg: Config, geo: GeoTrie, policy: GeoPolicy, rates: AdaptiveRates, stats: Stats,
                                 codes: ExtCodes, now: u64)
    requires GetConfig(cfg, CFG_GEOIP_ENABLE) != 0 && GetConfig(cfg, CFG_ESCALATION_LEVEL) >= ESCALATION_CRITICAL
    ensures GeoipCheck(p, cfg, geo, policy, rates, stats, codes, now).outcome.verdict == Pass <==>
      exists c :: CountryOf(geo, p.srcIp) == Some(c) && c in policy && policy[c] != GEOIP_ACTION_DROP
  {
    var a := PolicyFor(geo, policy, p.srcIp);
    if a.Some? {
      var c := CountryOf(geo, p.srcIp).value;
      assert CountryOf(geo, p.srcIp) == Some(c);
    }
  }
}
