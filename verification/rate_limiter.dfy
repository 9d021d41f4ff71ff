/**
 * rate_limiter.h: the per-source token buckets (one per source address,
 * rate by protocol) and the two global buckets (packets and bytes per
 * second).
 */
module RateLimiter {
  import opened Ints
  import opened BpfTypes
  import opened BpfHelpers
  import opened Wrappers

  /** The per-source bucket map (an LRU hash keyed by source address; eviction is not modelled). */
  type SourceBuckets = map<u32, RateLimiter>

  /** The configuration key holding the per-source rate for a protocol, if it is limited. */
  function RateKey(proto: u8): (k: Option<u32>)
    ensures k.Some? <==> proto in {IPPROTO_TCP, IPPROTO_UDP, IPPROTO_ICMP}
    ensures proto == IPPROTO_TCP ==> k == Some(CFG_SYN_RATE_PPS)
    ensures proto == IPPROTO_UDP ==> k == Some(CFG_UDP_RATE_PPS)
    ensures proto == IPPROTO_ICMP ==> k == Some(CFG_ICMP_RATE_PPS)
  {
    if proto == IPPROTO_TCP then Some(CFG_SYN_RATE_PPS)
    else if proto == IPPROTO_UDP then Some(CFG_UDP_RATE_PPS)
    else if proto == IPPROTO_ICMP then Some(CFG_ICMP_RATE_PPS)
    else None
  }

  /** A source's first bucket: full at one second's worth, with twice that as burst. */
  function FreshBucket(rate: u64, now: u64): (rl: RateLimiter)
    ensures rl.tokens == rate && rl.ratePps == rate && rl.burstSize == Double64(rate)
    ensures rl.lastRefillNs == now && rl.totalPackets == 0 && rl.droppedPackets == 0
  {
    RateLimiter(rate, now, rate, Double64(rate), 0, 0)
  }

  /** A bucket re-rated to the current configuration. */
  function Rerated(rl: RateLimiter, rate: u64): (r: RateLimiter)
    ensures r == rl.(ratePps := rate, burstSize := Double64(rate))
  {
    rl.(ratePps := rate, burstSize := Double64(rate))
  }

  datatype SourceResult = SourceResult(outcome: Outcome, buckets: SourceBuckets)

  /** The configured per-source rate for a packet's protocol (0 when not limited). */
  function SourceRate(p: Packet, cfg: Config): (rate: u64)
    ensures RateKey(p.ipProto).None? ==> rate == 0
  {
    match RateKey(p.ipProto)
    case None => 0
    case Some(k) => GetConfig(cfg, k)
  }

  /**
   * rate_limit_check. Protocols other than TCP, UDP and ICMP, and a
   * protocol whose rate is 0, pass untouched. A source without a bucket
   * gets a fresh one and passes without spending a token. Otherwise its
   * bucket is re-rated and asked for one token; a refusal drops the
   * packet with one rate_limited increment and one event. Only the
   * packet's own source's bucket changes.
   */
  function RateLimitCheck(p: Packet, cfg: Config, buckets: SourceBuckets, now: u64): (r: SourceResult)
    ensures SourceRate(p, cfg) == 0 ==> r == SourceResult(PassOutcome(), buckets)
    ensures forall a :: a != p.srcIp ==> (a in r.buckets <==> a in buckets) && (a in buckets ==> r.buckets[a] == buckets[a])
    ensures SourceRate(p, cfg) != 0 && p.srcIp !in buckets ==>
      r == SourceResult(PassOutcome(), buckets[p.srcIp := FreshBucket(SourceRate(p, cfg), now)])
    ensures SourceRate(p, cfg) != 0 && p.srcIp in buckets ==>
      var c := TokenBucketConsume(Rerated(buckets[p.srcIp], SourceRate(p, cfg)), now, 1);
      && r.buckets == buckets[p.srcIp := c.bucket]
      && (r.outcome.verdict == Pass <==> c.allowed)
    ensures r.outcome.verdict == Drop ==>
      r.outcome.bumps == [RateLimited] && r.outcome.events == [DropEvent(p, now, ATTACK_NONE, DROP_RATE_LIMIT)]
    ensures r.outcome.verdict != Drop ==> r.outcome == PassOutcome()
  {
    var rate := SourceRate(p, cfg);
    if rate == 0 then SourceResult(PassOutcome(), buckets)
    else if p.srcIp !in buckets then
      SourceResult(PassOutcome(), buckets[p.srcIp := FreshBucket(rate, now)])
    else
      var c := TokenBucketConsume(Rerated(buckets[p.srcIp], rate), now, 1);
      if c.allowed then SourceResult(PassOutcome(), buckets[p.srcIp := c.bucket])
      else
        SourceResult(Outcome(Drop, [RateLimited], [DropEvent(p, now, ATTACK_NONE, DROP_RATE_LIMIT)]),
                     buckets[p.srcIp := c.bucket])
  }

  /** Packets of one source arriving together, all at `now`. */
  function SourceRun(p: Packet, cfg: Config, buckets: SourceBuckets, now: u64, n: nat): (r: (nat, SourceBuckets))
    ensures r.0 <= n
    decreases n
  {
    if n == 0 then (0, buckets)
    else
      var first := RateLimitCheck(p, cfg, buckets, now);
      var rest := SourceRun(p, cfg, first.buckets, now, n - 1);
      ((if first.outcome.verdict == Pass then 1 else 0) + rest.0, rest.1)
  }

  /**
   * A source with a bucket that was last refilled at `now` gets at most as
   * many of `n` simultaneous packets through as its bucket holds tokens.
   */
  lemma {:induction false} SourceBurstBounded(p: Packet, cfg: Config, buckets: SourceBuckets, now: u64, n: nat)
    requires SourceRate(p, cfg) != 0
    requires p.srcIp in buckets && buckets[p.srcIp].lastRefillNs == now
    ensures SourceRun(p, cfg, buckets, now, n).0 <= buckets[p.srcIp].tokens
    decreases n
  {
    if n > 0 {
      var rate := SourceRate(p, cfg);
      var rl := Rerated(buckets[p.srcIp], rate);
      var first := RateLimitCheck(p, cfg, buckets, now);
      var c := TokenBucketConsume(rl, now, 1);
      assert Earned(rl, now) == 0;
      assert c.bucket.lastRefillNs == now;
      assert first.buckets[p.srcIp] == c.bucket;
      SourceBurstBounded(p, cfg, first.buckets, now, n - 1);
      if c.allowed {
        assert c.bucket.tokens == rl.tokens - 1;
      }
    }
  }

  /** A new source's first packet always passes and leaves it a full bucket. */
  lemma FirstPacketPasses(p: Packet, cfg: Config, buckets: SourceBuckets, now: u64)
    requires p.srcIp !in buckets
    ensures RateLimitCheck(p, cfg, buckets, now).outcome == PassOutcome()
    ensures SourceRate(p, cfg) != 0 ==>
      RateLimitCheck(p, cfg, buckets, now).buckets[p.srcIp].tokens == SourceRate(p, cfg)
  {
  }

  // ---- Global limits ----

  /** The two global buckets (global_rate_map slots 0 and 1, always present). */
  datatype GlobalBuckets = GlobalBuckets(pps: RateLimiter, bps: RateLimiter)

  datatype GlobalResult = GlobalResult(outcome: Outcome, buckets: GlobalBuckets)

  /** The byte rate and burst derived from a bit-per-second limit. */
  function BpsRerated(rl: RateLimiter, bpsLimit: u64): (r: RateLimiter)
    ensures r.ratePps == bpsLimit / 8 && r.burstSize == Double64(bpsLimit / 8)
    ensures r.tokens == rl.tokens && r.lastRefillNs == rl.lastRefillNs
  {
    Rerated(rl, bpsLimit / 8)
  }

  /**
   * global_rate_check. With both limits 0 everything passes untouched. A
   * nonzero packet limit spends one token of the packet bucket; a refusal
   * drops (one rate_limited increment, no event) before the byte bucket is
   * consulted. A nonzero bit limit then spends `pktLen` tokens of the byte
   * bucket at a rate of limit/8 bytes per second; a refusal drops likewise,
   * after the packet token was spent.
   */
  function GlobalRateCheck(p: Packet, cfg: Config, g: GlobalBuckets, now: u64): (r: GlobalResult)
    ensures var ppsLimit := GetConfig(cfg, CFG_GLOBAL_PPS_LIMIT);
      var bpsLimit := GetConfig(cfg, CFG_GLOBAL_BPS_LIMIT);
      && (ppsLimit == 0 && bpsLimit == 0 ==> r == GlobalResult(PassOutcome(), g))
      && (ppsLimit == 0 ==> r.buckets.pps == g.pps)
      && (ppsLimit != 0 ==> r.buckets.pps == TokenBucketConsume(Rerated(g.pps, ppsLimit), now, 1).bucket)
      && (ppsLimit != 0 && !TokenBucketConsume(Rerated(g.pps, ppsLimit), now, 1).allowed ==>
            r.outcome.verdict == Drop && r.buckets.bps == g.bps)
      && (bpsLimit == 0 ==> r.buckets.bps == g.bps)
      && (bpsLimit != 0 && (ppsLimit == 0 || TokenBucketConsume(Rerated(g.pps, ppsLimit), now, 1).allowed) ==>
            r.buckets.bps == TokenBucketConsume(BpsRerated(g.bps, bpsLimit), now, p.pktLen).bucket)
      && (r.outcome.verdict == Drop <==>
            (ppsLimit != 0 && !TokenBucketConsume(Rerated(g.pps, ppsLimit), now, 1).allowed)
            || (bpsLimit != 0 && !TokenBucketConsume(BpsRerated(g.bps, bpsLimit), now, p.pktLen).allowed))
    ensures r.outcome.verdict == Drop ==> r.outcome.bumps == [RateLimited] && r.outcome.events == []
    ensures r.outcome.verdict != Drop ==> r.outcome == PassOutcome()
  {
    var ppsLimit := GetConfig(cfg, CFG_GLOBAL_PPS_LIMIT);
    var bpsLimit := GetConfig(cfg, CFG_GLOBAL_BPS_LIMIT);
    if ppsLimit == 0 && bpsLimit == 0 then GlobalResult(PassOutcome(), g)
    else
      var c1 := if ppsLimit > 0 then TokenBucketConsume(Rerated(g.pps, ppsLimit), now, 1) else Consumed(true, g.pps);
      var g1 := g.(pps := c1.bucket);
      if !c1.allowed then GlobalResult(Outcome(Drop, [RateLimited], []), g1)
      else
        var c2 := if bpsLimit > 0 then TokenBucketConsume(BpsRerated(g.bps, bpsLimit), now, p.pktLen) else Consumed(true, g.bps);
        var g2 := g1.(bps := c2.bucket);
        if !c2.allowed then GlobalResult(Outcome(Drop, [RateLimited], []), g2)
        else GlobalResult(PassOutcome(), g2)
  }

  /** A bit limit below 8 gives a byte rate of 0, which lets every packet through the byte bucket. */
  lemma TinyBitLimitIsNoLimit(p: Packet, cfg: Config, g: GlobalBuckets, now: u64)
    requires GetConfig(cfg, CFG_GLOBAL_PPS_LIMIT) == 0
    requires 0 < GetConfig(cfg, CFG_GLOBAL_BPS_LIMIT) < 8
    ensures GlobalRateCheck(p, cfg, g, now).outcome == PassOutcome()
  {
  }
  // ---- Per-source overrides (adaptive_rate_map) ----

  /** Per-source packet rates that the GeoIP, threat-intelligence and payload modules install. */
  type AdaptiveRates = map<u32, u64>

  /**
   * The protocol's configured rate that an override is derived from: the
   * per-protocol rate for TCP and UDP, for ICMP only where the module lists
   * it (`withIcmp`), and the global packet limit otherwise.
   */
  function BaseRate(proto: u8, cfg: Config, withIcmp: bool): (rate: u64)
    ensures proto == IPPROTO_TCP ==> rate == GetConfig(cfg, CFG_SYN_RATE_PPS)
    ensures proto == IPPROTO_UDP ==> rate == GetConfig(cfg, CFG_UDP_RATE_PPS)
    ensures proto == IPPROTO_ICMP ==> rate == GetConfig(cfg, if withIcmp then CFG_ICMP_RATE_PPS else CFG_GLOBAL_PPS_LIMIT)
    ensures proto !in {IPPROTO_TCP, IPPROTO_UDP, IPPROTO_ICMP} ==> rate == GetConfig(cfg, CFG_GLOBAL_PPS_LIMIT)
  {
    if proto == IPPROTO_TCP then GetConfig(cfg, CFG_SYN_RATE_PPS)
    else if proto == IPPROTO_UDP then GetConfig(cfg, CFG_UDP_RATE_PPS)
    else if proto == IPPROTO_ICMP && withIcmp then GetConfig(cfg, CFG_ICMP_RATE_PPS)
    else GetConfig(cfg, CFG_GLOBAL_PPS_LIMIT)
  }

  /** Dividing never grows a number, and dividing by at least 2 shrinks any number from 2 up. */
  lemma QuotientBelow(b: nat, d: nat)
    requires d >= 1
    ensures b / d <= b
    ensures d >= 2 && b >= 2 ==> b / d < b
  {
    var q := b / d;
    assert b == q * d + b % d;
    assert q * d >= q * 1 by { MulMonotone(q, 1, d); }
    if d >= 2 && b >= 2 {
      assert q * d >= q * 2 by { MulMonotone(q, 2, d); }
      if q == 0 { } else { assert q * 2 > q; }
    }
  }

  /** The stricter rate derived from a base rate: a `divisor`-th of it, but never 0. */
  function Stricter(base: u64, divisor: u64): (s: u64)
    requires base > 0 && divisor >= 1
    ensures 0 < s <= base
    ensures divisor >= 2 && base >= 2 ==> s < base
  {
    var q := base / divisor;
    QuotientBelow(base, divisor);
    if q == 0 then 1 else q
  }

  /**
   * Installs a stricter rate for the packet's source when the source has no
   * override yet and the base rate is nonzero (BPF_NOEXIST). An existing
   * override is never replaced, and no other source is touched.
   */
  function Tighten(p: Packet, cfg: Config, rates: AdaptiveRates, divisor: u64, withIcmp: bool): (r: AdaptiveRates)
    requires divisor >= 1
    ensures p.srcIp in rates || BaseRate(p.ipProto, cfg, withIcmp) == 0 ==> r == rates
    ensures p.srcIp !in rates && BaseRate(p.ipProto, cfg, withIcmp) > 0 ==>
      r == rates[p.srcIp := Stricter(BaseRate(p.ipProto, cfg, withIcmp), divisor)]
  {
    if p.srcIp in rates then rates
    else
      var base := BaseRate(p.ipProto, cfg, withIcmp);
      if base > 0 then
        var stricter := base / divisor;
        rates[p.srcIp := if stricter == 0 then 1 else stricter]
      else rates
  }
}
