/**
 * payload_match.h: masked byte patterns matched against the L4 payload.
 * Up to sixteen rules are tried in index order; the first that applies
 * and matches decides (drop, rate-limit or monitor) and has its hit count
 * incremented.
 */
module PayloadMatch {
  import opened Ints
  import opened Wrappers
  import opened BpfTypes
  import opened RateLimiter
  import opened BpfHelpers

  /** How many rules a packet is checked against at most. */
  const PAYLOAD_MAX_CHECK: u32 := 16

  /** A matched source gets a quarter of its protocol's rate. */
  const PAYLOAD_RATE_LIMIT_DIVISOR: u64 := 4

  const PAYLOAD_ACTION_DROP: u8 := 0
  const PAYLOAD_ACTION_RATE_LIMIT: u8 := 1
  const PAYLOAD_ACTION_MONITOR: u8 := 2

  /**
   * A pattern rule (struct payload_rule). `pattern` and `mask` are the
   * rule's fixed-size arrays; a mask byte of 0x00 makes the position a
   * wildcard, 0xFF makes it exact. Protocol and port 0 mean "any".
   */
  datatype PayloadRule = PayloadRule(
    protocol: u8,
    dstPort: u16,
    offset: u16,
    patternLen: u16,
    pattern: seq<u8>,
    mask: seq<u8>,
    action: u8,
    hitCount: u64)

  /** The payload_rules array map. */
  type RuleTable = map<u32, PayloadRule>

  /** Every rule's arrays hold PAYLOAD_PATTERN_MAX_LEN bytes, the size the structure declares. */
  predicate RulesShaped(rules: RuleTable, maxLen: nat)
  {
    forall i :: i in rules ==> |rules[i].pattern| == maxLen && |rules[i].mask| == maxLen
  }

  /** The rule's protocol and port filters admit the packet. */
  predicate Admits(rule: PayloadRule, p: Packet)
  {
    (rule.protocol == 0 || rule.protocol == p.ipProto) && (rule.dstPort == 0 || rule.dstPort == p.dstPort)
  }

  /**
   * The rule's window lies inside both the frame and the L4 payload, and
   * its length is between 1 and PAYLOAD_PATTERN_MAX_LEN.
   */
  predicate WindowFits(rule: PayloadRule, p: Packet, maxLen: nat)
  {
    && 0 < rule.patternLen as int <= maxLen
    && p.payload.Some?
    && p.payload.value + rule.offset + rule.patternLen <= |p.frame|
    && p.payload.value + rule.offset < |p.frame|
    && rule.offset + rule.patternLen <= p.l4PayloadLen
  }

  /** Every byte of the window agrees with the pattern wherever the mask has bits. */
  predicate MaskedMatch(frame: seq<u8>, start: nat, rule: PayloadRule)
    requires start + rule.patternLen <= |frame|
    requires rule.patternLen as int <= |rule.pattern| && rule.patternLen as int <= |rule.mask|
  {
    forall j :: 0 <= j < rule.patternLen ==> And8(frame[start + j], rule.mask[j]) == And8(rule.pattern[j], rule.mask[j])
  }

  /** The rule applies, matches, and has one of the three actions it can take. */
  predicate Fires(rule: PayloadRule, p: Packet, maxLen: nat)
    requires |rule.pattern| == maxLen && |rule.mask| == maxLen
  {
    && Admits(rule, p)
    && WindowFits(rule, p, maxLen)
    && MaskedMatch(p.frame, p.payload.value + rule.offset, rule)
    && rule.action in {PAYLOAD_ACTION_DROP, PAYLOAD_ACTION_RATE_LIMIT, PAYLOAD_ACTION_MONITOR}
  }

  /** The first rule from index `i` up to `limit` that fires, if any. */
  function FirstFiring(p: Packet, rules: RuleTable, maxLen: nat, i: u32, limit: u32): (k: Option<u32>)
    requires RulesShaped(rules, maxLen) && i <= limit
    ensures k.Some? ==> i <= k.value < limit && k.value in rules && Fires(rules[k.value], p, maxLen)
    ensures k.Some? ==> forall j: u32 :: i <= j < k.value && j in rules ==> !Fires(rules[j], p, maxLen)
    ensures k.None? ==> forall j: u32 :: i <= j < limit && j in rules ==> !Fires(rules[j], p, maxLen)
    decreases limit - i
  {
    if i == limit then None
    else if i in rules && Fires(rules[i], p, maxLen) then Some(i)
    else FirstFiring(p, rules, maxLen, i + 1, limit)
  }

  /**
   * The inner loop of payload_match_check: compares the window byte by
   * byte under the mask and stops at the first difference.
   */
  method CompareMasked(frame: seq<u8>, start: nat, rule: PayloadRule) returns (matched: bool)
    requires start + rule.patternLen <= |frame|
    requires rule.patternLen as int <= |rule.pattern| && rule.patternLen as int <= |rule.mask|
    ensures matched <==> MaskedMatch(frame, start, rule)
  {
    var j := 0;
    while j < rule.patternLen as int
      invariant 0 <= j <= rule.patternLen as int
      invariant forall k :: 0 <= k < j ==> And8(frame[start + k], rule.mask[k]) == And8(rule.pattern[k], rule.mask[k])
    {
      if And8(frame[start + j], rule.mask[j]) != And8(rule.pattern[j], rule.mask[j]) {
        return false;
      }
      j := j + 1;
    }
    return true;
  }

  /** The outer loop: the first of the rules below `limit` that fires. */
  method FindFiring(p: Packet, rules: RuleTable, maxLen: nat, limit: u32) returns (k: Option<u32>)
    requires RulesShaped(rules, maxLen)
    ensures k == FirstFiring(p, rules, maxLen, 0, limit)
  {
    var i: u32 := 0;
    while i < limit
      invariant i <= limit
      invariant FirstFiring(p, rules, maxLen, 0, limit) == FirstFiring(p, rules, maxLen, i, limit)
      decreases limit - i
    {
      if i in rules {
        var rule := rules[i];
        if Admits(rule, p) && WindowFits(rule, p, maxLen) {
          var matched := CompareMasked(p.frame, p.payload.value + rule.offset, rule);
          if matched && rule.action in {PAYLOAD_ACTION_DROP, PAYLOAD_ACTION_RATE_LIMIT, PAYLOAD_ACTION_MONITOR} {
            return Some(i);
          }
        }
      }
      i := i + 1;
    }
    return None;
  }

  datatype MatchResult = MatchResult(outcome: Outcome, rules: RuleTable, rates: AdaptiveRates, stats: Stats)

  /** The number of rules examined: the active count, capped at sixteen. */
  function RuleLimit(count: u32): (n: u32)
    ensures n <= count && n <= PAYLOAD_MAX_CHECK
    ensures count <= PAYLOAD_MAX_CHECK ==> n == count
  {
    if count > PAYLOAD_MAX_CHECK then PAYLOAD_MAX_CHECK else count
  }

  /** The packet is inspected at all: the module is on, there is a payload, and there are rules. */
  predicate Inspected(p: Packet, cfg: Config, count: u32)
  {
    GetConfig(cfg, CFG_PAYLOAD_MATCH_EN) != 0 && p.payload.Some? && p.l4PayloadLen != 0 && count != 0
  }

  /**
   * payload_match_check. The first firing rule decides: a drop rule drops
   * (one payload_match_dropped, stats_drop, one drop event), a rate-limit rule passes
   * after installing a quarter of the protocol's rate as the source's
   * override, a monitor rule passes with one pass event. Exactly that
   * rule's hit count goes up by one; without a firing rule nothing
   * changes.
   */
  function PayloadMatchCheck(p: Packet, cfg: Config, count: u32, rules: RuleTable, rates: AdaptiveRates, stats: Stats,
                             maxLen: nat, codes: ExtCodes, now: u64): (r: MatchResult)
    requires RulesShaped(rules, maxLen)
    ensures !Inspected(p, cfg, count) ==> r == MatchResult(PassOutcome(), rules, rates, stats)
    ensures r.outcome.verdict == Drop <==>
      Inspected(p, cfg, count)
      && (exists k: u32 :: k < RuleLimit(count) && k in rules && Fires(rules[k], p, maxLen)
            && rules[k].action == PAYLOAD_ACTION_DROP
            && forall j: u32 :: j < k && j in rules ==> !Fires(rules[j], p, maxLen))
    ensures r.outcome.verdict == Drop ==>
      r.outcome == Outcome(Drop, [PayloadMatchDropped], [DropEvent(p, now, codes.attackPayloadMatch, codes.dropPayloadMatch)])
    ensures r.outcome.verdict != Drop ==> r.outcome.verdict == Pass && r.outcome.bumps == []
    ensures r.stats == if r.outcome.verdict == Drop then StatsDrop(stats, p.pktLen) else stats
    ensures r.rules.Keys == rules.Keys
    ensures forall k :: k in rules ==>
      r.rules[k] == rules[k] || (r.rules[k] == rules[k].(hitCount := Add64(rules[k].hitCount, 1)) && Fires(rules[k], p, maxLen))
    ensures forall k1, k2 :: k1 in rules && k2 in rules && r.rules[k1] != rules[k1] && r.rules[k2] != rules[k2] ==> k1 == k2
    ensures r.rules == rules ==> r.outcome == PassOutcome() && r.rates == rates && r.stats == stats
  {
    if !Inspected(p, cfg, count) then MatchResult(PassOutcome(), rules, rates, stats)
    else
      FirstFiringDrops(p, rules, maxLen, RuleLimit(count));
      match FirstFiring(p, rules, maxLen, 0, RuleLimit(count))
      case None => MatchResult(PassOutcome(), rules, rates, stats)
      case Some(k) =>
        var act := RuleAction(rules[k], p, cfg, rates, stats, codes, now);
        MatchResult(act.0, CountHit(rules, k), act.1, act.2)
  }

  /** The firing rule's hit counter goes up by one, wrapping at 2^64; no other rule changes. */
  function CountHit(rules: RuleTable, k: u32): (r: RuleTable)
    requires k in rules
    ensures r.Keys == rules.Keys && r != rules
    ensures r[k] == rules[k].(hitCount := Add64(rules[k].hitCount, 1))
    ensures forall j :: j in rules && j != k ==> r[j] == rules[j]
  {
    rules[k := rules[k].(hitCount := Add64(rules[k].hitCount, 1))]
  }

  /**
   * What the firing rule does: a drop rule drops with one event and
   * stats_drop, a rate-limit rule installs a quarter of the protocol's
   * rate for the source and passes silently, a monitor rule passes with one pass event.
   */
  function RuleAction(rule: PayloadRule, p: Packet, cfg: Config, rates: AdaptiveRates, stats: Stats,
                      codes: ExtCodes, now: u64)
    : (r: (Outcome, AdaptiveRates, Stats))
    ensures r.0.verdict == Drop <==> rule.action == PAYLOAD_ACTION_DROP
    ensures r.0.verdict == Drop ==>
      r.0 == Outcome(Drop, [PayloadMatchDropped], [DropEvent(p, now, codes.attackPayloadMatch, codes.dropPayloadMatch)])
        && r.1 == rates && r.2 == StatsDrop(stats, p.pktLen)
    ensures r.0.verdict != Drop ==> r.2 == stats
    ensures r.0.verdict != Drop ==> r.0.verdict == Pass && r.0.bumps == []
    ensures rule.action == PAYLOAD_ACTION_RATE_LIMIT ==> r.1 == Tighten(p, cfg, rates, PAYLOAD_RATE_LIMIT_DIVISOR, false)
    ensures rule.action != PAYLOAD_ACTION_RATE_LIMIT ==> r.1 == rates
  {
    if rule.action == PAYLOAD_ACTION_DROP then
      (Outcome(Drop, [PayloadMatchDropped], [DropEvent(p, now, codes.attackPayloadMatch, codes.dropPayloadMatch)]), rates, StatsDrop(stats, p.pktLen))
    else if rule.action == PAYLOAD_ACTION_RATE_LIMIT then
      (PassOutcome(), Tighten(p, cfg, rates, PAYLOAD_RATE_LIMIT_DIVISOR, false), stats)
    else
      (Outcome(Pass, [], [MakeEvent(p, now, codes.attackPayloadMatch, ACTION_PASS, 0, 0, 0)]), rates, stats)
  }

  /** The first rule below `limit` that fires is a drop rule exactly when some firing drop rule has no firing rule before it. */
  lemma FirstFiringDrops(p: Packet, rules: RuleTable, maxLen: nat, limit: u32)
    requires RulesShaped(rules, maxLen)
    ensures (var f := FirstFiring(p, rules, maxLen, 0, limit); f.Some? && rules[f.value].action == PAYLOAD_ACTION_DROP) <==>
      (exists k: u32 :: k < limit && k in rules && Fires(rules[k], p, maxLen)
        && rules[k].action == PAYLOAD_ACTION_DROP
        && forall j: u32 :: j < k && j in rules ==> !Fires(rules[j], p, maxLen))
  {
    var f := FirstFiring(p, rules, maxLen, 0, limit);
    if exists k: u32 :: k < limit && k in rules && Fires(rules[k], p, maxLen)
        && rules[k].action == PAYLOAD_ACTION_DROP
        && forall j: u32 :: j < k && j in rules ==> !Fires(rules[j], p, maxLen) {
      var k: u32 :| k < limit && k in rules && Fires(rules[k], p, maxLen)
        && rules[k].action == PAYLOAD_ACTION_DROP
        && forall j: u32 :: j < k && j in rules ==> !Fires(rules[j], p, maxLen);
      assert f == Some(k);
    }
  }

  /** A rule whose mask is all zero bytes matches any payload its window fits. */
  lemma ZeroMaskMatchesAnything(frame: seq<u8>, start: nat, rule: PayloadRule)
    requires start + rule.patternLen <= |frame|
    requires rule.patternLen as int <= |rule.pattern| && rule.patternLen as int <= |rule.mask|
    requires forall j :: 0 <= j < |rule.mask| ==> rule.mask[j] == 0
    ensures MaskedMatch(frame, start, rule)
  {
  }

  /** With a full mask, a rule matches exactly the bytes of its pattern. */
  lemma FullMaskIsExact(frame: seq<u8>, start: nat, rule: PayloadRule)
    requires start + rule.patternLen <= |frame|
    requires rule.patternLen as int <= |rule.pattern| && rule.patternLen as int <= |rule.mask|
    requires forall j :: 0 <= j < |rule.mask| ==> rule.mask[j] == 0xFF
    ensures MaskedMatch(frame, start, rule) <==> frame[start..start + rule.patternLen] == rule.pattern[..rule.patternLen]
  {
    if MaskedMatch(frame, start, rule) {
      assert forall j :: 0 <= j < rule.patternLen ==> frame[start..start + rule.patternLen][j] == rule.pattern[..rule.patternLen][j];
    }
    if frame[start..start + rule.patternLen] == rule.pattern[..rule.patternLen] {
      forall j | 0 <= j < rule.patternLen
        ensures frame[start + j] == rule.pattern[j]
      {
        assert frame[start..start + rule.patternLen][j] == rule.pattern[..rule.patternLen][j];
      }
    }
  }
}
