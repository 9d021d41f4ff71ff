/**
 * The BGP client (package bgp): a registry of RTBH blackhole routes and
 * Flowspec rules (RFC 5575) that the scrubber asks upstream routers to
 * apply, guarded by the session state, with an audit trail of every
 * change. The session transport is a stub in the system itself; here the
 * client is its registry, its validation and its audit trail. Times are
 * parameters, and the address parsers are those of GoNet.
 */
module Bgp {
  import opened Ints
  import opened Wrappers
  import opened GoNet
  import opened BoundedLog
  import opened Iteration

  /** The blackhole community of section 2 of RFC 7999, used when none is configured. */
  const DEFAULT_BLACKHOLE_COMMUNITY: string := "65535:666"

  /** How many audit entries are kept. */
  const MAX_AUDIT_ENTRIES: nat := 10000

  datatype BgpConfig = BgpConfig(
    enabled: bool,
    routerIP: string,
    localAS: u32,
    peerAS: u32,
    nextHopSelf: string,
    communityBlackhole: string)

  /** A Flowspec rule: six match fields, then metadata that is never matched on. */
  datatype FlowspecRule = FlowspecRule(
    srcPrefix: string,
    dstPrefix: string,
    protocol: string,
    srcPort: string,
    dstPort: string,
    action: string,
    createdAt: int,
    reason: string)

  datatype Blackhole = Blackhole(prefix: string, announcedAt: int, reason: string)

  /** An audit entry; the detail text is kept as the values it is formatted from. */
  datatype AuditEntry =
    | AnnouncedBlackhole(timestamp: int, prefix: string, community: string)
    | WithdrewBlackhole(timestamp: int, prefix: string)
    | AnnouncedFlowspec(timestamp: int, rule: FlowspecRule)
    | WithdrewFlowspec(timestamp: int, rule: FlowspecRule)
    | WithdrewAll(timestamp: int, blackholes: nat, flowspec: nat)

  datatype Client = Client(
    cfg: BgpConfig,
    connected: bool,
    blackholes: map<string, Blackhole>,
    flowspec: seq<FlowspecRule>,
    audit: seq<AuditEntry>)

  datatype Outcome = Outcome(client: Client, status: Status)

  /** NewClient: an empty community becomes the RFC 7999 one; nothing announced, not connected. */
  function NewClient(cfg: BgpConfig): (c: Client)
    ensures c.cfg == cfg.(communityBlackhole := c.cfg.communityBlackhole)
    ensures c.cfg.communityBlackhole == if cfg.communityBlackhole == "" then "65535:666" else cfg.communityBlackhole
    ensures c.cfg.communityBlackhole != ""
    ensures !c.connected && c.blackholes == map[] && c.flowspec == [] && c.audit == []
  {
    var community := if cfg.communityBlackhole == "" then DEFAULT_BLACKHOLE_COMMUNITY else cfg.communityBlackhole;
    Client(cfg.(communityBlackhole := community), false, map[], [], [])
  }

  /**
   * Connect: a disabled client succeeds without connecting. Otherwise the
   * router address must be present and parse, and both AS numbers must be
   * nonzero, checked in that order; then the session is up.
   */
  function Connect(c: Client, lib: NetLib): (r: Outcome)
    ensures !c.cfg.enabled ==> r == Outcome(c, Success)
    ensures c.cfg.enabled ==>
      (r.status.Success? <==> c.cfg.routerIP != "" && lib.parseIP(c.cfg.routerIP).Some? && c.cfg.localAS != 0 && c.cfg.peerAS != 0)
    ensures c.cfg.enabled && r.status.Success? ==> r.client == c.(connected := true)
    ensures r.status.Failure? ==> r.client == c
  {
    if !c.cfg.enabled then Outcome(c, Success)
    else if c.cfg.routerIP == "" then Outcome(c, Failure("BGP router IP is required"))
    else if lib.parseIP(c.cfg.routerIP).None? then Outcome(c, Failure("invalid BGP router IP: " + c.cfg.routerIP))
    else if c.cfg.localAS == 0 then Outcome(c, Failure("BGP local AS is required"))
    else if c.cfg.peerAS == 0 then Outcome(c, Failure("BGP peer AS is required"))
    else Outcome(c.(connected := true), Success)
  }

  /** Disconnect: the session is down; the registry is kept. */
  function Disconnect(c: Client): (r: Outcome)
    ensures r.client == c.(connected := false) && r.status.Success?
  {
    Outcome(c.(connected := false), Success)
  }

  /** checkConnected: a disabled client is refused first, then one whose session is not up. */
  function CheckConnected(c: Client): (s: Status)
    ensures s.Success? <==> c.cfg.enabled && c.connected
    ensures !c.cfg.enabled ==> s == Failure("BGP client is disabled")
  {
    if !c.cfg.enabled then Failure("BGP client is disabled")
    else if !c.connected then Failure("BGP session not established")
    else Success
  }

  /** appendAudit: the entry goes last and only the newest 10000 are kept. */
  function AppendAudit(log: seq<AuditEntry>, entry: AuditEntry): (r: seq<AuditEntry>)
    ensures 1 <= |r| <= MAX_AUDIT_ENTRIES && r[|r| - 1] == entry
    ensures |log| < MAX_AUDIT_ENTRIES ==> r == log + [entry]
    ensures r[..|r| - 1] == log[|log| + 1 - |r|..]
  {
    AppendBelowBoundIfShort(log, entry, MAX_AUDIT_ENTRIES);
    AppendNewest(log, entry, MAX_AUDIT_ENTRIES)
  }

  // ---- Prefix and rule validation ----

  /**
   * validatePrefix as written: a bare address must be IPv4, but any CIDR
   * that net.ParseCIDR accepts passes, IPv6 ones included.
   */
  function ValidatePrefixAsWritten(lib: NetLib, prefix: string): (s: Status)
    ensures s.Success? <==>
      (lib.parseIP(prefix).Some? && To4(lib.parseIP(prefix).value).Some?)
      || (lib.parseIP(prefix).None? && lib.parseCIDR(prefix).Some?)
  {
    match lib.parseIP(prefix)
    case Some(ip) => if To4(ip).None? then Failure("IPv6 not supported: " + prefix) else Success
    case None => if lib.parseCIDR(prefix).None? then Failure("invalid prefix " + prefix) else Success
  }

  /**
   * validatePrefix as its comment states it: an IPv4 address or an IPv4
   * CIDR; an IPv6 CIDR is refused like a bare IPv6 address.
   */
  function ValidatePrefix(lib: NetLib, prefix: string): (s: Status)
    ensures s.Success? <==>
      (lib.parseIP(prefix).Some? && To4(lib.parseIP(prefix).value).Some?)
      || (lib.parseIP(prefix).None? && lib.parseCIDR(prefix).Some? && IsV4Net(lib.parseCIDR(prefix).value))
  {
    match lib.parseIP(prefix)
    case Some(ip) => if To4(ip).None? then Failure("IPv6 not supported: " + prefix) else Success
    case None =>
      match lib.parseCIDR(prefix)
      case None => Failure("invalid prefix " + prefix)
      case Some(n) => if !IsV4Net(n) then Failure("IPv6 not supported: " + prefix) else Success
  }

  /** An IPv6 CIDR passes the check as written and is refused by the corrected one. */
  lemma IPv6CidrPassesAsWritten(lib: NetLib, prefix: string)
    requires WellFormed(lib)
    requires lib.parseIP(prefix).None? && lib.parseCIDR(prefix).Some? && |lib.parseCIDR(prefix).value.ip| == 16
    ensures ValidatePrefixAsWritten(lib, prefix).Success?
    ensures ValidatePrefix(lib, prefix).Failure?
  {
  }

  /** The two checks agree on every prefix that is not an IPv6 CIDR. */
  lemma ValidatePrefixAgreesOnIPv4(lib: NetLib, prefix: string)
    requires WellFormed(lib)
    requires lib.parseCIDR(prefix).Some? ==> |lib.parseCIDR(prefix).value.ip| == 4
    ensures ValidatePrefix(lib, prefix) == ValidatePrefixAsWritten(lib, prefix)
  {
  }

  predicate SupportedAction(a: string)
  {
    a == "drop" || a == "rate-limit" || a == "redirect"
  }

  predicate SupportedProtocol(p: string)
  {
    p == "" || p == "tcp" || p == "udp" || p == "icmp"
  }

  /**
   * validateFlowspecRule: a supported action, at least one prefix, every
   * prefix given valid, and no protocol or one of tcp, udp and icmp,
   * checked in that order.
   */
  function ValidateFlowspecRule(lib: NetLib, rule: FlowspecRule): (s: Status)
    ensures s.Success? <==>
      && SupportedAction(rule.action)
      && (rule.srcPrefix != "" || rule.dstPrefix != "")
      && (rule.srcPrefix != "" ==> ValidatePrefix(lib, rule.srcPrefix).Success?)
      && (rule.dstPrefix != "" ==> ValidatePrefix(lib, rule.dstPrefix).Success?)
      && SupportedProtocol(rule.protocol)
  {
    if rule.action == "" then Failure("action is required")
    else if !SupportedAction(rule.action) then Failure("unsupported action " + rule.action)
    else if rule.srcPrefix == "" && rule.dstPrefix == "" then Failure("at least one of src_prefix or dst_prefix is required")
    else if rule.srcPrefix != "" && ValidatePrefix(lib, rule.srcPrefix).Failure? then Failure("invalid src_prefix")
    else if rule.dstPrefix != "" && ValidatePrefix(lib, rule.dstPrefix).Failure? then Failure("invalid dst_prefix")
    else if !SupportedProtocol(rule.protocol) then Failure("unsupported protocol " + rule.protocol)
    else Success
  }

  /** flowspecMatch: equal on the six match fields; creation time and reason are ignored. */
  function FlowspecMatch(a: FlowspecRule, b: FlowspecRule): (m: bool)
    ensures m <==> a.(createdAt := 0, reason := "") == b.(createdAt := 0, reason := "")
  {
    && a.srcPrefix == b.srcPrefix && a.dstPrefix == b.dstPrefix && a.protocol == b.protocol
    && a.srcPort == b.srcPort && a.dstPort == b.dstPort && a.action == b.action
  }

  // ---- The registry ----

  /**
   * The client's invariant: every blackhole is stored under its own
   * prefix, every stored rule passed validation, and the audit trail
   * holds at most 10000 entries.
   */
  ghost predicate Valid(c: Client, lib: NetLib)
  {
    && (forall p :: p in c.blackholes ==> c.blackholes[p].prefix == p)
    && (forall i :: 0 <= i < |c.flowspec| ==> ValidateFlowspecRule(lib, c.flowspec[i]).Success?)
    && |c.audit| <= MAX_AUDIT_ENTRIES
  }

  /**
   * AnnounceBlackhole: refused unless connected and the prefix is valid.
   * An already announced prefix succeeds with nothing changed; a new one
   * is added with one audit entry.
   */
  function AnnounceBlackhole(c: Client, lib: NetLib, prefix: string, now: int): (r: Outcome)
    ensures r.status.Success? <==> CheckConnected(c).Success? && ValidatePrefix(lib, prefix).Success?
    ensures r.status.Failure? || prefix in c.blackholes ==> r.client == c
    ensures r.status.Success? && prefix !in c.blackholes ==>
      r.client == c.(blackholes := c.blackholes[prefix := Blackhole(prefix, now, "")],
                     audit := AppendAudit(c.audit, AnnouncedBlackhole(now, prefix, c.cfg.communityBlackhole)))
  {
    if CheckConnected(c).Failure? then Outcome(c, CheckConnected(c))
    else if ValidatePrefix(lib, prefix).Failure? then Outcome(c, Failure("invalid prefix for blackhole"))
    else if prefix in c.blackholes then Outcome(c, Success)
    else
      Outcome(c.(blackholes := c.blackholes[prefix := Blackhole(prefix, now, "")],
                 audit := AppendAudit(c.audit, AnnouncedBlackhole(now, prefix, c.cfg.communityBlackhole))),
              Success)
  }

  /**
   * WithdrawBlackhole: refused unless connected and the prefix is
   * announced; then that prefix alone goes, with one audit entry.
   */
  function WithdrawBlackhole(c: Client, prefix: string, now: int): (r: Outcome)
    ensures r.status.Success? <==> CheckConnected(c).Success? && prefix in c.blackholes
    ensures r.status.Failure? ==> r.client == c
    ensures r.status.Success? ==>
      && r.client.blackholes.Keys == c.blackholes.Keys - {prefix}
      && (forall p :: p in r.client.blackholes ==> r.client.blackholes[p] == c.blackholes[p])
      && r.client == c.(blackholes := r.client.blackholes, audit := AppendAudit(c.audit, WithdrewBlackhole(now, prefix)))
  {
    if CheckConnected(c).Failure? then Outcome(c, CheckConnected(c))
    else if prefix !in c.blackholes then Outcome(c, Failure("blackhole for " + prefix + " not found"))
    else
      Outcome(c.(blackholes := c.blackholes - {prefix}, audit := AppendAudit(c.audit, WithdrewBlackhole(now, prefix))),
              Success)
  }

  /** AnnounceFlowspec: refused unless connected and the rule is valid; then it is appended, stamped, with one audit entry. */
  function AnnounceFlowspec(c: Client, lib: NetLib, rule: FlowspecRule, now: int): (r: Outcome)
    ensures r.status.Success? <==> CheckConnected(c).Success? && ValidateFlowspecRule(lib, rule).Success?
    ensures r.status.Failure? ==> r.client == c
    ensures r.status.Success? ==>
      r.client == c.(flowspec := c.flowspec + [rule.(createdAt := now)],
                     audit := AppendAudit(c.audit, AnnouncedFlowspec(now, rule.(createdAt := now))))
  {
    if CheckConnected(c).Failure? then Outcome(c, CheckConnected(c))
    else if ValidateFlowspecRule(lib, rule).Failure? then Outcome(c, Failure("invalid flowspec rule"))
    else
      var stamped := rule.(createdAt := now);
      Outcome(c.(flowspec := c.flowspec + [stamped], audit := AppendAudit(c.audit, AnnouncedFlowspec(now, stamped))), Success)
  }

  /** The position of the first rule matching `rule`, if any. */
  function FirstMatch(rules: seq<FlowspecRule>, rule: FlowspecRule): (r: Option<nat>)
    ensures r.Some? ==> (r.value < |rules| && FlowspecMatch(rules[r.value], rule)
                         && forall j :: 0 <= j < r.value ==> !FlowspecMatch(rules[j], rule))
    ensures r.None? ==> forall j :: 0 <= j < |rules| ==> !FlowspecMatch(rules[j], rule)
  {
    if |rules| == 0 then None
    else if FlowspecMatch(rules[0], rule) then Some(0)
    else
      match FirstMatch(rules[1..], rule)
      case None => None
      case Some(i) => Some(i + 1)
  }

  /** A matching rule appended after rules that do not match is the first match. */
  lemma {:induction false} FirstMatchAfter(rules: seq<FlowspecRule>, x: FlowspecRule, rule: FlowspecRule)
    requires forall j :: 0 <= j < |rules| ==> !FlowspecMatch(rules[j], rule)
    requires FlowspecMatch(x, rule)
    ensures FirstMatch(rules + [x], rule) == Some(|rules|)
  {
    if |rules| > 0 {
      assert (rules + [x])[1..] == rules[1..] + [x];
      FirstMatchAfter(rules[1..], x, rule);
    }
  }

  /**
   * WithdrawFlowspec: refused unless connected and some rule matches;
   * then the first matching rule goes, with one audit entry.
   */
  function WithdrawFlowspec(c: Client, rule: FlowspecRule, now: int): (r: Outcome)
    ensures r.status.Success? <==> CheckConnected(c).Success? && exists j :: 0 <= j < |c.flowspec| && FlowspecMatch(c.flowspec[j], rule)
    ensures r.status.Failure? ==> r.client == c
    ensures r.status.Success? ==> var i := FirstMatch(c.flowspec, rule).value;
      r.client == c.(flowspec := c.flowspec[..i] + c.flowspec[i + 1..], audit := AppendAudit(c.audit, WithdrewFlowspec(now, rule)))
  {
    if CheckConnected(c).Failure? then Outcome(c, CheckConnected(c))
    else
      match FirstMatch(c.flowspec, rule)
      case None => Outcome(c, Failure("matching flowspec rule not found"))
      case Some(i) =>
        Outcome(c.(flowspec := c.flowspec[..i] + c.flowspec[i + 1..], audit := AppendAudit(c.audit, WithdrewFlowspec(now, rule))),
                Success)
  }

  /**
   * WithdrawAll as written: no session check, everything goes, and the
   * audit entry counts the blackholes but reports 0 Flowspec rules.
   */
  function WithdrawAllAsWritten(c: Client, now: int): (r: Outcome)
    ensures r.status.Success? && r.client.blackholes == map[] && r.client.flowspec == []
    ensures r.client.audit == AppendAudit(c.audit, WithdrewAll(now, |c.blackholes|, 0))
  {
    Outcome(c.(blackholes := map[], flowspec := [], audit := AppendAudit(c.audit, WithdrewAll(now, |c.blackholes|, 0))), Success)
  }

  /** WithdrawAll with the audit entry counting the Flowspec rules it withdrew. */
  function WithdrawAll(c: Client, now: int): (r: Outcome)
    ensures r.status.Success? && r.client.blackholes == map[] && r.client.flowspec == []
    ensures r.client == c.(blackholes := map[], flowspec := [], audit := r.client.audit)
    ensures |r.client.audit| > 0
    ensures var last := r.client.audit[|r.client.audit| - 1];
      last.WithdrewAll? && last.blackholes == |c.blackholes| && last.flowspec == |c.flowspec|
  {
    Outcome(c.(blackholes := map[], flowspec := [],
               audit := AppendAudit(c.audit, WithdrewAll(now, |c.blackholes|, |c.flowspec|))), Success)
  }

  /** With one rule active, the audit entry as written says no rule was withdrawn. */
  lemma WithdrawAllUndercountsAsWritten(c: Client, now: int)
    requires |c.flowspec| == 1
    ensures var w := WithdrawAllAsWritten(c, now).client.audit;
      w[|w| - 1].flowspec == 0 && |c.flowspec| - |WithdrawAllAsWritten(c, now).client.flowspec| == 1
    ensures var f := WithdrawAll(c, now).client.audit; f[|f| - 1].flowspec == 1
  {
  }

  /** Connecting, disconnecting and withdrawing everything keep the client's invariant. */
  lemma SessionKeepsValid(c: Client, lib: NetLib, now: int)
    requires Valid(c, lib)
    ensures Valid(Connect(c, lib).client, lib)
    ensures Valid(Disconnect(c).client, lib)
    ensures Valid(WithdrawAll(c, now).client, lib)
  {
  }

  /** Announcing a blackhole or a Flowspec rule keeps the client's invariant. */
  lemma AnnounceKeepsValid(c: Client, lib: NetLib, prefix: string, rule: FlowspecRule, now: int)
    requires Valid(c, lib)
    ensures Valid(AnnounceBlackhole(c, lib, prefix, now).client, lib)
    ensures Valid(AnnounceFlowspec(c, lib, rule, now).client, lib)
  {
    AnnounceBlackholeKeepsValid(c, lib, prefix, now);
    AnnounceFlowspecKeepsValid(c, lib, rule, now);
  }

  lemma AnnounceBlackholeKeepsValid(c: Client, lib: NetLib, prefix: string, now: int)
    requires Valid(c, lib)
    ensures Valid(AnnounceBlackhole(c, lib, prefix, now).client, lib)
  {
  }

  lemma AnnounceFlowspecKeepsValid(c: Client, lib: NetLib, rule: FlowspecRule, now: int)
    requires Valid(c, lib)
    ensures Valid(AnnounceFlowspec(c, lib, rule, now).client, lib)
  {
    var a := AnnounceFlowspec(c, lib, rule, now);
    if a.status.Success? {
      var fs := a.client.flowspec;
      forall j | 0 <= j < |fs|
        ensures ValidateFlowspecRule(lib, fs[j]).Success?
      {
        if j < |c.flowspec| { assert fs[j] == c.flowspec[j]; } else { assert fs[j] == rule.(createdAt := now); }
      }
    }
  }

  /** Withdrawing one blackhole or one Flowspec rule keeps the client's invariant. */
  lemma WithdrawKeepsValid(c: Client, lib: NetLib, prefix: string, rule: FlowspecRule, now: int)
    requires Valid(c, lib)
    ensures Valid(WithdrawBlackhole(c, prefix, now).client, lib)
    ensures Valid(WithdrawFlowspec(c, rule, now).client, lib)
  {
    WithdrawBlackholeKeepsValid(c, lib, prefix, now);
    WithdrawFlowspecKeepsValid(c, lib, rule, now);
  }

  lemma WithdrawBlackholeKeepsValid(c: Client, lib: NetLib, prefix: string, now: int)
    requires Valid(c, lib)
    ensures Valid(WithdrawBlackhole(c, prefix, now).client, lib)
  {
  }

  lemma WithdrawFlowspecKeepsValid(c: Client, lib: NetLib, rule: FlowspecRule, now: int)
    requires Valid(c, lib)
    ensures Valid(WithdrawFlowspec(c, rule, now).client, lib)
  {
    var w := WithdrawFlowspec(c, rule, now);
    if w.status.Success? {
      var i := FirstMatch(c.flowspec, rule).value;
      var fs := w.client.flowspec;
      assert fs == c.flowspec[..i] + c.flowspec[i + 1..];
      assert w.client.blackholes == c.blackholes;
      assert |w.client.audit| <= MAX_AUDIT_ENTRIES;
      forall j | 0 <= j < |fs|
        ensures ValidateFlowspecRule(lib, fs[j]).Success?
      {
        if j < i { assert fs[j] == c.flowspec[j]; } else { assert fs[j] == c.flowspec[j + 1]; }
      }
    }
  }

  /** Announcing a blackhole twice is announcing it once. */
  lemma AnnounceBlackholeIdempotent(c: Client, lib: NetLib, prefix: string, t1: int, t2: int)
    ensures var once := AnnounceBlackhole(c, lib, prefix, t1);
      AnnounceBlackhole(once.client, lib, prefix, t2) == Outcome(once.client, once.status)
  {
  }

  /** Withdrawing a newly announced blackhole restores the set of blackholes. */
  lemma WithdrawUndoesAnnounce(c: Client, lib: NetLib, prefix: string, t1: int, t2: int)
    requires CheckConnected(c).Success? && ValidatePrefix(lib, prefix).Success? && prefix !in c.blackholes
    ensures var a := AnnounceBlackhole(c, lib, prefix, t1).client;
      var w := WithdrawBlackhole(a, prefix, t2);
      w.status.Success? && w.client.blackholes == c.blackholes
  {
    var a := AnnounceBlackhole(c, lib, prefix, t1).client;
    assert a.blackholes == c.blackholes[prefix := Blackhole(prefix, t1, "")];
    assert (a.blackholes - {prefix}) == c.blackholes;
  }

  /** Withdrawing a newly announced Flowspec rule that matches no earlier rule restores the rule list. */
  lemma WithdrawFlowspecUndoesAnnounce(c: Client, lib: NetLib, rule: FlowspecRule, t1: int, t2: int)
    requires CheckConnected(c).Success? && ValidateFlowspecRule(lib, rule).Success?
    requires forall j :: 0 <= j < |c.flowspec| ==> !FlowspecMatch(c.flowspec[j], rule)
    ensures var a := AnnounceFlowspec(c, lib, rule, t1).client;
      var w := WithdrawFlowspec(a, rule, t2);
      w.status.Success? && w.client.flowspec == c.flowspec
  {
    var a := AnnounceFlowspec(c, lib, rule, t1).client;
    FirstMatchAfter(c.flowspec, rule.(createdAt := t1), rule);
    assert a.flowspec[..|c.flowspec|] == c.flowspec;
  }

  /**
   * GetActiveRules: each blackhole, in the map's iteration order, as a
   * rule with action "blackhole" and the prefix as destination, then the
   * Flowspec rules.
   */
  function ActiveRules(c: Client, order: seq<string>): (r: seq<FlowspecRule>)
    requires ListsKeys(order, c.blackholes.Keys)
    ensures |r| == |order| + |c.flowspec| && r[|order|..] == c.flowspec
    ensures |r| == |c.blackholes| + |c.flowspec|
    ensures forall i :: 0 <= i < |order| ==> r[i].action == "blackhole" && r[i].dstPrefix == c.blackholes[order[i]].prefix
    ensures forall p :: p in c.blackholes ==>
      exists i :: 0 <= i < |order| && order[i] == p && r[i].dstPrefix == c.blackholes[p].prefix
  {
    ListingSize(order, c.blackholes.Keys);
    seq(|order|, i requires 0 <= i < |order| =>
          var bh := c.blackholes[order[i]];
          FlowspecRule("", bh.prefix, "", "", "", "blackhole", bh.announcedAt, bh.reason))
    + c.flowspec
  }

  /**
   * No valid Flowspec rule has the action "blackhole", so in the active
   * list the blackhole entries are exactly the first |order| ones.
   */
  lemma BlackholeRulesAreTheBlackholes(c: Client, lib: NetLib, order: seq<string>)
    requires Valid(c, lib) && ListsKeys(order, c.blackholes.Keys)
    ensures var r := ActiveRules(c, order);
      forall i :: 0 <= i < |r| ==> (r[i].action == "blackhole" <==> i < |order|)
  {
    var r := ActiveRules(c, order);
    assert r[|order|..] == c.flowspec;
    forall i | |order| <= i < |r|
      ensures r[i].action != "blackhole"
    {
      assert r[i] == r[|order|..][i - |order|];
      assert ValidateFlowspecRule(lib, c.flowspec[i - |order|]).Success?;
    }
  }
}
