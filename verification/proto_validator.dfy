/**
 * proto_validator.h: deep protocol validation. On UDP, DNS, NTP, SSDP and
 * memcached payloads are inspected for amplification and malformed
 * requests; on TCP, the flags and sequence number are checked against the
 * tracked connection state. Every validator that returns DROP first calls
 * stats_drop; ProtoValidate applies that call to the statistics it is given.
 */
module ProtoValidator {
  import opened Ints
  import opened Wrappers
  import opened BpfTypes
  import opened BpfHelpers

  // ---- Constants ----

  const PROTO_PORT_DNS: u16 := 53
  const PROTO_PORT_NTP: u16 := 123
  const PROTO_PORT_SSDP: u16 := 1900
  const PROTO_PORT_MEMCACHED: u16 := 11211

  const DNS_MAX_PKT_NON_EDNS: u16 := 512
  const DNS_AMP_ANCOUNT_LIMIT: u16 := 10
  const DNS_OPCODE_SHIFT: nat := 11
  const DNS_OPCODE_MASK: nat := 0x0F
  const DNS_OPCODE_QUERY: nat := 0
  /** The fixed DNS header: id, flags and four section counts (section 4.1.1 of RFC 1035). */
  const DNS_HDR_LEN: nat := 12

  /** NTP association modes (section 7.3 of RFC 5905). */
  const NTP_MODE_CLIENT: u8 := 3
  const NTP_MODE_SERVER: u8 := 4
  const NTP_MODE_CONTROL: u8 := 6
  const NTP_MODE_PRIVATE: u8 := 7

  const TCP_VIOLATION_LIMIT: u32 := 3
  const TCP_HDR_LEN: nat := 20

  /** The largest payload or L4 offset a validator accepts. */
  const MAX_OFFSET: nat := 1500

  /** Half the sequence-number window: 2^30. */
  const SEQ_HALF_WINDOW: int := 0x4000_0000

  // ---- The parameters no header in this model fixes ----

  /** A C structure size; every structure read here has at least one byte. */
  type StructSize = n: nat | 1 <= n witness 1

  /**
   * What the validators need beyond the packet: the event codes, the size
   * of struct ntp_header, NTP_MIN_LEN, and the value of CT_STATE_TIME_WAIT.
   */
  datatype Env = Env(codes: ExtCodes, ntpHeaderLen: StructSize, ntpMinLen: u16, timeWait: u8)

  /**
   * What the validator reads and writes of a conntrack entry: the state,
   * the expected sequence number and the violation counter. The last two
   * are not fields of struct conntrack_entry as declared in types.h; the
   * model gives them the widths the code uses (`__u32`).
   */
  datatype Tracked = Tracked(state: u8, seqExpected: u32, violationCount: u32)

  type TrackTable = map<ConntrackKey, Tracked>

  /** A validator's verdict with the connection table it leaves behind. */
  datatype Checked = Checked(outcome: Outcome, table: TrackTable)

  /** proto_validate's result: the validator's verdict, the connection table and the statistics. */
  datatype Validated = Validated(outcome: Outcome, table: TrackTable, stats: Stats)

  // ---- The payload every UDP validator reads ----

  /** The payload offset as the validators load it into a `__u16` (0 when there is none). */
  function PayOff(p: Packet): (r: u16)
    ensures p.payload.None? ==> r == 0
    ensures p.payload.Some? && p.payload.value < U16_LIMIT ==> r == p.payload.value
  {
    if p.payload.Some? then p.payload.value % U16_LIMIT else 0
  }

  /** The common guard: a nonzero payload offset of at most 1500 that does not pass the frame's end. */
  predicate PayloadUsable(p: Packet)
  {
    0 < PayOff(p) as int <= MAX_OFFSET && PayOff(p) as int <= |p.frame|
  }

  /** The frame holds `n` bytes from the payload offset on. */
  predicate PayloadHas(p: Packet, n: nat)
  {
    PayloadUsable(p) && PayOff(p) as int + n <= |p.frame|
  }

  /** The frame's bytes spell `s` at offset `at`. */
  predicate SpellsAt(frame: seq<u8>, at: nat, s: string)
  {
    at + |s| <= |frame| && forall i :: 0 <= i < |s| ==> frame[at + i] == s[i] as int
  }

  // ---- DNS ----

  /** The DNS header fields the validator reads, in host order. */
  datatype DnsHeader = DnsHeader(flags: u16, qdcount: u16, ancount: u16)

  function ReadDnsHeader(frame: seq<u8>, at: nat): (h: DnsHeader)
    requires at + DNS_HDR_LEN <= |frame|
  {
    DnsHeader(Be16At(frame, at + 2), Be16At(frame, at + 4), Be16At(frame, at + 6))
  }

  /** The wire form of a DNS header (section 4.1.1 of RFC 1035), all fields big-endian. */
  function EncodeDnsHeader(id: u16, h: DnsHeader, nscount: u16, arcount: u16): (b: seq<u8>)
    ensures |b| == DNS_HDR_LEN
  {
    [Hi(id), Lo(id), Hi(h.flags), Lo(h.flags), Hi(h.qdcount), Lo(h.qdcount),
     Hi(h.ancount), Lo(h.ancount), Hi(nscount), Lo(nscount), Hi(arcount), Lo(arcount)]
  }

  /** Reading an encoded header back, wherever it sits in a frame, gives the fields that were written. */
  lemma DnsHeaderRoundTrip(id: u16, h: DnsHeader, nscount: u16, arcount: u16, pre: seq<u8>, post: seq<u8>)
    ensures ReadDnsHeader(pre + EncodeDnsHeader(id, h, nscount, arcount) + post, |pre|) == h
  {
    var b := EncodeDnsHeader(id, h, nscount, arcount);
    var f := pre + b + post;
    assert f[|pre| + 2] == Hi(h.flags) && f[|pre| + 3] == Lo(h.flags);
    assert f[|pre| + 4] == Hi(h.qdcount) && f[|pre| + 5] == Lo(h.qdcount);
    assert f[|pre| + 6] == Hi(h.ancount) && f[|pre| + 7] == Lo(h.ancount);
  }

  /** The QR bit (bit 15 of the flags): the message is a response. */
  predicate IsResponse(flags: u16) { flags >= 0x8000 }

  /** The four-bit opcode, bits 14 to 11 of the flags. */
  function Opcode(flags: u16): (op: nat)
    ensures op < 16
  {
    (flags / Pow2(DNS_OPCODE_SHIFT)) % (DNS_OPCODE_MASK + 1)
  }

  /** A response carrying more answers than a reflected query would justify. */
  predicate AmpResponse(h: DnsHeader)
  {
    IsResponse(h.flags) && h.ancount > DNS_AMP_ANCOUNT_LIMIT
  }

  /** A query that is not a single standard question within the 512-byte limit of RFC 1035. */
  predicate NonstandardQuery(h: DnsHeader, payloadLen: u16)
  {
    !IsResponse(h.flags)
    && (h.qdcount != 1 || Opcode(h.flags) != DNS_OPCODE_QUERY || payloadLen > DNS_MAX_PKT_NON_EDNS)
  }

  /** The packet carries a whole DNS header at a usable payload offset. */
  predicate DnsReadable(p: Packet) { PayloadHas(p, DNS_HDR_LEN) }

  function DnsHeaderOf(p: Packet): (h: DnsHeader)
    requires DnsReadable(p)
  {
    ReadDnsHeader(p.frame, PayOff(p) as nat)
  }

  /** The outcome of every DNS drop: one blocked query, one protocol violation, one event. */
  function DnsDrop(p: Packet, now: u64, attack: u8, reason: u8): (o: Outcome)
    ensures o.verdict == Drop && o.bumps == [DnsQueriesBlocked, ProtoViolationDropped]
    ensures o.events == [DropEvent(p, now, attack, reason)]
  {
    Outcome(Drop, [DnsQueriesBlocked, ProtoViolationDropped], [DropEvent(p, now, attack, reason)])
  }

  /**
   * dns_validate. A payload too short for a DNS header passes uncounted.
   * In every mode a response with more than ten answers is dropped as
   * amplification; in mode 2 and above a query must also ask exactly one
   * question, use the standard opcode and fit in 512 bytes. A packet that
   * passes inspection counts one validated query.
   */
  function DnsValidate(p: Packet, mode: u32, codes: ExtCodes, now: u64): (o: Outcome)
    ensures !DnsReadable(p) ==> o == PassOutcome()
    ensures o.verdict == Drop <==>
      DnsReadable(p) && (AmpResponse(DnsHeaderOf(p)) || (mode >= 2 && NonstandardQuery(DnsHeaderOf(p), p.l4PayloadLen)))
    ensures DnsReadable(p) && AmpResponse(DnsHeaderOf(p)) ==>
      o == DnsDrop(p, now, ATTACK_DNS_AMP, DROP_DNS_AMP)
    ensures o.verdict == Drop && !AmpResponse(DnsHeaderOf(p)) ==>
      o == DnsDrop(p, now, codes.attackProtoViolation, codes.dropProtoInvalid)
    ensures DnsReadable(p) && o.verdict != Drop ==> o == Outcome(Pass, [DnsQueriesValidated], [])
  {
    if !PayloadUsable(p) || PayOff(p) as int + DNS_HDR_LEN > |p.frame| then PassOutcome()
    else
      var h := ReadDnsHeader(p.frame, PayOff(p) as nat);
      var response := h.flags / 0x8000 == 1;
      if response && h.ancount > DNS_AMP_ANCOUNT_LIMIT then DnsDrop(p, now, ATTACK_DNS_AMP, DROP_DNS_AMP)
      else if mode >= 2 && !response
        && (h.qdcount != 1 || (h.flags / 0x800) % 0x10 != DNS_OPCODE_QUERY || p.l4PayloadLen > DNS_MAX_PKT_NON_EDNS)
      then DnsDrop(p, now, codes.attackProtoViolation, codes.dropProtoInvalid)
      else Outcome(Pass, [DnsQueriesValidated], [])
  }

  /** Mode 1 drops only responses: no query is ever dropped below mode 2. */
  lemma DnsBasicModeKeepsQueries(p: Packet, mode: u32, codes: ExtCodes, now: u64)
    requires mode < 2
    requires DnsValidate(p, mode, codes, now).verdict == Drop
    ensures IsResponse(DnsHeaderOf(p).flags)
  {
  }

  /** Raising the mode only adds drops: what a lower mode drops, every higher one drops too. */
  lemma DnsStricterModeDropsMore(p: Packet, lo: u32, hi: u32, codes: ExtCodes, now: u64)
    requires lo <= hi
    requires DnsValidate(p, lo, codes, now).verdict == Drop
    ensures DnsValidate(p, hi, codes, now).verdict == Drop
  {
  }

  /**
   * A standard query (one question, opcode QUERY, at most 512 bytes) built
   * with EncodeDnsHeader passes in every mode and is counted as validated.
   */
  lemma {:induction false} StandardQueryPasses(p: Packet, id: u16, h: DnsHeader, nscount: u16, arcount: u16,
                                               post: seq<u8>, mode: u32, codes: ExtCodes, now: u64)
    requires PayloadUsable(p)
    requires p.frame == p.frame[..PayOff(p)] + EncodeDnsHeader(id, h, nscount, arcount) + post
    requires !IsResponse(h.flags) && h.qdcount == 1 && Opcode(h.flags) == DNS_OPCODE_QUERY
    requires p.l4PayloadLen <= DNS_MAX_PKT_NON_EDNS
    ensures DnsValidate(p, mode, codes, now) == Outcome(Pass, [DnsQueriesValidated], [])
  {
    var pre := p.frame[..PayOff(p)];
    DnsHeaderRoundTrip(id, h, nscount, arcount, pre, post);
    assert |pre| == PayOff(p) as int;
    assert DnsReadable(p);
    assert DnsHeaderOf(p) == h;
  }

  // ---- NTP ----

  /** The association mode: the low three bits of the first byte. */
  function NtpMode(b: u8): (m: u8)
    ensures m < 8
  {
    b % 8
  }

  /** The packet carries a whole NTP header at a usable payload offset. */
  predicate NtpReadable(p: Packet, env: Env) { PayloadHas(p, env.ntpHeaderLen) }

  function NtpModeOf(p: Packet, env: Env): (m: u8)
    requires NtpReadable(p, env)
  {
    NtpMode(p.frame[PayOff(p)])
  }

  /** The conntrack keys NTP consults: the packet's own direction and the reverse, as UDP. */
  function UdpKey(p: Packet): (k: ConntrackKey)
    ensures k == ForwardKey(p).(protocol := IPPROTO_UDP)
  {
    ConntrackKey(p.srcIp, p.dstIp, p.srcPort, p.dstPort, IPPROTO_UDP)
  }

  function UdpReverseKey(p: Packet): (k: ConntrackKey)
    ensures k == ReverseKey(p).(protocol := IPPROTO_UDP)
  {
    ConntrackKey(p.dstIp, p.srcIp, p.dstPort, p.srcPort, IPPROTO_UDP)
  }

  predicate EstablishedAt(ct: TrackTable, k: ConntrackKey)
  {
    k in ct && ct[k].state >= CT_STATE_ESTABLISHED
  }

  /** A control-mode request is allowed only on a flow established in either direction. */
  predicate ControlAllowed(p: Packet, ct: TrackTable)
  {
    EstablishedAt(ct, UdpKey(p)) || EstablishedAt(ct, UdpReverseKey(p))
  }

  /** The drop for modes 6 and 7: one monlist block, one protocol violation, one event. */
  function NtpAmpDrop(p: Packet, now: u64): (o: Outcome)
    ensures o.verdict == Drop && o.bumps == [NtpMonlistBlocked, ProtoViolationDropped]
    ensures o.events == [DropEvent(p, now, ATTACK_NTP_AMP, DROP_NTP_AMP)]
  {
    Outcome(Drop, [NtpMonlistBlocked, ProtoViolationDropped], [DropEvent(p, now, ATTACK_NTP_AMP, DROP_NTP_AMP)])
  }

  /**
   * ntp_validate. A payload too short for the NTP header passes. Mode 7
   * (private, monlist) is always dropped; mode 6 (control) is dropped
   * unless a UDP conntrack entry in either direction is established;
   * client and server packets shorter than NTP_MIN_LEN are dropped as
   * malformed. Nothing is counted on a pass.
   */
  function NtpValidate(p: Packet, ct: TrackTable, env: Env, now: u64): (o: Outcome)
    ensures o.verdict != Drop ==> o == PassOutcome()
    ensures o.verdict == Drop <==>
      NtpReadable(p, env)
      && (NtpModeOf(p, env) == NTP_MODE_PRIVATE
          || (NtpModeOf(p, env) == NTP_MODE_CONTROL && !ControlAllowed(p, ct))
          || (NtpModeOf(p, env) in {NTP_MODE_CLIENT, NTP_MODE_SERVER} && p.l4PayloadLen < env.ntpMinLen))
    ensures o.verdict == Drop && NtpModeOf(p, env) >= NTP_MODE_CONTROL ==> o == NtpAmpDrop(p, now)
    ensures o.verdict == Drop && NtpModeOf(p, env) < NTP_MODE_CONTROL ==>
      o == Outcome(Drop, [ProtoViolationDropped], [DropEvent(p, now, env.codes.attackProtoViolation, env.codes.dropProtoInvalid)])
  {
    if !PayloadUsable(p) || PayOff(p) as int + env.ntpHeaderLen > |p.frame| then PassOutcome()
    else
      var mode := p.frame[PayOff(p)] % 8;
      if mode == NTP_MODE_PRIVATE then NtpAmpDrop(p, now)
      else if mode == NTP_MODE_CONTROL
        && !(UdpKey(p) in ct && ct[UdpKey(p)].state >= CT_STATE_ESTABLISHED)
        && !(UdpReverseKey(p) in ct && ct[UdpReverseKey(p)].state >= CT_STATE_ESTABLISHED)
      then NtpAmpDrop(p, now)
      else if (mode == NTP_MODE_CLIENT || mode == NTP_MODE_SERVER) && p.l4PayloadLen < env.ntpMinLen then
        Outcome(Drop, [ProtoViolationDropped], [DropEvent(p, now, env.codes.attackProtoViolation, env.codes.dropProtoInvalid)])
      else PassOutcome()
  }

  /** Whether a control request is allowed does not depend on which end of the flow sent it. */
  lemma ControlAllowedEitherDirection(p: Packet, ct: TrackTable)
    ensures ControlAllowed(p, ct) <==> ControlAllowed(Reversed(p), ct)
  {
    assert UdpKey(Reversed(p)) == UdpReverseKey(p);
    assert UdpReverseKey(Reversed(p)) == UdpKey(p);
  }

  /** Only the low three bits of the first byte decide: the version and leap bits never matter. */
  lemma NtpIgnoresVersionBits(p: Packet, ct: TrackTable, env: Env, now: u64, b: u8)
    requires NtpReadable(p, env)
    requires NtpMode(b) == NtpModeOf(p, env)
    ensures NtpValidate(p.(frame := p.frame[PayOff(p) := b]), ct, env, now).verdict == NtpValidate(p, ct, env, now).verdict
  {
    var q := p.(frame := p.frame[PayOff(p) := b]);
    assert PayOff(q) == PayOff(p);
    assert NtpReadable(q, env);
    assert NtpModeOf(q, env) == NtpModeOf(p, env);
  }

  // ---- SSDP ----

  /** The payload opens with one of the two reflection signatures. */
  predicate SsdpReflection(p: Packet)
  {
    PayloadHas(p, 8)
    && (SpellsAt(p.frame, PayOff(p) as nat, "HTTP/1.1") || SpellsAt(p.frame, PayOff(p) as nat, "NOTIFY"))
  }

  /**
   * ssdp_validate. A payload of at least eight bytes that opens with
   * "HTTP/1.1" (a search response) or "NOTIFY" is dropped as reflection;
   * everything else, including anything shorter than eight bytes, passes.
   */
  function SsdpValidate(p: Packet, codes: ExtCodes, now: u64): (o: Outcome)
    ensures o.verdict == Drop <==> SsdpReflection(p)
    ensures o.verdict == Drop ==>
      o == Outcome(Drop, [SsdpAmpDropped, ProtoViolationDropped], [DropEvent(p, now, ATTACK_SSDP_AMP, codes.dropSsdpAmp)])
    ensures o.verdict != Drop ==> o == PassOutcome()
  {
    if !PayloadUsable(p) || PayOff(p) as int + 8 > |p.frame| then PassOutcome()
    else
      var at := PayOff(p) as nat;
      var b := p.frame;
      var isHttp := b[at] == 0x48 && b[at + 1] == 0x54 && b[at + 2] == 0x54 && b[at + 3] == 0x50
                    && b[at + 4] == 0x2F && b[at + 5] == 0x31 && b[at + 6] == 0x2E && b[at + 7] == 0x31;
      var isNotify := b[at] == 0x4E && b[at + 1] == 0x4F && b[at + 2] == 0x54 && b[at + 3] == 0x49
                      && b[at + 4] == 0x46 && b[at + 5] == 0x59;
      SignatureBytes(b, at);
      if isHttp || isNotify then
        Outcome(Drop, [SsdpAmpDropped, ProtoViolationDropped], [DropEvent(p, now, ATTACK_SSDP_AMP, codes.dropSsdpAmp)])
      else PassOutcome()
  }

  /** The two signatures, byte by byte. */
  lemma SignatureBytes(frame: seq<u8>, at: nat)
    requires at + 8 <= |frame|
    ensures SpellsAt(frame, at, "HTTP/1.1") <==>
      frame[at] == 0x48 && frame[at + 1] == 0x54 && frame[at + 2] == 0x54 && frame[at + 3] == 0x50
      && frame[at + 4] == 0x2F && frame[at + 5] == 0x31 && frame[at + 6] == 0x2E && frame[at + 7] == 0x31
    ensures SpellsAt(frame, at, "NOTIFY") <==>
      frame[at] == 0x4E && frame[at + 1] == 0x4F && frame[at + 2] == 0x54 && frame[at + 3] == 0x49
      && frame[at + 4] == 0x46 && frame[at + 5] == 0x59
  {
    var http := "HTTP/1.1";
    var notify := "NOTIFY";
    if SpellsAt(frame, at, http) {
      assert frame[at + 0] == http[0] as int && frame[at + 1] == http[1] as int && frame[at + 2] == http[2] as int;
      assert frame[at + 3] == http[3] as int && frame[at + 4] == http[4] as int && frame[at + 5] == http[5] as int;
      assert frame[at + 6] == http[6] as int && frame[at + 7] == http[7] as int;
    }
    if SpellsAt(frame, at, notify) {
      assert frame[at + 0] == notify[0] as int && frame[at + 1] == notify[1] as int && frame[at + 2] == notify[2] as int;
      assert frame[at + 3] == notify[3] as int && frame[at + 4] == notify[4] as int && frame[at + 5] == notify[5] as int;
    }
  }

  /** A "NOTIFY" that ends the frame before eight payload bytes is let through. */
  lemma ShortNotifyPasses(p: Packet, codes: ExtCodes, now: u64)
    requires PayloadUsable(p) && PayOff(p) as int + 6 == |p.frame|
    requires SpellsAt(p.frame, PayOff(p) as nat, "NOTIFY")
    ensures SsdpValidate(p, codes, now).verdict == Pass
  {
  }

  /** A search request ("M-SEARCH") is never mistaken for a reflected response. */
  lemma SearchRequestPasses(p: Packet, codes: ExtCodes, now: u64)
    requires SpellsAt(p.frame, PayOff(p) as nat, "M-SEARCH")
    ensures SsdpValidate(p, codes, now).verdict == Pass
  {
    var at := PayOff(p) as nat;
    assert p.frame[at + 0] == "M-SEARCH"[0] as int;
  }

  // ---- Memcached ----

  /** memcached_validate: every packet handed to it is dropped as amplification. */
  function MemcachedValidate(p: Packet, codes: ExtCodes, now: u64): (o: Outcome)
    ensures o.verdict == Drop && o.bumps == [MemcachedAmpDropped, ProtoViolationDropped]
    ensures o.events == [DropEvent(p, now, ATTACK_MEMCACHED_AMP, codes.dropMemcachedAmp)]
  {
    Outcome(Drop, [MemcachedAmpDropped, ProtoViolationDropped], [DropEvent(p, now, ATTACK_MEMCACHED_AMP, codes.dropMemcachedAmp)])
  }

  // ---- TCP state ----

  /**
   * The sequence window: `sn - expected`, as a wrapping 32-bit difference,
   * is not strictly between 2^30 and 2^32 - 2^30.
   */
  predicate SeqInWindow(sn: u32, expected: u32)
  {
    var diff := Sub32(sn, expected);
    !(diff > SEQ_HALF_WINDOW && diff < U32_LIMIT - SEQ_HALF_WINDOW)
  }

  /** `e` moved by `d` around the 32-bit circle. */
  function Shift(e: u32, d: int): (r: u32)
  {
    (e + d) % U32_LIMIT
  }

  /** The window is exactly the numbers at most 2^30 ahead of or behind `expected`, modulo 2^32. */
  lemma SeqWindowIsDistance(sn: u32, expected: u32)
    ensures SeqInWindow(sn, expected) <==>
      exists d :: -SEQ_HALF_WINDOW <= d <= SEQ_HALF_WINDOW && sn == Shift(expected, d)
  {
    var diff := Sub32(sn, expected);
    if SeqInWindow(sn, expected) {
      var d := if diff <= SEQ_HALF_WINDOW then diff else diff - U32_LIMIT;
      assert (expected + diff) % U32_LIMIT == sn;
      assert sn == Shift(expected, d);
    }
    if exists d :: -SEQ_HALF_WINDOW <= d <= SEQ_HALF_WINDOW && sn == Shift(expected, d) {
      var d :| -SEQ_HALF_WINDOW <= d <= SEQ_HALF_WINDOW && sn == Shift(expected, d);
      if d >= 0 {
        assert diff == d by { ShiftBack(expected, d, sn); }
      } else {
        assert diff == U32_LIMIT + d by { ShiftBack(expected, d, sn); }
      }
    }
  }

  /** Undoing a shift: the wrapping difference of `Shift(e, d)` and `e` is `d` modulo 2^32. */
  lemma ShiftBack(e: u32, d: int, s: u32)
    requires -U32_LIMIT < d < U32_LIMIT && s == Shift(e, d)
    ensures Sub32(s, e) == (if d >= 0 then d else U32_LIMIT + d)
  {
    var k := (e + d) / U32_LIMIT;
    assert e + d == k * U32_LIMIT + s;
    assert -1 <= k <= 1;
  }

  /** The window is symmetric: `a` is in `b`'s window exactly when `b` is in `a`'s. */
  lemma SeqWindowSymmetric(a: u32, b: u32)
    ensures SeqInWindow(a, b) <==> SeqInWindow(b, a)
  {
    if a >= b {
      assert Sub32(a, b) == a - b;
      assert a == b || Sub32(b, a) == U32_LIMIT - (a - b);
    } else {
      assert Sub32(b, a) == b - a;
      assert Sub32(a, b) == U32_LIMIT - (b - a);
    }
  }

  /** The flags a connection in `state` must not see; an unknown state admits everything. */
  predicate FlagViolation(state: u8, flags: bv8, timeWait: u8)
  {
    if state == CT_STATE_NEW then !IsPureSyn(flags)
    else if state == CT_STATE_SYN_SENT then
      flags & (TCP_FLAG_SYN | TCP_FLAG_ACK) != TCP_FLAG_SYN | TCP_FLAG_ACK && !HasFlag(flags, TCP_FLAG_RST)
    else if state == CT_STATE_SYN_RECV then
      (!HasFlag(flags, TCP_FLAG_ACK) && !HasFlag(flags, TCP_FLAG_RST))
      || (HasFlag(flags, TCP_FLAG_SYN) && !HasFlag(flags, TCP_FLAG_ACK))
    else if state == CT_STATE_ESTABLISHED then HasFlag(flags, TCP_FLAG_SYN) && !HasFlag(flags, TCP_FLAG_ACK)
    else if state == CT_STATE_FIN_WAIT then HasFlag(flags, TCP_FLAG_SYN)
    else if state == CT_STATE_CLOSED || state == timeWait then !HasFlag(flags, TCP_FLAG_RST)
    else false
  }

  /** A violation: forbidden flags, or a sequence number outside the window of an established flow. */
  predicate Violates(e: Tracked, p: Packet, timeWait: u8)
  {
    FlagViolation(e.state, p.tcpFlags, timeWait)
    || (e.state >= CT_STATE_ESTABLISHED && e.seqExpected != 0 && !SeqInWindow(p.tcpSeq, e.seqExpected))
  }

  /** The L4 offset as loaded into a `__u16`. */
  function L4Off(p: Packet): (r: u16)
    requires p.l4.Some?
    ensures p.l4.value < U16_LIMIT ==> r == p.l4.value
  {
    p.l4.value % U16_LIMIT
  }

  /** The packet reaches the state checks: enabled, TCP, with a whole TCP header at an offset of at most 1500. */
  predicate TcpInspected(p: Packet, cfg: Config)
  {
    && GetConfig(cfg, CFG_TCP_STATE_ENABLE) != 0
    && p.ipProto == IPPROTO_TCP
    && p.l4.Some? && p.l4.value != 0
    && L4Off(p) as int <= MAX_OFFSET && L4Off(p) as int + TCP_HDR_LEN <= |p.frame|
  }

  function TcpKey(p: Packet): (k: ConntrackKey)
    ensures k == ForwardKey(p).(protocol := IPPROTO_TCP)
  {
    ConntrackKey(p.srcIp, p.dstIp, p.srcPort, p.dstPort, IPPROTO_TCP)
  }

  /**
   * How many violations a flow may accumulate before it is dropped. Outside
   * strict mode (escalation below HIGH) it is three. In strict mode the
   * code as written allows one, while its own description promises a drop
   * on the first violation; `dropFirst` selects the limit of 0 that keeps
   * that promise.
   */
  function ViolationLimit(cfg: Config, dropFirst: bool): (n: u32)
    ensures GetConfig(cfg, CFG_ESCALATION_LEVEL) < ESCALATION_HIGH ==> n == TCP_VIOLATION_LIMIT
    ensures n <= TCP_VIOLATION_LIMIT
  {
    if GetConfig(cfg, CFG_ESCALATION_LEVEL) >= ESCALATION_HIGH then (if dropFirst then 0 else 1)
    else TCP_VIOLATION_LIMIT
  }

  function TcpStateDrop(p: Packet, codes: ExtCodes, now: u64): (o: Outcome)
    ensures o.verdict == Drop && o.bumps == [TcpStateViolations, ProtoViolationDropped, TcpStateDropped]
    ensures o.events == [DropEvent(p, now, codes.attackProtoViolation, codes.dropTcpState)]
  {
    Outcome(Drop, [TcpStateViolations, ProtoViolationDropped, TcpStateDropped],
            [DropEvent(p, now, codes.attackProtoViolation, codes.dropTcpState)])
  }

  /**
   * tcp_state_validate, with the strict-mode limit chosen by `dropFirst`.
   * Without a conntrack entry only a pure SYN or a RST passes. With one, a
   * violation increments the entry's counter and tcp_state_violations, and
   * drops once the counter exceeds the limit; a packet without a violation
   * passes and changes nothing.
   */
  function TcpCheck(p: Packet, cfg: Config, ct: TrackTable, env: Env, now: u64, dropFirst: bool): (r: Checked)
    ensures !TcpInspected(p, cfg) ==> r == Checked(PassOutcome(), ct)
    ensures TcpInspected(p, cfg) && TcpKey(p) !in ct ==>
      && r.table == ct
      && (r.outcome.verdict == Drop <==> !IsPureSyn(p.tcpFlags) && !HasFlag(p.tcpFlags, TCP_FLAG_RST))
    ensures TcpInspected(p, cfg) && TcpKey(p) in ct ==>
      var e := ct[TcpKey(p)];
      && (!Violates(e, p, env.timeWait) ==> r == Checked(PassOutcome(), ct))
      && (Violates(e, p, env.timeWait) ==>
            r.table == ct[TcpKey(p) := e.(violationCount := Add32(e.violationCount, 1))]
            && (r.outcome.verdict == Drop <==> Add32(e.violationCount, 1) > ViolationLimit(cfg, dropFirst)))
    ensures r.outcome.verdict == Drop ==> r.outcome == TcpStateDrop(p, env.codes, now)
    ensures r.outcome.verdict != Drop ==>
      r.outcome == (if TcpInspected(p, cfg) && TcpKey(p) in ct && Violates(ct[TcpKey(p)], p, env.timeWait)
                    then Outcome(Pass, [TcpStateViolations], []) else PassOutcome())
  {
    if GetConfig(cfg, CFG_TCP_STATE_ENABLE) == 0 || p.ipProto != IPPROTO_TCP || p.l4.None? || p.l4.value == 0 then
      Checked(PassOutcome(), ct)
    else if p.l4.value % U16_LIMIT > MAX_OFFSET || p.l4.value % U16_LIMIT + TCP_HDR_LEN > |p.frame| then
      Checked(PassOutcome(), ct)
    else
      var flags := p.tcpFlags;
      var key := TcpKey(p);
      if key !in ct then
        if flags & (TCP_FLAG_SYN | TCP_FLAG_ACK) == TCP_FLAG_SYN then Checked(PassOutcome(), ct)
        else if flags & TCP_FLAG_RST != 0 then Checked(PassOutcome(), ct)
        else Checked(TcpStateDrop(p, env.codes, now), ct)
      else
        var e := ct[key];
        var violation := FlagViolation(e.state, flags, env.timeWait)
          || (e.state >= CT_STATE_ESTABLISHED && e.seqExpected != 0 && !SeqInWindow(p.tcpSeq, e.seqExpected));
        if !violation then Checked(PassOutcome(), ct)
        else
          var e' := e.(violationCount := (e.violationCount + 1) % U32_LIMIT);
          if e'.violationCount > ViolationLimit(cfg, dropFirst) then Checked(TcpStateDrop(p, env.codes, now), ct[key := e'])
          else Checked(Outcome(Pass, [TcpStateViolations], []), ct[key := e'])
  }

  /** tcp_state_validate as written: strict mode tolerates one violation. */
  function TcpStateValidateAsWritten(p: Packet, cfg: Config, ct: TrackTable, env: Env, now: u64): (r: Checked)
    ensures r == TcpCheck(p, cfg, ct, env, now, false)
    ensures (TcpInspected(p, cfg) && TcpKey(p) in ct && Violates(ct[TcpKey(p)], p, env.timeWait)
             && ct[TcpKey(p)].violationCount == 0) ==> r.outcome.verdict == Pass
  {
    TcpCheck(p, cfg, ct, env, now, false)
  }

  /** tcp_state_validate with strict mode dropping on the first violation, as its description promises. */
  function TcpStateValidate(p: Packet, cfg: Config, ct: TrackTable, env: Env, now: u64): (r: Checked)
    ensures r == TcpCheck(p, cfg, ct, env, now, true)
    ensures (TcpInspected(p, cfg) && TcpKey(p) in ct && Violates(ct[TcpKey(p)], p, env.timeWait)
             && GetConfig(cfg, CFG_ESCALATION_LEVEL) >= ESCALATION_HIGH
             && ct[TcpKey(p)].violationCount < U32_LIMIT - 1) ==> r.outcome.verdict == Drop
  {
    TcpCheck(p, cfg, ct, env, now, true)
  }

  /** The verdicts of `n` copies of one packet checked in a row, each seeing the table the last one left. */
  function TcpRun(p: Packet, cfg: Config, ct: TrackTable, env: Env, now: u64, dropFirst: bool, n: nat): (vs: seq<Verdict>)
    ensures |vs| == n
    decreases n
  {
    if n == 0 then []
    else
      var first := TcpCheck(p, cfg, ct, env, now, dropFirst);
      [first.outcome.verdict] + TcpRun(p, cfg, first.table, env, now, dropFirst, n - 1)
  }

  /**
   * The tolerance window: when a flow's entry already holds `c` violations
   * and the same violating packet keeps arriving, the i-th of them (from 0)
   * is dropped exactly when c + i + 1 exceeds the limit. Violations are
   * never forgiven, so once one is dropped every later one is too.
   */
  lemma {:induction false} RepeatedViolations(p: Packet, cfg: Config, ct: TrackTable, env: Env, now: u64,
                                              dropFirst: bool, n: nat)
    requires TcpInspected(p, cfg) && TcpKey(p) in ct && Violates(ct[TcpKey(p)], p, env.timeWait)
    requires ct[TcpKey(p)].violationCount + n < U32_LIMIT
    ensures forall i :: 0 <= i < n ==>
      (TcpRun(p, cfg, ct, env, now, dropFirst, n)[i] == Drop <==>
         ct[TcpKey(p)].violationCount + i + 1 > ViolationLimit(cfg, dropFirst))
    decreases n
  {
    if n > 0 {
      var key := TcpKey(p);
      var e := ct[key];
      var first := TcpCheck(p, cfg, ct, env, now, dropFirst);
      var e' := e.(violationCount := e.violationCount + 1);
      assert first.table == ct[key := e'];
      assert Violates(e', p, env.timeWait);
      RepeatedViolations(p, cfg, first.table, env, now, dropFirst, n - 1);
      var run := TcpRun(p, cfg, ct, env, now, dropFirst, n);
      assert run == [first.outcome.verdict] + TcpRun(p, cfg, first.table, env, now, dropFirst, n - 1);
      forall i | 0 <= i < n
        ensures run[i] == Drop <==> e.violationCount + i + 1 > ViolationLimit(cfg, dropFirst)
      {
        if i > 0 {
          assert run[i] == TcpRun(p, cfg, first.table, env, now, dropFirst, n - 1)[i - 1];
        }
      }
    }
  }

  /** Outside strict mode a fresh flow gets three violations through and the fourth is dropped. */
  lemma ThreeViolationsTolerated(p: Packet, cfg: Config, ct: TrackTable, env: Env, now: u64, dropFirst: bool)
    requires TcpInspected(p, cfg) && TcpKey(p) in ct && Violates(ct[TcpKey(p)], p, env.timeWait)
    requires ct[TcpKey(p)].violationCount == 0 && GetConfig(cfg, CFG_ESCALATION_LEVEL) < ESCALATION_HIGH
    ensures TcpRun(p, cfg, ct, env, now, dropFirst, 4) == [Pass, Pass, Pass, Drop]
  {
    RepeatedViolations(p, cfg, ct, env, now, dropFirst, 4);
    var run := TcpRun(p, cfg, ct, env, now, dropFirst, 4);
    assert forall i :: 0 <= i < 4 ==> run[i] in {Pass, Drop} by {
      TcpRunVerdicts(p, cfg, ct, env, now, dropFirst, 4);
    }
  }

  /** Every verdict of a run is Pass or Drop. */
  lemma {:induction false} TcpRunVerdicts(p: Packet, cfg: Config, ct: TrackTable, env: Env, now: u64, dropFirst: bool, n: nat)
    ensures forall i :: 0 <= i < n ==> TcpRun(p, cfg, ct, env, now, dropFirst, n)[i] in {Pass, Drop}
    decreases n
  {
    if n > 0 {
      var first := TcpCheck(p, cfg, ct, env, now, dropFirst);
      TcpRunVerdicts(p, cfg, first.table, env, now, dropFirst, n - 1);
    }
  }

  /** As written, strict mode lets a flow's first violation through and drops the second. */
  lemma StrictModeToleratesFirstAsWritten(p: Packet, cfg: Config, ct: TrackTable, env: Env, now: u64)
    requires TcpInspected(p, cfg) && TcpKey(p) in ct && Violates(ct[TcpKey(p)], p, env.timeWait)
    requires ct[TcpKey(p)].violationCount == 0 && GetConfig(cfg, CFG_ESCALATION_LEVEL) >= ESCALATION_HIGH
    ensures TcpRun(p, cfg, ct, env, now, false, 2) == [Pass, Drop]
  {
    RepeatedViolations(p, cfg, ct, env, now, false, 2);
    TcpRunVerdicts(p, cfg, ct, env, now, false, 2);
  }

  /** With the corrected limit, strict mode drops a flow's first violation. */
  lemma StrictModeDropsFirstFixed(p: Packet, cfg: Config, ct: TrackTable, env: Env, now: u64)
    requires TcpInspected(p, cfg) && TcpKey(p) in ct && Violates(ct[TcpKey(p)], p, env.timeWait)
    requires ct[TcpKey(p)].violationCount == 0 && GetConfig(cfg, CFG_ESCALATION_LEVEL) >= ESCALATION_HIGH
    ensures TcpRun(p, cfg, ct, env, now, true, 2) == [Drop, Drop]
  {
    RepeatedViolations(p, cfg, ct, env, now, true, 2);
    TcpRunVerdicts(p, cfg, ct, env, now, true, 2);
  }

  // ---- Dispatch ----

  /** The validator a UDP packet is handed to. */
  datatype UdpValidator = DnsCheck | NtpCheck | SsdpCheck | MemcachedCheck | NoCheck

  /** The DNS validation mode, truncated to `__u32` as the dispatcher reads it. */
  function DnsMode(cfg: Config): (m: u32)
    ensures GetConfig(cfg, CFG_DNS_VALID_MODE) < U32_LIMIT ==> m == GetConfig(cfg, CFG_DNS_VALID_MODE)
  {
    GetConfig(cfg, CFG_DNS_VALID_MODE) % U32_LIMIT
  }

  /** The protocol flags registered for a port (0 when it is not in port_proto_map). */
  function PortFlags(ports: map<u16, u32>, port: u16): (f: u32)
    ensures port !in ports ==> f == 0
  {
    if port in ports then ports[port] else 0
  }

  predicate FlagBit(f: u32, k: nat) { (f / Pow2(k)) % 2 == 1 }

  /**
   * The dispatch on the destination port. The four well-known ports go to
   * their own validator (DNS only when its mode is nonzero); otherwise a
   * port registered in port_proto_map goes to the validator of the lowest
   * flag bit set, with DNS skipped when its mode is 0.
   */
  function UdpDispatch(port: u16, cfg: Config, ports: map<u16, u32>): (v: UdpValidator)
    ensures v == DnsCheck ==> DnsMode(cfg) > 0
    ensures port == PROTO_PORT_DNS && DnsMode(cfg) > 0 ==> v == DnsCheck
    ensures port == PROTO_PORT_NTP ==> v == NtpCheck
    ensures port == PROTO_PORT_SSDP ==> v == SsdpCheck
    ensures port == PROTO_PORT_MEMCACHED ==> v == MemcachedCheck
    ensures port !in {PROTO_PORT_DNS, PROTO_PORT_NTP, PROTO_PORT_SSDP, PROTO_PORT_MEMCACHED} ==>
      var f := PortFlags(ports, port);
      (v != NoCheck <==> (FlagBit(f, 0) && DnsMode(cfg) > 0) || FlagBit(f, 1) || FlagBit(f, 2) || FlagBit(f, 3))
  {
    var mode := DnsMode(cfg);
    if port == PROTO_PORT_DNS && mode > 0 then DnsCheck
    else if port == PROTO_PORT_NTP then NtpCheck
    else if port == PROTO_PORT_SSDP then SsdpCheck
    else if port == PROTO_PORT_MEMCACHED then MemcachedCheck
    else
      var f := PortFlags(ports, port);
      assert Pow2(0) == 1 && Pow2(1) == 2 && Pow2(2) == 4 && Pow2(3) == 8;
      if f == 0 then NoCheck
      else if f % 2 == 1 && mode > 0 then DnsCheck
      else if (f / 2) % 2 == 1 then NtpCheck
      else if (f / 4) % 2 == 1 then SsdpCheck
      else if (f / 8) % 2 == 1 then MemcachedCheck
      else NoCheck
  }

  /** Runs the chosen UDP validator. */
  function RunUdp(v: UdpValidator, p: Packet, cfg: Config, ct: TrackTable, env: Env, now: u64): (o: Outcome)
  {
    match v
    case DnsCheck => DnsValidate(p, DnsMode(cfg), env.codes, now)
    case NtpCheck => NtpValidate(p, ct, env, now)
    case SsdpCheck => SsdpValidate(p, env.codes, now)
    case MemcachedCheck => MemcachedValidate(p, env.codes, now)
    case NoCheck => PassOutcome()
  }

  /** The verdict, increments, events and table of proto_validate, before its stats_drop call. */
  function ProtoChecks(p: Packet, cfg: Config, ports: map<u16, u32>, ct: TrackTable, env: Env, now: u64): (c: Checked)
    ensures GetConfig(cfg, CFG_PROTO_VALID_ENABLE) == 0 ==> c == Checked(PassOutcome(), ct)
    ensures p.ipProto != IPPROTO_TCP ==> c.table == ct
    ensures GetConfig(cfg, CFG_PROTO_VALID_ENABLE) != 0 && p.ipProto == IPPROTO_TCP ==> c == TcpStateValidate(p, cfg, ct, env, now)
    ensures GetConfig(cfg, CFG_PROTO_VALID_ENABLE) != 0 && p.ipProto == IPPROTO_UDP ==>
      c.outcome == (if PayloadUsable(p) then RunUdp(UdpDispatch(p.dstPort, cfg, ports), p, cfg, ct, env, now) else PassOutcome())
    ensures p.ipProto !in {IPPROTO_TCP, IPPROTO_UDP} ==> c == Checked(PassOutcome(), ct)
    ensures c.outcome.verdict in {Pass, Drop}
    ensures c.outcome.verdict == Drop ==>
      ProtoViolationDropped in c.outcome.bumps && |c.outcome.events| == 1 && c.outcome.events[0].action == ACTION_DROP
  {
    if GetConfig(cfg, CFG_PROTO_VALID_ENABLE) == 0 then Checked(PassOutcome(), ct)
    else if p.ipProto == IPPROTO_TCP then TcpStateValidate(p, cfg, ct, env, now)
    else if p.ipProto == IPPROTO_UDP then
      if !PayloadUsable(p) then Checked(PassOutcome(), ct)
      else Checked(RunUdp(UdpDispatch(p.dstPort, cfg, ports), p, cfg, ct, env, now), ct)
    else Checked(PassOutcome(), ct)
  }

  /**
   * proto_validate. When enabled, TCP packets go through the state checks
   * (with the corrected strict-mode limit) and UDP packets with a usable
   * payload through the validator their destination port selects; every
   * other packet passes. Only the TCP checks write the connection table,
   * and every drop counts a protocol violation, calls stats_drop and emits
   * exactly one drop event.
   */
  function ProtoValidate(p: Packet, cfg: Config, ports: map<u16, u32>, ct: TrackTable, stats: Stats, env: Env,
                         now: u64): (r: Validated)
    ensures GetConfig(cfg, CFG_PROTO_VALID_ENABLE) == 0 ==> r == Validated(PassOutcome(), ct, stats)
    ensures p.ipProto != IPPROTO_TCP ==> r.table == ct
    ensures GetConfig(cfg, CFG_PROTO_VALID_ENABLE) != 0 && p.ipProto == IPPROTO_TCP ==>
      r.outcome == TcpStateValidate(p, cfg, ct, env, now).outcome && r.table == TcpStateValidate(p, cfg, ct, env, now).table
    ensures GetConfig(cfg, CFG_PROTO_VALID_ENABLE) != 0 && p.ipProto == IPPROTO_UDP ==>
      r.outcome == (if PayloadUsable(p) then RunUdp(UdpDispatch(p.dstPort, cfg, ports), p, cfg, ct, env, now) else PassOutcome())
    ensures p.ipProto !in {IPPROTO_TCP, IPPROTO_UDP} ==> r == Validated(PassOutcome(), ct, stats)
    ensures r.outcome.verdict in {Pass, Drop}
    ensures r.outcome.verdict == Drop ==>
      ProtoViolationDropped in r.outcome.bumps && |r.outcome.events| == 1 && r.outcome.events[0].action == ACTION_DROP
    ensures r.stats == if r.outcome.verdict == Drop then StatsDrop(stats, p.pktLen) else stats
  {
    var c := ProtoChecks(p, cfg, ports, ct, env, now);
    Validated(c.outcome, c.table, if c.outcome.verdict == Drop then StatsDrop(stats, p.pktLen) else stats)
  }

  /** Memcached's port is dropped whenever validation is on and the payload is usable, whatever the port map says. */
  lemma MemcachedPortAlwaysDropped(p: Packet, cfg: Config, ports: map<u16, u32>, ct: TrackTable, stats: Stats, env: Env,
                                   now: u64)
    requires GetConfig(cfg, CFG_PROTO_VALID_ENABLE) != 0 && p.ipProto == IPPROTO_UDP
    requires p.dstPort == PROTO_PORT_MEMCACHED && PayloadUsable(p)
    ensures ProtoValidate(p, cfg, ports, ct, stats, env, now).outcome.verdict == Drop
  {
  }
}
