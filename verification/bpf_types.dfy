/**
 * The records and constants shared by the XDP scrubber's modules: verdicts,
 * attack and drop codes, configuration keys, conntrack states, the parsed
 * packet, the map values (token bucket, conntrack entry, SYN cookie seeds,
 * attack signature) and the per-CPU statistics record.
 *
 * Addresses and ports are held as the numeric big-endian value of their
 * header bytes (what `ntohl`/`ntohs` give), on the packet and in every map
 * key and value alike; the wire byte order only matters where bytes are
 * written out (the event record), and that is modelled where it happens.
 */
module BpfTypes {
  import opened Ints
  import opened Wrappers

  // ---- Verdicts returned by the modules ----

  datatype Verdict = Pass | Drop | Tx | Redirect

  /** The numeric value of a module verdict. */
  function VerdictCode(v: Verdict): (r: u8)
    ensures r <= 3
    ensures v == Pass <==> r == 0
    ensures v == Drop <==> r == 1
  {
    match v
    case Pass => 0
    case Drop => 1
    case Tx => 2
    case Redirect => 3
  }

  // ---- IP protocol numbers ----

  const IPPROTO_ICMP: u8 := 1
  const IPPROTO_TCP: u8 := 6
  const IPPROTO_UDP: u8 := 17

  // ---- Attack types carried in events ----

  const ATTACK_NONE: u8 := 0
  const ATTACK_SYN_FLOOD: u8 := 1
  const ATTACK_UDP_FLOOD: u8 := 2
  const ATTACK_ICMP_FLOOD: u8 := 3
  const ATTACK_ACK_FLOOD: u8 := 4
  const ATTACK_DNS_AMP: u8 := 5
  const ATTACK_NTP_AMP: u8 := 6
  const ATTACK_SSDP_AMP: u8 := 7
  const ATTACK_MEMCACHED_AMP: u8 := 8
  const ATTACK_FRAGMENT: u8 := 9
  const ATTACK_RST_FLOOD: u8 := 10

  // ---- Drop reasons carried in events ----

  const DROP_BLACKLIST: u8 := 1
  const DROP_RATE_LIMIT: u8 := 2
  const DROP_SYN_FLOOD: u8 := 3
  const DROP_UDP_FLOOD: u8 := 4
  const DROP_ICMP_FLOOD: u8 := 5
  const DROP_ACK_INVALID: u8 := 6
  const DROP_DNS_AMP: u8 := 7
  const DROP_NTP_AMP: u8 := 8
  const DROP_FRAGMENT: u8 := 9
  const DROP_PARSE_ERROR: u8 := 10
  const DROP_FINGERPRINT: u8 := 11

  /** Event `action` values. */
  const ACTION_PASS: u8 := 0
  const ACTION_DROP: u8 := 1

  // ---- Configuration map keys (keys 11 to 20 are fixed by the control plane) ----

  const CFG_ENABLED: u32 := 0
  const CFG_SYN_RATE_PPS: u32 := 1
  const CFG_UDP_RATE_PPS: u32 := 2
  const CFG_ICMP_RATE_PPS: u32 := 3
  const CFG_GLOBAL_PPS_LIMIT: u32 := 4
  const CFG_GLOBAL_BPS_LIMIT: u32 := 5
  const CFG_SYN_COOKIE_ENABLE: u32 := 6
  const CFG_CONNTRACK_ENABLE: u32 := 7
  const CFG_BASELINE_PPS: u32 := 8
  const CFG_BASELINE_BPS: u32 := 9
  const CFG_ATTACK_THRESHOLD: u32 := 10
  const CFG_GEOIP_ENABLE: u32 := 11
  const CFG_REPUTATION_ENABLE: u32 := 12
  const CFG_REPUTATION_THRESH: u32 := 13
  const CFG_PROTO_VALID_ENABLE: u32 := 14
  const CFG_PAYLOAD_MATCH_EN: u32 := 15
  const CFG_ESCALATION_LEVEL: u32 := 16
  const CFG_THREAT_INTEL_EN: u32 := 17
  const CFG_DNS_VALID_MODE: u32 := 18
  const CFG_TCP_STATE_ENABLE: u32 := 19
  const CFG_ADAPTIVE_RATE: u32 := 20
  const CFG_MAX: u32 := 64

  /** The configuration array map; a key never written reads as 0. */
  type Config = map<u32, u64>

  function GetConfig(cfg: Config, key: u32): (r: u64)
    ensures key !in cfg ==> r == 0
    ensures key in cfg ==> r == cfg[key]
  {
    if key in cfg then cfg[key] else 0
  }

  // ---- Escalation levels (shared with the control plane) ----

  const ESCALATION_LOW: u64 := 0
  const ESCALATION_MEDIUM: u64 := 1
  const ESCALATION_HIGH: u64 := 2
  const ESCALATION_CRITICAL: u64 := 3

  // ---- Conntrack states, ordered along the TCP handshake and teardown ----

  const CT_STATE_NEW: u8 := 0
  const CT_STATE_SYN_SENT: u8 := 1
  const CT_STATE_SYN_RECV: u8 := 2
  const CT_STATE_ESTABLISHED: u8 := 3
  const CT_STATE_FIN_WAIT: u8 := 4
  const CT_STATE_CLOSED: u8 := 5

  const CT_FLAG_SYN_COOKIE_VERIFIED: u8 := 1
  const CT_FLAG_WHITELISTED: u8 := 2
  const CT_FLAG_SUSPECT: u8 := 4

  // ---- TCP flag bits as extract_tcp_flags packs them ----

  const TCP_FLAG_FIN: bv8 := 0x01
  const TCP_FLAG_SYN: bv8 := 0x02
  const TCP_FLAG_RST: bv8 := 0x04
  const TCP_FLAG_PSH: bv8 := 0x08
  const TCP_FLAG_ACK: bv8 := 0x10
  const TCP_FLAG_URG: bv8 := 0x20
  const TCP_FLAG_ECE: bv8 := 0x40
  const TCP_FLAG_CWR: bv8 := 0x80

  predicate HasFlag(flags: bv8, f: bv8) { flags & f != 0 }

  /** SYN set and ACK clear: the first segment of a handshake. */
  predicate IsPureSyn(flags: bv8) { flags & (TCP_FLAG_SYN | TCP_FLAG_ACK) == TCP_FLAG_SYN }

  /** ACK set and SYN clear. */
  predicate IsAckNotSyn(flags: bv8) { flags & (TCP_FLAG_SYN | TCP_FLAG_ACK) == TCP_FLAG_ACK }

  // ---- The parsed packet (packet_ctx) ----

  /**
   * What parse_packet fills in. Offsets index `frame`; `iph` and `l4` are
   * the header pointers (None where the C leaves them NULL), `l4` being the
   * single pointer that the tcp/udp/icmp/l4_hdr union shares. `payload` is
   * the offset of the first L4 payload byte when one lies inside the frame.
   */
  datatype Packet = Packet(
    frame: seq<u8>,
    ethProto: u16,
    iph: Option<nat>,
    ipProto: u8,
    srcIp: u32,
    dstIp: u32,
    pktLen: u16,
    ttl: u8,
    isFragment: bool,
    l4: Option<nat>,
    srcPort: u16,
    dstPort: u16,
    tcpFlags: bv8,
    l4PayloadLen: u16,
    tcpSeq: u32,
    tcpAckSeq: u32,
    payloadHash4: u32,
    payload: Option<nat>)

  /** The zero-initialised record xdp_ddos_scrubber starts from. */
  function EmptyPacket(frame: seq<u8>): (p: Packet)
    ensures p.frame == frame && p.iph.None? && p.l4.None? && p.payload.None?
    ensures !p.isFragment && p.payloadHash4 == 0
  {
    Packet(frame, 0, None, 0, 0, 0, 0, 0, false, None, 0, 0, 0, 0, 0, 0, 0, None)
  }

  // ---- Map values ----

  /** A token bucket (struct rate_limiter). */
  datatype RateLimiter = RateLimiter(
    tokens: u64,
    lastRefillNs: u64,
    ratePps: u64,
    burstSize: u64,
    totalPackets: u64,
    droppedPackets: u64)

  datatype ConntrackKey = ConntrackKey(srcIp: u32, dstIp: u32, srcPort: u16, dstPort: u16, protocol: u8)

  datatype ConntrackEntry = ConntrackEntry(
    lastSeenNs: u64,
    packetsFwd: u32,
    packetsRev: u32,
    bytesFwd: u64,
    bytesRev: u64,
    state: u8,
    flags: u8)

  /** The conntrack LRU hash map; eviction is not modelled. */
  type ConntrackTable = map<ConntrackKey, ConntrackEntry>

  /** The conntrack key of a packet as sent, and of its reply direction. */
  function ForwardKey(p: Packet): (k: ConntrackKey)
    ensures k.srcIp == p.srcIp && k.dstIp == p.dstIp && k.srcPort == p.srcPort
    ensures k.dstPort == p.dstPort && k.protocol == p.ipProto
  {
    ConntrackKey(p.srcIp, p.dstIp, p.srcPort, p.dstPort, p.ipProto)
  }

  function ReverseKey(p: Packet): (k: ConntrackKey)
    ensures k.srcIp == p.dstIp && k.dstIp == p.srcIp && k.srcPort == p.dstPort
    ensures k.dstPort == p.srcPort && k.protocol == p.ipProto
  {
    ConntrackKey(p.dstIp, p.srcIp, p.dstPort, p.srcPort, p.ipProto)
  }

  /** The packet with its addresses and ports swapped: the same flow seen from the other end. */
  function Reversed(p: Packet): (q: Packet)
    ensures q.srcIp == p.dstIp && q.dstIp == p.srcIp && q.srcPort == p.dstPort && q.dstPort == p.srcPort
  {
    p.(srcIp := p.dstIp, dstIp := p.srcIp, srcPort := p.dstPort, dstPort := p.srcPort)
  }

  /**
   * The reverse key of a packet is the forward key of its reply, and the
   * other way round; two packets share a forward key exactly when they
   * have the same endpoints and protocol.
   */
  lemma ReplyKeys(p: Packet, q: Packet)
    ensures ForwardKey(Reversed(p)) == ReverseKey(p) && ReverseKey(Reversed(p)) == ForwardKey(p)
    ensures ForwardKey(p) == ForwardKey(q) <==>
      p.srcIp == q.srcIp && p.dstIp == q.dstIp && p.srcPort == q.srcPort && p.dstPort == q.dstPort
      && p.ipProto == q.ipProto
  {
  }

  /** The key of an LPM trie: a prefix length and an address. */
  datatype LpmKey = LpmKey(prefixLen: u32, addr: u32)

  /** An LPM trie as the data plane sees it: does some stored prefix cover the key? */
  type LpmTrie = LpmKey -> bool

  datatype SynCookieCtx = SynCookieCtx(seedCurrent: u32, seedPrevious: u32, seedUpdateNs: u64)

  /** An attack signature; zero-valued fields are wildcards. */
  datatype AttackSig = AttackSig(
    protocol: u8,
    flagsMask: bv8,
    flagsMatch: bv8,
    srcPortMin: u16,
    srcPortMax: u16,
    dstPortMin: u16,
    dstPortMax: u16,
    pktLenMin: u16,
    pktLenMax: u16,
    payloadHash: u32)

  // ---- Statistics ----

  /**
   * The counters of the per-CPU statistics record: the twenty declared in
   * struct global_stats and the fifteen more that the standalone modules
   * and the control plane's aggregation use.
   */
  datatype Counter =
    | RxPackets | RxBytes | TxPackets | TxBytes | DroppedPackets | DroppedBytes
    | SynFloodDropped | UdpFloodDropped | IcmpFloodDropped | AckFloodDropped
    | DnsAmpDropped | NtpAmpDropped | FragmentDropped | AclDropped | RateLimited
    | ConntrackNew | ConntrackEstablished
    | SynCookiesSent | SynCookiesValidated | SynCookiesFailed
    | GeoipDropped | ReputationDropped | ProtoViolationDropped | PayloadMatchDropped
    | TcpStateDropped | SsdpAmpDropped | MemcachedAmpDropped | ThreatIntelDropped
    | ReputationAutoBlocked | EscalationUpgrades | DnsQueriesValidated
    | DnsQueriesBlocked | NtpMonlistBlocked | TcpStateViolations | PortScanDetected

  /** A statistics record; a counter never written reads as 0. */
  type Stats = map<Counter, nat>

  function Count(s: Stats, c: Counter): (r: nat)
    ensures c !in s ==> r == 0
  {
    if c in s then s[c] else 0
  }

  /** Adds `d` to one counter. */
  function Add(s: Stats, c: Counter, d: nat): (r: Stats)
    ensures Count(r, c) == Count(s, c) + d
    ensures forall o :: o != c ==> Count(r, o) == Count(s, o)
  {
    s[c := Count(s, c) + d]
  }

  /** Applies a list of one-step increments, in order. */
  function ApplyBumps(s: Stats, bumps: seq<Counter>): (r: Stats)
    decreases |bumps|
  {
    if |bumps| == 0 then s else ApplyBumps(Add(s, bumps[0], 1), bumps[1..])
  }

  /** How many times `c` occurs in a list of increments. */
  function Occurrences(bumps: seq<Counter>, c: Counter): (n: nat)
    ensures n <= |bumps|
  {
    if |bumps| == 0 then 0
    else (if bumps[0] == c then 1 else 0) + Occurrences(bumps[1..], c)
  }

  /** Applying increments adds to each counter exactly its number of occurrences. */
  lemma {:induction false} ApplyBumpsCounts(s: Stats, bumps: seq<Counter>, c: Counter)
    ensures Count(ApplyBumps(s, bumps), c) == Count(s, c) + Occurrences(bumps, c)
    decreases |bumps|
  {
    if |bumps| > 0 {
      var s1 := Add(s, bumps[0], 1);
      ApplyBumpsCounts(s1, bumps[1..], c);
      assert Count(s1, c) == Count(s, c) + (if bumps[0] == c then 1 else 0);
    }
  }

  // ---- Events sent to the control plane ----

  /** An event record (struct event), fields in host order. */
  datatype Event = Event(
    timestampNs: u64,
    srcIp: u32,
    dstIp: u32,
    srcPort: u16,
    dstPort: u16,
    protocol: u8,
    attackType: u8,
    action: u8,
    dropReason: u8,
    ppsEstimate: u64,
    bpsEstimate: u64)

  /** emit_event: the packet's addresses, ports and protocol with the given codes. */
  function MakeEvent(p: Packet, now: u64, attackType: u8, action: u8, dropReason: u8, pps: u64, bps: u64): (e: Event)
    ensures e.srcIp == p.srcIp && e.dstIp == p.dstIp && e.srcPort == p.srcPort && e.dstPort == p.dstPort
    ensures e.protocol == p.ipProto && e.timestampNs == now
    ensures e.attackType == attackType && e.action == action && e.dropReason == dropReason
  {
    Event(now, p.srcIp, p.dstIp, p.srcPort, p.dstPort, p.ipProto, attackType, action, dropReason, pps, bps)
  }

  /** A drop event with zero rate estimates, the form every module emits. */
  function DropEvent(p: Packet, now: u64, attackType: u8, dropReason: u8): (e: Event)
    ensures e.action == ACTION_DROP && e.attackType == attackType && e.dropReason == dropReason
    ensures e.srcIp == p.srcIp && e.timestampNs == now
  {
    MakeEvent(p, now, attackType, ACTION_DROP, dropReason, 0, 0)
  }

  /**
   * Event codes that the standalone modules (protocol validation, GeoIP,
   * reputation, threat intelligence, payload matching) emit but that no
   * header in this model defines; they are taken as parameters.
   */
  datatype ExtCodes = ExtCodes(
    attackProtoViolation: u8,
    attackGeoipBlock: u8,
    attackReputation: u8,
    attackThreatIntel: u8,
    attackPayloadMatch: u8,
    dropProtoInvalid: u8,
    dropTcpState: u8,
    dropSsdpAmp: u8,
    dropMemcachedAmp: u8,
    dropGeoip: u8,
    dropReputation: u8,
    dropThreatIntel: u8,
    dropPayloadMatch: u8)

  // ---- What a module returns ----

  /** A module's verdict with the counters it incremented and the events it emitted. */
  datatype Outcome = Outcome(verdict: Verdict, bumps: seq<Counter>, events: seq<Event>)

  function PassOutcome(): (o: Outcome)
    ensures o.verdict == Pass && o.bumps == [] && o.events == []
  {
    Outcome(Pass, [], [])
  }
}
