/**
 * The control plane's mirror of the data plane's records (package bpf,
 * types.go): the event as it arrives from the ring buffer, the names it
 * prints for attack types and drop reasons, and the one-line rendering of
 * an event.
 */
module GoTypes {
  import opened Ints
  import opened Text
  import opened GoNet

  /**
   * bpf.Event: the 40-byte struct event as the reader decodes it. The four
   * address and port fields are marked __be32/__be16: they hold the
   * network-order bytes of the header, read as the host reads memory.
   */
  datatype GoEvent = GoEvent(
    timestampNs: u64,
    srcIp: u32,
    dstIp: u32,
    srcPort: u16,
    dstPort: u16,
    protocol: u8,
    attackType: u8,
    action: u8,
    dropReason: u8,
    ppsEstimate: u64,
    bpsEstimate: u64)

  // ---- Names ----

  /** The names of attack types 0 (none) to 10 (RST flood), in code order. */
  const ATTACK_NAMES: seq<string> := [
    "none", "syn_flood", "udp_flood", "icmp_flood", "ack_flood",
    "dns_amplification", "ntp_amplification", "ssdp_amplification",
    "memcached_amplification", "fragment", "rst_flood"]

  /** The names of drop reasons 1 (blacklist) to 11 (fingerprint), in code order. */
  const DROP_NAMES: seq<string> := [
    "blacklist", "rate_limit", "syn_flood", "udp_flood", "icmp_flood",
    "ack_invalid", "dns_amp", "ntp_amp", "fragment", "parse_error", "fingerprint"]

  /** What every code without a name prints as: unknown(<decimal code>). */
  function Unknown(n: u8): (s: string)
    ensures |s| >= 10 && s[..8] == "unknown(" && s[|s| - 1] == ')' && s[7] == '('
  {
    "unknown(" + Decimal(n) + ")"
  }

  /** No named code's name contains a parenthesis. */
  predicate Plain(s: string)
  {
    '(' !in s
  }

  /** AttackTypeName: the name of a known attack type, unknown(n) for any other code. */
  function AttackTypeName(t: u8): (s: string)
    ensures t < |ATTACK_NAMES| ==> s == ATTACK_NAMES[t] && Plain(s)
    ensures t >= |ATTACK_NAMES| ==> s == Unknown(t) && !Plain(s)
  {
    if t < |ATTACK_NAMES| then ATTACK_NAMES[t] else Unknown(t)
  }

  /** DropReasonName: the name of a known drop reason, unknown(n) for 0 and codes above 11. */
  function DropReasonName(r: u8): (s: string)
    ensures 1 <= r <= |DROP_NAMES| ==> s == DROP_NAMES[r - 1] && Plain(s)
    ensures (r == 0 || r > |DROP_NAMES|) ==> s == Unknown(r) && !Plain(s)
  {
    if 1 <= r <= |DROP_NAMES| then DROP_NAMES[r - 1] else Unknown(r)
  }

  /** Two codes with the same unknown(...) name are the same code. */
  lemma UnknownInjective(a: u8, b: u8)
    requires Unknown(a) == Unknown(b)
    ensures a == b
  {
    var sa := Unknown(a);
    var sb := Unknown(b);
    assert sa[8..|sa| - 1] == Decimal(a);
    assert sb[8..|sb| - 1] == Decimal(b);
    DecimalInjective(a, b);
  }

  /** Different attack types print differently, so a log line identifies the type. */
  lemma AttackTypeNameInjective(a: u8, b: u8)
    requires AttackTypeName(a) == AttackTypeName(b)
    ensures a == b
  {
    if a >= |ATTACK_NAMES| && b >= |ATTACK_NAMES| {
      UnknownInjective(a, b);
    }
  }

  /** Different drop reasons print differently, so a log line identifies the reason. */
  lemma DropReasonNameInjective(a: u8, b: u8)
    requires DropReasonName(a) == DropReasonName(b)
    ensures a == b
  {
    if (a == 0 || a > |DROP_NAMES|) && (b == 0 || b > |DROP_NAMES|) {
      UnknownInjective(a, b);
    }
  }

  // ---- FormatEvent ----

  /** The values FormatEvent prints, before they are spelled out. */
  datatype EventLine = EventLine(
    action: string,
    src: IP,
    srcPort: u16,
    dst: IP,
    dstPort: u16,
    protocol: u8,
    attackType: u8,
    dropReason: u8)

  /** DROP for action 1, PASS for every other action. */
  function ActionLabel(a: u8): (s: string)
    ensures s == "DROP" <==> a == 1
  {
    if a == 1 then "DROP" else "PASS"
  }

  /**
   * The UTF-8 encoding of a code point from U+0800 to U+FFFF: three bytes,
   * the first carrying the top four bits after 1110, the others six bits
   * each after 10.
   */
  function Utf8Three(cp: int): (b: string)
    requires 0x800 <= cp < 0x1_0000
    ensures |b| == 3
  {
    [(0xE0 + cp / 0x1000) as char, (0x80 + (cp / 0x40) % 0x40) as char, (0x80 + cp % 0x40) as char]
  }

  /** The arrow of the format string, U+2192, as the bytes Go's string literal holds. */
  const ARROW: string := Utf8Three(0x2192)

  /** The arrow is the three bytes E2 86 92. */
  lemma ArrowBytes()
    ensures ARROW == ['\U{E2}', '\U{86}', '\U{92}']
  {
  }

  /**
   * The line's text: "[ACTION] src:port → dst:port proto=P attack=A
   * reason=R", with dotted-quad addresses, decimal numbers, and the arrow
   * as its three UTF-8 bytes.
   */
  function RenderLine(l: EventLine): (s: string)
    requires |l.src| == 4 && |l.dst| == 4
    ensures |s| > |l.action| + 2 && s[..|l.action| + 2] == "[" + l.action + "]"
  {
    var s := "[" + l.action + "] " + DottedQuad(l.src) + ":" + Decimal(l.srcPort) + " " + ARROW + " "
      + DottedQuad(l.dst) + ":" + Decimal(l.dstPort)
      + " proto=" + Decimal(l.protocol) + " attack=" + Decimal(l.attackType) + " reason=" + Decimal(l.dropReason);
    assert s[..|l.action| + 2] == ("[" + l.action + "]" + " ")[..|l.action| + 2];
    s
  }

  /**
   * The values as FormatEvent picks them: the ports are byte-swapped from
   * network order, but the addresses are converted as if they were already
   * host-order numbers, so each is printed with the bytes it occupied in
   * the record in reverse order.
   */
  function EventLineAsWritten(e: GoEvent): (l: EventLine)
    ensures |l.src| == 4 && |l.dst| == 4
    ensures l.srcPort == Bswap16(e.srcPort) && l.dstPort == Bswap16(e.dstPort)
    ensures var b := NativeBytes(e.srcIp); l.src == [b[3], b[2], b[1], b[0]]
    ensures var b := NativeBytes(e.dstIp); l.dst == [b[3], b[2], b[1], b[0]]
  {
    EventLine(ActionLabel(e.action), U32BEToIP(e.srcIp), Bswap16(e.srcPort), U32BEToIP(e.dstIp), Bswap16(e.dstPort),
              e.protocol, e.attackType, e.dropReason)
  }

  /** FormatEvent as written: the line opens with the bracketed action. */
  function FormatEventAsWritten(e: GoEvent): (s: string)
    ensures |s| > 6 && s[..6] == "[" + ActionLabel(e.action) + "]"
  {
    RenderLine(EventLineAsWritten(e))
  }

  /**
   * The values with the addresses treated like the ports: byte-swapped out
   * of network order before they are spelled as dotted quads, so each is
   * printed with its bytes in the order they occupied in the record.
   */
  function EventLineFixed(e: GoEvent): (l: EventLine)
    ensures |l.src| == 4 && |l.dst| == 4
    ensures l.srcPort == Bswap16(e.srcPort) && l.dstPort == Bswap16(e.dstPort)
    ensures l.src == NativeBytes(e.srcIp) && l.dst == NativeBytes(e.dstIp)
  {
    NativeBytesIsSwapped(e.srcIp);
    NativeBytesIsSwapped(e.dstIp);
    EventLine(ActionLabel(e.action), U32BEToIP(Bswap32(e.srcIp)), Bswap16(e.srcPort), U32BEToIP(Bswap32(e.dstIp)),
              Bswap16(e.dstPort), e.protocol, e.attackType, e.dropReason)
  }

  /**
   * FormatEvent with the addresses swapped as the ports are. The line opens
   * with the bracketed action, and it differs from the as-written line only
   * when some address does not read the same with its bytes reversed.
   */
  function FormatEvent(e: GoEvent): (s: string)
    ensures |s| > 6 && s[..6] == "[" + ActionLabel(e.action) + "]"
    ensures Bswap32(e.srcIp) == e.srcIp && Bswap32(e.dstIp) == e.dstIp ==> s == FormatEventAsWritten(e)
  {
    RenderLine(EventLineFixed(e))
  }

  /**
   * The two renderings differ exactly in the addresses: each fixed
   * address is the as-written one with its bytes in reverse order.
   */
  lemma FixedReversesAddresses(e: GoEvent)
    ensures var w := EventLineAsWritten(e); var f := EventLineFixed(e);
      f.src == [w.src[3], w.src[2], w.src[1], w.src[0]]
      && f.dst == [w.dst[3], w.dst[2], w.dst[1], w.dst[0]]
      && f == w.(src := f.src, dst := f.dst)
  {
    Bswap32Bytes(e.srcIp);
    Bswap32Bytes(e.dstIp);
  }
}
