# XDP DDoS scrubber — a Dafny model

This project models the core of an XDP/eBPF DDoS scrubber and of the pure
logic of its Go control plane, and proves properties of that model.

**Data plane (src/bpf).**
- The packet parser (Ethernet, up to two VLAN tags, IPv4, TCP/UDP/ICMP) works on frames given as byte sequences.
- The shared helpers are modelled: bounds check, min/max, one's-complement checksums, TCP flag extraction and the token bucket.
- Each detection module is a pure function. It returns a verdict, the statistics increments it makes (`Outcome.bumps`), the events it emits, and its updated map state. The standalone modules also take the global statistics and return them after their own `stats_drop` call; in `Scrubber.Scrub` that call is made by the composition, as xdp_main.c does.
- `Scrubber.Scrub` composes the stages in the order of `xdp_ddos_scrubber` (src/bpf/xdp_main.c):
  - acl, fragment, fingerprint, syn_flood, ack_flood, udp_flood, icmp_flood, the per-source and global rate limiters, then conntrack;
  - a SYN cookie reply goes out as XDP_TX.
- xdp_main.c does not include proto_validator.h, reputation.h, geoip.h, threat_intel.h or payload_match.h. These are modelled standalone, with the inputs they read as parameters.
- payload_match.h and threat_intel.h write per-source overrides into `adaptive_rate_map`. `rate_limit_check` never reads that map, so the overrides are modelled as a map the stage tightens and nothing else consumes.

**Control plane (src/control-plane/internal).**
- The escalation state machine.
- The reputation engine's poll, block, unblock and top-offender logic.
- The BGP client's blackhole and Flowspec bookkeeping.
- The threat-feed registry and its three feed parsers.
- The GeoIP CSV loader and policies.
- The map layer (configuration slots, CIDR-to-key conversion, statistics aggregation, SYN cookie seeds, conntrack flush).
- The 40-byte event decoder and its handler list.
- The event formatter.
- The configuration defaults and validation.
- The pure helpers of the HTTP API.

**Modelling conventions.**
- Integers are unbounded, with subset types `u8` … `u64` (module `Ints`). Wrap-around is written out where the source relies on it:
  - TCP sequence windows;
  - the cookie's `ack - 1`;
  - the checksum carries;
  - the token bucket arithmetic;
  - the counters summed by `ReadStats`;
  - the GeoIP statistics.
- Addresses and ports are held as the numeric value of their big-endian header bytes. Byte order is modelled where bytes cross between the planes:
  - the 40-byte event record (`EventsReader.WireImage`);
  - the LPM keys the control plane writes (`GoNet.KeyBytesAsWritten`). The Go code fills a key's address with the address's big-endian value in a host-order field, so the data plane receives it byte-swapped (see Findings). Everywhere else keys are handed over in the corrected form (`GoNet.KeyBytesFixed`), in which the data plane sees exactly the key the control plane built;
  - the reputation map's keys as poll reads them. The map iterator yields a stored address as the host-order value of its bytes (`GoNet.HostOrderKey`), so as written poll files and prints each source under its byte-swapped value (`ReputationEngine.PollEntryAsWritten`), while BlockIP and UnblockIP file it under its big-endian value. Poll's own auto-block /32 reaches the data plane intact, because the two swaps cancel (`GoNet.HostOrderKeyHandoff`). The corrected poll reads the key in network order (`ReputationEngine.PollEntry`), see Findings;
  - the port-protocol map's keys. hostToBE16 swaps the port, so its host-order bytes are the port's network-order bytes and the data plane finds the flags under the port itself (`GoPortMap.SetPortProtocolSeenByDataPlane`).
- LPM tries and hash maps the model only looks up are functions. Map writes from the control plane are Dafny maps, and whether a kernel map update succeeds is a `bool` input.
- The Go library parsers `net.ParseIP` and `net.ParseCIDR` are taken as given (the `NetLib` record of module `GoNet`), with only their documented shape assumed. `To4` and the big-endian conversions are concrete.
- The string helpers the control plane calls (`strings.TrimSpace`, `IndexAny`, `strconv.Atoi`, `%d`) are modelled in `Text`. `strings.ToUpper` is modelled on ASCII letters only.
- Constants used by the headers but defined in no source file are parameters: `Env` in ProtoValidator, `Weights` in reputation, `ExtCodes` for the attack and drop codes of the standalone modules. These are `NTP_MIN_LEN`, `REP_WEIGHT_*`, `PAYLOAD_PATTERN_MAX_LEN` and `CT_STATE_TIME_WAIT`. `struct port_scan_entry` is defined in no source file either: its fields (a u64 window start, a u32 count, and the bitmap of ports below 64, held as a set) are taken from how reputation.h uses them (`ReputationBpf.ScanEntry`). The size of `struct dns_header` is the constant `DNS_HDR_LEN` = 12, the fixed header of section 4.1.1 of RFC 1035.
- Configuration keys, GeoIP actions and escalation levels take the values fixed in types.go, geoip.go and escalation.go. NTP modes follow section 7.3 of RFC 5905.
- The Go `GlobalStats` record lacks fields that `ReadStats` sums. The statistics counter type covers both the declared fields and the extra ones.
- The escalation thresholds and metrics are floating point in Go and `real` here.
- Where Findings records a discrepancy, the code as written is a member of its own, and the compositions use the corrected half. That applies to conntrack creation, the SYN-ACK frame, the strict-mode TCP state limit, the CIDR-to-key conversion, prefix validation in the BGP client, the feed parser's key conversion, the withdraw_all audit count, the reputation poll's clock and key order, the event formatter's addresses and the LPM key handoff. For example, the code as written stores the first packet of a conntrack flow as NEW (`Conntrack.ConntrackUpdateAsWritten`), while `Scrubber.Scrub` uses `Conntrack.ConntrackUpdate`, which applies the creating SYN.

## Model

| member | source | states |
|---|---|---|
| Acl.AclCheck | src/bpf/modules/acl.h:18-42 | A whitelisted source passes even when it is also blacklisted; otherwise exactly the blacklisted sources are dropped, each with one acl_dropped increment and one DROP_BLACKLIST event; every other source passes with no effect |
| Fragment.OffsetBytes | src/bpf/modules/fragment.h:40-41 | The byte offset is a multiple of 8 and is zero exactly when the 13-bit offset field is zero |
| Fragment.FragmentCheck | src/bpf/modules/fragment.h:27-68 | Non-fragments and packets without an IPv4 header pass untouched; a fragment is dropped exactly when its offset is nonzero or MF is set, with one fragment_dropped increment and one DROP_FRAGMENT event, the same effects whether or not it is a tiny first fragment |
| Fragment.ParsedFragmentsDropped | src/bpf/modules/fragment.h:45-65 | Every frame the parser marks as a fragment is dropped by the fragment stage |
| Fragment.ParsedNonFragmentsPass | src/bpf/modules/fragment.h:30-31 | Every parsed frame not marked as a fragment passes the fragment stage untouched |
| Floods.AckFloodCheck | src/bpf/modules/ack_flood.h:23-80 | Only pure ACKs with conntrack on are examined; such a segment is dropped, with one ack_flood_dropped increment and one DROP_ACK_INVALID event and the table untouched, exactly when neither its forward nor its reverse flow is tracked; otherwise it passes and only the forward entry (if present) or else the reverse entry is touched, every other entry staying as it was |
| Floods.AckWithOtherFlagsPasses | src/bpf/modules/ack_flood.h:31-32 | An ACK that also carries PSH is never examined: it passes and the table is unchanged |
| Floods.FirstRule | src/bpf/modules/udp_flood.h:46-85 | The index returned is the first fixed amplification rule, in source order, that fires for the port and payload size; no earlier rule fires |
| Floods.UdpFloodCheck | src/bpf/modules/udp_flood.h:36-100 | A datagram is dropped exactly when it is an amplification response (some fixed port rule or the port map rule fires, each size bound strict); the rule whose port matches decides the counter, attack type and drop reason (DNS and NTP their own, SSDP, memcached and CHARGEN/CLDAP/SNMP udp_flood with their attack types), and a port-map hit with no fixed rule drops with udp_flood and the generic codes; everything else passes with no effect |
| Floods.AmpRulesDisjoint | src/bpf/modules/udp_flood.h:22-28 | The fixed rules cover pairwise disjoint source ports, so the order in which they are tried never changes the verdict |
| Floods.DnsAtThresholdPasses | src/bpf/modules/udp_flood.h:47 | A DNS reply of exactly 512 payload bytes passes: the bound is strict |
| Floods.UdpDropMonotoneInSize | src/bpf/modules/udp_flood.h:46-97 | Growing the payload of a dropped datagram never lets it through |
| Floods.IcmpFloodCheck | src/bpf/modules/icmp_flood.h:30-65 | An ICMP message whose header is in the frame is dropped exactly when header plus payload exceed 1024 bytes or its type is not echo reply, destination unreachable, echo request or time exceeded; a drop makes one icmp_flood_dropped increment and one DROP_ICMP_FLOOD event; everything else passes with no effect |
| Conntrack.TcpStateUpdate | src/bpf/modules/conntrack.h:29-70 | The TCP state never moves backwards and below ESTABLISHED moves at most one step; NEW advances exactly on a SYN, SYN_SENT exactly on a reply-direction SYN-ACK, SYN_RECV exactly on an original-direction ACK; RST closes ESTABLISHED and FIN_WAIT; CLOSED and beyond stay put |
| Conntrack.RunStatesMonotone | src/bpf/modules/conntrack.h:29-70 | Over any run of segments the state never goes backwards |
| Conntrack.EstablishedIffHandshake | src/bpf/modules/conntrack.h:14-15 | A flow tracked from NEW reaches ESTABLISHED (or later) exactly when its segments contain, in order, a SYN, a reply-direction SYN-ACK and an original-direction ACK |
| Conntrack.RunReachesEstablished | src/bpf/modules/conntrack.h:32-50 | From any state, a run reaches ESTABLISHED exactly when it holds the part of the handshake that state still lacks |
| Conntrack.TouchForward | src/bpf/modules/conntrack.h:95-97 | An original-direction hit stamps the time and adds one packet (32-bit wrap) and the length (64-bit wrap) to the forward counters; reverse counters, state and flags are unchanged |
| Conntrack.TouchReverse | src/bpf/modules/conntrack.h:117-119 | A reply-direction hit stamps the time and adds one packet and the length to the reverse counters; forward counters, state and flags are unchanged |
| Conntrack.NewEntry | src/bpf/modules/conntrack.h:136-144 | A new flow starts in NEW with no flags, one forward packet of the packet's length and nothing in reverse |
| Conntrack.Update | src/bpf/modules/conntrack.h:72-152 | Disabled, nothing changes; enabled, only the forward and reverse keys can change and afterwards one of them is present; a forward hit touches that entry (time, one more forward packet, its length in forward bytes) and steps a TCP state forward; else a reverse hit stamps the time, adds one packet and the length to the reverse counters, leaves the forward counters and flags, steps a TCP state in the reply direction and promotes a NEW UDP/ICMP entry to ESTABLISHED with one conntrack_established increment; else a new entry is inserted under the forward key with one conntrack_new increment |
| Conntrack.ConntrackUpdateAsWritten | src/bpf/modules/conntrack.h:135-151 | As written, only the forward and reverse entries can change, the only increment is conntrack_new or conntrack_established or none, and the entry created on a miss is NEW whatever flags the creating packet carries |
| Conntrack.CreateAsWritten | src/bpf/modules/conntrack.h:135-151 | As written, a new flow is NEW, stamped with the time, with one forward packet of the packet's length and no reverse packet |
| Conntrack.CreateFixed | src/bpf/modules/conntrack.h:135-151 | The corrected creation step starts a flow opened by a TCP SYN in SYN_SENT and creates every other flow exactly as written |
| Conntrack.ConntrackUpdate | src/bpf/modules/conntrack.h:72-152 | Corrected, only the forward and reverse entries can change and the increments are as written; a new flow opened by a TCP SYN starts in SYN_SENT, and on every packet that does not open a flow with a SYN the result is the as-written one |
| Conntrack.HandshakeStallsAsWritten | src/bpf/modules/conntrack.h:135-151 | As written, an ordinary SYN, SYN-ACK, ACK exchange leaves the client's flow in SYN_SENT, never ESTABLISHED |
| Conntrack.HandshakeEstablishesFixed | src/bpf/modules/conntrack.h:14-15 | With the creating SYN applied, the same exchange brings the flow to ESTABLISHED |
| BpfTypes.VerdictCode | src/bpf/common/types.h:16-20 | The four verdicts have distinct codes 0 to 3, PASS being 0 and DROP 1 |
| BpfTypes.ReplyKeys | src/bpf/modules/conntrack.h:81-112 | The reply-direction key of a packet is the flow key of its reply and the other way round, so a reply finds the entry its request created; two packets share a flow key exactly when their addresses, ports and protocol agree |
| BpfTypes.Add | src/bpf/common/types.h:145-169 | Incrementing one statistics counter changes that counter by the amount and no other |
| BpfTypes.ApplyBumpsCounts | src/bpf/common/types.h:145-169 | Applying a module's list of `counter++` increments adds to every counter exactly the number of times it occurs in the list |
| BpfHelpers.BoundsCheck | src/bpf/common/helpers.h:10-13 | A non-empty range passes exactly when every byte in it lies before the end of the packet; an empty range passes when its start is not past the end |
| BpfHelpers.MinU64 | src/bpf/common/helpers.h:17-20 | The result is one of the arguments and no larger than either |
| BpfHelpers.MaxU64 | src/bpf/common/helpers.h:22-25 | The result is one of the arguments and no smaller than either |
| BpfHelpers.MinU32 | src/bpf/common/helpers.h:27-30 | The result is one of the arguments and no larger than either |
| BpfHelpers.CsumFold | src/bpf/common/helpers.h:131-136 | After the two folds the sum fits in 16 bits and keeps its value modulo 0xffff; the result is its one's complement |
| BpfHelpers.FoldOnceKeepsResidue | src/bpf/common/helpers.h:133-134 | One end-around-carry fold keeps the value modulo 0xffff and brings any 32-bit value below 0x1fffe, and a value up to 0x1fffe into 16 bits |
| BpfHelpers.CsumAdd | src/bpf/common/helpers.h:138-142 | The sum with the carry wrapped back in equals the true sum modulo 0xffffffff, and is the plain sum when no carry occurs |
| BpfHelpers.CsumDiff4Updates | src/bpf/common/helpers.h:144-154 | If the old checksum is valid for data whose 16-bit words are some rest plus the two halves of the old word, the result is a valid checksum of the same data with the new word in its place (the incremental update of section 3 of RFC 1624) |
| BpfHelpers.ExtractTcpFlags | src/bpf/common/helpers.h:167-179 | Each of the eight header flag bits sets its own bit of the result and nothing else is set |
| BpfHelpers.ExtractTcpFlagsIsHeaderByte | src/bpf/common/helpers.h:158-179 | The flags built from the eight bit fields are exactly byte 13 of the TCP header |
| BpfHelpers.Refill | src/bpf/common/helpers.h:193-200 | The refill step leaves rate, burst and counters alone; with nothing earned the bucket is unchanged, otherwise the refill time becomes now and the tokens stay within the burst size |
| BpfHelpers.TokenBucketConsume | src/bpf/common/helpers.h:183-211 | A zero rate allows and changes nothing; otherwise the packet is counted and allowed exactly when the refilled bucket holds the tokens needed, which are then taken; a refused packet takes no tokens and is counted as dropped |
| BpfHelpers.RefillWithoutOverflow | src/bpf/common/helpers.h:193-200 | Without wrap-around the refill adds elapsed times rate over 10^9 tokens capped at the burst size, and moves the refill time only when a token was earned |
| BpfHelpers.ConsumeKeepsBurstBound | src/bpf/common/helpers.h:198 | A bucket within its burst size stays within it after any packet |
| BpfHelpers.BurstAllowsAtMostTokens | src/bpf/common/helpers.h:183-211 | Packets arriving in the nanosecond of the last refill are allowed at most as many times as the bucket held tokens |
| BpfHelpers.StatsRx | src/bpf/common/helpers.h:263-270 | One more packet and the length in bytes received; no other counter changes |
| BpfHelpers.StatsDrop | src/bpf/common/helpers.h:272-279 | One more packet and the length in bytes dropped; no other counter changes |
| BpfHelpers.StatsTx | src/bpf/common/helpers.h:281-288 | One more packet and the length in bytes transmitted; no other counter changes |
| Parser.SkipVlans | src/bpf/common/parser.h:44-57 | At most two tags of type 0x8100 or 0x88A8 are stepped over, four bytes each; the ethertype after the last skipped tag is read from the two bytes before the new offset, and a non-VLAN type (or no budget left) stops the loop where it is; a tag cut off by the end of the frame fails |
| Parser.WithPayload | src/bpf/common/parser.h:117-126 | The payload is set exactly when it starts inside the frame; the four-byte hash is read only when four bytes remain, and nothing else in the record changes |
| Parser.ParseL4 | src/bpf/common/parser.h:94-168 | The L4 part never changes the frame, the addresses, the protocol, the IP total length, the IPv4 header offset or the fragment flag, and a success records the L4 header offset it was given |
| Parser.ParsePacket | src/bpf/common/parser.h:17-92 | A frame shorter than an Ethernet header is rejected; an accepted frame has ethertype IPv4 after zero, one or two VLAN tags (so the IP header starts at 14, 18 or 22), an IHL of at least 5 whose header fits in the frame, the addresses, protocol and total length read from their header offsets, and is a fragment exactly when the offset is nonzero or MF is set |
| Parser.ParseIpv4 | src/bpf/common/parser.h:64-92 | An accepted IPv4 header fits, has IHL at least 5 and fits with its options; its fields are copied; the record is well formed for the modules that follow |
| Parser.Ipv4Record | src/bpf/common/parser.h:78-83 | The header offset, protocol and total length are recorded; frame, L4 offset, payload and hash are untouched |
| Parser.UntaggedIpv4 | src/bpf/common/parser.h:58-66 | Without a VLAN tag an IPv4 frame is parsed by the IPv4 part from offset 14 |
| Parser.ParsedThroughIpv4 | src/bpf/common/parser.h:44-66 | Every accepted frame, tagged or not, reached the IPv4 part with ethertype IPv4 at the offset where the tags end |
| Parser.Ipv4ToL4 | src/bpf/common/parser.h:85-96 | A first fragment or unfragmented packet whose header fits goes on to the L4 part, with the L4 length the total length minus the IP header, saturating at 0 |
| Parser.ParsedIsWellFormed | src/bpf/common/parser.h:17-171 | Every record the parser accepts satisfies the layout the modules rely on when they read header bytes |
| Parser.TruncatedIpv4Rejected | src/bpf/common/parser.h:65-67 | A frame with no room for a 20-byte IPv4 header after the Ethernet header is rejected |
| Parser.NonIpv4Rejected | src/bpf/common/parser.h:60-62 | Any ethertype other than IPv4 (IPv6 among them) is rejected |
| Parser.TripleTaggedRejected | src/bpf/common/parser.h:48-62 | A third VLAN tag is not stepped over, so a triple-tagged frame is rejected |
| Parser.ShortIhlRejected | src/bpf/common/parser.h:69-72 | An IHL below 5 words is rejected |
| Parser.NonFirstFragmentHasNoL4 | src/bpf/common/parser.h:85-92 | A non-first fragment is accepted with no payload and a zero L4 payload length |
| Parser.TcpLengths | src/bpf/common/parser.h:99-115 | A TCP data offset below 5 words is rejected; otherwise the payload length is the total length minus both headers, saturating at 0, and the flags and source port come from the TCP header |
| Parser.ParseL4Tcp | src/bpf/common/parser.h:99-127 | The same for the TCP branch of the L4 part, from any L4 offset |
| Parser.IcmpPseudoPorts | src/bpf/common/parser.h:151-161 | ICMP gets source port 0 and the ICMP type as its destination port, with the payload after the 8-byte header |
| Parser.OtherProtocolKeepsL4Length | src/bpf/common/parser.h:163-167 | A protocol other than TCP, UDP and ICMP is accepted with the whole L4 length as its payload length |
| SynFlood.IndexToMss | src/bpf/modules/syn_flood.h:30-38 | Only the low two bits of the index matter; index 3 names 1460, index 0 names 256, and every result is one of the four MSS values |
| SynFlood.MssToIndex | src/bpf/modules/syn_flood.h:22-28 | The index is the largest one whose MSS does not exceed the given MSS (0 when none does) |
| SynFlood.MssIndexRoundTrip | src/bpf/modules/syn_flood.h:22-38 | Encoding the MSS an index names gives back the index's low two bits |
| SynFlood.MssToIndexMonotone | src/bpf/modules/syn_flood.h:22-28 | A larger MSS never encodes to a smaller index |
| SynFlood.SeedKey | src/bpf/modules/syn_flood.h:46 | The SipHash key holds the 32-bit seed in both of its halves |
| SynFlood.CookieGenerate | src/bpf/modules/syn_flood.h:41-54 | The cookie's low two bits are the MSS index and its upper 30 bits are bits 2 to 31 of the keyed hash of the four-tuple |
| SynFlood.TruncateThenShift | src/bpf/modules/syn_flood.h:53 | Truncating the shifted hash to 32 bits and shifting it back left keeps exactly its low 30 bits, in place |
| SynFlood.CookieIndexLowBits | src/bpf/modules/syn_flood.h:53 | Only the two low bits of the MSS index reach the cookie |
| SynFlood.CookieValidate | src/bpf/modules/syn_flood.h:57-82 | Without the seed record nothing validates |
| SynFlood.ValidateAcceptsExactlyGenerated | src/bpf/modules/syn_flood.h:57-82 | An acknowledgement validates exactly when one less than it is the cookie generated for the same four-tuple under the current or the previous seed, with some MSS index |
| SynFlood.CookieRoundTrip | src/bpf/modules/syn_flood.h:67-79 | The ACK on the same four-tuple that acknowledges a cookie made under the current or the previous seed validates |
| SynFlood.SynAckFlagByte | src/bpf/modules/syn_flood.h:147-152 | The reply flags have SYN and ACK set and FIN, RST, PSH and URG clear, and keep the two high flag bits |
| SynFlood.Rewritten | src/bpf/modules/syn_flood.h:126-156 | The rewrite keeps the frame's length and changes it byte by byte as the reply requires |
| SynFlood.LeWordSum | src/bpf/modules/syn_flood.h:158-166 | The sum of n 16-bit words is at most n times 0xffff |
| SynFlood.BeSumIsScaledLeSum | src/bpf/modules/syn_flood.h:159-164 | Summing the words in host order instead of network order scales the sum by 256 modulo 0xffff, so the checksum test does not depend on the order (section 2 (B) of RFC 1071) |
| SynFlood.SumWithCheckField | src/bpf/modules/syn_flood.h:156-167 | Two headers that differ only in the checksum field, zero in the first, differ in their sum by the second's checksum word |
| SynFlood.SumAgrees | src/bpf/modules/syn_flood.h:159-166 | Headers that agree on the summed words have the same sum |
| SynFlood.StoreLe16 | src/bpf/modules/syn_flood.h:167 | The stored value reads back at its offset and no other byte changes |
| SynFlood.FillChecksum10 | src/bpf/modules/syn_flood.h:156-167 | Filling in the checksum changes nothing but the checksum field |
| SynFlood.FillChecksum | src/bpf/modules/syn_flood.h:156-167 | Filling in the checksum over any number of header words changes nothing but the checksum field |
| SynFlood.FillChecksumValid | src/bpf/modules/syn_flood.h:156-167 | A checksum filled in over a header's words makes those words pass the test of section 3.1 of RFC 791 |
| SynFlood.SynAckFrame10 | src/bpf/modules/syn_flood.h:155-167 | The reply as written passes the checksum test over its first 20 header bytes |
| SynFlood.SynAckFrame | src/bpf/modules/syn_flood.h:119-170 | The reply with the checksum over all IHL × 4 header bytes passes the checksum test over the whole header, options included |
| SynFlood.SynAckFramesAgreeWithoutOptions | src/bpf/modules/syn_flood.h:155-167 | Without IPv4 options the reply as written and the corrected reply are the same frame |
| SynFlood.OptionsBreakChecksum10 | src/bpf/modules/syn_flood.h:155-167 | With one option word whose halves do not sum to a multiple of 0xffff, the reply as written fails the checksum test over its whole header |
| SynFlood.RouterAlertBreaksChecksum10 | src/bpf/modules/syn_flood.h:155-167 | A header carrying the Router Alert option (0x9404 0x0000) gets a reply that fails the test as written and passes it when corrected |
| SynFlood.ReplyIsRewrite | src/bpf/modules/syn_flood.h:126-153 | Outside the checksum field the reply is the rewritten frame |
| SynFlood.SynAckEndpoints | src/bpf/modules/syn_flood.h:126-142 | The reply swaps the MAC addresses, the IPv4 addresses and the ports, so it goes back to the sender |
| SynFlood.SynAckSequence | src/bpf/modules/syn_flood.h:144-145 | The reply's sequence number is the cookie and it acknowledges the SYN's sequence number plus one, modulo 2^32 |
| SynFlood.SynAckHeaderFields | src/bpf/modules/syn_flood.h:136-153 | The reply carries SYN and ACK and none of FIN, RST, PSH and URG, keeps the protocol and the data offset, and has TTL 64 and window 65535 |
| SynFlood.CookieEntry | src/bpf/modules/syn_flood.h:200-208 | A cookie-verified entry is established, counts one forward packet of the packet's length and nothing in reverse, and is stamped now |
| SynFlood.ReplyCookie | src/bpf/modules/syn_flood.h:114-116 | The reply's cookie encodes MSS index 3, the default MSS of 1460 |
| SynFlood.SynFloodCheck | src/bpf/modules/syn_flood.h:91-229 | Non-TCP traffic or cookies switched off pass untouched; the reply is sent exactly for a pure SYN when the seed record exists, as the SYN-ACK frame with one cookies-sent count; a drop happens exactly for an ACK without SYN that has no entry and fails validation, with a failure count and a SYN-flood event; the only table change is an established cookie-verified entry for a validated ACK whose flow was not yet established |
| SynFlood.HandshakeCompletes | src/bpf/modules/syn_flood.h:91-215 | A SYN is answered, and the client's ACK for the reply's cookie passes and installs the cookie-verified entry, provided the seeds rotated at most once in between |
| Fingerprint.ParseL4HashAgrees | src/bpf/modules/fingerprint.h:28-46 | After the L4 part of parsing, the first-four-bytes value the module recomputes equals the one the parser stored |
| Fingerprint.Ipv4HashAgrees | src/bpf/modules/fingerprint.h:28-46 | The same after the IPv4 part of parsing |
| Fingerprint.PayloadHashAgreesWithParser | src/bpf/modules/fingerprint.h:28-46 | For every accepted frame the module's payload_hash_4bytes equals the parser's l4_payload_hash4 (parser.h:117-148) |
| Fingerprint.Examined | src/bpf/modules/fingerprint.h:52-58 | At most 64 slots are examined; a count up to 64 is taken as it is and a missing count examines nothing |
| Fingerprint.FingerprintCheck | src/bpf/modules/fingerprint.h:48-126 | A missing or zero count passes; otherwise the packet is dropped exactly when a signature in one of the first min(count, 64) slots matches it, every set field agreeing with the packet; a drop bumps acl_dropped once and emits one fingerprint drop event, and anything else is a plain pass |
| Fingerprint.SigPasses | src/bpf/modules/fingerprint.h:74-115 | The tests applied in order, each failing one skipping the signature, accept exactly the signatures that match the packet, with the payload hash computed lazily |
| Fingerprint.ZeroSignatureMatchesAll | src/bpf/modules/fingerprint.h:74-115 | A signature whose every field is zero matches every packet |
| Fingerprint.ProtocolZeroIsWildcard | src/bpf/modules/fingerprint.h:75-76 | Protocol 0 in a signature matches a packet of any protocol that otherwise matches |
| PayloadMatch.FirstFiring | src/bpf/modules/payload_match.h:56-123 | The result is the lowest index in range whose rule fires, or none when no rule in range fires |
| PayloadMatch.CompareMasked | src/bpf/modules/payload_match.h:97-119 | The byte loop reports a match exactly when every window byte agrees with the pattern under the mask |
| PayloadMatch.FindFiring | src/bpf/modules/payload_match.h:56-123 | The rule loop finds exactly the first firing rule below the limit, skipping missing rules, rules for another protocol or port, windows that do not fit and unknown actions |
| PayloadMatch.RuleLimit | src/bpf/modules/payload_match.h:52-54 | At most sixteen rules and never more than the active count are examined; a count up to sixteen is taken as it is |
| PayloadMatch.PayloadMatchCheck | src/bpf/modules/payload_match.h:35-182 | A switched-off module, a packet without payload or an empty rule set passes with nothing changed; the packet is dropped exactly when the first firing rule is a drop rule; anything else passes without drop counts; the rule keys stay, at most one rule changes, and when none does the packet passes plainly with the rates unchanged; a drop, and only a drop, calls stats_drop for the packet's length |
| PayloadMatch.CountHit | src/bpf/modules/payload_match.h:128-172 | The firing rule's hit count goes up by one, wrapping at 2^64, and no other rule changes |
| PayloadMatch.RuleAction | src/bpf/modules/payload_match.h:125-178 | A drop rule drops with one payload drop count and one drop event and leaves the rates; any other rule passes without counts; a rate-limit rule installs a quarter of the protocol's rate as the source's override when none is set, and other rules leave the rates; only the drop rule calls stats_drop, for the packet's length |
| PayloadMatch.FirstFiringDrops | src/bpf/modules/payload_match.h:56-135 | The first firing rule is a drop rule exactly when some firing drop rule has no firing rule before it |
| PayloadMatch.ZeroMaskMatchesAnything | src/bpf/modules/payload_match.h:115 | A rule whose mask is all zero bytes matches any window that fits |
| PayloadMatch.FullMaskIsExact | src/bpf/modules/payload_match.h:115 | With a mask of all 0xFF bytes a rule matches exactly the bytes of its pattern |
| ProtoValidator.PayOff | src/bpf/modules/proto_validator.h:65 | A packet without payload has offset 0, and an offset below 2^16 is loaded as it is |
| ProtoValidator.EncodeDnsHeader | src/bpf/modules/proto_validator.h:73-79 | The wire form of a DNS header is twelve bytes (section 4.1.1 of RFC 1035) |
| ProtoValidator.DnsHeaderRoundTrip | src/bpf/modules/proto_validator.h:73-79 | Reading an encoded DNS header back, wherever it lies in a frame, gives the flags and counts that were written |
| ProtoValidator.Opcode | src/bpf/modules/proto_validator.h:116 | The opcode is four bits wide |
| ProtoValidator.DnsDrop | src/bpf/modules/proto_validator.h:89-94 | Every DNS drop counts one blocked query and one protocol violation and emits one event with the given attack and reason |
| ProtoValidator.DnsValidate | src/bpf/modules/proto_validator.h:55-148 | A payload too short for a DNS header passes uncounted; the packet is dropped exactly when it is a response with more than ten answers, or (in mode 2 and above) a query without exactly one question, with a non-standard opcode or longer than 512 bytes; amplification drops carry the DNS amplification codes and the rest the protocol-invalid codes; every other readable packet passes counted as validated |
| ProtoValidator.DnsBasicModeKeepsQueries | src/bpf/modules/proto_validator.h:85-100 | Below mode 2 only responses are ever dropped |
| ProtoValidator.DnsStricterModeDropsMore | src/bpf/modules/proto_validator.h:99-141 | Whatever a lower mode drops, every higher mode drops too |
| ProtoValidator.StandardQueryPasses | src/bpf/modules/proto_validator.h:99-147 | A standard query (one question, opcode QUERY, at most 512 bytes) passes in every mode and is counted as validated |
| ProtoValidator.NtpMode | src/bpf/modules/proto_validator.h:178 | The mode is below 8 |
| ProtoValidator.UdpKey | src/bpf/modules/proto_validator.h:194-200 | The forward key of the flow, with protocol UDP |
| ProtoValidator.UdpReverseKey | src/bpf/modules/proto_validator.h:207-213 | The reverse key of the flow, with protocol UDP |
| ProtoValidator.NtpAmpDrop | src/bpf/modules/proto_validator.h:182-188 | An NTP amplification drop counts one monlist block and one protocol violation and emits one NTP amplification event |
| ProtoValidator.NtpValidate | src/bpf/modules/proto_validator.h:157-243 | The packet is dropped exactly when its NTP header is readable and its mode is 7, or 6 without an established UDP entry in either direction, or 3 or 4 with a payload shorter than the NTP minimum; modes 6 and 7 give the amplification drop, 3 and 4 the protocol-invalid drop, and nothing else is counted |
| ProtoValidator.ControlAllowedEitherDirection | src/bpf/modules/proto_validator.h:191-228 | Whether a control request is allowed does not depend on which end of the flow sent it |
| ProtoValidator.NtpIgnoresVersionBits | src/bpf/modules/proto_validator.h:177-178 | Only the low three bits of the first byte decide the verdict; the version and leap bits never do |
| ProtoValidator.SsdpValidate | src/bpf/modules/proto_validator.h:252-298 | The packet is dropped exactly when eight payload bytes are present and they open with "HTTP/1.1" or "NOTIFY", with one SSDP count, one protocol violation and one event; everything else passes uncounted |
| ProtoValidator.SignatureBytes | src/bpf/modules/proto_validator.h:272-285 | The two signatures are the byte values the code compares against |
| ProtoValidator.ShortNotifyPasses | src/bpf/modules/proto_validator.h:268-270 | A "NOTIFY" that ends the frame before eight payload bytes is let through |
| ProtoValidator.SearchRequestPasses | src/bpf/modules/proto_validator.h:278-297 | A search request ("M-SEARCH") is never taken for a reflected response |
| ProtoValidator.MemcachedValidate | src/bpf/modules/proto_validator.h:307-318 | Every packet handed to it is dropped with one memcached count, one protocol violation and one event |
| ProtoValidator.SeqWindowIsDistance | src/bpf/modules/proto_validator.h:446-459 | A sequence number is inside the window exactly when it is at most 2^30 ahead of or behind the expected one, modulo 2^32 |
| ProtoValidator.ShiftBack | src/bpf/modules/proto_validator.h:455 | The wrapping difference of a shifted number and its origin is the shift modulo 2^32 |
| ProtoValidator.SeqWindowSymmetric | src/bpf/modules/proto_validator.h:455-457 | a is in b's window exactly when b is in a's |
| ProtoValidator.L4Off | src/bpf/modules/proto_validator.h:351 | An L4 offset below 2^16 is loaded as it is |
| ProtoValidator.TcpKey | src/bpf/modules/proto_validator.h:364-370 | The forward key of the flow, with protocol TCP |
| ProtoValidator.ViolationLimit | src/bpf/modules/proto_validator.h:359-361 | Below escalation HIGH the limit is three, and it never exceeds three |
| ProtoValidator.TcpStateDrop | src/bpf/modules/proto_validator.h:385-392 | A TCP state drop counts one violation, one protocol violation and one TCP state drop, and emits one event |
| ProtoValidator.TcpCheck | src/bpf/modules/proto_validator.h:332-482 | Uninspected packets pass untouched; without an entry only a pure SYN or a RST passes and the table is kept; with one, a packet without violation passes untouched, and a violating packet increments the entry's counter (wrapping at 2^32) and is dropped exactly when the new count exceeds the limit; every drop is the TCP state drop; a tolerated violation passes with exactly one tcp_state_violations increment, and every other pass (no entry, no violation, not inspected) counts nothing |
| ProtoValidator.TcpStateValidateAsWritten | src/bpf/modules/proto_validator.h:359-361 | As written, strict mode lets a flow's first violation pass |
| ProtoValidator.TcpStateValidate | src/bpf/modules/proto_validator.h:329-330 | Corrected, strict mode drops a flow's first violation |
| ProtoValidator.TcpRun | src/bpf/modules/proto_validator.h:462-479 | A run of n copies of a packet yields n verdicts |
| ProtoValidator.RepeatedViolations | src/bpf/modules/proto_validator.h:462-479 | When the same violating packet keeps arriving at a flow holding c violations, the i-th is dropped exactly when c + i + 1 exceeds the limit: violations are never forgiven |
| ProtoValidator.ThreeViolationsTolerated | src/bpf/modules/proto_validator.h:39-40 | Outside strict mode a fresh flow gets three violations through and the fourth is dropped |
| ProtoValidator.TcpRunVerdicts | src/bpf/modules/proto_validator.h:332-482 | Every verdict of a run is pass or drop |
| ProtoValidator.StrictModeToleratesFirstAsWritten | src/bpf/modules/proto_validator.h:359-361 | As written, strict mode lets the first violation through and drops the second |
| ProtoValidator.StrictModeDropsFirstFixed | src/bpf/modules/proto_validator.h:329-330 | Corrected, strict mode drops the first violation and every later one |
| ProtoValidator.DnsMode | src/bpf/modules/proto_validator.h:532 | A mode below 2^32 is read as it is |
| ProtoValidator.PortFlags | src/bpf/modules/proto_validator.h:550-552 | An unregistered port has no flags |
| ProtoValidator.UdpDispatch | src/bpf/modules/proto_validator.h:530-567 | The four well-known ports go to their own validators (DNS only when its mode is nonzero); any other port goes to some validator exactly when its port-map flags have bit 1, 2 or 3 set, or bit 0 with a nonzero DNS mode |
| ProtoValidator.ProtoValidate | src/bpf/modules/proto_validator.h:494-571 | Switched off, everything passes untouched; TCP goes through the state checks, in their corrected strict-mode form (`ProtoValidator.TcpStateValidate`, see Findings); UDP with a usable payload goes to the validator its destination port selects; other protocols pass; only TCP writes the table; every drop comes from one validator, with a protocol-violation count, one drop event and one stats_drop call for the packet's length, and a pass leaves the statistics alone |
| ProtoValidator.MemcachedPortAlwaysDropped | src/bpf/modules/proto_validator.h:545-547 | Port 11211 is dropped whenever validation is on and the payload is usable, whatever the port map says |
| RateLimiter.RateKey | src/bpf/modules/rate_limiter.h:25-37 | TCP, UDP and ICMP, and only they, are limited, each by its own configuration key |
| RateLimiter.FreshBucket | src/bpf/modules/rate_limiter.h:49-56 | A new source starts with one second's worth of tokens, twice that as burst, stamped now, with zero counters |
| RateLimiter.Rerated | src/bpf/modules/rate_limiter.h:61-63 | Only the rate and the burst (twice the rate, wrapping at 2^64) change |
| RateLimiter.SourceRate | src/bpf/modules/rate_limiter.h:22-41 | A protocol that is not limited has rate 0 |
| RateLimiter.RateLimitCheck | src/bpf/modules/rate_limiter.h:18-74 | A zero rate passes untouched; no other source's bucket changes; a source without a bucket gets a fresh one and passes; otherwise its re-rated bucket is asked for one token and the packet passes exactly when it is granted; a drop counts rate_limited once and emits one rate-limit event |
| RateLimiter.SourceRun | src/bpf/modules/rate_limiter.h:18-74 | At most n of n packets pass |
| RateLimiter.SourceBurstBounded | src/bpf/modules/rate_limiter.h:61-66 | A source whose bucket was refilled at now gets at most as many simultaneous packets through as its bucket holds tokens |
| RateLimiter.FirstPacketPasses | src/bpf/modules/rate_limiter.h:47-59 | A new source's first packet always passes and leaves it a full bucket |
| RateLimiter.BpsRerated | src/bpf/modules/rate_limiter.h:112-113 | The byte bucket's rate is the bit limit over 8 and its burst twice that; tokens and refill time are kept |
| RateLimiter.GlobalRateCheck | src/bpf/modules/rate_limiter.h:80-123 | With both limits 0 everything passes untouched; a nonzero packet limit spends one token of the packet bucket and a refusal drops before the byte bucket is consulted; a nonzero bit limit then spends the packet's length in bytes, leaving the byte bucket as the token-bucket step at rate limit/8 leaves it; a drop counts rate_limited once and emits no event |
| RateLimiter.TinyBitLimitIsNoLimit | src/bpf/modules/rate_limiter.h:112-118 | A bit limit below 8 gives a byte rate of 0, which lets every packet through |
| RateLimiter.BaseRate | src/bpf/modules/payload_match.h:146-156 | TCP and UDP take their per-protocol rates, ICMP its own rate only where the module lists it, and everything else the global packet limit |
| RateLimiter.QuotientBelow | src/bpf/modules/payload_match.h:159 | Dividing never grows a number, and dividing by at least 2 shrinks any number from 2 up |
| RateLimiter.Stricter | src/bpf/modules/payload_match.h:159-161 | The stricter rate is positive, at most the base rate, and below it when the divisor is at least 2 and the base at least 2 |
| RateLimiter.Tighten | src/bpf/modules/payload_match.h:141-164 | A source with an override, or a zero base rate, leaves the overrides unchanged; otherwise exactly the source gains the stricter rate (BPF_NOEXIST) |
| ReputationBpf.MarkPort | src/bpf/modules/reputation.h:83-95 | The bitmap gains exactly the port's bit when the port is below 64 and is otherwise unchanged; the window and count are kept |
| ReputationBpf.FreshScan | src/bpf/modules/reputation.h:50-60 | A new window starts now with a count of one and only the port's bit set (none for ports from 64 up) |
| ReputationBpf.PortScanDetect | src/bpf/modules/reputation.h:40-109 | Only the source's entry changes; a first packet or one after the ten-second window opens a fresh window; within the window a port below 64 counts once however often it recurs while a higher port always counts; a penalty and one port-scan count come exactly when the count passes 20 within the window |
| ReputationBpf.HighCount | src/bpf/modules/reputation.h:96 | At most every packet is to a high port |
| ReputationBpf.LowPortsSnoc | src/bpf/modules/reputation.h:83-95 | One more packet adds its port to the low ports exactly when it is below 64 |
| ReputationBpf.ScanCountsDistinctPorts | src/bpf/modules/reputation.h:81-99 | Within one window a source's count is the number of distinct ports below 64 it touched plus the number of its packets to higher ports, and the bitmap holds exactly those low ports |
| ReputationBpf.ScanStep | src/bpf/modules/reputation.h:81-99 | One more packet in the same window extends that count by one when its port is new or high |
| ReputationBpf.MarkedBitmap | src/bpf/modules/reputation.h:83-95 | A bitmap that gained exactly the port's bit is the old one plus that port |
| ReputationBpf.LowPortsBound | src/bpf/modules/reputation.h:81-99 | The count never exceeds the number of packets |
| ReputationBpf.CapScore | src/bpf/modules/reputation.h:147-149 | A score is at most 1000 after capping, never raised, and unchanged when already at most 1000 |
| ReputationBpf.Penalize | src/bpf/modules/reputation.h:115-150 | With reputation off nothing changes; otherwise only the source's entry changes: a new source starts at the penalty with one violation, a known one has the penalty added (wrapping in 32 bits, then capped), one more violation and its last-seen time moved to now |
| ReputationBpf.PenalizeKeepsCap | src/bpf/modules/reputation.h:143-149 | A penalty no larger than the cap keeps every score capped and never lowers a capped score |
| ReputationBpf.Decay | src/bpf/modules/reputation.h:214-232 | Decay never raises a score; within a second nothing changes; otherwise the score drops by the tick per whole second elapsed (at most 60, the product in 32 bits), not below 0, and the decay time becomes now |
| ReputationBpf.DecayForgivesSmallScores | src/bpf/modules/reputation.h:218-229 | After two idle seconds a score of at most twice the tick is back to 0 |
| ReputationBpf.RepThreshold | src/bpf/modules/reputation.h:166-168 | An unset threshold is 500 and a set one below 2^32 is used as it is |
| ReputationBpf.Scored | src/bpf/modules/reputation.h:210-242 | Without a scan penalty the score does not rise; with one it stays within the cap; the blocked flag and drop count are untouched |
| ReputationBpf.RepDrop | src/bpf/modules/reputation.h:202-206 | A reputation drop carries the given counts and one reputation event and leaves the tables as given; stats_drop adds one dropped packet and the packet's length to the dropped bytes, every other counter unchanged |
| ReputationBpf.ReputationCheck | src/bpf/modules/reputation.h:158-259 | With reputation off nothing changes; otherwise only the source's entries change; a new source is entered and passes; the packet is dropped exactly when the known source was already blocked or its new score reaches the threshold, and a dropped source is marked blocked; an already blocked source is dropped with one reputation drop count, a newly blocked one with a drop and an auto-block count; a pass emits nothing; a drop, and only a drop, calls stats_drop for the packet's length |
| ReputationBpf.RepScore | src/bpf/modules/reputation.h:210-258 | For a tracked, unblocked source only its entries change and its record is the counted, decayed and penalised one; it is blocked, dropped with both reputation counts, counted by stats_drop and reported exactly when its score reaches the threshold, and passes with nothing emitted otherwise |
| ReputationBpf.BlockIsSticky | src/bpf/modules/reputation.h:196-208 | Once a source is dropped every later packet from it is dropped too |
| ReputationBpf.CheckKeepsCap | src/bpf/modules/reputation.h:158-259 | The check keeps every score at or below the cap |
| Geoip.PolicyFor | src/bpf/modules/geoip.h:38-71 | An action applies only when the source's /32 lookup finds a country with a policy, and it is that country's policy |
| Geoip.GeoDrop | src/bpf/modules/geoip.h:90-95 | A GeoIP drop counts one geoip_dropped and emits one GeoIP drop event, leaves the overrides as given, and stats_drop adds one dropped packet and the packet's length to the dropped bytes, every other counter unchanged |
| Geoip.GeoipCheck | src/bpf/modules/geoip.h:29-147 | Switched off, everything passes untouched; the packet is dropped exactly when its country's policy is drop, or at CRITICAL escalation when it has no country or no policy; anything else passes without counts; only a rate-limit policy changes the overrides, installing half the protocol's rate; only a monitor policy emits, one pass event; a drop, and only a drop, calls stats_drop for the packet's length |
| Geoip.GeoEscalationOnlyAddsDrops | src/bpf/modules/geoip.h:47-86 | Raising the escalation level never lets through a packet a lower level dropped |
| Geoip.GeoCriticalIsDefaultDeny | src/bpf/modules/geoip.h:47-95 | At CRITICAL escalation a packet passes exactly when its country has an explicit policy other than drop |
| ThreatIntel.ThresholdsAt | src/bpf/modules/threat_intel.h:63-76 | The rate-limit threshold is below the drop threshold; they are 80/50 below HIGH, 50/30 at HIGH and 30/10 from CRITICAL up |
| ThreatIntel.ThresholdsMonotone | src/bpf/modules/threat_intel.h:21-24 | Both thresholds only fall as escalation rises |
| ThreatIntel.ThreatIntelCheck | src/bpf/modules/threat_intel.h:37-139 | Switched off or unlisted, everything passes untouched; the packet is dropped exactly when it is listed for dropping with at least the drop confidence of the current level, with one threat_intel_dropped and one drop event; anything else passes without counts; only a rate-limit entry with enough confidence changes the overrides, installing a quarter of the protocol's rate; only a monitor entry emits, one pass event, whatever its confidence; a drop, and only a drop, calls stats_drop for the packet's length and leaves the overrides |
| ThreatIntel.ThreatEscalationOnlyAddsDrops | src/bpf/modules/threat_intel.h:58-91 | Raising the escalation level never lets through a source a lower level dropped |
| ThreatIntel.ThreatCriticalFloor | src/bpf/modules/threat_intel.h:66-91 | A drop-listed source with confidence 30 or more is dropped at CRITICAL, and below 30 it is never dropped |
| Scrubber.LateDrop | src/bpf/xdp_main.c:92-95 | A late stage's drop leaves the frame and the stage tables as they were, appends the stage's events, and counts the packet as dropped exactly once |
| Scrubber.Admit | src/bpf/xdp_main.c:125-130 | A surviving packet passes, conntrack is updated by the corrected update, Conntrack.ConntrackUpdate, and the packet is counted as transmitted once, with its length added to the transmitted bytes |
| Scrubber.ModuleThenTx | src/bpf/xdp_main.c:80-129 | A module's own increments followed by stats_tx count the packet as transmitted once and add its length to the transmitted bytes |
| Scrubber.AccountedIntro | src/bpf/common/helpers.h:272-288 | Receive count unchanged and exactly one of the transmit and drop counts raised by one is what accounting a packet means |
| Scrubber.ConntrackBumpsAreModuleBumps | src/bpf/modules/conntrack.h:72-152 | Conntrack increments only its own counters, never the traffic counters |
| Scrubber.RateStages | src/bpf/xdp_main.c:111-130 | The packet passes exactly when neither the per-source nor the global limit drops it, and is then admitted with both limiters' buckets updated; either way it is counted once |
| Scrubber.LateStages | src/bpf/xdp_main.c:90-130 | The packet passes exactly when the ACK, UDP amplification, ICMP, per-source and global stages all let it through, leaving conntrack as the corrected update Conntrack.ConntrackUpdate makes it after the ACK stage; either way it is counted once |
| Scrubber.Bounce | src/bpf/xdp_main.c:81-84 | The reply goes out as XDP_TX, is counted as transmitted once, and leaves the stage tables untouched |
| Scrubber.SynOnward | src/bpf/xdp_main.c:79-130 | The frame is bounced exactly when cookies apply to a pure SYN and the seed record exists, and then it is the SYN-ACK, built with the corrected header checksum SynFlood.SynAckFrame, carrying that SYN's cookie; any other outcome leaves the frame as it came; the packet is counted once |
| Scrubber.SynBumpsAreModuleBumps | src/bpf/modules/syn_flood.h:172-221 | The SYN stage increments only its own counters |
| Scrubber.SynOnwardPassRanEveryStage | src/bpf/xdp_main.c:79-130 | A packet passed from the SYN stage on was passed by the SYN stage and let through by every later stage, in order, and conntrack ends as the corrected update Conntrack.ConntrackUpdate makes it after the SYN and ACK stages' changes |
| Scrubber.Stages | src/bpf/xdp_main.c:64-77 | An ACL, fragment or fingerprint drop ends processing with one event, the stage tables and the traffic counters untouched; anything else goes on to the SYN stage |
| Scrubber.Received | src/bpf/xdp_main.c:61-130 | A parsed packet is counted as received once; an early drop raises neither the drop nor the transmit count, and any other outcome raises exactly one of them; only a SYN the cookie stage answers is bounced, as its SYN-ACK built with the corrected header checksum |
| Scrubber.ReceivedAccounting | src/bpf/xdp_main.c:61-130 | The same counter movements, stated on the stages after stats_rx |
| Scrubber.AccountedCounts | src/bpf/common/helpers.h:272-288 | An accounted packet leaves the receive count alone and raises the drop and transmit counts together by exactly one |
| Scrubber.Scrub | src/bpf/xdp_main.c:37-131 | Disabled, the frame passes and nothing is recorded; an unparsable frame is dropped, counted by stats_drop with length 0 and reported with one parse-error event; a parsed frame goes through the stages; only an answered SYN leaves rewritten, as the SYN-ACK with the corrected header checksum, and every other frame leaves as it came |
| Scrubber.ReceivedPacketsAccounted | src/bpf/xdp_main.c:53-130 | Every packet counted as received is counted once more, as transmitted or as dropped, except that an ACL, fragment or fingerprint drop is counted by its module's own counter only |
| Scrubber.BounceIsSynAck | src/bpf/xdp_main.c:79-84 | The one frame the scrubber sends back is the SYN-ACK, with the corrected header checksum, carrying the cookie for the SYN it answers |
| Scrubber.PassRanEveryStage | src/bpf/xdp_main.c:45-130 | A frame the enabled scrubber passes parsed, survived every stage in the pipeline's order, and left conntrack as the corrected update Conntrack.ConntrackUpdate makes it after the SYN and ACK stages' changes |
| GoNet.To4 | src/control-plane/internal/bpf/types.go:177-180 | An address has an IPv4 form exactly when it is 4 bytes long or an IPv4-mapped IPv6 address, and that form is its last four bytes |
| GoNet.IPToU32BE | src/control-plane/internal/bpf/types.go:176-182 | An address with no IPv4 form converts to 0 |
| GoNet.U32BEToIP | src/control-plane/internal/bpf/types.go:185-189 | The conversion always yields a 4-byte address |
| GoNet.IPToU32BEOfQuad | src/control-plane/internal/bpf/types.go:176-182 | The bytes a.b.c.d, bare or IPv4-mapped, read as the big-endian number a*2^24 + b*2^16 + c*2^8 + d |
| GoNet.U32BEToIPRoundTrip | src/control-plane/internal/bpf/types.go:176-189 | Spelling a 32-bit value as an address and reading it back gives the value |
| GoNet.IPToU32BERoundTrip | src/control-plane/internal/bpf/types.go:176-189 | Reading an IPv4-capable address as a number and spelling it back gives its IPv4 form |
| GoNet.Bswap32Bytes | src/control-plane/internal/bpf/types.go:193-196 | Swapping a 32-bit value reverses the order of its four address bytes |
| GoNet.Bswap32Involutive | src/control-plane/internal/bpf/types.go:193-196 | Swapping the bytes of a 32-bit value twice gives the value back |
| GoNet.NativeBytesIsSwapped | src/control-plane/internal/bpf/types.go:135-139 | A uint32 field marshalled in native order has the bytes of the byte-swapped value in network order |
| GoNet.NativeBytesReadBack | src/control-plane/internal/bpf/types.go:135-139 | The data plane reads a native-order prefix length back as the value written |
| GoNet.HostOrderKey | src/control-plane/internal/reputation/reputation.go:122-134 | The key the map iterator yields for a stored address is the uint32 whose host-order bytes are the address's network-order bytes |
| GoNet.NativeBytesInjective | src/control-plane/internal/reputation/reputation.go:122-134 | Only one uint32 has given host-order bytes, so that key is determined by the stored address |
| GoNet.HostOrderKeyHandoff | src/control-plane/internal/reputation/reputation.go:370-377 | A key read in host order and written back in a host-order Addr field reaches the data plane as the address it was read from |
| GoNet.KeyHandoffAsWritten | src/control-plane/internal/bpf/maps.go:248-257 | As written, the data plane receives the prefix length intact and the address byte-swapped |
| GoNet.KeyHandoffFixed | src/control-plane/internal/bpf/maps.go:248-257 | Corrected, with the address written in network order, the data plane receives exactly the control plane's key |
| GoNet.BlacklistTenSlashEightMissesTenDotOne | src/control-plane/internal/bpf/maps.go:248-257 | The key for 10.0.0.0/8 covers 10.0.0.1, the key the data plane receives as written does not, and the corrected one does |
| GoMaps.SetConfig | src/control-plane/internal/bpf/maps.go:26-31 | A key from CFG_MAX up is refused before the map is touched; otherwise, if the kernel accepts the update, that slot reads back as the value and every other slot and map stays as it was |
| GoMaps.ReadConfig | src/control-plane/internal/bpf/maps.go:34-40 | A lookup succeeds exactly for the CFG_MAX slots of the array map, and a slot never written reads as 0 |
| GoMaps.SetConfigThenRead | src/control-plane/internal/bpf/maps.go:26-40 | After a successful write, reading the key gives the written value and reading any other key gives what it gave before |
| GoMaps.SetAttackSignature | src/control-plane/internal/bpf/maps.go:100-105 | An index from 256 up is refused; otherwise, if the kernel accepts, that slot holds the signature and every other slot and map is unchanged |
| GoMaps.SetAttackSignatureCount | src/control-plane/internal/bpf/maps.go:108-111 | If the kernel accepts, the count slot holds the new count and nothing else changes |
| GoMaps.UpdateSynCookieSeeds | src/control-plane/internal/bpf/maps.go:116-124 | If the kernel accepts, the seed record at key 0 is (current, previous, update time) and nothing else changes |
| GoMaps.SeedRecord | src/control-plane/internal/bpf/maps.go:117-123 | A seed record is available exactly when key 0 has been written |
| GoMaps.RotationKeepsIssuedCookies | src/control-plane/internal/bpf/maps.go:116-124 | After a rotation that moves the current seed to previous, the ACK answering a cookie issued under the old current seed still validates |
| GoMaps.CidrToLpmKeyAsWritten | src/control-plane/internal/bpf/maps.go:240-259 | The conversion fails exactly when the string is neither a CIDR nor an address |
| GoMaps.CidrToLpmKey | src/control-plane/internal/bpf/maps.go:240-259 | The corrected conversion succeeds exactly for an IPv4 CIDR or an IPv4 address; the prefix length is at most 32; a CIDR gives its mask size and network address, and a bare address gives a /32 of itself |
| GoMaps.CidrKeyAgreesOnIPv4 | src/control-plane/internal/bpf/maps.go:240-259 | Wherever the corrected conversion gives a key, the written one gives the same key |
| GoMaps.CidrKeyDiffersOnlyOnIPv6 | src/control-plane/internal/bpf/maps.go:240-259 | The two conversions differ only on an IPv6 network or an IPv6 address with no IPv4 form |
| GoMaps.IPv6DefaultRouteCoversAllIPv4 | src/control-plane/internal/bpf/maps.go:254-258 | As written, "::/0" becomes the IPv4 key /0 at address 0, which covers every IPv4 source; the corrected conversion refuses it |
| GoMaps.AddBlacklistCidr | src/control-plane/internal/bpf/maps.go:45-55 | The update happens exactly when the string converts and the kernel accepts; then the key maps to the reason and nothing else changes |
| GoMaps.RemoveBlacklistCidr | src/control-plane/internal/bpf/maps.go:58-68 | The delete happens exactly when the string converts and the kernel accepts; then the key is gone and nothing else changes |
| GoMaps.AddRemoveBlacklist | src/control-plane/internal/bpf/maps.go:45-68 | Adding a prefix that was absent and then removing it restores the blacklist |
| GoMaps.AddWhitelistCidr | src/control-plane/internal/bpf/maps.go:71-82 | The update happens exactly when the string converts and the kernel accepts; then the key maps to 1 and nothing else changes |
| GoMaps.RemoveWhitelistCidr | src/control-plane/internal/bpf/maps.go:85-95 | The delete happens exactly when the string converts and the kernel accepts; then the key is gone and nothing else changes |
| GoMaps.AddRemoveWhitelist | src/control-plane/internal/bpf/maps.go:71-95 | Whitelisting a prefix and removing it again leaves the whitelist as it was, minus any earlier entry for that key |
| GoMaps.AddGreTunnel | src/control-plane/internal/bpf/maps.go:191-198 | On success only the prefix's tunnel entry changes; for an IPv4 endpoint, the stored value spells the endpoint's address back |
| GoMaps.ConntrackCount | src/control-plane/internal/bpf/maps.go:203-214 | The count is the number of tracked flows, and an error is reported exactly when the iteration fails |
| GoMaps.FlushConntrack | src/control-plane/internal/bpf/maps.go:217-236 | A failed iteration is an error that deletes nothing; otherwise only flows whose delete failed survive, unchanged, and no other map changes |
| GoMaps.FlushEmptiesTable | src/control-plane/internal/bpf/maps.go:203-236 | With every delete succeeding, the flush leaves the count at zero |
| GoMaps.HostToBE16 | src/control-plane/internal/bpf/maps.go:261-265 | Writing big-endian and reading little-endian swaps the two bytes of the port |
| GoMaps.HostToBE16Involutive | src/control-plane/internal/bpf/maps.go:261-265 | Converting a port twice gives it back |
| GoMaps.SetPortProtocol | src/control-plane/internal/bpf/maps.go:183-186 | The update succeeds exactly when the kernel accepts it; the flags are then stored under the byte-swapped port and nothing else changes |
| GoMaps.PortKeyHandoff | src/control-plane/internal/bpf/maps.go:183-186 | The swapped port, marshalled in host order, is read by the data plane's __be16 key as the port itself, and no other value is |
| GoPortMap.SeesPortsAfterWrite | src/control-plane/internal/bpf/maps.go:183-186 | Writing flags under the swapped port changes the data plane's port map exactly by setting the port itself to the flags |
| GoPortMap.SetPortProtocolSeenByDataPlane | src/bpf/modules/udp_flood.h:86-95 | After SetPortProtocol, the data plane's lookup of the datagram's source port finds the new flags, every other port as before, and the port-map rule fires exactly when the flags are nonzero and the payload exceeds 512 bytes |
| GoMaps.ReadStats | src/control-plane/internal/bpf/maps.go:129-178 | A failed lookup is an error; otherwise each counter is the 64-bit wrapping sum of that counter over all CPUs |
| GoTypes.Unknown | src/control-plane/internal/bpf/types.go:234 | An unknown code is spelled "unknown(" ... ")" |
| GoTypes.AttackTypeName | src/control-plane/internal/bpf/types.go:209-236 | Attack types 0 to 10 get their fixed names; every other value gets an "unknown(n)" text that no known name looks like |
| GoTypes.DropReasonName | src/control-plane/internal/bpf/types.go:239-266 | Drop reasons 1 to 11 get their fixed names; 0 and values above 11 get "unknown(n)" |
| GoTypes.UnknownInjective | src/control-plane/internal/bpf/types.go:234 | Different unknown codes are spelled differently |
| GoTypes.AttackTypeNameInjective | src/control-plane/internal/bpf/types.go:209-236 | No two attack types share a name |
| GoTypes.DropReasonNameInjective | src/control-plane/internal/bpf/types.go:239-266 | No two drop reasons share a name |
| GoTypes.ActionLabel | src/control-plane/internal/bpf/types.go:198-201 | The label is "DROP" exactly for action 1 |
| GoTypes.Utf8Three | src/control-plane/internal/bpf/types.go:203 | A code point from U+0800 to U+FFFF encodes to three bytes |
| GoTypes.ArrowBytes | src/control-plane/internal/bpf/types.go:203 | The arrow of the format string is the bytes E2 86 92 |
| GoTypes.RenderLine | src/control-plane/internal/bpf/types.go:203-205 | The line starts with the action label in square brackets; the arrow in it is the three UTF-8 bytes of U+2192, as in Go's string literal |
| GoTypes.EventLineAsWritten | src/control-plane/internal/bpf/types.go:192-206 | As written, the printed ports are the byte-swapped event ports and each printed address is the reverse of the bytes the data plane wrote for it |
| GoTypes.EventLineFixed | src/control-plane/internal/bpf/types.go:192-206 | Corrected, the printed ports are the byte-swapped event ports and each printed address is exactly the bytes the data plane wrote for it |
| GoTypes.FixedReversesAddresses | src/control-plane/internal/bpf/types.go:193-196 | The two renderings differ only in the addresses, each fixed address being the written one with its bytes reversed |
| GoTypes.FormatEventAsWritten | src/control-plane/internal/bpf/types.go:192-206 | As written, the line opens with the action label in square brackets |
| GoTypes.FormatEvent | src/control-plane/internal/bpf/types.go:192-206 | Corrected, the line opens with the action label in square brackets, and equals the as-written line whenever byte-swapping leaves both addresses unchanged |
| EventsReader.ParseEvent | src/control-plane/internal/events/reader.go:90-110 | A record shorter than 40 bytes is an error; otherwise every field, the two ports at offsets 16 and 18 included, is read little-endian at its offset in struct event |
| EventsReader.EncodeEvent | src/bpf/common/types.h:178-190 | An event's encoding is 40 bytes long |
| EventsReader.ParseEncode | src/control-plane/internal/events/reader.go:90-110 | Decoding an encoded event, followed by any bytes, gives the event back |
| EventsReader.ZeroRecordDecodesToZero | src/control-plane/internal/events/reader.go:90-110 | Forty zero bytes, followed by anything, decode to the all-zero event |
| EventsReader.WireImage | src/bpf/common/helpers.h:227-252 | The record emit_event writes is 40 bytes long |
| EventsReader.WireIsEncoding | src/bpf/common/helpers.h:227-252 | On a little-endian host, a data-plane record is the encoding of the event with its addresses and ports byte-swapped |
| EventsReader.DecodeDataPlaneEvent | src/control-plane/internal/events/reader.go:90-110 | The reader decodes every data-plane record, and gets the byte-swapped form of its addresses and ports |
| EventsReader.EmittedEventDecodes | src/bpf/common/helpers.h:227-253 | The record emit_event writes for a packet decodes, and swapping the decoded addresses and ports back gives the packet's addresses and ports, with the protocol, timestamp and codes as emitted |
| EventsReader.DropEventDecodes | src/bpf/common/helpers.h:227-253 | A module's drop event reaches the reader as a DROP with zero rate estimates, the given attack type and reason, and the packet's source once swapped back |
| EventsReader.PrintedEndpoints | src/control-plane/internal/bpf/types.go:192-206 | With the addresses fixed, printing a decoded record shows every address and port as it stood in the packet; as written, the ports are right but each address is printed with its bytes reversed |
| EventsReader.TenZeroZeroOnePrintsReversed | src/control-plane/internal/bpf/types.go:193-194 | A drop of a packet from 10.0.0.1 is printed, as written, as coming from 1.0.0.10 |
| EventsReader.OnEvent | src/control-plane/internal/events/reader.go:37-41 | Registering keeps the earlier handlers in order and puts the new one last |
| EventsReader.Dispatch | src/control-plane/internal/events/reader.go:80-88 | Each registered handler is called once, in registration order, with the same event |
| EventsReader.DispatchAfterOnEvent | src/control-plane/internal/events/reader.go:37-88 | After a registration, dispatch makes the same calls as before and then one more, to the new handler |
| EventsReader.Run | src/control-plane/internal/events/reader.go:59-77 | The loop calls every handler once for each record, read before the reader closes, that is long enough to decode |
| EventsReader.Delivered | src/control-plane/internal/events/reader.go:59-77 | No more records are delivered than were read |
| EventsReader.RunStopsAtClose | src/control-plane/internal/events/reader.go:60-65 | Nothing read after the reader closes is dispatched |
| Escalation.LevelName | src/control-plane/internal/escalation/escalation.go:35-48 | The four levels have plain names; any other value is named UNKNOWN(n) |
| Escalation.LevelNameInjective | src/control-plane/internal/escalation/escalation.go:35-48 | Different level values never share a name |
| Escalation.HysteresisGap | src/control-plane/internal/escalation/escalation.go:67-87 | For every level, the drop-ratio and z-score bounds for falling back to it lie strictly below the ones for rising above it |
| Escalation.HighestTriggered | src/control-plane/internal/escalation/escalation.go:157-199 | The result is the highest level from the start up to CRITICAL at which some trigger fires, or none when no such level fires |
| Escalation.HighestFiring | src/control-plane/internal/escalation/escalation.go:157-199 | The result is the highest level at which one given trigger fires, or none |
| Escalation.InitialTriggers | src/control-plane/internal/escalation/escalation.go:148-153 | Each evaluation starts from the four triggers in list order, none active and each with threshold 0 |
| Escalation.SetTriggerActive | src/control-plane/internal/escalation/escalation.go:372-379 | Only the trigger of the given kind changes; it becomes active with the new threshold |
| Escalation.ScanStep | src/control-plane/internal/escalation/escalation.go:163-198 | One level of the upward loop makes it the candidate exactly when some trigger fires there, and marks exactly the triggers that fire there with that level's threshold |
| Escalation.MarkedStep | src/control-plane/internal/escalation/escalation.go:157-199 | Marking from the next level on, after one level's step, is the same as marking from that level on |
| Escalation.ScanUp | src/control-plane/internal/escalation/escalation.go:156-199 | The upward loop ends with the highest triggered level as candidate, and each trigger marked with the threshold of the highest level at which it fired |
| Escalation.NewEngine | src/control-plane/internal/escalation/escalation.go:110-117 | A new engine is at LOW with no history and satisfies the engine invariant |
| Escalation.AppendHistory | src/control-plane/internal/escalation/escalation.go:364-370 | The new event is last and at most the bound is kept; below the bound the event is simply appended, and otherwise the oldest events go |
| Escalation.PushLevel | src/control-plane/internal/escalation/escalation.go:351-362 | A successful push sets config key 16 to the level; no other key ever changes, and a failed push changes nothing |
| Escalation.ActiveTriggers | src/control-plane/internal/escalation/escalation.go:381-392 | The escalation reason lists exactly the active triggers |
| Escalation.NextStep | src/control-plane/internal/escalation/escalation.go:155-272 | The level rises exactly when a higher level triggers, and then straight to the highest triggered one with the streak reset; it falls only by one, only after three consecutive calm evaluations; at LOW with nothing triggered, nothing changes; the result keeps the engine invariant |
| Escalation.Advance | src/control-plane/internal/escalation/escalation.go:141-273 | One evaluation keeps the invariant, follows the rule NextStep states, and appends one history event, from the old level to the new, exactly when the level changes |
| Escalation.Evaluate | src/control-plane/internal/escalation/escalation.go:141-273 | History, the pushed config key and the callbacks change only when the level does; then one event is appended, the new level is pushed, and the CRITICAL or de-escalation callback starts if it is registered |
| Escalation.Decide | src/control-plane/internal/escalation/escalation.go:201-272 | The decision taken on the loop's candidate is the rule NextStep states |
| Escalation.QuietEvaluationHasNoActiveTrigger | src/control-plane/internal/escalation/escalation.go:148-199 | When no higher level triggers, no trigger is left active |
| Escalation.LowJumpsToCritical | src/control-plane/internal/escalation/escalation.go:157-204 | A drop ratio above 0.5 takes LOW straight to CRITICAL in one evaluation |
| Escalation.ThreeCalmEvaluationsStepDown | src/control-plane/internal/escalation/escalation.go:233-245 | Starting with no streak, three calm evaluations that trigger nothing higher keep the level twice and then lower it by exactly one |
| Escalation.NoStepDownWithoutStreak | src/control-plane/internal/escalation/escalation.go:234-245 | Without two calm evaluations already behind it, an evaluation never lowers the level |
| Escalation.CriticalLowersThreatThresholds | src/control-plane/internal/escalation/escalation.go:202-223 | An escalation to CRITICAL whose push succeeds makes the data plane drop threat-feed entries from confidence 30 up |
| Escalation.SetLevel | src/control-plane/internal/escalation/escalation.go:318-347 | A level outside 0-3 is refused and nothing changes; otherwise the level is set, the streak resets, one manual-override event is recorded and the level is pushed, and the call reports success exactly when the push succeeds |
| Escalation.Start | src/control-plane/internal/escalation/escalation.go:122-130 | Start succeeds exactly when the push does; then key 16 holds the current level and no other key changes |
| Escalation.OnCritical | src/control-plane/internal/escalation/escalation.go:304-308 | Registering sets only the CRITICAL callback |
| Escalation.OnDeescalate | src/control-plane/internal/escalation/escalation.go:311-315 | Registering sets only the de-escalation callback |
| Escalation.CriticalCallbackFires | src/control-plane/internal/escalation/escalation.go:225-228 | Once the callback is registered, an evaluation from below CRITICAL whose metrics trigger CRITICAL starts it exactly once |
| BoundedLog.AppendNewest | src/control-plane/internal/escalation/escalation.go:364-370 | The new entry is last, at most the bound is kept, and what is kept is the newest suffix of the old log plus the entry |
| BoundedLog.AppendBelowBoundIfShort | src/control-plane/internal/escalation/escalation.go:364-370 | A log shorter than the bound grows by the entry, and what precedes the entry is always the newest part of the old log |
| ReputationEngine.NewEngine | src/control-plane/internal/reputation/reputation.go:76-90 | A new engine blocks at score 500, decays by 5 per poll, has nothing blocked and satisfies the engine invariant |
| ReputationEngine.HostKey | src/control-plane/internal/reputation/reputation.go:370-386 | The /32 the engine writes for a key covers that key's value and no other |
| ReputationEngine.DecayScore | src/control-plane/internal/reputation/reputation.go:138-142 | A poll lowers the score by the decay rate, stopping at 0, and never raises it |
| ReputationEngine.PollEntryAt | src/control-plane/internal/reputation/reputation.go:135-212 | For the key the engine files the entry under: the entry is decayed and stamped and its other fields are kept; its tracked record mirrors it, keeps its printed address, or for a new source prints the key as a dotted quad and records the first-seen time; at or above the threshold the source ends up blocked exactly when it already was or the blacklist insert succeeds, and a new block puts its /32 in the blacklist with reason 13; below half the threshold it stays blocked only if blocked by hand or the delete fails; in between nothing changes; no other source or blacklist key is touched |
| ReputationEngine.PollEntryAsWritten | src/control-plane/internal/reputation/reputation.go:122-143 | As written, for the entry stored under an address: the engine files it under the host-order key, a new source is printed with its address bytes reversed, no other tracked source changes, and the last-decay stamp is the wall-clock time |
| ReputationEngine.PollEntry | src/control-plane/internal/reputation/reputation.go:122-143 | Corrected, the entry is filed under the address itself, the key BlockIP uses, a new source is printed as its own dotted quad, and the last-decay stamp is in the data plane's monotonic clock |
| ReputationEngine.WallClockStampForcesFullDecayAsWritten | src/control-plane/internal/reputation/reputation.go:127-143 | With a wall-clock stamp ahead of the data plane's clock, the data plane's next decay takes the full 60 ticks' worth off the score at once |
| ReputationEngine.MonotonicStampDefersDecay | src/control-plane/internal/reputation/reputation.go:143 | With a monotonic stamp, a packet within the next second does not decay the entry again |
| ReputationEngine.PollEntryKeepsConsistent | src/control-plane/internal/reputation/reputation.go:166-206 | One poll step keeps the invariant: manual blocks are blocks, and every blocked source has its /32 in the blacklist |
| ReputationEngine.Poll | src/control-plane/internal/reputation/reputation.go:121-217 | Corrected, a poll writes back every entry under the same keys, stamps every visited entry in the data plane's clock, and leaves the threshold and the manual blocks alone |
| ReputationEngine.PollAsWritten | src/control-plane/internal/reputation/reputation.go:121-217 | As written, a poll writes back every entry under the same keys, stamps every visited entry with the wall clock, and leaves the threshold and the manual blocks alone |
| ReputationEngine.PollKeepsConsistent | src/control-plane/internal/reputation/reputation.go:121-217 | A whole poll keeps the engine invariant |
| ReputationEngine.PollAsWrittenKeepsConsistent | src/control-plane/internal/reputation/reputation.go:121-217 | A whole poll as written keeps the engine invariant too |
| ReputationEngine.ManualBlockSurvivesPoll | src/control-plane/internal/reputation/reputation.go:191 | A source blocked by hand stays blocked, with its /32 in the blacklist, through any poll |
| ReputationEngine.PolledTenZeroZeroOnePrintsReversed | src/control-plane/internal/reputation/reputation.go:134-158 | As written, a new entry polled for 10.0.0.1 is filed under 1.0.0.10 and printed as "1.0.0.10"; corrected, it is filed and printed as 10.0.0.1 |
| ReputationEngine.AutoBlockUnderHostOrderKey | src/control-plane/internal/reputation/reputation.go:166-180 | As written, a first poll of 10.0.0.1 at score 600 blocks it under 1.0.0.10 alone |
| ReputationEngine.AutoUnblockUnderHostOrderKey | src/control-plane/internal/reputation/reputation.go:189-203 | As written, with 10.0.0.1 blocked by hand and 1.0.0.10 blocked by poll, a poll of the decayed entry deletes the /32 of 1.0.0.10 and keeps only the one filed under 10.0.0.1 |
| ReputationEngine.HostKeysAsSeen | src/control-plane/internal/reputation/reputation.go:370-377 | As written, the /32 filed under 1.0.0.10 covers 10.0.0.1 on the data plane's side, and the one filed under 10.0.0.1 does not |
| ReputationEngine.ManualBlockLostAsWritten | src/control-plane/internal/reputation/reputation.go:191 | As written, after poll auto-blocks 10.0.0.1 and an operator blocks it by hand, a poll of the decayed entry leaves no blacklist key the data plane receives that covers it, though the engine still lists it as blocked by hand |
| ReputationEngine.ParseHostKey | src/control-plane/internal/reputation/reputation.go:241-250 | A key is found exactly for a parseable address with an IPv4 form, and it is that address's big-endian value |
| ReputationEngine.BlockIP | src/control-plane/internal/reputation/reputation.go:240-276 | The block succeeds exactly when the address is IPv4 and the blacklist insert succeeds; then the source is blocked and blocked by hand, its /32 carries reason 13, its tracked record, created if new, is marked blocked, and no other record changes |
| ReputationEngine.UnblockIP | src/control-plane/internal/reputation/reputation.go:279-307 | The unblock succeeds exactly when the address is IPv4 and the delete succeeds; then the source leaves both sets and the blacklist, and its tracked record, if any, is marked unblocked |
| ReputationEngine.BlockKeepsConsistent | src/control-plane/internal/reputation/reputation.go:240-276 | A manual block keeps the engine invariant |
| ReputationEngine.UnblockKeepsConsistent | src/control-plane/internal/reputation/reputation.go:279-307 | A manual unblock keeps the engine invariant |
| ReputationEngine.BlockThenUnblock | src/control-plane/internal/reputation/reputation.go:240-307 | Blocking a source that was not blocked or listed and then unblocking it restores both sets and the blacklist |
| ReputationEngine.GetBlocked | src/control-plane/internal/reputation/reputation.go:310-326 | There is one record per blocked source: its tracked record, or a bare blocked record with its address for a source never tracked; with the listing order naming each blocked source once, there are exactly as many records as blocked sources |
| ReputationEngine.BlockedListedAfterBlock | src/control-plane/internal/reputation/reputation.go:310-326 | Right after a manual block, the listing shows the source as blocked |
| ReputationEngine.InsertByScore | src/control-plane/internal/reputation/reputation.go:229-231 | Inserting into a list sorted by falling score keeps it sorted and adds exactly the one element |
| ReputationEngine.SortByScore | src/control-plane/internal/reputation/reputation.go:229-231 | The result is sorted by falling score and is a permutation of the input |
| ReputationEngine.TrackedValues | src/control-plane/internal/reputation/reputation.go:224-227 | The collected records are the tracked ones, one per key, in iteration order |
| ReputationEngine.TopOffenders | src/control-plane/internal/reputation/reputation.go:220-237 | A negative n is refused; otherwise the result has min(n, tracked count) records, sorted by falling score, drawn from the tracked ones, each scoring at least as high as any record left out; with the listing order naming each tracked source once, the count is exactly min(n, tracked count) |
| ReputationEngine.SortedPrefixIsTop | src/control-plane/internal/reputation/reputation.go:229-236 | The first k records of a sorted permutation are sorted, drawn from the input, and outscore or tie every record left out |
| ReputationEngine.LoadThreshold | src/control-plane/internal/reputation/reputation.go:360-367 | A failed lookup or a zero value keeps the threshold; a nonzero value that fits in 32 bits becomes it; nothing else changes |
| ReputationEngine.SetThreshold | src/control-plane/internal/reputation/reputation.go:329-342 | The engine takes the new threshold whatever happens; config key 13 takes it only if the update succeeds, no other key changes, and the status reports the update |
| ReputationEngine.ThresholdAgreesAcrossPlanes | src/control-plane/internal/reputation/reputation.go:329-367 | After a successful nonzero SetThreshold, a restarted engine loads the same threshold and the data plane blocks at the same score |
| Bgp.NewClient | src/control-plane/internal/bgp/bgp.go:82-92 | An empty blackhole community becomes 65535:666 and any other is kept; the rest of the configuration is kept; the client starts disconnected, with nothing announced and no audit trail |
| Bgp.Connect | src/control-plane/internal/bgp/bgp.go:101-146 | A disabled client succeeds without connecting; an enabled one connects exactly when the router address is present and parses and both AS numbers are nonzero; a failure changes nothing |
| Bgp.Disconnect | src/control-plane/internal/bgp/bgp.go:364-385 | Disconnecting always succeeds, takes the session down, and keeps every announcement |
| Bgp.CheckConnected | src/control-plane/internal/bgp/bgp.go:426-437 | The check passes exactly for an enabled, connected client, and a disabled client gets the "disabled" error |
| Bgp.ValidatePrefixAsWritten | src/control-plane/internal/bgp/bgp.go:455-468 | As written, a prefix passes when it is an IPv4 address, or not an address but any CIDR at all, IPv6 included |
| Bgp.ValidatePrefix | src/control-plane/internal/bgp/bgp.go:454-468 | Corrected, a prefix passes exactly when it is an IPv4 address or an IPv4 CIDR |
| Bgp.IPv6CidrPassesAsWritten | src/control-plane/internal/bgp/bgp.go:455-468 | An IPv6 CIDR passes the written check and fails the corrected one |
| Bgp.ValidatePrefixAgreesOnIPv4 | src/control-plane/internal/bgp/bgp.go:455-468 | The two checks agree on every prefix that is not an IPv6 CIDR |
| Bgp.ValidateFlowspecRule | src/control-plane/internal/bgp/bgp.go:471-509 | A rule passes exactly when its action is drop, rate-limit or redirect, it names at least one prefix, every prefix it names is valid, and its protocol is empty, tcp, udp or icmp |
| Bgp.FlowspecMatch | src/control-plane/internal/bgp/bgp.go:512-519 | Two rules match exactly when they are equal once creation time and reason are cleared |
| Bgp.AnnounceBlackhole | src/control-plane/internal/bgp/bgp.go:177-212 | The announcement succeeds exactly when the client is connected and the prefix is valid; a failure or an already announced prefix changes nothing; a new prefix is added under its own name with one audit entry |
| Bgp.WithdrawBlackhole | src/control-plane/internal/bgp/bgp.go:215-236 | The withdrawal succeeds exactly when the client is connected and the prefix is announced; then only that prefix goes and one audit entry is added |
| Bgp.AnnounceFlowspec | src/control-plane/internal/bgp/bgp.go:243-277 | The announcement succeeds exactly when the client is connected and the rule is valid; then the stamped rule is appended with one audit entry, and a failure changes nothing |
| Bgp.FirstMatch | src/control-plane/internal/bgp/bgp.go:288-294 | The result is the position of the first matching rule, or none when no rule matches |
| Bgp.FirstMatchAfter | src/control-plane/internal/bgp/bgp.go:288-294 | A matching rule appended after rules that do not match is the first match |
| Bgp.WithdrawFlowspec | src/control-plane/internal/bgp/bgp.go:280-316 | The withdrawal succeeds exactly when the client is connected and some rule matches; then only the first matching rule goes, and a failure changes nothing |
| Bgp.WithdrawAllAsWritten | src/control-plane/internal/bgp/bgp.go:399-422 | As written, everything is withdrawn without a session check, and the audit entry counts the blackholes but reports 0 Flowspec rules |
| Bgp.WithdrawAll | src/control-plane/internal/bgp/bgp.go:399-422 | Corrected, everything is withdrawn, and the audit entry counts both the blackholes and the Flowspec rules withdrawn |
| Bgp.WithdrawAllUndercountsAsWritten | src/control-plane/internal/bgp/bgp.go:411-418 | With one rule active, the written audit entry says no rule was withdrawn, though one was; the corrected entry says one |
| Bgp.AppendAudit | src/control-plane/internal/bgp/bgp.go:439-452 | The new entry is last and at most the bound is kept; below the bound the entry is simply appended, and otherwise the oldest entries go |
| Bgp.SessionKeepsValid | src/control-plane/internal/bgp/bgp.go:364-422 | Connecting, disconnecting and withdrawing everything keep the client invariant: blackholes are keyed by their own prefix, stored rules are valid, and the audit trail is bounded |
| Bgp.AnnounceKeepsValid | src/control-plane/internal/bgp/bgp.go:177-277 | Announcing a blackhole or a rule keeps the client invariant |
| Bgp.WithdrawKeepsValid | src/control-plane/internal/bgp/bgp.go:215-316 | Withdrawing one blackhole or one rule keeps the client invariant |
| Bgp.AnnounceBlackholeIdempotent | src/control-plane/internal/bgp/bgp.go:188-190 | Announcing a blackhole twice is announcing it once |
| Bgp.WithdrawUndoesAnnounce | src/control-plane/internal/bgp/bgp.go:177-236 | Withdrawing a newly announced blackhole succeeds and restores the blackholes |
| Bgp.WithdrawFlowspecUndoesAnnounce | src/control-plane/internal/bgp/bgp.go:243-316 | Withdrawing a newly announced rule that matches no earlier rule succeeds and restores the rule list |
| Bgp.ActiveRules | src/control-plane/internal/bgp/bgp.go:320-342 | The active list has each blackhole, as a "blackhole" rule with its prefix as destination, followed by the Flowspec rules in order; with the listing order naming each blackhole once, the list is exactly as long as the blackholes and the rules together |
| Bgp.BlackholeRulesAreTheBlackholes | src/control-plane/internal/bgp/bgp.go:320-342 | On a valid client, an entry of the active list is a blackhole exactly when it is one of the leading blackhole entries |
| ThreatFeeds.NewManager | src/control-plane/internal/threatintel/threatintel.go:88-132 | A new manager holds exactly the two Spamhaus feeds, disabled, with confidence 100 and the drop action, and hands out source ID 2 next; the registry invariant holds |
| ThreatFeeds.AddFeed | src/control-plane/internal/threatintel/threatintel.go:135-176 | A feed is added exactly when its name and URL are non-empty, its type is plaintext, csv or json, and the name is new; the new feed is enabled with confidence 80, threat type and action 0 and the next source ID, which then moves on modulo 256 |
| ThreatFeeds.RemoveFeed | src/control-plane/internal/threatintel/threatintel.go:179-191 | Removal succeeds exactly for a known name, and only that feed goes |
| ThreatFeeds.SetFeedEnabled | src/control-plane/internal/threatintel/threatintel.go:448-473 | Enabling or disabling succeeds exactly for a known name, and only that feed's flag changes |
| ThreatFeeds.RegistryOperationsKeepValid | src/control-plane/internal/threatintel/threatintel.go:135-191 | While source IDs are left, adding keeps feeds under their own names with distinct IDs below the next one; removing and toggling always keep that |
| ThreatFeeds.AddThenRemove | src/control-plane/internal/threatintel/threatintel.go:135-191 | Adding a feed and removing it restores the feeds, with the next ID moved on by one |
| ThreatFeeds.ParseLpmKeyAsWritten | src/control-plane/internal/threatintel/threatintel.go:476-503 | As written, a string with '/' parses exactly when it is any CIDR, IPv6 included; one without parses exactly when it is an IPv4 address |
| ThreatFeeds.ParseLpmKey | src/control-plane/internal/threatintel/threatintel.go:476-503 | Corrected, a string with '/' parses exactly when it is an IPv4 CIDR, one without exactly when it is an IPv4 address, and the prefix length is at most 32 |
| ThreatFeeds.NetKey | src/control-plane/internal/threatintel/threatintel.go:478-489 | A CIDR gives a key exactly when it is IPv4: its mask size and big-endian network address |
| ThreatFeeds.HostAddrKey | src/control-plane/internal/threatintel/threatintel.go:491-502 | A bare address gives a key exactly when it is IPv4: a /32 of its big-endian value |
| ThreatFeeds.IPv6CidrCoversIPv4AsWritten | src/control-plane/internal/threatintel/threatintel.go:476-503 | As written, "2000::/3" becomes the IPv4 key 0.0.0.0/3, which covers 10.0.0.1; the corrected parser refuses it |
| ThreatFeeds.ParseLpmKeyAgreesOnIPv4 | src/control-plane/internal/threatintel/threatintel.go:476-503 | The two parsers agree on everything except an IPv6 CIDR |
| ThreatFeeds.EntryOf | src/control-plane/internal/threatintel/threatintel.go:400-406 | The stored entry carries the feed's source ID, confidence and action |
| ThreatFeeds.AsTrie | src/control-plane/internal/threatintel/threatintel.go:408 | The data plane sees, under each stored key, the confidence and action of the entry written there, and nothing under other keys, with keys handed over in the corrected byte order |
| ThreatFeeds.InsertKey | src/control-plane/internal/threatintel/threatintel.go:395-414 | A candidate is inserted exactly when it parses and the map update succeeds, under its parsed key |
| ThreatFeeds.Inserted | src/control-plane/internal/threatintel/threatintel.go:395-414 | No more keys are inserted than there were candidates |
| ThreatFeeds.InsertedKeys | src/control-plane/internal/threatintel/threatintel.go:395-414 | Every inserted key is an IPv4 key whose update succeeded and comes from some candidate |
| ThreatFeeds.PutAllContents | src/control-plane/internal/threatintel/threatintel.go:408 | After the writes, the written keys hold the entry and every other key is as before |
| ThreatFeeds.InsertCandidates | src/control-plane/internal/threatintel/threatintel.go:317-388 | The count is the number of successful inserts, and the trie holds the feed's entry under exactly those keys and is otherwise unchanged |
| ThreatFeeds.PlainCandidate | src/control-plane/internal/threatintel/threatintel.go:304-315 | A blank or comment line gives nothing; any other line gives a non-empty prefix of the trimmed line that contains no space, tab or ';' |
| ThreatFeeds.FirstField | src/control-plane/internal/threatintel/threatintel.go:313-315 | The field is a non-empty prefix of the line with no separator in it |
| ThreatFeeds.CommentLineSkipped | src/control-plane/internal/threatintel/threatintel.go:307 | A line starting with ';' or '#' gives nothing |
| ThreatFeeds.ParsePlaintext | src/control-plane/internal/threatintel/threatintel.go:299-328 | Every line's candidate is inserted in order; the count is the number inserted, kept even when the scanner fails at the end, and the status fails exactly when the scanner does |
| ThreatFeeds.CsvCandidate | src/control-plane/internal/threatintel/threatintel.go:345-361 | A record gives a candidate exactly when it is readable, has the configured column and that cell is not blank; the candidate is the trimmed cell |
| ThreatFeeds.ParseCsv | src/control-plane/internal/threatintel/threatintel.go:331-369 | An unreadable header is an error with nothing inserted; otherwise the header is skipped, every later record's candidate is inserted, and the call succeeds |
| ThreatFeeds.JsonCandidate | src/control-plane/internal/threatintel/threatintel.go:381-384 | A string gives a candidate exactly when it is not blank, and the candidate is the trimmed string |
| ThreatFeeds.ParseJson | src/control-plane/internal/threatintel/threatintel.go:372-392 | Input that is not an array of strings is an error with nothing inserted; otherwise every string's candidate is inserted and the call succeeds |
| ThreatFeeds.SpamhausEntriesDrop | src/control-plane/internal/threatintel/threatintel.go:108-132 | A key a built-in Spamhaus feed inserted is seen by the data plane with confidence 100 and the drop action, with keys handed over in the corrected byte order |
| ThreatFeeds.EnabledFeeds | src/control-plane/internal/threatintel/threatintel.go:224-231 | Sync visits only enabled feeds of the manager, and every enabled feed, never more than there are feeds |
| ThreatFeeds.SyncTotals | src/control-plane/internal/threatintel/threatintel.go:233-271 | The total is the sum of the counts of the feeds that synced; the call fails exactly when some feed failed, and then with the error of the last one |
| ThreatFeeds.FailedFeedAddsNothing | src/control-plane/internal/threatintel/threatintel.go:236-249 | A failing feed adds nothing to the total, wherever it comes, and makes the call fail |
| GeoipLoader.PackCountryCode | src/control-plane/internal/geoip/geoip.go:359-365 | A string shorter than two gives 0; otherwise the first byte is the high byte and the second the low byte |
| GeoipLoader.UnpackCountryCode | src/control-plane/internal/geoip/geoip.go:367-373 | 0 unpacks to the empty string and anything else to two bytes |
| GeoipLoader.PackUnpack | src/control-plane/internal/geoip/geoip.go:359-373 | Packing what was unpacked gives back the number |
| GeoipLoader.UnpackPack | src/control-plane/internal/geoip/geoip.go:359-373 | Unpacking a packed two-byte code gives the code back, except for the code of two zero bytes, the only one that packs to 0 |
| GeoipLoader.PackInjective | src/control-plane/internal/geoip/geoip.go:359-365 | Distinct two-byte codes pack to distinct numbers |
| GeoipLoader.NewManager | src/control-plane/internal/geoip/geoip.go:64-80 | A new manager has no policies, no location table, no statistics and no loaded prefixes |
| GeoipLoader.SetCountryPolicy | src/control-plane/internal/geoip/geoip.go:277-303 | A policy is set exactly when the code has two characters, the action is at most monitor and the map update succeeds; then the action is written under the packed upper-cased code and recorded, and nothing else changes |
| GeoipLoader.DropPolicyBlocksCountry | src/control-plane/internal/geoip/geoip.go:277-303 | Once the drop policy is set for a country, in either case, the data plane drops a source its trie places in that country while GeoIP filtering is on |
| GeoipLoader.PolicyIgnoresCase | src/control-plane/internal/geoip/geoip.go:285-295 | Setting a policy in either case gives the same result |
| GeoipLoader.RecordDrop | src/control-plane/internal/geoip/geoip.go:329-348 | The country's statistics are created on first use; a drop, rate-limit or monitor action bumps only its own 64-bit counter; no other country changes |
| GeoipLoader.RecordDropCountsOnce | src/control-plane/internal/geoip/geoip.go:329-348 | Below the wrap-around, a drop, rate limit or monitor adds exactly one event to its country |
| GeoipLoader.ColumnIndex | src/control-plane/internal/geoip/geoip.go:127-136 | The index is that of the last header column whose trimmed name matches, or -1 |
| GeoipLoader.LocationRow | src/control-plane/internal/geoip/geoip.go:154-168 | A row is used exactly when both columns exist, the ID is an integer and the trimmed code has two characters; it maps the ID to the upper-cased code |
| GeoipLoader.ApplyLocationsStep | src/control-plane/internal/geoip/geoip.go:145-169 | Reading one more row applies it on top of the table read so far |
| GeoipLoader.LocationCodesAreShaped | src/control-plane/internal/geoip/geoip.go:163-168 | Every code the table holds has two characters and no lower-case letter |
| GeoipLoader.ReadablePrefix | src/control-plane/internal/geoip/geoip.go:145-152 | The rows read are the records before the first unreadable one |
| GeoipLoader.LoadLocations | src/control-plane/internal/geoip/geoip.go:112-172 | An unreadable header, or one without both columns, is an error that changes nothing; otherwise the rows before the first unreadable record are read into the table, and the call fails exactly when such a record exists |
| GeoipLoader.ReadLocations | src/control-plane/internal/geoip/geoip.go:145-171 | The loop reads the rows before the first unreadable record and reports whether it got to the end |
| GeoipLoader.CodeIn | src/control-plane/internal/geoip/geoip.go:234-243 | A code is found only when the column exists and holds an integer |
| GeoipLoader.BlockRow | src/control-plane/internal/geoip/geoip.go:214-257 | A record gives a row exactly when it is readable, its network parses and its country code, from geoname_id or else registered_country_geoname_id, has two characters; the row maps the network's key to the packed code with the pass action |
| GeoipLoader.WrittenRow | src/control-plane/internal/geoip/geoip.go:259-269 | A row counts exactly when it was built and its trie update succeeds |
| GeoipLoader.LoadedRows | src/control-plane/internal/geoip/geoip.go:213-270 | No more rows are loaded than there were records |
| GeoipLoader.LoadedRowsStep | src/control-plane/internal/geoip/geoip.go:213-270 | One more record adds its written row, if any, to the loaded rows |
| GeoipLoader.WriteRowsSnoc | src/control-plane/internal/geoip/geoip.go:259 | Writing one more row updates its key alone |
| GeoipLoader.WriteRowsContents | src/control-plane/internal/geoip/geoip.go:259 | After the writes, a key is present exactly when it was before or some row wrote it, and a key no row wrote is as before |
| GeoipLoader.LoadBlocks | src/control-plane/internal/geoip/geoip.go:176-273 | An unreadable header, or one without a network column, is an error with nothing loaded; otherwise the usable records are written in order, the count is the number of successful writes, and the call succeeds |
| GeoipLoader.WriteRecordsStep | src/control-plane/internal/geoip/geoip.go:213-270 | One turn of the record loop keeps the count and the trie in step with the rows loaded so far |
| GeoipLoader.WriteRecords | src/control-plane/internal/geoip/geoip.go:213-272 | The loop writes exactly the loaded rows, in order, and counts them |
| GeoipLoader.LoadCsv | src/control-plane/internal/geoip/geoip.go:82-106 | On success both files were readable, the loaded prefixes are at most the number of block records, and policies and statistics are untouched |
| ApiHelpers.Ntohs | src/control-plane/internal/api/server.go:565-567 | Shifting right and left by eight bits in 16-bit arithmetic and OR-ing the halves swaps the two bytes |
| ApiHelpers.NtohsInvolutive | src/control-plane/internal/api/server.go:565-567 | Converting a port twice gives it back |
| ApiHelpers.NtohsIsHostToBE16 | src/control-plane/internal/api/server.go:565-567 | The event handler's swap is the same conversion as the map layer's hostToBE16 |
| ApiHelpers.CountryCodeStr | src/control-plane/internal/api/server.go:569-574 | 0 is the empty string and only 0 is; any other code prints as its high byte then its low byte |
| ApiHelpers.CountryCodeStrInvertsPack | src/control-plane/internal/api/server.go:569-574 | Every non-zero code the GeoIP manager packs prints back as the two-letter code, matching the manager's own unpacking |
| ApiHelpers.ActionName | src/control-plane/internal/api/server.go:558-563 | "drop" exactly for action 1, "pass" for every other action |
| ApiHelpers.DefaultReason | src/control-plane/internal/api/server.go:272-274 | The stored reason is never 0: a given reason is kept, a missing one becomes the blacklist drop reason |
| ApiHelpers.AddBlacklist | src/control-plane/internal/api/server.go:263-280 | The request succeeds exactly when the prefix parses and the write succeeds; then the prefix's key holds a non-zero reason, the one given when that was non-zero |
| ApiHelpers.EnabledFlag | src/control-plane/internal/api/server.go:231-234 | true writes 1 and false writes 0 |
| ApiHelpers.SetEnabled | src/control-plane/internal/api/server.go:217-240 | On success the enabled slot reads back as non-zero exactly when the request enabled the scrubber, and no other config slot changes |
| AppConfig.DefaultConfig | src/control-plane/internal/config/config.go:81-116 | The default interface, mode, listen address and rate limits; five amplification ports with distinct ports and distinct flags |
| AppConfig.DefaultAmpFlagsAreBits | src/control-plane/internal/config/config.go:108-114 | The i-th default amplification port carries flag bit i alone |
| AppConfig.Validate | src/control-plane/internal/config/config.go:138-159 | A configuration passes exactly when the interface, the object path and the listen address are set and the mode is native, skb or offload; the first failing check in source order names the error |
| AppConfig.DefaultIsValid | src/control-plane/internal/config/config.go:81-159 | The defaults pass validation |
| AppConfig.ModeDecidesValidity | src/control-plane/internal/config/config.go:143-148 | With every other default kept, validation passes exactly for the three known XDP modes |
| AppConfig.SetRateLimit | src/control-plane/internal/config/config.go:182-186 | The rate limits are replaced and every other setting is kept |
| AppConfig.RateLimitRoundTrip | src/control-plane/internal/config/config.go:175-186 | Reading after writing gives what was written, writing what was read changes nothing, and validity does not depend on the rate limits |
| Text.TrimSpace | src/control-plane/internal/geoip/geoip.go:158-163 | The result neither starts nor ends with white space and is no longer than the input |
| Text.TrimSpaceExact | src/control-plane/internal/threatintel/threatintel.go:304 | Trimming removes exactly the white space around a string that starts and ends with something else |
| Text.TrimSpaceIdempotent | src/control-plane/internal/threatintel/threatintel.go:313-314 | Trimming a trimmed string changes nothing |
| Text.IndexAny | src/control-plane/internal/threatintel/threatintel.go:313 | The index is that of the first character in the set, or -1 exactly when no character is in it |
| Text.ToUpperAscii | src/control-plane/internal/geoip/geoip.go:168 | Same length, no lower-case letter left, and every character that was not a lower-case letter kept |
| Text.ToUpperIdempotent | src/control-plane/internal/geoip/geoip.go:285 | Upper-casing twice is upper-casing once |
| Text.NatDigitsValue | src/control-plane/internal/bpf/types.go:234 | The digits printed for a natural number have that number as their value |
| Text.Atoi | src/control-plane/internal/geoip/geoip.go:158 | A parsed value fits in a 64-bit int and the empty string does not parse |
| Text.AtoiDecimal | src/control-plane/internal/geoip/geoip.go:158 | Parsing what the %d verb printed for a 64-bit number gives the number back |
| Text.DecimalInjective | src/control-plane/internal/escalation/escalation.go:46 | Distinct 64-bit numbers print differently |

## Left out

- tests/fixtures/attack_packets.py: a thin wrapper over Scapy's random field generators and its capture writer; nothing of it is visible to model.
- HTTP and WebSocket handling in api/server.go (handlers, CORS, broadcast, connection set): I/O and concurrency; only the pure helpers and the two value mappings are modelled.
- bpf/loader.go, engine/engine.go and cmd/scrubber/main.go: kernel loading and attach, orchestration, the seed rotation loop, logging and signal handling.
- baseline/baseline.go: EWMA mean and variance, square roots and z-scores are floating-point numerics.
- stats/collector.go: floating-point rate computation and channel fan-out.
- Background loops in reputation, escalation, threatintel, geoip and bgp (tickers, `Start`/`run`, goroutine callbacks, mutexes, zap logging): each loop body's effect on the maps is modelled, not the scheduling.
- syncFeed's HTTP fetch: the fetched body is an input of the parsers; a failed fetch is a `SyncFailed` outcome.
- The per-feed LastSync, EntryCount and Error status fields written by syncFeed: reporting only.
- Plain accessors that return copies of state are not modelled separately, because the state they copy is the model's own record:
  - bgp: GetBlackholes, IsConnected, GetAuditLog, and monitorSession, which only logs;
  - escalation: GetLevel, GetHistory, GetTriggers;
  - reputation: GetThreshold, GetTrackedCount;
  - threatintel: GetFeeds, GetStats, SetSyncInterval;
  - geoip: GetCountryPolicy, GetCountryStats, GetLoadedPrefixes.
- config.go LoadFromFile and SaveToFile: YAML file I/O; the validation they apply is modelled.
- `siphash_2_4` (src/bpf/common/helpers.h): a bit mixer taken as a function parameter of the SYN cookie; only its inputs are fixed.
- `jhash_*` (src/bpf/common/helpers.h): no module calls it.
- `emit_event` ring-buffer reservation: an emitted event is appended to the outcome's event list; a full ring buffer is not modelled.
- `bpf_ktime_get_ns`: the current time is a parameter.
- Per-CPU map semantics and `__sync_fetch_and_add` atomicity: one CPU's view is modelled, and `ReadStats` sums the per-CPU records explicitly.
- LRU eviction in the conntrack, rate and reputation maps: an insertion always succeeds in the model unless a map update is given as failing.
- The repeated `ctx->data` pointer re-derivations in proto_validator.h: the packet is a byte sequence with an explicit length, so one bounds check stands for each re-derivation.
- The 64-bit statistics counters of the data plane are unbounded in the model; wrap-around is modelled only where the control plane adds them up.
- BpfHelpers.TokenBucketConsume: the `elapsed_ns × rate_pps` product wraps at 2^64 in the model as in the source; the exact-refill property (RefillWithoutOverflow) is stated only for inputs where nothing wraps.
- Text.Atoi: its contract states the range of the result and that the empty string fails; the value is pinned by AtoiDecimal for every string %d prints, not for other spellings such as a leading '+'.
- GeoipLoader.LoadCsv: states the success conditions and the bound on the loaded prefixes; the table contents are stated by LoadLocations and LoadBlocks, which it calls.
- Text.TrimSpace: the white space modelled is the single-byte set unicode.IsSpace accepts; multi-byte Unicode spaces are not modelled, since strings hold one byte per character.
- GoMaps.AddBlacklistCidr: built on the corrected `GoMaps.CidrToLpmKey`, so an IPv6 prefix is refused where maps.go stores it with a zero IPv4 address (`GoMaps.CidrToLpmKeyAsWritten`); the key reaches the data plane in the corrected byte order of `GoNet.KeyBytesFixed`.
- GoMaps.RemoveBlacklistCidr: built on the corrected `GoMaps.CidrToLpmKey`, so an IPv6 prefix is refused where maps.go stores it with a zero IPv4 address (`GoMaps.CidrToLpmKeyAsWritten`); the key reaches the data plane in the corrected byte order of `GoNet.KeyBytesFixed`.
- GoMaps.AddRemoveBlacklist: built on the corrected `GoMaps.CidrToLpmKey`, so an IPv6 prefix is refused where maps.go stores it with a zero IPv4 address (`GoMaps.CidrToLpmKeyAsWritten`); the key reaches the data plane in the corrected byte order of `GoNet.KeyBytesFixed`.
- GoMaps.AddWhitelistCidr: built on the corrected `GoMaps.CidrToLpmKey`, so an IPv6 prefix is refused where maps.go stores it with a zero IPv4 address (`GoMaps.CidrToLpmKeyAsWritten`); the key reaches the data plane in the corrected byte order of `GoNet.KeyBytesFixed`.
- GoMaps.RemoveWhitelistCidr: built on the corrected `GoMaps.CidrToLpmKey`, so an IPv6 prefix is refused where maps.go stores it with a zero IPv4 address (`GoMaps.CidrToLpmKeyAsWritten`); the key reaches the data plane in the corrected byte order of `GoNet.KeyBytesFixed`.
- GoMaps.AddRemoveWhitelist: built on the corrected `GoMaps.CidrToLpmKey`, so an IPv6 prefix is refused where maps.go stores it with a zero IPv4 address (`GoMaps.CidrToLpmKeyAsWritten`); the key reaches the data plane in the corrected byte order of `GoNet.KeyBytesFixed`.
- GoMaps.AddGreTunnel: built on the corrected `GoMaps.CidrToLpmKey`, so an IPv6 prefix is refused where maps.go stores it with a zero IPv4 address (`GoMaps.CidrToLpmKeyAsWritten`); the key reaches the data plane in the corrected byte order of `GoNet.KeyBytesFixed`.
- ApiHelpers.AddBlacklist: built on the corrected `GoMaps.CidrToLpmKey`, so an IPv6 prefix is refused where maps.go stores it with a zero IPv4 address (`GoMaps.CidrToLpmKeyAsWritten`); the key reaches the data plane in the corrected byte order of `GoNet.KeyBytesFixed`.
- Bgp.ValidateFlowspecRule: built on the corrected `Bgp.ValidatePrefix`, so an IPv6 prefix is refused where bgp.go accepts it (`Bgp.ValidatePrefixAsWritten`).
- Bgp.AnnounceBlackhole: built on the corrected `Bgp.ValidatePrefix`, so an IPv6 prefix is refused where bgp.go accepts it (`Bgp.ValidatePrefixAsWritten`).
- Bgp.AnnounceFlowspec: built on the corrected `Bgp.ValidatePrefix`, so an IPv6 prefix is refused where bgp.go accepts it (`Bgp.ValidatePrefixAsWritten`).
- Bgp.AnnounceKeepsValid: built on the corrected `Bgp.ValidatePrefix`, so an IPv6 prefix is refused where bgp.go accepts it (`Bgp.ValidatePrefixAsWritten`).
- Bgp.WithdrawUndoesAnnounce: built on the corrected `Bgp.ValidatePrefix`, so an IPv6 prefix is refused where bgp.go accepts it (`Bgp.ValidatePrefixAsWritten`).
- Bgp.AnnounceBlackholeIdempotent: built on the corrected `Bgp.ValidatePrefix`, so an IPv6 prefix is refused where bgp.go accepts it (`Bgp.ValidatePrefixAsWritten`).
- Bgp.WithdrawAll: the corrected withdraw_all, whose audit entry counts the Flowspec rules withdrawn where bgp.go writes 0 (`Bgp.WithdrawAllAsWritten`).
- Bgp.SessionKeepsValid: the corrected withdraw_all, whose audit entry counts the Flowspec rules withdrawn where bgp.go writes 0 (`Bgp.WithdrawAllAsWritten`).
- ThreatFeeds.InsertKey: built on the corrected `ThreatFeeds.ParseLpmKey`, so an IPv6 entry is skipped where threatintel.go stores it with a zero IPv4 address (`ThreatFeeds.ParseLpmKeyAsWritten`).
- ThreatFeeds.Inserted: built on the corrected `ThreatFeeds.ParseLpmKey`, so an IPv6 entry is skipped where threatintel.go stores it with a zero IPv4 address (`ThreatFeeds.ParseLpmKeyAsWritten`).
- ThreatFeeds.InsertedKeys: built on the corrected `ThreatFeeds.ParseLpmKey`, so an IPv6 entry is skipped where threatintel.go stores it with a zero IPv4 address (`ThreatFeeds.ParseLpmKeyAsWritten`).
- ThreatFeeds.InsertCandidates: built on the corrected `ThreatFeeds.ParseLpmKey`, so an IPv6 entry is skipped where threatintel.go stores it with a zero IPv4 address (`ThreatFeeds.ParseLpmKeyAsWritten`).
- ThreatFeeds.ParsePlaintext: built on the corrected `ThreatFeeds.ParseLpmKey`, so an IPv6 entry is skipped where threatintel.go stores it with a zero IPv4 address (`ThreatFeeds.ParseLpmKeyAsWritten`).
- ThreatFeeds.ParseCsv: built on the corrected `ThreatFeeds.ParseLpmKey`, so an IPv6 entry is skipped where threatintel.go stores it with a zero IPv4 address (`ThreatFeeds.ParseLpmKeyAsWritten`).
- ThreatFeeds.ParseJson: built on the corrected `ThreatFeeds.ParseLpmKey`, so an IPv6 entry is skipped where threatintel.go stores it with a zero IPv4 address (`ThreatFeeds.ParseLpmKeyAsWritten`).
- ReputationEngine.Poll: built on the corrected `ReputationEngine.PollEntry`, which reads each key in network order and stamps the data plane's monotonic clock, where reputation.go reads the key in host order and stamps the wall clock (`ReputationEngine.PollAsWritten`, `ReputationEngine.PollEntryAsWritten`).
- ReputationEngine.PollKeepsConsistent: built on the corrected `ReputationEngine.PollEntry`; the invariant is stated over the engine's own keys, and the as-written poll keeps it too (`ReputationEngine.PollAsWrittenKeepsConsistent`).
- ReputationEngine.ManualBlockSurvivesPoll: built on the corrected `ReputationEngine.PollEntry`, which files a polled source under the same key as BlockIP; as written the two keys differ and poll can delete the data plane's block of a source blocked by hand (`ReputationEngine.ManualBlockLostAsWritten`).
- ReputationEngine.HostKey: the /32s BlockIP and UnblockIP write are taken to reach the data plane in the corrected byte order of `GoNet.KeyBytesFixed` (`GoNet.KeyHandoffFixed`); as written their address arrives byte-swapped (`GoNet.KeyHandoffAsWritten`), while the as-written poll's /32 arrives intact (`GoNet.HostOrderKeyHandoff`).
- ReputationEngine.BlockIP: the keys it writes are taken to reach the data plane in the corrected byte order of `GoNet.KeyBytesFixed` (`GoNet.KeyHandoffFixed`); as written the address arrives byte-swapped (`GoNet.KeyHandoffAsWritten`).
- ReputationEngine.UnblockIP: the keys it writes are taken to reach the data plane in the corrected byte order of `GoNet.KeyBytesFixed` (`GoNet.KeyHandoffFixed`); as written the address arrives byte-swapped (`GoNet.KeyHandoffAsWritten`).
- ThreatFeeds.AsTrie: the keys it writes are taken to reach the data plane in the corrected byte order of `GoNet.KeyBytesFixed` (`GoNet.KeyHandoffFixed`); as written the address arrives byte-swapped (`GoNet.KeyHandoffAsWritten`).
- ThreatFeeds.SpamhausEntriesDrop: the keys it writes are taken to reach the data plane in the corrected byte order of `GoNet.KeyBytesFixed` (`GoNet.KeyHandoffFixed`); as written the address arrives byte-swapped (`GoNet.KeyHandoffAsWritten`).
- GeoipLoader.BlockRow: the keys it writes are taken to reach the data plane in the corrected byte order of `GoNet.KeyBytesFixed` (`GoNet.KeyHandoffFixed`); as written the address arrives byte-swapped (`GoNet.KeyHandoffAsWritten`).
- GeoipLoader.LoadBlocks: the keys it writes are taken to reach the data plane in the corrected byte order of `GoNet.KeyBytesFixed` (`GoNet.KeyHandoffFixed`); as written the address arrives byte-swapped (`GoNet.KeyHandoffAsWritten`).
- SynFlood.SynFloodCheck: the SYN-ACK sent back is built by the corrected `SynFlood.SynAckFrame`, which sums the whole IPv4 header where syn_flood.h sums 10 words (`SynFlood.SynAckFrame10`).
- Scrubber.SynOnward: the SYN-ACK sent back is built by the corrected `SynFlood.SynAckFrame`, which sums the whole IPv4 header where syn_flood.h sums 10 words (`SynFlood.SynAckFrame10`).
- Scrubber.Received: the SYN-ACK sent back is built by the corrected `SynFlood.SynAckFrame`, which sums the whole IPv4 header where syn_flood.h sums 10 words (`SynFlood.SynAckFrame10`).
- Scrubber.Scrub: the SYN-ACK sent back is built by the corrected `SynFlood.SynAckFrame`, which sums the whole IPv4 header where syn_flood.h sums 10 words (`SynFlood.SynAckFrame10`).
- Scrubber.BounceIsSynAck: the SYN-ACK sent back is built by the corrected `SynFlood.SynAckFrame`, which sums the whole IPv4 header where syn_flood.h sums 10 words (`SynFlood.SynAckFrame10`).
- Scrubber.Admit: conntrack is updated by the corrected `Conntrack.ConntrackUpdate`, which feeds the creating SYN to the state machine (`Conntrack.ConntrackUpdateAsWritten`).
- Scrubber.RateStages: conntrack is updated by the corrected `Conntrack.ConntrackUpdate`, which feeds the creating SYN to the state machine (`Conntrack.ConntrackUpdateAsWritten`).
- Scrubber.LateStages: conntrack is updated by the corrected `Conntrack.ConntrackUpdate`, which feeds the creating SYN to the state machine (`Conntrack.ConntrackUpdateAsWritten`).
- Scrubber.SynOnwardPassRanEveryStage: conntrack is updated by the corrected `Conntrack.ConntrackUpdate`, which feeds the creating SYN to the state machine (`Conntrack.ConntrackUpdateAsWritten`).
- Scrubber.ReceivedAccounting: conntrack is updated by the corrected `Conntrack.ConntrackUpdate`, which feeds the creating SYN to the state machine (`Conntrack.ConntrackUpdateAsWritten`).
- Scrubber.ReceivedPacketsAccounted: conntrack is updated by the corrected `Conntrack.ConntrackUpdate`, which feeds the creating SYN to the state machine (`Conntrack.ConntrackUpdateAsWritten`).
- Scrubber.PassRanEveryStage: conntrack is updated by the corrected `Conntrack.ConntrackUpdate`, which feeds the creating SYN to the state machine (`Conntrack.ConntrackUpdateAsWritten`).
- ProtoValidator.ProtoValidate: TCP goes to the corrected `ProtoValidator.TcpStateValidate`, which drops on the first strict-mode violation (`ProtoValidator.TcpStateValidateAsWritten`).
- GoTypes.FormatEvent: the corrected formatter, which swaps the addresses as the ports are (`GoTypes.FormatEventAsWritten`).
- Text.ToUpperAscii: upper-casing covers ASCII letters only, where `strings.ToUpper` maps every Unicode letter; country codes are two ASCII letters.
- GeoipLoader.SetCountryPolicy: upper-casing covers ASCII letters only, where `strings.ToUpper` maps every Unicode letter; country codes are two ASCII letters.
- GeoipLoader.PolicyIgnoresCase: upper-casing covers ASCII letters only, where `strings.ToUpper` maps every Unicode letter; country codes are two ASCII letters.
- GeoipLoader.LocationRow: upper-casing covers ASCII letters only, where `strings.ToUpper` maps every Unicode letter; country codes are two ASCII letters.
- eventToJSON (api/server.go): not modelled; it hands the event addresses to `U32BEToIP` unswapped, as FormatEvent does.
- BpfHelpers.CsumDiff4: no module calls it; its partner is `BpfHelpers.CsumDiff4Updates`.

## Findings

| source | as written | input that shows it | evidently intended | confidence | as-written member | corrected member |
|---|---|---|---|---|---|---|
| src/bpf/modules/syn_flood.h:155-167 | The SYN-ACK's IPv4 checksum is summed over the first 10 header words whatever the IHL | A SYN whose IPv4 header has IHL 6 with a Router Alert option (0x9404 0x0000): the reply's header fails the checksum test | Sum the whole header, IHL × 2 words | not executed | SynFlood.SynAckFrame10, SynFlood.RouterAlertBreaksChecksum10 | SynFlood.SynAckFrame |
| src/bpf/modules/conntrack.h:135-151 | A missed flow is created in NEW and the creating packet is not fed to the TCP state machine | SYN c→s, SYN-ACK s→c, ACK c→s leaves the flow in SYN_SENT | The handshake brings the flow to ESTABLISHED | not executed | Conntrack.ConntrackUpdateAsWritten, Conntrack.HandshakeStallsAsWritten | Conntrack.ConntrackUpdate, Conntrack.HandshakeEstablishesFixed |
| src/bpf/modules/proto_validator.h:329-330,359-361 | Strict mode sets the violation limit to 1, and a flow is dropped only once its count exceeds the limit | At escalation HIGH, a tracked flow with no earlier violation sends two violating segments: verdicts Pass, Drop | Strict mode drops on the first violation, as the header comment says | not executed | ProtoValidator.TcpStateValidateAsWritten, ProtoValidator.StrictModeToleratesFirstAsWritten | ProtoValidator.TcpStateValidate, ProtoValidator.StrictModeDropsFirstFixed |
| src/control-plane/internal/threatintel/threatintel.go:476-503 | An IPv6 CIDR whose To4 is nil is stored with its prefix length and a zero IPv4 address | A feed line "2000::/3" becomes the key 0.0.0.0/3, which covers 10.0.0.1 | IPv6 entries are skipped | not executed | ThreatFeeds.ParseLpmKeyAsWritten, ThreatFeeds.IPv6CidrCoversIPv4AsWritten | ThreatFeeds.ParseLpmKey, ThreatFeeds.ParseLpmKeyAgreesOnIPv4 |
| src/control-plane/internal/bpf/maps.go:240-259 | cidrToLPMKey accepts an IPv6 CIDR the same way, with a zero IPv4 address | Blacklisting "::/0" gives the key 0.0.0.0/0, which covers every IPv4 source | IPv6 prefixes are refused | not executed | GoMaps.CidrToLpmKeyAsWritten, GoMaps.IPv6DefaultRouteCoversAllIPv4 | GoMaps.CidrToLpmKey, GoMaps.CidrKeyAgreesOnIPv4 |
| src/control-plane/internal/bgp/bgp.go:455-468 | validatePrefix accepts any prefix net.ParseCIDR parses, IPv6 included | An IPv6 CIDR such as "2001:db8::/32" passes | Only IPv4 prefixes pass, as the IPv4-only blackhole path needs | not executed | Bgp.ValidatePrefixAsWritten, Bgp.IPv6CidrPassesAsWritten | Bgp.ValidatePrefix, Bgp.ValidatePrefixAgreesOnIPv4 |
| src/control-plane/internal/bgp/bgp.go:399-422 | The withdraw_all audit entry records the Flowspec count as the literal 0 | One active Flowspec rule: the audit says flowspec=0 | The audit records the number of Flowspec rules withdrawn | not executed | Bgp.WithdrawAllAsWritten, Bgp.WithdrawAllUndercountsAsWritten | Bgp.WithdrawAll |
| src/control-plane/internal/reputation/reputation.go:127-128,143 | poll stamps last_decay_ns with the wall clock, while the data plane compares it with bpf_ktime_get_ns, which counts from boot | Any polled entry: the next packet's elapsed time wraps around, and the full 60 decay ticks are taken at once | Stamp in the data plane's monotonic clock | not executed | ReputationEngine.PollEntryAsWritten, ReputationEngine.WallClockStampForcesFullDecayAsWritten | ReputationEngine.PollEntry, ReputationEngine.MonotonicStampDefersDecay |
| src/control-plane/internal/bpf/types.go:192-206 | FormatEvent byte-swaps the ports but passes the addresses, read little-endian by the event decoder, straight to U32BEToIP | A drop from 10.0.0.1 is printed as coming from 1.0.0.10 | Swap the addresses as the ports are | not executed | GoTypes.EventLineAsWritten, EventsReader.TenZeroZeroOnePrintsReversed | GoTypes.EventLineFixed, GoTypes.FixedReversesAddresses |
| src/control-plane/internal/bpf/maps.go:248-257 | cidrToLPMKey fills Addr, a host-order uint32, with the address's big-endian value, so the key's address bytes reach the trie reversed; geoip.go, threatintel.go and reputation.go's BlockIP and UnblockIP build keys the same way | Blacklisting "10.0.0.0/8" stores the bytes 0.0.0.10 with prefix length 8, which does not cover 10.0.0.1 | Write the address bytes in network order | not executed | GoNet.KeyBytesAsWritten, GoNet.BlacklistTenSlashEightMissesTenDotOne | GoNet.KeyBytesFixed, GoNet.KeyHandoffFixed |
| src/control-plane/internal/reputation/reputation.go:122-135,191 | poll reads reputation_map's network-order key into a host-order uint32, while BlockIP and UnblockIP key the same source by its big-endian value | 10.0.0.1 is polled, printed and tracked as 1.0.0.10; once it is auto-blocked and then blocked by hand, a poll of its decayed entry deletes its data-plane /32, though it is still listed as blocked by hand | Read the key in network order, so that every path files a source under one key | not executed | ReputationEngine.PollEntryAsWritten, ReputationEngine.PollAsWritten, ReputationEngine.PolledTenZeroZeroOnePrintsReversed, ReputationEngine.ManualBlockLostAsWritten | ReputationEngine.PollEntry, ReputationEngine.Poll, ReputationEngine.ManualBlockSurvivesPoll |
