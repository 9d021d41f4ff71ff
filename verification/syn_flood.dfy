/**
 * syn_flood_check: the SYN-cookie challenge. A pure SYN is answered in
 * place with a SYN-ACK whose sequence number is a cookie; an ACK that
 * carries a valid cookie gets an established conntrack entry, and an ACK
 * with neither an entry nor a valid cookie is dropped.
 */
module SynFlood {
  import opened Ints
  import opened Wrappers
  import opened BpfTypes
  import opened BpfHelpers
  import opened Parser

  /**
   * siphash_2_4 keyed by `key0` and a fixed second key, over the source and
   * destination address and port. Its rounds are not modelled: every
   * property below holds for any keyed function.
   */
  type SipHash = (u64, u32, u32, u16, u16) -> u64

  /** The MSS every generated cookie encodes. */
  const DEFAULT_MSS: u16 := 1460

  // ---- MSS encoding in the cookie's low two bits ----

  /** index_to_mss: the four MSS values the two cookie bits can name. */
  function IndexToMss(idx: u8): (mss: u16)
    ensures mss in {256, 536, 1220, 1460}
    ensures idx % 4 == 3 <==> mss == 1460
    ensures idx % 4 == 0 <==> mss == 256
  {
    match idx % 4
    case 3 => 1460
    case 2 => 1220
    case 1 => 536
    case _ => 256
  }

  /**
   * mss_to_index: the largest index whose MSS does not exceed `mss`, or 0
   * when even the smallest does.
   */
  function MssToIndex(mss: u16): (r: u8)
    ensures r <= 3
    ensures r > 0 ==> IndexToMss(r) <= mss
    ensures r < 3 ==> mss < IndexToMss(r + 1)
  {
    if mss >= 1460 then 3
    else if mss >= 1220 then 2
    else if mss >= 536 then 1
    else 0
  }

  /** Encoding an index's MSS gives the index back. */
  lemma MssIndexRoundTrip(idx: u8)
    ensures MssToIndex(IndexToMss(idx)) == idx % 4
  {
  }

  /** A larger MSS never encodes to a smaller index. */
  lemma MssToIndexMonotone(a: u16, b: u16)
    requires a <= b
    ensures MssToIndex(a) <= MssToIndex(b)
  {
  }

  // ---- Cookie generation and validation ----

  /** The 64-bit SipHash key made of the 32-bit seed in both halves. */
  function SeedKey(seed: u32): (k: u64)
    ensures k % U32_LIMIT == seed && k / U32_LIMIT == seed
  {
    seed * U32_LIMIT + seed
  }

  /** The hash of a packet's four-tuple under a seed. */
  function TupleHash(hash: SipHash, p: Packet, seed: u32): u64
  {
    hash(SeedKey(seed), p.srcIp, p.dstIp, p.srcPort, p.dstPort)
  }

  /**
   * syn_cookie_generate: a cookie is 30 bits of the tuple hash (bits 2 to
   * 31) above the two-bit MSS index.
   */
  function CookieGenerate(hash: SipHash, p: Packet, seed: u32, mssIdx: u8): (c: u32)
    ensures c % 4 == mssIdx % 4
    ensures c / 4 == (TupleHash(hash, p, seed) / 4) % 0x4000_0000
  {
    var q := TupleHash(hash, p, seed) / 4;
    TruncateThenShift(q);
    (q % U32_LIMIT * 4) % U32_LIMIT + mssIdx % 4
  }

  /** Truncating to 32 bits and then shifting left by two keeps the low 30 bits. */
  lemma TruncateThenShift(q: nat)
    ensures (q % U32_LIMIT * 4) % U32_LIMIT == q % 0x4000_0000 * 4
  {
    var a := q % U32_LIMIT;
    var n := q / U32_LIMIT;
    var t := a / 0x4000_0000;
    var b := a % 0x4000_0000;
    assert q == n * U32_LIMIT + a;
    assert a == t * 0x4000_0000 + b;
    assert n * U32_LIMIT == (n * 4) * 0x4000_0000;
    DivModUnique(q, 0x4000_0000, n * 4 + t, b);
    assert a * 4 == t * U32_LIMIT + b * 4;
    DivModUnique(a * 4, U32_LIMIT, t, b * 4);
  }

  /** Only the index's low two bits reach the cookie. */
  lemma CookieIndexLowBits(hash: SipHash, p: Packet, seed: u32, mssIdx: u8)
    ensures CookieGenerate(hash, p, seed, mssIdx) == CookieGenerate(hash, p, seed, mssIdx % 4)
  {
  }

  /**
   * syn_cookie_validate: the acknowledged number minus one (modulo 2^32) is
   * taken as the cookie and checked against the current seed, then the
   * previous one; without the seed record nothing validates.
   */
  function CookieValidate(hash: SipHash, p: Packet, cookies: Option<SynCookieCtx>, ackSeq: u32): (ok: bool)
    ensures ok ==> cookies.Some?
  {
    match cookies
    case None => false
    case Some(sc) =>
      var cookie := Sub32(ackSeq, 1);
      var mssIdx := cookie % 4;
      cookie == CookieGenerate(hash, p, sc.seedCurrent, mssIdx)
      || cookie == CookieGenerate(hash, p, sc.seedPrevious, mssIdx)
  }

  /**
   * Validation accepts exactly the acknowledgements of cookies generated
   * for the same four-tuple under the current or the previous seed, with
   * any MSS index.
   */
  lemma ValidateAcceptsExactlyGenerated(hash: SipHash, p: Packet, sc: SynCookieCtx, ackSeq: u32)
    ensures CookieValidate(hash, p, Some(sc), ackSeq) <==>
      exists seed: u32, idx: u8 :: (seed == sc.seedCurrent || seed == sc.seedPrevious)
        && Sub32(ackSeq, 1) == CookieGenerate(hash, p, seed, idx)
  {
    var cookie := Sub32(ackSeq, 1);
    if CookieValidate(hash, p, Some(sc), ackSeq) {
      var idx: u8 := cookie % 4;
      if cookie == CookieGenerate(hash, p, sc.seedCurrent, idx) {
        assert exists seed: u32 :: seed == sc.seedCurrent && cookie == CookieGenerate(hash, p, seed, idx);
      } else {
        assert exists seed: u32 :: seed == sc.seedPrevious && cookie == CookieGenerate(hash, p, seed, idx);
      }
    }
    if exists seed: u32, idx: u8 :: (seed == sc.seedCurrent || seed == sc.seedPrevious)
        && cookie == CookieGenerate(hash, p, seed, idx) {
      var seed: u32, idx: u8 :| (seed == sc.seedCurrent || seed == sc.seedPrevious)
        && cookie == CookieGenerate(hash, p, seed, idx);
      CookieIndexLowBits(hash, p, seed, idx);
      assert idx % 4 == cookie % 4;
    }
  }

  /**
   * The handshake closes: the ACK that acknowledges the SYN-ACK's cookie,
   * sent on the same four-tuple, validates while the seed that made the
   * cookie is the current or the previous one.
   */
  lemma CookieRoundTrip(hash: SipHash, syn: Packet, ack: Packet, seed: u32, sc: SynCookieCtx)
    requires ack.srcIp == syn.srcIp && ack.dstIp == syn.dstIp
    requires ack.srcPort == syn.srcPort && ack.dstPort == syn.dstPort
    requires seed == sc.seedCurrent || seed == sc.seedPrevious
    requires ack.tcpAckSeq == Add32(CookieGenerate(hash, syn, seed, MssToIndex(DEFAULT_MSS)), 1)
    ensures CookieValidate(hash, ack, Some(sc), ack.tcpAckSeq)
  {
    var c := CookieGenerate(hash, syn, seed, MssToIndex(DEFAULT_MSS));
    assert Sub32(ack.tcpAckSeq, 1) == c;
    assert TupleHash(hash, ack, seed) == TupleHash(hash, syn, seed);
    assert c == CookieGenerate(hash, ack, seed, c % 4);
  }

  // ---- The SYN-ACK written over the SYN ----

  /** Where the reply's headers lie: an Ethernet header, then 20-byte IPv4 and TCP headers. */
  predicate ReplyLayout(frame: seq<u8>, l3: nat, l4: nat)
  {
    ETH_HLEN <= l3 && l3 + IPV4_MIN_HLEN <= l4 && l4 + TCP_MIN_HLEN <= |frame|
  }

  /** The flag byte of the reply: SYN and ACK set, FIN, RST, PSH and URG clear, ECE and CWR kept. */
  function SynAckFlagByte(b: u8): (r: u8)
    ensures (r as bv8) & 0x3f == TCP_FLAG_SYN | TCP_FLAG_ACK
    ensures (r as bv8) & 0xc0 == (b as bv8) & 0xc0
  {
    (((b as bv8) & 0xc0) | 0x12) as u8
  }

  /**
   * One byte of the frame after the in-place rewrite, before the IPv4
   * checksum is filled in: MACs, addresses and ports swapped, TTL 64, ID 0,
   * the cookie as sequence number, the SYN's sequence number plus one as
   * acknowledgement, the reply flags, window 65535, both checksums zero.
   */
  function RewriteByte(frame: seq<u8>, l3: nat, l4: nat, cookie: u32, k: nat): u8
    requires ReplyLayout(frame, l3, l4) && k < |frame|
  {
    if k < 6 then frame[k + 6]
    else if k < 12 then frame[k - 6]
    else if l3 + 4 <= k < l3 + 6 then 0
    else if k == l3 + 8 then 64
    else if l3 + 10 <= k < l3 + 12 then 0
    else if l3 + 12 <= k < l3 + 16 then frame[k + 4]
    else if l3 + 16 <= k < l3 + 20 then frame[k - 4]
    else if l4 <= k < l4 + 2 then frame[k + 2]
    else if l4 + 2 <= k < l4 + 4 then frame[k - 2]
    else if l4 + 4 <= k < l4 + 8 then BeBytes(cookie, 4)[k - (l4 + 4)]
    else if l4 + 8 <= k < l4 + 12 then BeBytes(Add32(Be32At(frame, l4 + 4), 1), 4)[k - (l4 + 8)]
    else if k == l4 + 13 then SynAckFlagByte(frame[l4 + 13])
    else if l4 + 14 <= k < l4 + 16 then 0xff
    else if l4 + 16 <= k < l4 + 18 then 0
    else frame[k]
  }

  function Rewritten(frame: seq<u8>, l3: nat, l4: nat, cookie: u32): (r: seq<u8>)
    requires ReplyLayout(frame, l3, l4)
    ensures |r| == |frame|
    ensures forall k :: 0 <= k < |r| ==> r[k] == RewriteByte(frame, l3, l4, cookie, k)
  {
    seq(|frame|, k requires 0 <= k < |frame| => RewriteByte(frame, l3, l4, cookie, k))
  }

  // ---- The IPv4 header checksum ----

  /** The sum of `n` 16-bit words from `start`, each loaded in the host's (little-endian) order. */
  function LeWordSum(h: seq<u8>, start: nat, n: nat): (s: nat)
    requires start + 2 * n <= |h|
    ensures s <= n * ONES16
  {
    if n == 0 then 0 else LeWordSum(h, start, n - 1) + Le16At(h, start + 2 * (n - 1))
  }

  /** The same sum with the words read in network (big-endian) order. */
  function BeWordSum(h: seq<u8>, start: nat, n: nat): (s: nat)
    requires start + 2 * n <= |h|
  {
    if n == 0 then 0 else BeWordSum(h, start, n - 1) + Be16At(h, start + 2 * (n - 1))
  }

  /**
   * A header passes the checksum test of section 3.1 of RFC 791 when the
   * one's complement sum of its words is all ones, that is, when the plain
   * sum is a multiple of 0xffff (an all-zero header aside).
   */
  predicate ChecksumValid(h: seq<u8>, start: nat, words: nat)
    requires start + 2 * words <= |h|
  {
    BeWordSum(h, start, words) % ONES16 == 0
  }

  /**
   * Byte-order independence (section 2 (B) of RFC 1071): the big-endian
   * sum is 256 times the little-endian sum, modulo 0xffff.
   */
  lemma {:induction false} BeSumIsScaledLeSum(h: seq<u8>, start: nat, n: nat)
    requires start + 2 * n <= |h|
    ensures BeWordSum(h, start, n) % ONES16 == (0x100 * LeWordSum(h, start, n)) % ONES16
    decreases n
  {
    if n > 0 {
      BeSumIsScaledLeSum(h, start, n - 1);
      var i := start + 2 * (n - 1);
      var a := h[i] as int;
      var b := h[i + 1] as int;
      var be := BeWordSum(h, start, n - 1);
      var le := 0x100 * LeWordSum(h, start, n - 1);
      assert 0x100 * Le16At(h, i) == Be16At(h, i) + ONES16 * b;
      assert 0x100 * LeWordSum(h, start, n) == le + Be16At(h, i) + ONES16 * b;
      ModAddMultiple(le + Be16At(h, i), b);
      ModAddCongruent(be, le, Be16At(h, i));
    }
  }

  lemma ModAddMultiple(x: int, j: int)
    ensures (x + ONES16 * j) % ONES16 == x % ONES16
  {
  }

  lemma ModAddCongruent(x: int, y: int, z: int)
    requires x % ONES16 == y % ONES16
    ensures (x + z) % ONES16 == (y + z) % ONES16
  {
    assert x == ONES16 * (x / ONES16) + x % ONES16;
    assert y == ONES16 * (y / ONES16) + y % ONES16;
    ModAddMultiple(x % ONES16 + z, x / ONES16);
    ModAddMultiple(y % ONES16 + z, y / ONES16);
  }

  /** Words outside the checksum field are summed alike in two headers that agree outside it. */
  lemma {:induction false} SumWithCheckField(h: seq<u8>, g: seq<u8>, start: nat, n: nat)
    requires start + 2 * n <= |h| == |g|
    requires 6 <= n
    requires forall k :: start <= k < start + 2 * n && k != start + 10 && k != start + 11 ==> h[k] == g[k]
    requires h[start + 10] == 0 && h[start + 11] == 0
    ensures LeWordSum(g, start, n) == LeWordSum(h, start, n) + Le16At(g, start + 10)
    decreases n
  {
    if n > 6 {
      SumWithCheckField(h, g, start, n - 1);
      assert Le16At(g, start + 2 * (n - 1)) == Le16At(h, start + 2 * (n - 1));
    } else {
      SumAgrees(h, g, start, 5);
    }
  }

  lemma {:induction false} SumAgrees(h: seq<u8>, g: seq<u8>, start: nat, n: nat)
    requires start + 2 * n <= |h| && start + 2 * n <= |g|
    requires forall k :: start <= k < start + 2 * n ==> h[k] == g[k]
    ensures LeWordSum(g, start, n) == LeWordSum(h, start, n)
    decreases n
  {
    if n > 0 {
      SumAgrees(h, g, start, n - 1);
      assert Le16At(g, start + 2 * (n - 1)) == Le16At(h, start + 2 * (n - 1));
    }
  }

  /** Stores a 16-bit value at `i` in the host's (little-endian) order. */
  function StoreLe16(h: seq<u8>, i: nat, v: u16): (r: seq<u8>)
    requires i + 2 <= |h|
    ensures |r| == |h| && Le16At(r, i) == v
    ensures forall k :: 0 <= k < |h| && k != i && k != i + 1 ==> r[k] == h[k]
  {
    h[i := v % 0x100][i + 1 := v / 0x100]
  }

  /**
   * Fills in the IPv4 checksum the way syn_flood_check does: the folded
   * complement of the sum of the header's first ten words (the checksum
   * field being zero), stored in host order.
   */
  function FillChecksum10(h: seq<u8>, l3: nat): (r: seq<u8>)
    requires l3 + IPV4_MIN_HLEN <= |h|
    ensures |r| == |h|
    ensures forall k :: 0 <= k < |h| && k != l3 + 10 && k != l3 + 11 ==> r[k] == h[k]
  {
    StoreLe16(h, l3 + 10, CsumFold(LeWordSum(h, l3, 10)))
  }

  /** The checksum over `words` words of a header whose checksum field is zero. */
  function FillChecksum(h: seq<u8>, l3: nat, words: nat): (r: seq<u8>)
    requires 10 <= words <= 30 && l3 + 2 * words <= |h|
    ensures |r| == |h|
    ensures forall k :: 0 <= k < |h| && k != l3 + 10 && k != l3 + 11 ==> r[k] == h[k]
  {
    assert words * ONES16 <= 30 * ONES16;
    StoreLe16(h, l3 + 10, CsumFold(LeWordSum(h, l3, words)))
  }

  /** A checksum filled in over `words` words makes those words pass the test. */
  lemma FillChecksumValid(h: seq<u8>, l3: nat, words: nat)
    requires 10 <= words <= 30 && l3 + 2 * words <= |h|
    requires h[l3 + 10] == 0 && h[l3 + 11] == 0
    ensures ChecksumValid(FillChecksum(h, l3, words), l3, words)
  {
    var g := FillChecksum(h, l3, words);
    var s := LeWordSum(h, l3, words);
    SumWithCheckField(h, g, l3, words);
    assert s <= 30 * ONES16;
    assert Le16At(g, l3 + 10) == CsumFold(s);
    var t :| 0 <= t <= ONES16 && t % ONES16 == s % ONES16 && CsumFold(s) == ONES16 - t;
    CancelResidue(s, t);
    BeSumIsScaledLeSum(g, l3, words);
    ScaleMultiple(LeWordSum(g, l3, words));
  }

  /** A sum plus the complement of its residue is a multiple of 0xffff. */
  lemma CancelResidue(s: int, t: int)
    requires t % ONES16 == s % ONES16
    ensures (s + (ONES16 - t)) % ONES16 == 0
  {
    assert s == ONES16 * (s / ONES16) + s % ONES16;
    assert t == ONES16 * (t / ONES16) + t % ONES16;
    assert s + (ONES16 - t) == ONES16 * (s / ONES16 - t / ONES16 + 1);
    ModAddMultiple(0, s / ONES16 - t / ONES16 + 1);
  }

  /** 256 times a multiple of 0xffff is one too. */
  lemma ScaleMultiple(x: int)
    requires x % ONES16 == 0
    ensures (0x100 * x) % ONES16 == 0
  {
    assert x == ONES16 * (x / ONES16);
    assert 0x100 * x == ONES16 * (0x100 * (x / ONES16));
    ModAddMultiple(0, 0x100 * (x / ONES16));
  }

  /**
   * The reply as syn_flood_check writes it: the rewrite, then the checksum
   * over the first 20 header bytes whatever the header length.
   */
  function SynAckFrame10(frame: seq<u8>, l3: nat, l4: nat, cookie: u32): (r: seq<u8>)
    requires ReplyLayout(frame, l3, l4)
    ensures |r| == |frame|
    ensures ChecksumValid(r, l3, 10)
  {
    var h := Rewritten(frame, l3, l4, cookie);
    FillChecksumValid(h, l3, 10);
    FillChecksum10(h, l3)
  }

  /**
   * The reply with the checksum over the whole IPv4 header, IHL words of
   * four bytes, options included.
   */
  function SynAckFrame(frame: seq<u8>, l3: nat, l4: nat, cookie: u32): (r: seq<u8>)
    requires ReplyLayout(frame, l3, l4)
    requires 5 <= Ihl(frame, l3) && l3 + Ihl(frame, l3) * 4 <= l4
    ensures |r| == |frame|
    ensures ChecksumValid(r, l3, Ihl(frame, l3) * 2)
  {
    var h := Rewritten(frame, l3, l4, cookie);
    FillChecksumValid(h, l3, Ihl(frame, l3) * 2);
    FillChecksum(h, l3, Ihl(frame, l3) * 2)
  }

  /** The two agree on every header without options. */
  lemma SynAckFramesAgreeWithoutOptions(frame: seq<u8>, l3: nat, l4: nat, cookie: u32)
    requires ReplyLayout(frame, l3, l4) && Ihl(frame, l3) == 5
    ensures SynAckFrame(frame, l3, l4, cookie) == SynAckFrame10(frame, l3, l4, cookie)
  {
  }

  /**
   * With IPv4 options the checksum syn_flood_check writes leaves the whole
   * header failing the test whenever the option words do not themselves
   * sum to a multiple of 0xffff (a one-word Router Alert option, 0x9404
   * 0x0000, say).
   */
  lemma OptionsBreakChecksum10(frame: seq<u8>, l3: nat, l4: nat, cookie: u32)
    requires ReplyLayout(frame, l3, l4)
    requires Ihl(frame, l3) == 6 && l3 + 24 <= l4
    requires (Be16At(frame, l3 + 20) + Be16At(frame, l3 + 22)) % ONES16 != 0
    ensures !ChecksumValid(SynAckFrame10(frame, l3, l4, cookie), l3, 12)
  {
    var r := SynAckFrame10(frame, l3, l4, cookie);
    assert r[l3 + 20] == frame[l3 + 20] && r[l3 + 21] == frame[l3 + 21];
    assert r[l3 + 22] == frame[l3 + 22] && r[l3 + 23] == frame[l3 + 23];
    assert BeWordSum(r, l3, 12) == BeWordSum(r, l3, 10) + Be16At(frame, l3 + 20) + Be16At(frame, l3 + 22);
    MultipleOffset(BeWordSum(r, l3, 10), Be16At(frame, l3 + 20) + Be16At(frame, l3 + 22));
  }

  /** Adding a non-multiple of 0xffff to a multiple gives a non-multiple. */
  lemma MultipleOffset(a: nat, b: nat)
    requires a % ONES16 == 0 && b % ONES16 != 0
    ensures (a + b) % ONES16 != 0
  {
    assert a == (a / ONES16) * ONES16;
    assert (a + b) % ONES16 == b % ONES16;
  }

  /** The Router Alert header of the finding is such an input. */
  lemma RouterAlertBreaksChecksum10(frame: seq<u8>, l3: nat, l4: nat, cookie: u32)
    requires ReplyLayout(frame, l3, l4)
    requires Ihl(frame, l3) == 6 && l3 + 24 <= l4
    requires frame[l3 + 20] == 0x94 && frame[l3 + 21] == 0x04 && frame[l3 + 22] == 0 && frame[l3 + 23] == 0
    ensures !ChecksumValid(SynAckFrame10(frame, l3, l4, cookie), l3, 12)
    ensures ChecksumValid(SynAckFrame(frame, l3, l4, cookie), l3, 12)
  {
    OptionsBreakChecksum10(frame, l3, l4, cookie);
  }

  /** Outside the checksum field the reply is the rewrite. */
  lemma ReplyIsRewrite(frame: seq<u8>, l3: nat, l4: nat, cookie: u32, k: nat)
    requires ReplyLayout(frame, l3, l4)
    requires 5 <= Ihl(frame, l3) && l3 + Ihl(frame, l3) * 4 <= l4
    requires k < |frame| && k != l3 + 10 && k != l3 + 11
    ensures SynAckFrame(frame, l3, l4, cookie)[k] == RewriteByte(frame, l3, l4, cookie, k)
  {
  }

  /** The reply goes back where the SYN came from: MACs, addresses and ports swapped. */
  lemma SynAckEndpoints(frame: seq<u8>, l3: nat, l4: nat, cookie: u32)
    requires ReplyLayout(frame, l3, l4)
    requires 5 <= Ihl(frame, l3) && l3 + Ihl(frame, l3) * 4 <= l4
    ensures var r := SynAckFrame(frame, l3, l4, cookie);
      && r[..6] == frame[6..12] && r[6..12] == frame[..6]
      && Be32At(r, l3 + 12) == Be32At(frame, l3 + 16)
      && Be32At(r, l3 + 16) == Be32At(frame, l3 + 12)
      && Be16At(r, l4) == Be16At(frame, l4 + 2)
      && Be16At(r, l4 + 2) == Be16At(frame, l4)
  {
    var r := SynAckFrame(frame, l3, l4, cookie);
    forall k | 0 <= k < 12 { ReplyIsRewrite(frame, l3, l4, cookie, k); }
    forall k | l3 + 12 <= k < l3 + 20 { ReplyIsRewrite(frame, l3, l4, cookie, k); }
    forall k | l4 <= k < l4 + 4 { ReplyIsRewrite(frame, l3, l4, cookie, k); }
    BeWordAt(r, l3 + 12, frame[l3 + 16], frame[l3 + 17], frame[l3 + 18], frame[l3 + 19]);
    BeWordAt(r, l3 + 16, frame[l3 + 12], frame[l3 + 13], frame[l3 + 14], frame[l3 + 15]);
    BeWordAt(frame, l3 + 12, frame[l3 + 12], frame[l3 + 13], frame[l3 + 14], frame[l3 + 15]);
    BeWordAt(frame, l3 + 16, frame[l3 + 16], frame[l3 + 17], frame[l3 + 18], frame[l3 + 19]);
  }

  /**
   * The reply's sequence number is the cookie and it acknowledges the SYN's
   * sequence number plus one (modulo 2^32).
   */
  lemma SynAckSequence(frame: seq<u8>, l3: nat, l4: nat, cookie: u32)
    requires ReplyLayout(frame, l3, l4)
    requires 5 <= Ihl(frame, l3) && l3 + Ihl(frame, l3) * 4 <= l4
    ensures var r := SynAckFrame(frame, l3, l4, cookie);
      && Be32At(r, l4 + 4) == cookie
      && Be32At(r, l4 + 8) == Add32(Be32At(frame, l4 + 4), 1)
  {
    var r := SynAckFrame(frame, l3, l4, cookie);
    forall k | l4 + 4 <= k < l4 + 12 { ReplyIsRewrite(frame, l3, l4, cookie, k); }
    assert r[l4 + 4..l4 + 8] == BeBytes(cookie, 4);
    assert r[l4 + 8..l4 + 12] == BeBytes(Add32(Be32At(frame, l4 + 4), 1), 4);
    BytesAt(r, l4 + 4, cookie);
    BytesAt(r, l4 + 8, Add32(Be32At(frame, l4 + 4), 1));
  }

  /**
   * The reply carries SYN and ACK and none of FIN, RST, PSH and URG, keeps
   * the protocol and the data offset, has TTL 64 and window 65535.
   */
  lemma SynAckHeaderFields(frame: seq<u8>, l3: nat, l4: nat, cookie: u32)
    requires ReplyLayout(frame, l3, l4)
    requires 5 <= Ihl(frame, l3) && l3 + Ihl(frame, l3) * 4 <= l4
    ensures var r := SynAckFrame(frame, l3, l4, cookie);
      && TcpFlagsAt(r, l4) & 0x3f == TCP_FLAG_SYN | TCP_FLAG_ACK
      && DataOffset(r, l4) == DataOffset(frame, l4)
      && r[l3 + 9] == frame[l3 + 9] && r[l3 + 8] == 64
      && Be16At(r, l4 + 14) == 0xffff
  {
    ReplyIsRewrite(frame, l3, l4, cookie, l4 + 13);
    ReplyIsRewrite(frame, l3, l4, cookie, l4 + 12);
    ReplyIsRewrite(frame, l3, l4, cookie, l4 + 14);
    ReplyIsRewrite(frame, l3, l4, cookie, l4 + 15);
    ReplyIsRewrite(frame, l3, l4, cookie, l3 + 8);
    ReplyIsRewrite(frame, l3, l4, cookie, l3 + 9);
  }

  /** Four bytes read in network order. */
  lemma BeWordAt(b: seq<u8>, i: nat, w: u8, x: u8, y: u8, z: u8)
    requires i + 4 <= |b| && b[i] == w && b[i + 1] == x && b[i + 2] == y && b[i + 3] == z
    ensures Be32At(b, i) == Be32At([w, x, y, z], 0)
  {
    assert b[i..i + 4] == [w, x, y, z];
    BeReadSlice(b, i, 4);
  }

  /** Four big-endian bytes of `v` at `i` read back as `v`. */
  lemma BytesAt(b: seq<u8>, i: nat, v: u32)
    requires i + 4 <= |b| && b[i..i + 4] == BeBytes(v, 4)
    ensures Be32At(b, i) == v
  {
    assert b == b[..i] + BeBytes(v, 4) + b[i + 4..];
    BeRoundTrip(v, 4, b[..i], b[i + 4..]);
  }

  lemma BeReadSlice(b: seq<u8>, i: nat, n: nat)
    requires i + n <= |b|
    ensures BeRead(b, i, n) == BeRead(b[i..i + n], 0, n)
  {
    assert b == b[..i] + b[i..i + n] + b[i + n..];
    BeReadShift(b[..i], b[i..i + n], b[i + n..], n);
  }

  lemma {:induction false} BeReadShift(pre: seq<u8>, mid: seq<u8>, post: seq<u8>, n: nat)
    requires n <= |mid|
    ensures BeRead(pre + mid + post, |pre|, n) == BeRead(mid, 0, n)
    decreases n
  {
    if n > 0 {
      BeReadShift(pre, mid, post, n - 1);
    }
  }

  // ---- The module ----

  /** The verdict and effects of syn_flood_check, with the frame as transmitted and the conntrack table. */
  datatype SynResult = SynResult(outcome: Outcome, frame: seq<u8>, conntrack: ConntrackTable)

  /** The conntrack entry a validated cookie creates. */
  function CookieEntry(p: Packet, now: u64): (e: ConntrackEntry)
    ensures e.state == CT_STATE_ESTABLISHED && e.flags == CT_FLAG_SYN_COOKIE_VERIFIED
    ensures e.lastSeenNs == now && e.packetsFwd == 1 && e.packetsRev == 0
    ensures e.bytesFwd == p.pktLen && e.bytesRev == 0
  {
    ConntrackEntry(now, 1, 0, p.pktLen, 0, CT_STATE_ESTABLISHED, CT_FLAG_SYN_COOKIE_VERIFIED)
  }

  /** Cookies are in force for this packet: a TCP header and the feature switched on. */
  predicate CookiesApply(p: Packet, cfg: Config)
  {
    p.ipProto == IPPROTO_TCP && p.l4.Some? && GetConfig(cfg, CFG_SYN_COOKIE_ENABLE) != 0
  }

  /** The cookie the reply to `p` carries. */
  function ReplyCookie(hash: SipHash, p: Packet, sc: SynCookieCtx): (c: u32)
    ensures c % 4 == 3 && IndexToMss(c % 4) == DEFAULT_MSS
  {
    CookieGenerate(hash, p, sc.seedCurrent, MssToIndex(DEFAULT_MSS))
  }

  /**
   * syn_flood_check. A pure SYN is turned into the SYN-ACK (TX) carrying the
   * current seed's cookie, with one syn_cookies_sent increment. An ACK
   * without SYN whose flow is established passes; otherwise a valid cookie
   * creates an established entry (one syn_cookies_validated increment) and
   * passes, and an invalid one with no entry at all is dropped (one
   * syn_cookies_failed increment and one event). Everything else passes
   * unchanged. The reply's IPv4 checksum covers the whole header.
   */
  function SynFloodCheck(hash: SipHash, p: Packet, cfg: Config, cookies: Option<SynCookieCtx>,
                         ct: ConntrackTable, now: u64): (r: SynResult)
    requires WellFormed(p)
    ensures !CookiesApply(p, cfg) ==> r == SynResult(PassOutcome(), p.frame, ct)
    ensures r.outcome.verdict == Tx <==> CookiesApply(p, cfg) && IsPureSyn(p.tcpFlags) && cookies.Some?
    ensures r.outcome.verdict == Tx ==>
      && r.outcome.bumps == [SynCookiesSent] && r.outcome.events == [] && r.conntrack == ct
      && r.frame == SynAckFrame(p.frame, p.iph.value, p.l4.value, ReplyCookie(hash, p, cookies.value))
    ensures r.outcome.verdict != Tx ==> r.frame == p.frame
    ensures r.outcome.verdict == Drop <==>
      && CookiesApply(p, cfg) && IsAckNotSyn(p.tcpFlags)
      && ForwardKey(p) !in ct && !CookieValidate(hash, p, cookies, p.tcpAckSeq)
    ensures r.outcome.verdict == Drop ==>
      && r.outcome.bumps == [SynCookiesFailed] && r.conntrack == ct
      && r.outcome.events == [DropEvent(p, now, ATTACK_SYN_FLOOD, DROP_SYN_FLOOD)]
    ensures r.outcome.verdict in {Pass, Tx, Drop}
    ensures r.conntrack != ct ==>
      && CookiesApply(p, cfg) && IsAckNotSyn(p.tcpFlags) && CookieValidate(hash, p, cookies, p.tcpAckSeq)
      && (ForwardKey(p) !in ct || ct[ForwardKey(p)].state < CT_STATE_ESTABLISHED)
      && r.conntrack == ct[ForwardKey(p) := CookieEntry(p, now)]
      && r.outcome == Outcome(Pass, [SynCookiesValidated], [])
  {
    var untouched := SynResult(PassOutcome(), p.frame, ct);
    if p.ipProto != IPPROTO_TCP || p.l4.None? then untouched
    else if GetConfig(cfg, CFG_SYN_COOKIE_ENABLE) == 0 then untouched
    else if IsPureSyn(p.tcpFlags) then
      match cookies
      case None => untouched
      case Some(sc) =>
        var l3 := p.iph.value;
        var l4 := p.l4.value;
        if l4 + TCP_MIN_HLEN > |p.frame| then untouched
        else
          var reply := SynAckFrame(p.frame, l3, l4, ReplyCookie(hash, p, sc));
          SynResult(Outcome(Tx, [SynCookiesSent], []), reply, ct)
    else if IsAckNotSyn(p.tcpFlags) then
      var key := ForwardKey(p);
      if key in ct && ct[key].state >= CT_STATE_ESTABLISHED then untouched
      else if CookieValidate(hash, p, cookies, p.tcpAckSeq) then
        SynResult(Outcome(Pass, [SynCookiesValidated], []), p.frame, ct[key := CookieEntry(p, now)])
      else if key !in ct then
        SynResult(Outcome(Drop, [SynCookiesFailed], [DropEvent(p, now, ATTACK_SYN_FLOOD, DROP_SYN_FLOOD)]), p.frame, ct)
      else untouched
    else untouched
  }

  /**
   * The whole handshake through the module: the SYN is answered, and the
   * ACK the client then sends for the reply's cookie passes and installs an
   * established, cookie-verified entry, provided no established entry is
   * already there and the seeds did not rotate twice in between.
   */
  lemma HandshakeCompletes(hash: SipHash, syn: Packet, ack: Packet, cfg: Config,
                           sc: SynCookieCtx, later: SynCookieCtx, ct: ConntrackTable, now: u64)
    requires WellFormed(syn) && WellFormed(ack)
    requires CookiesApply(syn, cfg) && IsPureSyn(syn.tcpFlags)
    requires CookiesApply(ack, cfg) && IsAckNotSyn(ack.tcpFlags)
    requires ack.srcIp == syn.srcIp && ack.dstIp == syn.dstIp
    requires ack.srcPort == syn.srcPort && ack.dstPort == syn.dstPort
    requires later.seedCurrent == sc.seedCurrent || later.seedPrevious == sc.seedCurrent
    requires ack.tcpAckSeq == Add32(ReplyCookie(hash, syn, sc), 1)
    requires ForwardKey(ack) !in ct || ct[ForwardKey(ack)].state < CT_STATE_ESTABLISHED
    ensures SynFloodCheck(hash, syn, cfg, Some(sc), ct, now).outcome.verdict == Tx
    ensures var r := SynFloodCheck(hash, ack, cfg, Some(later), ct, now);
      r.outcome.verdict == Pass && r.conntrack == ct[ForwardKey(ack) := CookieEntry(ack, now)]
  {
    CookieRoundTrip(hash, syn, ack, sc.seedCurrent, later);
  }
}
