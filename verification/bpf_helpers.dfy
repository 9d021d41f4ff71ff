/**
 * The scrubber's shared helpers: bounds checks, min/max, the Internet
 * checksum primitives (section 1 of RFC 1071, section 3 of RFC 1624), TCP
 * flag extraction, the token bucket, and the statistics updates.
 */
module BpfHelpers {
  import opened Ints
  import opened BpfTypes

  /** A byte at offset `k` can be read from a packet that ends at `dataEnd`. */
  predicate Readable(k: nat, dataEnd: nat) { k < dataEnd }

  /** bounds_check: the `size` bytes starting at `ptr` all lie before `dataEnd`. */
  function BoundsCheck(ptr: nat, size: nat, dataEnd: nat): (r: bool)
    ensures r ==> forall k :: ptr <= k < ptr + size ==> Readable(k, dataEnd)
    ensures size > 0 && (forall k :: ptr <= k < ptr + size ==> Readable(k, dataEnd)) ==> r
    ensures size == 0 ==> (r <==> ptr <= dataEnd)
  {
    assert size > 0 && (forall k :: ptr <= k < ptr + size ==> Readable(k, dataEnd))
      ==> Readable(ptr + size - 1, dataEnd);
    ptr + size <= dataEnd
  }

  function MinU64(a: u64, b: u64): (r: u64)
    ensures r <= a && r <= b && (r == a || r == b)
  {
    if a < b then a else b
  }

  function MaxU64(a: u64, b: u64): (r: u64)
    ensures r >= a && r >= b && (r == a || r == b)
  {
    if a > b then a else b
  }

  function MinU32(a: u32, b: u32): (r: u32)
    ensures r <= a && r <= b && (r == a || r == b)
  {
    if a < b then a else b
  }

  // ---- Internet checksum ----

  const ONES16: int := 0xffff
  const ONES32: int := 0xffff_ffff

  /** One end-around-carry fold of a 32-bit value into 17 bits. */
  function FoldOnce(c: u32): (r: u32)
  {
    c % 0x1_0000 + c / 0x1_0000
  }

  /**
   * csum_fold: after the two folds the sum fits in 16 bits and keeps its
   * value modulo 0xffff; the result is its one's complement.
   */
  function CsumFold(csum: u32): (r: u16)
    ensures exists s :: 0 <= s <= ONES16 && s % ONES16 == csum % ONES16 && r == ONES16 - s
  {
    var once := FoldOnce(csum);
    var twice := FoldOnce(once);
    FoldOnceKeepsResidue(csum);
    FoldOnceKeepsResidue(once);
    assert twice <= ONES16;
    ONES16 - twice
  }

  lemma FoldOnceKeepsResidue(c: u32)
    ensures FoldOnce(c) % ONES16 == c % ONES16
    ensures FoldOnce(c) <= 0x1_fffe
    ensures c <= 0x1_fffe ==> FoldOnce(c) <= ONES16
  {
    var hi := c / 0x1_0000;
    var lo := c % 0x1_0000;
    assert c == hi * 0x1_0000 + lo;
    assert hi * 0x1_0000 == hi * ONES16 + hi;
  }

  /** csum_add: 32-bit addition with the carry wrapped back in (one's complement sum). */
  function CsumAdd(csum: u32, addend: u32): (r: u32)
    ensures r % ONES32 == (csum + addend) % ONES32
    ensures csum + addend < U32_LIMIT ==> r == csum + addend
  {
    var sum := (csum + addend) % U32_LIMIT;
    var carry := if sum < addend then 1 else 0;
    assert csum + addend >= U32_LIMIT ==> sum == csum + addend - U32_LIMIT && sum < addend;
    assert csum + addend < U32_LIMIT ==> sum == csum + addend && sum >= addend;
    sum + carry
  }

  /** The 16-bit one's complement of the low half of a value. */
  function Not16(v: nat): (r: nat)
    ensures r <= ONES16
  {
    ONES16 - v % 0x1_0000
  }

  /**
   * csum_diff4: replacing the 32-bit word `oldVal` by `newVal` in data covered by
   * checksum `csum`. The complement of the result equals, modulo 0xffff,
   * the complement of the old checksum plus the complements of the old
   * word's halves plus the new word's halves (RFC 1624, section 3, eqn. 3).
   */
  function CsumDiff4(oldVal: u32, newVal: u32, csum: u32): (r: u16)
    ensures (ONES16 - r) % ONES16
         == (Not16(csum) + Not16(oldVal) + Not16(oldVal / 0x1_0000) + newVal % 0x1_0000 + newVal / 0x1_0000) % ONES16
  {
    var tmp := Not16(csum) + Not16(oldVal) + Not16(oldVal / 0x1_0000) + newVal % 0x1_0000 + newVal / 0x1_0000;
    CsumFold(tmp)
  }

  /** Adding a multiple of the modulus does not change the remainder. */
  lemma ModOfShift(x: int, y: int, k: int, m: int)
    requires m > 0 && x == y + k * m
    ensures x % m == y % m
  {
    assert y == (y / m) * m + y % m;
    assert x == (y / m + k) * m + y % m;
    DivModUnique(x, m, y / m + k, y % m);
  }

  /**
   * What csum_diff4 is for: if `csum` is a valid checksum of data whose
   * sixteen-bit words are `rest` plus the two halves of `oldVal` (its
   * complement is their one's complement sum), then the result is a valid
   * checksum of the same data with `newVal` in place of `oldVal`.
   */
  lemma CsumDiff4Updates(rest: nat, oldVal: u32, newVal: u32, csum: u32)
    requires Not16(csum) % ONES16 == (rest + oldVal % 0x1_0000 + oldVal / 0x1_0000) % ONES16
    ensures (ONES16 - CsumDiff4(oldVal, newVal, csum)) % ONES16
         == (rest + newVal % 0x1_0000 + newVal / 0x1_0000) % ONES16
  {
    var a := Not16(csum);
    var hi := oldVal / 0x1_0000;
    var target := rest + newVal % 0x1_0000 + newVal / 0x1_0000;
    var before := rest + oldVal % 0x1_0000 + hi;
    assert Not16(hi) == ONES16 - hi;
    var t := a + Not16(oldVal) + Not16(hi) + newVal % 0x1_0000 + newVal / 0x1_0000;
    var k := a / ONES16 - before / ONES16 + 2;
    assert t == target + k * ONES16;
    ModOfShift(t, target, k, ONES16);
  }

  // ---- TCP flags ----

  /**
   * extract_tcp_flags: each of the eight header flag bits becomes its own
   * bit of the result, and no other bit is set.
   */
  function ExtractTcpFlags(fin: bool, syn: bool, rst: bool, psh: bool,
                           ack: bool, urg: bool, ece: bool, cwr: bool): (r: bv8)
    ensures HasFlag(r, TCP_FLAG_FIN) == fin && HasFlag(r, TCP_FLAG_SYN) == syn
    ensures HasFlag(r, TCP_FLAG_RST) == rst && HasFlag(r, TCP_FLAG_PSH) == psh
    ensures HasFlag(r, TCP_FLAG_ACK) == ack && HasFlag(r, TCP_FLAG_URG) == urg
    ensures HasFlag(r, TCP_FLAG_ECE) == ece && HasFlag(r, TCP_FLAG_CWR) == cwr
  {
    (if fin then TCP_FLAG_FIN else 0) | (if syn then TCP_FLAG_SYN else 0)
    | (if rst then TCP_FLAG_RST else 0) | (if psh then TCP_FLAG_PSH else 0)
    | (if ack then TCP_FLAG_ACK else 0) | (if urg then TCP_FLAG_URG else 0)
    | (if ece then TCP_FLAG_ECE else 0) | (if cwr then TCP_FLAG_CWR else 0)
  }

  /** Bit `k` (0 = least significant) of a byte. */
  predicate Bit(b: u8, k: nat)
    requires k < 8
  {
    (b as bv8) & (1 << k) != 0
  }

  /**
   * The header's flag byte (byte 13 of the TCP header, CWR as the high bit
   * down to FIN as the low bit in section 3.1 of RFC 9293) is exactly the
   * value extract_tcp_flags builds from the eight bit fields.
   */
  lemma ExtractTcpFlagsIsHeaderByte(b: u8)
    ensures ExtractTcpFlags(Bit(b, 0), Bit(b, 1), Bit(b, 2), Bit(b, 3),
                            Bit(b, 4), Bit(b, 5), Bit(b, 6), Bit(b, 7)) == b as bv8
  {
    var x := b as bv8;
    var r := ExtractTcpFlags(Bit(b, 0), Bit(b, 1), Bit(b, 2), Bit(b, 3),
                             Bit(b, 4), Bit(b, 5), Bit(b, 6), Bit(b, 7));
    assert r == x;
  }

  // ---- Token bucket ----

  const NS_PER_SEC: int := 1_000_000_000

  function Inc64(x: u64): (r: u64)
    ensures x + 1 < U64_LIMIT ==> r == x + 1
  {
    (x + 1) % U64_LIMIT
  }

  /** Tokens earned since the last refill, computed in wrapping u64 arithmetic. */
  function Earned(rl: RateLimiter, now: u64): (r: u64)
  {
    var elapsed := (now - rl.lastRefillNs) % U64_LIMIT;
    ((elapsed * rl.ratePps) % U64_LIMIT) / NS_PER_SEC
  }

  /** The bucket after the refill step, before anything is consumed. */
  function Refill(rl: RateLimiter, now: u64): (r: RateLimiter)
    ensures r.ratePps == rl.ratePps && r.burstSize == rl.burstSize
    ensures r.totalPackets == rl.totalPackets && r.droppedPackets == rl.droppedPackets
    ensures Earned(rl, now) == 0 ==> r == rl
    ensures Earned(rl, now) > 0 ==> r.lastRefillNs == now && r.tokens <= rl.burstSize
  {
    var earned := Earned(rl, now);
    if earned > 0 then
      rl.(tokens := MinU64((rl.tokens + earned) % U64_LIMIT, rl.burstSize), lastRefillNs := now)
    else rl
  }

  datatype Consumed = Consumed(allowed: bool, bucket: RateLimiter)

  /**
   * token_bucket_consume. A zero rate allows and changes nothing. Otherwise
   * the bucket is refilled, the packet is counted, and it is allowed iff
   * the refilled bucket holds at least `needed` tokens, which are then
   * removed; a refused packet is counted as dropped and takes no tokens.
   */
  function TokenBucketConsume(rl: RateLimiter, now: u64, needed: u64): (r: Consumed)
    ensures rl.ratePps == 0 ==> r.allowed && r.bucket == rl
    ensures rl.ratePps != 0 ==>
      var f := Refill(rl, now);
      && r.bucket.totalPackets == Inc64(rl.totalPackets)
      && r.bucket.lastRefillNs == f.lastRefillNs
      && r.bucket.ratePps == rl.ratePps && r.bucket.burstSize == rl.burstSize
      && (r.allowed <==> f.tokens >= needed)
      && (r.allowed ==> r.bucket.tokens == f.tokens - needed && r.bucket.droppedPackets == rl.droppedPackets)
      && (!r.allowed ==> r.bucket.tokens == f.tokens && r.bucket.droppedPackets == Inc64(rl.droppedPackets))
  {
    if rl.ratePps == 0 then Consumed(true, rl)
    else
      var f := Refill(rl, now);
      var counted := f.(totalPackets := Inc64(f.totalPackets));
      if counted.tokens >= needed then Consumed(true, counted.(tokens := counted.tokens - needed))
      else Consumed(false, counted.(droppedPackets := Inc64(counted.droppedPackets)))
  }

  /**
   * When no u64 arithmetic wraps, the refill adds exactly
   * elapsed × rate / 10^9 tokens, capped at the burst size, and the refill
   * time moves only when at least one token was earned.
   */
  lemma RefillWithoutOverflow(rl: RateLimiter, now: u64)
    requires rl.lastRefillNs <= now
    requires (now - rl.lastRefillNs) * rl.ratePps < U64_LIMIT
    requires rl.tokens + (now - rl.lastRefillNs) * rl.ratePps / NS_PER_SEC < U64_LIMIT
    ensures var earned := (now - rl.lastRefillNs) * rl.ratePps / NS_PER_SEC;
      && Refill(rl, now).tokens == (if earned > 0 then MinU64(rl.tokens + earned, rl.burstSize) else rl.tokens)
      && (Refill(rl, now).lastRefillNs == now <==> earned > 0 || rl.lastRefillNs == now)
  {
    var elapsed := now - rl.lastRefillNs;
    assert (now - rl.lastRefillNs) % U64_LIMIT == elapsed;
    var product := elapsed * rl.ratePps;
    assert 0 <= product by { MulMonotone(elapsed, 0, rl.ratePps); }
    assert product % U64_LIMIT == product;
    var earned := product / NS_PER_SEC;
    assert Earned(rl, now) == earned;
    assert (rl.tokens + earned) % U64_LIMIT == rl.tokens + earned;
  }

  /** A bucket never holds more than its burst size once that held before. */
  lemma ConsumeKeepsBurstBound(rl: RateLimiter, now: u64, needed: u64)
    requires rl.tokens <= rl.burstSize
    ensures TokenBucketConsume(rl, now, needed).bucket.tokens <= rl.burstSize
  {
  }

  /** Consumes one token per packet for a run of packets all arriving at `now`. */
  function ConsumeRun(rl: RateLimiter, now: u64, n: nat): (r: (nat, RateLimiter))
    decreases n
  {
    if n == 0 then (0, rl)
    else
      var c := TokenBucketConsume(rl, now, 1);
      var rest := ConsumeRun(c.bucket, now, n - 1);
      ((if c.allowed then 1 else 0) + rest.0, rest.1)
  }

  /**
   * A burst: when `n` packets arrive in the nanosecond of the last refill,
   * a limited bucket allows at most as many of them as it held tokens.
   */
  lemma {:induction false} BurstAllowsAtMostTokens(rl: RateLimiter, n: nat)
    requires rl.ratePps != 0
    ensures ConsumeRun(rl, rl.lastRefillNs, n).0 <= rl.tokens
    decreases n
  {
    if n > 0 {
      var c := TokenBucketConsume(rl, rl.lastRefillNs, 1);
      assert Earned(rl, rl.lastRefillNs) == 0;
      assert c.bucket.lastRefillNs == rl.lastRefillNs;
      BurstAllowsAtMostTokens(c.bucket, n - 1);
    }
  }

  // ---- Statistics updates ----

  /** stats_rx: one more packet and `len` more bytes received. */
  function StatsRx(s: Stats, len: u16): (r: Stats)
    ensures Count(r, RxPackets) == Count(s, RxPackets) + 1
    ensures Count(r, RxBytes) == Count(s, RxBytes) + len
    ensures forall c :: c != RxPackets && c != RxBytes ==> Count(r, c) == Count(s, c)
  {
    Add(Add(s, RxPackets, 1), RxBytes, len)
  }

  /** stats_drop: one more packet and `len` more bytes dropped. */
  function StatsDrop(s: Stats, len: u16): (r: Stats)
    ensures Count(r, DroppedPackets) == Count(s, DroppedPackets) + 1
    ensures Count(r, DroppedBytes) == Count(s, DroppedBytes) + len
    ensures forall c :: c != DroppedPackets && c != DroppedBytes ==> Count(r, c) == Count(s, c)
  {
    Add(Add(s, DroppedPackets, 1), DroppedBytes, len)
  }

  /** stats_tx: one more packet and `len` more bytes sent on. */
  function StatsTx(s: Stats, len: u16): (r: Stats)
    ensures Count(r, TxPackets) == Count(s, TxPackets) + 1
    ensures Count(r, TxBytes) == Count(s, TxBytes) + len
    ensures forall c :: c != TxPackets && c != TxBytes ==> Count(r, c) == Count(s, c)
  {
    Add(Add(s, TxPackets, 1), TxBytes, len)
  }
}
