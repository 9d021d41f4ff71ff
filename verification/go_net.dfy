/**
 * The parts of Go's package net the control plane uses. An address is a
 * net.IP byte slice: 4 bytes, or 16 for IPv6 and for the IPv4-mapped form
 * that net.ParseIP returns for dotted quads. The text parsers themselves
 * (net.ParseIP, net.ParseCIDR) are taken as given functions; To4 and the
 * big-endian conversions are modelled exactly.
 */
module GoNet {
  import opened Ints
  import opened Wrappers
  import opened Text
  import opened BpfTypes

  type IP = seq<u8>

  /** The first twelve bytes of an IPv4-mapped IPv6 address (::ffff:a.b.c.d). */
  const V4_MAPPED_PREFIX: seq<u8> := [0, 0, 0, 0, 0, 0, 0, 0, 0, 0, 0xFF, 0xFF]

  predicate IsV4Mapped(ip: IP)
  {
    |ip| == 16 && ip[..12] == V4_MAPPED_PREFIX
  }

  /** IP.To4: the 4-byte form of an IPv4 or IPv4-mapped address, None for any other. */
  function To4(ip: IP): (r: Option<IP>)
    ensures r.Some? <==> |ip| == 4 || IsV4Mapped(ip)
    ensures r.Some? ==> |r.value| == 4 && r.value == ip[|ip| - 4..]
  {
    if |ip| == 4 then Some(ip)
    else if IsV4Mapped(ip) then Some(ip[12..])
    else None
  }

  /**
   * IPToU32BE (types.go, and the private ipToU32BE copies in the
   * threat-intelligence and GeoIP packages): the big-endian value of the
   * IPv4 form, and 0 for an address that has none.
   */
  function IPToU32BE(ip: IP): (r: u32)
    ensures To4(ip).None? ==> r == 0
  {
    match To4(ip)
    case None => 0
    case Some(b) => Be32At(b, 0)
  }

  /** U32BEToIP: the four bytes of a value, most significant first. */
  function U32BEToIP(addr: u32): (ip: IP)
    ensures |ip| == 4
  {
    BeBytes(addr, 4)
  }

  /** A dotted quad a.b.c.d converts to a<<24 | b<<16 | c<<8 | d. */
  lemma IPToU32BEOfQuad(a: u8, b: u8, c: u8, d: u8)
    ensures IPToU32BE([a, b, c, d]) == a * 0x100_0000 + b * 0x1_0000 + c * 0x100 + d
    ensures IPToU32BE(V4_MAPPED_PREFIX + [a, b, c, d]) == a * 0x100_0000 + b * 0x1_0000 + c * 0x100 + d
  {
    Be32OfReversed(a, b, c, d);
    assert (V4_MAPPED_PREFIX + [a, b, c, d])[..12] == V4_MAPPED_PREFIX;
    assert (V4_MAPPED_PREFIX + [a, b, c, d])[12..] == [a, b, c, d];
  }

  /** The big-endian bytes of a 32-bit value built from four bytes are those bytes. */
  lemma BeBytesOfQuad(a: u8, b: u8, c: u8, d: u8)
    ensures BeBytes(a * 0x100_0000 + b * 0x1_0000 + c * 0x100 + d, 4) == [a, b, c, d]
  {
    var v := a * 0x100_0000 + b * 0x1_0000 + c * 0x100 + d;
    var v1 := a * 0x1_0000 + b * 0x100 + c;
    var v2 := a * 0x100 + b;
    assert v == v1 * 0x100 + d;
    assert v / 0x100 == v1 && v % 0x100 == d;
    assert v1 == v2 * 0x100 + c;
    assert v1 / 0x100 == v2 && v1 % 0x100 == c;
    assert v2 / 0x100 == a && v2 % 0x100 == b;
    assert BeBytes(a, 1) == [a];
    assert BeBytes(v2, 2) == [a, b];
    assert BeBytes(v1, 3) == [a, b, c];
  }

  /** Converting a value to bytes and back returns it. */
  lemma U32BEToIPRoundTrip(addr: u32)
    ensures IPToU32BE(U32BEToIP(addr)) == addr
  {
    assert Pow256(4) == U32_LIMIT;
    BeRoundTrip(addr, 4, [], []);
    assert [] + BeBytes(addr, 4) + [] == BeBytes(addr, 4);
  }

  /** Converting an IPv4 address to its value and back gives its 4-byte form. */
  lemma IPToU32BERoundTrip(ip: IP)
    requires To4(ip).Some?
    ensures U32BEToIP(IPToU32BE(ip)) == To4(ip).value
  {
    var q := To4(ip).value;
    assert q == [q[0], q[1], q[2], q[3]];
    Be32OfReversed(q[0], q[1], q[2], q[3]);
    BeBytesOfQuad(q[0], q[1], q[2], q[3]);
  }

  /** The value whose big-endian bytes are the little-endian bytes of `v`. */
  function Bswap32(v: u32): (r: u32)
  {
    var b := U32BEToIP(v);
    IPToU32BE([b[3], b[2], b[1], b[0]])
  }

  /** Byte-swapping a value reverses its four big-endian bytes. */
  lemma Bswap32Bytes(v: u32)
    ensures var b := U32BEToIP(v); U32BEToIP(Bswap32(v)) == [b[3], b[2], b[1], b[0]]
  {
    var b := U32BEToIP(v);
    IPToU32BERoundTrip([b[3], b[2], b[1], b[0]]);
  }

  /** Swapping twice gives the value back. */
  lemma Bswap32Involutive(v: u32)
    ensures Bswap32(Bswap32(v)) == v
  {
    var b := U32BEToIP(v);
    Bswap32Bytes(v);
    var c := U32BEToIP(Bswap32(v));
    assert [c[3], c[2], c[1], c[0]] == b;
    IPToU32BERoundTrip(b);
    U32BEToIPRoundTrip(v);
  }

  /** net.IP.String for an IPv4 address: the four bytes in decimal, joined by dots. */
  function DottedQuad(b: IP): string
    requires |b| == 4
  {
    Decimal(b[0]) + "." + Decimal(b[1]) + "." + Decimal(b[2]) + "." + Decimal(b[3])
  }

  // ---- Networks and the parsers ----

  /** What net.ParseCIDR returns as its *IPNet: the masked address and the mask's size. */
  datatype IPNet = IPNet(ip: IP, ones: nat, bits: nat)

  /** net.ParseIP and net.ParseCIDR, taken as given; None stands for a nil IP or an error. */
  datatype NetLib = NetLib(parseIP: string -> Option<IP>, parseCIDR: string -> Option<IPNet>)

  /**
   * What the real parsers promise about their results: ParseIP gives 16
   * bytes and never accepts a '/'; ParseCIDR needs a '/' and gives a 4-byte
   * IPv4 network with a 32-bit mask or a 16-byte IPv6 network with a
   * 128-bit one.
   */
  ghost predicate WellFormed(lib: NetLib)
  {
    && (forall s :: lib.parseIP(s).Some? ==> |lib.parseIP(s).value| == 16 && '/' !in s)
    && (forall s :: lib.parseCIDR(s).Some? ==> '/' in s && CidrShaped(lib.parseCIDR(s).value))
  }

  predicate CidrShaped(n: IPNet)
  {
    n.ones <= n.bits && ((|n.ip| == 4 && n.bits == 32) || (|n.ip| == 16 && n.bits == 128))
  }

  /** An IPv4 network: four bytes and a 32-bit mask. */
  predicate IsV4Net(n: IPNet)
  {
    |n.ip| == 4 && n.bits == 32 && n.ones <= 32
  }

  // ---- Longest-prefix-match keys ----

  /**
   * An LPM key covers an address when the key's length is at most 32 and
   * the first prefixLen bits of the two agree, the rule by which the
   * blacklist, whitelist and feed tries match a source.
   */
  predicate Covers(k: LpmKey, addr: u32)
  {
    k.prefixLen <= 32 && addr / Pow2(32 - k.prefixLen) == k.addr / Pow2(32 - k.prefixLen)
  }

  /** The zero-length key at address 0 covers every IPv4 address. */
  lemma ZeroKeyCoversAll(addr: u32)
    ensures Covers(LpmKey(0, 0), addr)
  {
    Pow2Values();
    DivModUnique(addr as int, U32_LIMIT, 0, addr as int);
    DivModUnique(0, U32_LIMIT, 0, 0);
  }

  // ---- Handing a key to the data plane ----

  /**
   * The bytes a Go uint32 field occupies once marshalled into a map key:
   * the host's native order, least significant byte first on the
   * little-endian hosts the scrubber runs on.
   */
  function NativeBytes(v: u32): (b: seq<u8>)
    ensures |b| == 4
  {
    var be := U32BEToIP(v);
    [be[3], be[2], be[1], be[0]]
  }

  /** Native order is big-endian order of the byte-swapped value. */
  lemma NativeBytesIsSwapped(v: u32)
    ensures NativeBytes(v) == U32BEToIP(Bswap32(v))
  {
    Bswap32Bytes(v);
  }

  /**
   * How struct lpm_key_v4 reads eight key bytes: prefixlen is a host-order
   * u32; addr is a __be32 whose bytes are compared in memory order, so its
   * value is the big-endian reading of those bytes, the same convention as
   * a packet's source address.
   */
  function DataPlaneKeyOf(b: seq<u8>): (k: LpmKey)
    requires |b| == 8
  {
    LpmKey(IPToU32BE([b[3], b[2], b[1], b[0]]), IPToU32BE(b[4..8]))
  }

  /** The data plane reads a native-order field back as the value that was written. */
  lemma NativeBytesReadBack(v: u32)
    ensures var b := NativeBytes(v); IPToU32BE([b[3], b[2], b[1], b[0]]) == v
  {
    var be := U32BEToIP(v);
    assert [be[0], be[1], be[2], be[3]] == be;
    U32BEToIPRoundTrip(v);
  }

  /**
   * The key bytes as the control plane writes them (maps.go): both fields
   * of LPMKeyV4 are plain uint32s, and Addr holds the big-endian value of
   * the address, so its bytes go out least significant first.
   */
  function KeyBytesAsWritten(k: LpmKey): (b: seq<u8>)
    ensures |b| == 8
  {
    NativeBytes(k.prefixLen) + NativeBytes(k.addr)
  }

  /** The corrected key bytes: the address in network order, as the data plane compares it. */
  function KeyBytesFixed(k: LpmKey): (b: seq<u8>)
    ensures |b| == 8
  {
    NativeBytes(k.prefixLen) + U32BEToIP(k.addr)
  }

  /** As written, the data plane sees the prefix length intact but the address byte-swapped. */
  lemma KeyHandoffAsWritten(k: LpmKey)
    ensures DataPlaneKeyOf(KeyBytesAsWritten(k)) == LpmKey(k.prefixLen, Bswap32(k.addr))
  {
    var b := KeyBytesAsWritten(k);
    assert b[..4] == NativeBytes(k.prefixLen) && b[4..8] == NativeBytes(k.addr);
    NativeBytesReadBack(k.prefixLen);
    NativeBytesIsSwapped(k.addr);
    U32BEToIPRoundTrip(Bswap32(k.addr));
  }

  /** With the address written in network order, the data plane sees exactly the control plane's key. */
  lemma KeyHandoffFixed(k: LpmKey)
    ensures DataPlaneKeyOf(KeyBytesFixed(k)) == k
  {
    var b := KeyBytesFixed(k);
    assert b[..4] == NativeBytes(k.prefixLen) && b[4..8] == U32BEToIP(k.addr);
    NativeBytesReadBack(k.prefixLen);
    U32BEToIPRoundTrip(k.addr);
  }

  /**
   * The uint32 a Go map iterator yields for a key the data plane stored in
   * network order: cilium/ebpf unmarshals a fixed-size key in host order,
   * so the value is the one whose native bytes are the address's bytes.
   */
  function HostOrderKey(addr: u32): (k: u32)
    ensures NativeBytes(k) == U32BEToIP(addr)
  {
    NativeBytesIsSwapped(Bswap32(addr));
    Bswap32Involutive(addr);
    Bswap32(addr)
  }

  /** Only one value has given native bytes, so the iterator's key is determined by the stored bytes. */
  lemma NativeBytesInjective(v: u32, w: u32)
    requires NativeBytes(v) == NativeBytes(w)
    ensures v == w
  {
    NativeBytesReadBack(v);
    NativeBytesReadBack(w);
  }

  /**
   * A host-order key written back in a host-order field reaches the data
   * plane as the address it was read from: the two swaps cancel.
   */
  lemma HostOrderKeyHandoff(len: u32, addr: u32)
    ensures DataPlaneKeyOf(KeyBytesAsWritten(LpmKey(len, HostOrderKey(addr)))) == LpmKey(len, addr)
  {
    KeyHandoffAsWritten(LpmKey(len, HostOrderKey(addr)));
    Bswap32Involutive(addr);
  }

  /** 10.0.0.0 byte-swapped is 0.0.0.10. */
  lemma SwappedTenNet()
    ensures Bswap32(0x0A00_0000) == 0x0A
  {
    BeBytesOfQuad(10, 0, 0, 0);
    assert U32BEToIP(0x0A00_0000) == [10, 0, 0, 0];
    IPToU32BEOfQuad(0, 0, 0, 10);
  }

  /** Which /8 keys cover 10.0.0.1: those whose address starts with the byte 10. */
  lemma SlashEightCoversTenDotOne(addr: u32)
    ensures Covers(LpmKey(8, addr), 0x0A00_0001) <==> addr / 0x100_0000 == 10
  {
    Pow2Values();
    assert Pow2(32 - 8) == 0x100_0000;
  }

  /**
   * Blacklisting 10.0.0.0/8: the control plane's key covers 10.0.0.1, but
   * the key the data plane receives as written does not, while the
   * corrected handoff's does.
   */
  lemma BlacklistTenSlashEightMissesTenDotOne()
    ensures Covers(LpmKey(8, 0x0A00_0000), 0x0A00_0001)
    ensures !Covers(DataPlaneKeyOf(KeyBytesAsWritten(LpmKey(8, 0x0A00_0000))), 0x0A00_0001)
    ensures Covers(DataPlaneKeyOf(KeyBytesFixed(LpmKey(8, 0x0A00_0000))), 0x0A00_0001)
  {
    var k := LpmKey(8, 0x0A00_0000);
    KeyHandoffAsWritten(k);
    KeyHandoffFixed(k);
    SwappedTenNet();
    SlashEightCoversTenDotOne(0x0A00_0000);
    SlashEightCoversTenDotOne(0x0A);
  }
}
