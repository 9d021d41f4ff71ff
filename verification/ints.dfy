/**
 * Fixed-width unsigned integers and the byte codecs the scrubber and its
 * control plane use: big-endian (network order) and little-endian (x86
 * host order) fields of 2, 4 and 8 bytes, and the 16-bit byte swap.
 */
module Ints {

  const U8_LIMIT: int := 0x100
  const U16_LIMIT: int := 0x1_0000
  const U32_LIMIT: int := 0x1_0000_0000
  const U64_LIMIT: int := 0x1_0000_0000_0000_0000

  type u8 = x: int | 0 <= x < U8_LIMIT
  type u16 = x: int | 0 <= x < U16_LIMIT
  type u32 = x: int | 0 <= x < U32_LIMIT
  type u64 = x: int | 0 <= x < U64_LIMIT

  /** Unsigned 32-bit subtraction, wrapping as C `__u32` arithmetic does. */
  function Sub32(a: u32, b: u32): (r: u32)
    ensures (r + b) % U32_LIMIT == a
    ensures b <= a ==> r == a - b
  {
    (a - b) % U32_LIMIT
  }

  /** Unsigned 32-bit addition, wrapping. */
  function Add32(a: u32, b: u32): (r: u32)
    ensures Sub32(r, b) == a
    ensures a + b < U32_LIMIT ==> r == a + b
  {
    (a + b) % U32_LIMIT
  }

  /** Unsigned 32-bit multiplication, wrapping. */
  function Mul32(a: u32, b: u32): (r: u32)
    ensures a * b < U32_LIMIT ==> r == a * b
  {
    var m := a * b;
    assert 0 <= m by { MulMonotone(a, 0, b); }
    m % U32_LIMIT
  }

  /** Unsigned 64-bit subtraction, wrapping as C `__u64` arithmetic does. */
  function Sub64(a: u64, b: u64): (r: u64)
    ensures b <= a ==> r == a - b
    ensures a < b ==> r == U64_LIMIT + a - b
  {
    (a - b) % U64_LIMIT
  }

  /** Unsigned 64-bit addition, wrapping. */
  function Add64(a: u64, b: u64): (r: u64)
    ensures (r - a - b) % U64_LIMIT == 0
    ensures a + b < U64_LIMIT ==> r == a + b
    ensures a + b >= U64_LIMIT ==> r < a
  {
    (a + b) % U64_LIMIT
  }

  /** Doubling in unsigned 64-bit arithmetic, wrapping. */
  function Double64(a: u64): (r: u64)
    ensures 2 * a < U64_LIMIT ==> r == 2 * a
    ensures 2 * a >= U64_LIMIT ==> r == 2 * a - U64_LIMIT
  {
    (2 * a) % U64_LIMIT
  }

  /** Bitwise AND of the low `n` bits of `a` and `b`, one bit at a time from the lowest. */
  function AndBits(a: nat, b: nat, n: nat): (r: nat)
    ensures r < Pow2(n)
    ensures b == 0 ==> r == 0
  {
    if n == 0 then 0
    else (if a % 2 == 1 && b % 2 == 1 then 1 else 0) + 2 * AndBits(a / 2, b / 2, n - 1)
  }

  /** Masking with `n` one bits keeps every value below 2^n unchanged. */
  lemma {:induction false} AndBitsAllOnes(a: nat, n: nat)
    requires a < Pow2(n)
    ensures AndBits(a, Pow2(n) - 1, n) == a
  {
    if n > 0 {
      assert (Pow2(n) - 1) % 2 == 1 && (Pow2(n) - 1) / 2 == Pow2(n - 1) - 1;
      assert a / 2 < Pow2(n - 1);
      AndBitsAllOnes(a / 2, n - 1);
    }
  }

  /** Bitwise AND of two bytes. */
  function And8(a: u8, b: u8): (r: u8)
    ensures b == 0 ==> r == 0
    ensures b == 0xFF ==> r == a
  {
    AndByte(a, b);
    AndBits(a, b, 8)
  }

  lemma AndByte(a: u8, b: u8)
    ensures AndBits(a, b, 8) < U8_LIMIT
    ensures b == 0xFF ==> AndBits(a, b, 8) == a
  {
    Pow2Values();
    if b == 0xFF {
      AndBitsAllOnes(a, 8);
    }
  }

  // ---- The 16-bit byte swap (ntohs / htons / hostToBE16) ----

  function Hi(v: u16): u8 { v / 0x100 }
  function Lo(v: u16): u8 { v % 0x100 }

  /** Exchanges the two bytes of a 16-bit value. */
  function Bswap16(v: u16): (r: u16)
    ensures Hi(r) == Lo(v) && Lo(r) == Hi(v)
  {
    Lo(v) * 0x100 + Hi(v)
  }

  lemma Bswap16Involutive(v: u16)
    ensures Bswap16(Bswap16(v)) == v
  {
    var w := Bswap16(v);
    assert v == Hi(v) * 0x100 + Lo(v);
    assert Bswap16(w) == Lo(w) * 0x100 + Hi(w);
  }

  /** The remainder is the only one below the divisor. */
  lemma DivModUnique(x: int, d: int, k: int, r: int)
    requires d > 0 && x == k * d + r && 0 <= r < d
    ensures x % d == r
  {
    var m := x / d;
    assert x == m * d + x % d;
    if k > m {
      MulAtLeast(k - m, d);
      MulSub(k, m, d);
    } else if k < m {
      MulAtLeast(m - k, d);
      MulSub(m, k, d);
    }
  }

  lemma MulSub(a: int, b: int, d: int)
    ensures (a - b) * d == a * d - b * d
  {
  }

  lemma MulAtLeast(a: int, d: int)
    requires a >= 1 && d > 0
    ensures a * d >= d
  {
    assert a * d == (a - 1) * d + d;
  }

  lemma MulSucc(a: int, b: int)
    ensures a + a * b == a * (b + 1)
  {
  }

  // ---- Byte-sequence codecs ----

  /** Big-endian value of `b[i..i+n]`. */
  function BeRead(b: seq<u8>, i: nat, n: nat): (r: nat)
    requires i + n <= |b|
    decreases n
  {
    if n == 0 then 0 else BeRead(b, i, n - 1) * 0x100 + b[i + n - 1]
  }

  /** Little-endian value of `b[i..i+n]`. */
  function LeRead(b: seq<u8>, i: nat, n: nat): (r: nat)
    requires i + n <= |b|
    decreases n
  {
    if n == 0 then 0 else b[i] + 0x100 * LeRead(b, i + 1, n - 1)
  }

  function Pow2(n: nat): (r: nat)
    ensures r >= 1
  {
    if n == 0 then 1 else 2 * Pow2(n - 1)
  }

  /** The powers of two at the byte and word boundaries. */
  lemma Pow2Values()
    ensures Pow2(8) == 0x100 && Pow2(16) == 0x1_0000 && Pow2(24) == 0x100_0000
    ensures Pow2(29) == 0x2000_0000 && Pow2(32) == U32_LIMIT
  {
    assert Pow2(4) == 0x10;
    assert Pow2(8) == 0x100;
    assert Pow2(12) == 0x1000;
    assert Pow2(16) == 0x1_0000;
    assert Pow2(20) == 0x10_0000;
    assert Pow2(24) == 0x100_0000;
    assert Pow2(28) == 0x1000_0000;
  }

  function Pow256(n: nat): (r: nat)
    ensures r > 0
  {
    if n == 0 then 1 else 0x100 * Pow256(n - 1)
  }

  /** The powers of 256 at the integer widths. */
  lemma Pow256Values()
    ensures Pow256(2) == U16_LIMIT && Pow256(4) == U32_LIMIT && Pow256(8) == U64_LIMIT
  {
  }

  lemma {:induction false} BeReadBound(b: seq<u8>, i: nat, n: nat)
    requires i + n <= |b|
    ensures BeRead(b, i, n) < Pow256(n)
  {
    if n > 0 {
      BeReadBound(b, i, n - 1);
    }
  }

  lemma {:induction false} LeReadBound(b: seq<u8>, i: nat, n: nat)
    requires i + n <= |b|
    ensures LeRead(b, i, n) < Pow256(n)
    decreases n
  {
    if n > 0 {
      LeReadBound(b, i + 1, n - 1);
    }
  }

  function Be16At(b: seq<u8>, i: nat): (r: u16)
    requires i + 2 <= |b|
    ensures r == b[i] as int * 0x100 + b[i + 1]
  {
    b[i] as int * 0x100 + b[i + 1]
  }

  function Be32At(b: seq<u8>, i: nat): (r: u32)
    requires i + 4 <= |b|
    ensures r == BeRead(b, i, 4)
  {
    BeReadBound(b, i, 4);
    BeRead(b, i, 4)
  }

  function Le16At(b: seq<u8>, i: nat): (r: u16)
    requires i + 2 <= |b|
    ensures r == b[i] + 0x100 * (b[i + 1] as int)
  {
    b[i] + 0x100 * (b[i + 1] as int)
  }

  function Le32At(b: seq<u8>, i: nat): (r: u32)
    requires i + 4 <= |b|
    ensures r == LeRead(b, i, 4)
  {
    LeReadBound(b, i, 4);
    LeRead(b, i, 4)
  }

  function Le64At(b: seq<u8>, i: nat): (r: u64)
    requires i + 8 <= |b|
    ensures r == LeRead(b, i, 8)
  {
    LeReadBound(b, i, 8);
    LeRead(b, i, 8)
  }

  /** The `n` little-endian bytes of `v` (taken modulo 256^n). */
  function LeBytes(v: nat, n: nat): (r: seq<u8>)
    ensures |r| == n
  {
    if n == 0 then [] else [v % 0x100] + LeBytes(v / 0x100, n - 1)
  }

  /** The `n` big-endian bytes of `v` (taken modulo 256^n). */
  function BeBytes(v: nat, n: nat): (r: seq<u8>)
    ensures |r| == n
  {
    if n == 0 then [] else BeBytes(v / 0x100, n - 1) + [v % 0x100]
  }

  /** Reading back the little-endian bytes of a value that fits returns it. */
  lemma {:induction false} LeRoundTrip(v: nat, n: nat, pre: seq<u8>, post: seq<u8>)
    requires v < Pow256(n)
    ensures LeRead(pre + LeBytes(v, n) + post, |pre|, n) == v
    decreases n
  {
    if n > 0 {
      var b := pre + LeBytes(v, n) + post;
      var pre' := pre + [v % 0x100];
      assert b == pre' + LeBytes(v / 0x100, n - 1) + post;
      LeRoundTrip(v / 0x100, n - 1, pre', post);
    }
  }

  /** Reading back the big-endian bytes of a value that fits returns it. */
  lemma {:induction false} BeRoundTrip(v: nat, n: nat, pre: seq<u8>, post: seq<u8>)
    requires v < Pow256(n)
    ensures BeRead(pre + BeBytes(v, n) + post, |pre|, n) == v
    decreases n
  {
    if n > 0 {
      var b := pre + BeBytes(v, n) + post;
      var post' := [v % 0x100] + post;
      assert b == pre + BeBytes(v / 0x100, n - 1) + post';
      BeRoundTrip(v / 0x100, n - 1, pre, post');
      BeReadPrefix(b, pre + BeBytes(v / 0x100, n - 1) + post', |pre|, n - 1);
      assert b[|pre| + n - 1] == v % 0x100;
    }
  }

  lemma BeReadPrefix(b: seq<u8>, c: seq<u8>, i: nat, n: nat)
    requires b == c && i + n <= |b|
    ensures BeRead(b, i, n) == BeRead(c, i, n)
  {
  }

  /** The same four bytes read in the two byte orders give byte-reversed values. */
  lemma {:induction false} Be32OfReversed(a: u8, b: u8, c: u8, d: u8)
    ensures Be32At([a, b, c, d], 0) == a * 0x100_0000 + b * 0x1_0000 + c * 0x100 + d
    ensures Le32At([a, b, c, d], 0) == d * 0x100_0000 + c * 0x1_0000 + b * 0x100 + a
  {
    var s := [a, b, c, d];
    assert BeRead(s, 0, 1) == a;
    assert BeRead(s, 0, 2) == a * 0x100 + b;
    assert BeRead(s, 0, 3) == (a * 0x100 + b) * 0x100 + c;
    assert LeRead(s, 3, 1) == d;
    assert LeRead(s, 2, 2) == c + 0x100 * d;
    assert LeRead(s, 1, 3) == b + 0x100 * (c + 0x100 * d);
  }

  /** Multiplying by a natural number keeps the order. */
  lemma MulMonotone(q: nat, a: nat, b: nat)
    requires a <= b
    ensures q * a <= q * b
  {
  }
}
