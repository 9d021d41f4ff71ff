/**
 * The Go standard-library string helpers the control plane relies on:
 * strings.TrimSpace, strings.IndexAny, strings.ToUpper, the %d verb,
 * strconv.Atoi and the outcome of reading a CSV record. Go strings are
 * byte strings; the model's strings hold one byte per character.
 */
module Text {
  import opened Wrappers

  // ---- White space ----

  /** The single-byte white space unicode.IsSpace accepts: tab, LF, VT, FF, CR and space. */
  predicate IsSpace(c: char)
  {
    c == ' ' || ('\t' <= c <= '\r')
  }

  predicate AllSpace(s: string)
  {
    forall i :: 0 <= i < |s| ==> IsSpace(s[i])
  }

  /** Neither end is white space. */
  predicate Trimmed(s: string)
  {
    |s| == 0 || (!IsSpace(s[0]) && !IsSpace(s[|s| - 1]))
  }

  /** The first index at or after `i` whose character is not white space, or |s| when there is none. */
  function SkipSpace(s: string, i: nat): (j: nat)
    requires i <= |s|
    ensures i <= j <= |s|
    ensures forall k :: i <= k < j ==> IsSpace(s[k])
    ensures j < |s| ==> !IsSpace(s[j])
    decreases |s| - i
  {
    if i < |s| && IsSpace(s[i]) then SkipSpace(s, i + 1) else i
  }

  /** The index just past the last character in s[lo..j] that is not white space, or lo when there is none. */
  function SkipSpaceBack(s: string, lo: nat, j: nat): (e: nat)
    requires lo <= j <= |s|
    ensures lo <= e <= j
    ensures forall k :: e <= k < j ==> IsSpace(s[k])
    ensures e > lo ==> !IsSpace(s[e - 1])
    decreases j
  {
    if j > lo && IsSpace(s[j - 1]) then SkipSpaceBack(s, lo, j - 1) else j
  }

  /**
   * strings.TrimSpace: the factor of `s` left after removing white space
   * at both ends; it starts and ends with something else.
   */
  function TrimSpace(s: string): (r: string)
    ensures Trimmed(r) && |r| <= |s|
  {
    var a := SkipSpace(s, 0);
    var e := SkipSpaceBack(s, a, |s|);
    assert e > a ==> s[a..e][0] == s[a];
    s[a..e]
  }

  lemma {:induction false} SkipSpaceOver(s: string, i: nat, m: nat)
    requires i <= m <= |s|
    requires forall k :: i <= k < m ==> IsSpace(s[k])
    ensures SkipSpace(s, i) == SkipSpace(s, m)
    decreases m - i
  {
    if i < m {
      SkipSpaceOver(s, i + 1, m);
    }
  }

  lemma {:induction false} SkipSpaceBackOver(s: string, lo: nat, j: nat, m: nat)
    requires lo <= m <= j <= |s|
    requires forall k :: m <= k < j ==> IsSpace(s[k])
    ensures SkipSpaceBack(s, lo, j) == SkipSpaceBack(s, lo, m)
    decreases j - m
  {
    if m < j {
      SkipSpaceBackOver(s, lo, j - 1, m);
    }
  }

  /**
   * TrimSpace is determined by what it keeps: white space around a string
   * that starts and ends with something else is exactly what it removes.
   */
  lemma TrimSpaceExact(a: string, b: string, c: string)
    requires AllSpace(a) && AllSpace(c) && Trimmed(b)
    ensures TrimSpace(a + b + c) == b
  {
    var s := a + b + c;
    var e := |a| + |b|;
    SpacesAround(a, b, c);
    SkipSpaceOver(s, 0, |a|);
    if |b| == 0 {
      SkipSpaceOver(s, |a|, |s|);
    } else {
      assert s[|a|] == b[0];
      SkipSpaceBackOver(s, |a|, |s|, e);
      assert s[e - 1] == b[|b| - 1];
    }
  }

  /** In a + b + c, the characters of a and c are where they were and b sits between them. */
  lemma SpacesAround(a: string, b: string, c: string)
    requires AllSpace(a) && AllSpace(c)
    ensures var s := a + b + c;
      && (forall k :: 0 <= k < |a| ==> IsSpace(s[k]))
      && (forall k :: |a| + |b| <= k < |s| ==> IsSpace(s[k]))
      && s[|a|..|a| + |b|] == b
  {
    var s := a + b + c;
    forall k | 0 <= k < |a| ensures IsSpace(s[k]) { assert s[k] == a[k]; }
    forall k | |a| + |b| <= k < |s| ensures IsSpace(s[k]) { assert s[k] == c[k - |a| - |b|]; }
  }

  /** Trimming twice is trimming once. */
  lemma TrimSpaceIdempotent(s: string)
    ensures TrimSpace(TrimSpace(s)) == TrimSpace(s)
  {
    var r := TrimSpace(s);
    assert "" + r + "" == r;
    TrimSpaceExact("", r, "");
  }

  /** A string that starts with something other than white space keeps its start: trimming leaves a non-empty prefix. */
  lemma TrimSpaceKeepsStart(u: string)
    requires |u| > 0 && !IsSpace(u[0])
    ensures 0 < |TrimSpace(u)| && TrimSpace(u) == u[..|TrimSpace(u)|]
  {
    assert SkipSpace(u, 0) == 0;
  }

  // ---- CSV ----

  /** What encoding/csv's Reader.Read gives for one record: its fields, or an error. */
  datatype CsvRecord = Record(fields: seq<string>) | Unreadable

  // ---- Searching ----

  /** strings.IndexAny: the index of the first character of `s` in `chars`, or -1 when none is. */
  function IndexAny(s: string, chars: set<char>): (r: int)
    ensures -1 <= r < |s|
    ensures r >= 0 ==> s[r] in chars && forall k :: 0 <= k < r ==> s[k] !in chars
    ensures r == -1 ==> forall k :: 0 <= k < |s| ==> s[k] !in chars
  {
    if |s| == 0 then -1
    else if s[0] in chars then 0
    else
      var r := IndexAny(s[1..], chars);
      if r == -1 then -1 else r + 1
  }

  // ---- Case ----

  predicate IsLowerAscii(c: char)
  {
    'a' <= c <= 'z'
  }

  function UpperChar(c: char): (u: char)
  {
    if IsLowerAscii(c) then (c as int - 32) as char else c
  }

  /**
   * strings.ToUpper on ASCII text: every lower-case letter becomes its
   * capital, every other character is kept.
   */
  function ToUpperAscii(s: string): (r: string)
    ensures |r| == |s|
    ensures forall i :: 0 <= i < |s| ==> !IsLowerAscii(r[i])
    ensures forall i :: 0 <= i < |s| ==>
      if IsLowerAscii(s[i]) then r[i] as int == s[i] as int - 32 else r[i] == s[i]
  {
    seq(|s|, i requires 0 <= i < |s| => UpperChar(s[i]))
  }

  lemma ToUpperIdempotent(s: string)
    ensures ToUpperAscii(ToUpperAscii(s)) == ToUpperAscii(s)
  {
  }

  // ---- Decimal numbers ----

  predicate IsDigit(c: char)
  {
    '0' <= c <= '9'
  }

  predicate AllDigits(s: string)
  {
    forall i :: 0 <= i < |s| ==> IsDigit(s[i])
  }

  function DigitChar(d: nat): (c: char)
    requires d < 10
    ensures IsDigit(c) && c as int - '0' as int == d
  {
    ('0' as int + d) as char
  }

  /** The value of a string of decimal digits. */
  function DigitsValue(s: string): (v: nat)
    requires AllDigits(s)
  {
    if |s| == 0 then 0 else DigitsValue(s[..|s| - 1]) * 10 + (s[|s| - 1] as int - '0' as int)
  }

  /** The shortest decimal spelling of a natural number. */
  function NatDigits(n: nat): (s: string)
    ensures |s| >= 1 && AllDigits(s)
    ensures n > 0 ==> s[0] != '0'
    decreases n
  {
    if n < 10 then [DigitChar(n)] else NatDigits(n / 10) + [DigitChar(n % 10)]
  }

  lemma {:induction false} NatDigitsValue(n: nat)
    ensures DigitsValue(NatDigits(n)) == n
    decreases n
  {
    var s := NatDigits(n);
    if n >= 10 {
      NatDigitsValue(n / 10);
      assert s[..|s| - 1] == NatDigits(n / 10);
    }
  }

  /** The %d verb (and strconv.Itoa): an optional minus sign, then the shortest digits. */
  function Decimal(n: int): (s: string)
    ensures |s| >= 1
  {
    if n < 0 then "-" + NatDigits(-n) else NatDigits(n)
  }

  const INT64_MIN: int := -0x8000_0000_0000_0000
  const INT64_MAX: int := 0x7FFF_FFFF_FFFF_FFFF

  /**
   * strconv.Atoi: an optional '+' or '-', then one or more decimal digits
   * whose value fits in a 64-bit int; anything else is an error.
   */
  function Atoi(s: string): (r: Option<int>)
    ensures r.Some? ==> INT64_MIN <= r.value <= INT64_MAX
    ensures |s| == 0 ==> r.None?
  {
    var signed := |s| > 0 && (s[0] == '+' || s[0] == '-');
    var digits := if signed then s[1..] else s;
    if |digits| == 0 || !AllDigits(digits) then None
    else
      var v: int := if signed && s[0] == '-' then -(DigitsValue(digits) as int) else DigitsValue(digits);
      if INT64_MIN <= v <= INT64_MAX then Some(v) else None
  }

  /** Reading back what %d printed gives the number again. */
  lemma AtoiDecimal(n: int)
    requires INT64_MIN <= n <= INT64_MAX
    ensures Atoi(Decimal(n)) == Some(n)
  {
    var s := Decimal(n);
    if n < 0 {
      NatDigitsValue(-n);
      assert s[0] == '-';
      assert s[1..] == NatDigits(-n);
    } else {
      NatDigitsValue(n);
      assert IsDigit(s[0]);
    }
  }

  /** Different 64-bit numbers print differently. */
  lemma DecimalInjective(a: int, b: int)
    requires INT64_MIN <= a <= INT64_MAX && INT64_MIN <= b <= INT64_MAX
    requires Decimal(a) == Decimal(b)
    ensures a == b
  {
    AtoiDecimal(a);
    AtoiDecimal(b);
  }
}
