/**
 Numbers as bytes and as decimal text: unsigned big-endian and minimal two's-complement
 integers (section 8.3 of ITU-T X.690), and the text strconv and fmt write for them.
 */
module Octets {
  import opened Go

  // ---------- unsigned, big-endian ----------

  /** The shortest big-endian form of `n`. */
  function Unsigned(n: nat): string {
    if n < 256 then [n as char] else Unsigned(n / 256) + [(n % 256) as char]
  }

  function FromUnsigned(s: string): nat {
    if s == [] then 0 else FromUnsigned(s[..|s| - 1]) * 256 + s[|s| - 1] as int
  }

  lemma {:induction false} UnsignedRoundTrip(n: nat)
    ensures FromUnsigned(Unsigned(n)) == n
  {
    if n < 256 {
      assert FromUnsigned([n as char][..0]) == 0;
    } else {
      UnsignedRoundTrip(n / 256);
      assert Unsigned(n)[..|Unsigned(n)| - 1] == Unsigned(n / 256);
    }
  }

  function Pow256(k: nat): (p: nat)
    ensures p > 0
  {
    if k == 0 then 1 else 256 * Pow256(k - 1)
  }

  lemma {:induction false} UnsignedLength(n: nat, k: nat)
    requires k > 0 && n < Pow256(k)
    ensures 1 <= |Unsigned(n)| <= k
  {
    if n >= 256 {
      UnsignedLength(n / 256, k - 1);
    }
  }

  // ---------- two's complement ----------

  /** The shortest two's-complement form of `i`. */
  function Signed(i: int): string
    decreases if i < 0 then -i else i
  {
    if -128 <= i < 128 then [(i % 256) as char] else Signed(i / 256) + [(i % 256) as char]
  }

  function SignedByte(c: char): int {
    if c as int < 128 then c as int else c as int - 256
  }

  function FromSigned(s: string): int {
    if s == [] then 0
    else if |s| == 1 then SignedByte(s[0])
    else FromSigned(s[..|s| - 1]) * 256 + s[|s| - 1] as int
  }

  lemma {:induction false} SignedRoundTrip(i: int)
    ensures |Signed(i)| > 0
    ensures FromSigned(Signed(i)) == i
    decreases if i < 0 then -i else i
  {
    if !(-128 <= i < 128) {
      SignedRoundTrip(i / 256);
      assert Signed(i)[..|Signed(i)| - 1] == Signed(i / 256);
    }
  }

  lemma {:induction false} SignedLength(i: int, k: nat)
    requires -128 * Pow256(k) <= i < 128 * Pow256(k)
    ensures |Signed(i)| <= k + 1
    decreases k
  {
    if !(-128 <= i < 128) {
      assert k > 0;
      SignedLength(i / 256, k - 1);
    }
  }

  /** Content octets read as a 64-bit integer; more than eight are refused. */
  function ParseInt64(s: string): Outcome<int64> {
    if |s| > 8 then Err(Other) else Ok(Wrap64(FromSigned(s)))
  }

  lemma ParseInt64Inverts(i: int64)
    ensures ParseInt64(Signed(i)) == Ok(i)
  {
    SignedRoundTrip(i);
    assert Pow256(7) == 0x100_0000_0000_0000;
    SignedLength(i, 7);
  }

  // ---------- decimal text ----------

  function Digit(d: nat): (c: char)
    requires d < 10
  {
    (d + '0' as int) as char
  }

  predicate IsDigit(c: char) {
    '0' <= c <= '9'
  }

  function Decimal(n: nat): string {
    if n < 10 then [Digit(n)] else Decimal(n / 10) + [Digit(n % 10)]
  }

  function FromDecimal(s: string): int {
    if s == [] then 0 else FromDecimal(s[..|s| - 1]) * 10 + (s[|s| - 1] as int - '0' as int)
  }

  lemma {:induction false} DecimalRoundTrip(n: nat)
    ensures |Decimal(n)| > 0
    ensures forall k :: 0 <= k < |Decimal(n)| ==> IsDigit(Decimal(n)[k])
    ensures FromDecimal(Decimal(n)) == n
  {
    if n < 10 {
      assert FromDecimal([Digit(n)][..0]) == 0;
    } else {
      DecimalRoundTrip(n / 10);
      assert Decimal(n)[..|Decimal(n)| - 1] == Decimal(n / 10);
    }
  }

  /** strconv.FormatInt in base 10. */
  function FormatInt(i: int): string {
    if i < 0 then "-" + Decimal(-i) else Decimal(i)
  }

  /** strconv.ParseInt in base 10, 64 bits: an optional sign, then digits, then the range check. */
  function ParseInt(s: string): Outcome<int64> {
    var signed := s != [] && (s[0] == '-' || s[0] == '+');
    var digits := if signed then s[1..] else s;
    if digits == [] || exists k :: 0 <= k < |digits| && !IsDigit(digits[k]) then Err(Other)
    else
      var v := if signed && s[0] == '-' then -FromDecimal(digits) else FromDecimal(digits);
      if -TWO_63 <= v < TWO_63 then Ok(v) else Err(Other)
  }

  lemma ParseIntInverts(i: int64)
    ensures ParseInt(FormatInt(i)) == Ok(i)
  {
    var n: nat := if i < 0 then -(i as int) else i;
    DecimalRoundTrip(n);
    if i < 0 {
      assert FormatInt(i)[1..] == Decimal(n);
    }
  }
}
