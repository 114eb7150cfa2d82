/**
 Decimal digits and decimal strings: the character-level vocabulary shared by
 the secret generator, the input validator and the scorer. It also holds the
 model of Rust's `u32::to_string`, which renders a number without leading zeros.
 */
module Digits {

  /** A decimal digit, the range of the die `Uniform::from(0..10)`. */
  type Digit = d: nat | d < 10

  /** `c.to_digit(10).is_some()` */
  predicate IsAsciiDigit(c: char) {
    '0' <= c <= '9'
  }

  /** `c.to_digit(10).unwrap()` for an ASCII digit. */
  function DigitValue(c: char): Digit
    requires IsAsciiDigit(c)
  {
    c as int - '0' as int
  }

  /** The character that renders a digit. */
  function DigitChar(d: Digit): (c: char)
    ensures IsAsciiDigit(c) && DigitValue(c) == d
  {
    ('0' as int + d) as char
  }

  predicate AllDigits(s: string) {
    forall i :: 0 <= i < |s| ==> IsAsciiDigit(s[i])
  }

  /** No element occurs twice. */
  predicate Distinct<T(==)>(s: seq<T>) {
    forall i, j :: 0 <= i < j < |s| ==> s[i] != s[j]
  }

  function Pow10(k: nat): (p: nat)
    ensures p >= 1
  {
    if k == 0 then 1 else 10 * Pow10(k - 1)
  }

  /** The value of a string of decimal digits, most significant digit first. */
  function DecimalValue(s: string): (v: nat)
    requires AllDigits(s)
    ensures v < Pow10(|s|)
  {
    if |s| == 0 then 0 else DecimalValue(s[..|s| - 1]) * 10 + DigitValue(s[|s| - 1])
  }

  /** A run of `k` zero characters, the fill of a `{:0>4}` format. */
  function Zeros(k: nat): (z: string)
    ensures |z| == k && AllDigits(z)
    ensures forall i :: 0 <= i < k ==> z[i] == '0'
  {
    seq(k, _ => '0')
  }

  /**
   Rust's `u32::to_string`: the shortest decimal rendering, so a number below
   1000 has fewer than four characters.
   */
  function NatToString(n: nat): (s: string)
    ensures AllDigits(s) && |s| >= 1
    ensures DecimalValue(s) == n
    ensures s[0] == '0' <==> n == 0
    ensures |s| == 1 <==> n < 10
  {
    if n < 10 then [DigitChar(n)]
    else
      var s := NatToString(n / 10) + [DigitChar(n % 10)];
      assert s[..|s| - 1] == NatToString(n / 10);
      s
  }

  lemma DigitValueInjective(a: char, b: char)
    requires IsAsciiDigit(a) && IsAsciiDigit(b)
    ensures DigitValue(a) == DigitValue(b) <==> a == b
  {
  }

  /** Leading zeros do not change a decimal value. */
  lemma {:induction false} LeadingZeros(k: nat, s: string)
    requires AllDigits(s)
    ensures AllDigits(Zeros(k) + s)
    ensures DecimalValue(Zeros(k) + s) == DecimalValue(s)
  {
    var t := Zeros(k) + s;
    if |s| == 0 {
      assert t == Zeros(k);
      if k > 0 {
        assert t[..|t| - 1] == Zeros(k - 1) + s;
        LeadingZeros(k - 1, s);
      }
    } else {
      assert t[..|t| - 1] == Zeros(k) + s[..|s| - 1];
      LeadingZeros(k, s[..|s| - 1]);
    }
  }

  /** Two digit strings of equal length denote the same number only if they are equal. */
  lemma {:induction false} DecimalValueInjective(a: string, b: string)
    requires AllDigits(a) && AllDigits(b) && |a| == |b|
    requires DecimalValue(a) == DecimalValue(b)
    ensures a == b
  {
    if |a| > 0 {
      var n := |a| - 1;
      var x, y := DecimalValue(a[..n]), DecimalValue(b[..n]);
      var c, d := DigitValue(a[n]), DigitValue(b[n]);
      assert x * 10 + c == y * 10 + d;
      assert c == d && x == y;
      DecimalValueInjective(a[..n], b[..n]);
      DigitValueInjective(a[n], b[n]);
      assert a == a[..n] + [a[n]] && b == b[..n] + [b[n]];
    }
  }

  /** A digit string without a leading zero is at least the smallest number of its width. */
  lemma {:induction false} LeadingDigitBound(s: string)
    requires AllDigits(s) && |s| >= 1 && s[0] != '0'
    ensures DecimalValue(s) >= Pow10(|s| - 1)
  {
    if |s| > 1 {
      LeadingDigitBound(s[..|s| - 1]);
    }
  }

  /** The value of a four-character digit string, written out by place. */
  lemma FourDigitValue(s: string)
    requires |s| == 4 && AllDigits(s)
    ensures DecimalValue(s) ==
      1000 * DigitValue(s[0]) + 100 * DigitValue(s[1]) + 10 * DigitValue(s[2]) + DigitValue(s[3])
  {
    assert s[..3][..2] == s[..2] && s[..2][..1] == s[..1] && s[..1][..0] == [];
    assert DecimalValue(s[..1]) == DigitValue(s[0]);
    assert DecimalValue(s[..2]) == 10 * DigitValue(s[0]) + DigitValue(s[1]);
    assert DecimalValue(s[..3]) == 100 * DigitValue(s[0]) + 10 * DigitValue(s[1]) + DigitValue(s[2]);
  }

  /** A number of width `k` (at least 10^(k-1), below 10^k) renders with exactly `k` characters. */
  lemma RenderingWidth(n: nat, k: nat)
    requires k >= 1 && Pow10(k - 1) <= n < Pow10(k)
    ensures |NatToString(n)| == k
  {
    var s := NatToString(n);
    if |s| < k {
      PowMonotone(|s|, k - 1);
    } else if |s| > k {
      assert n > 0;
      LeadingDigitBound(s);
      PowMonotone(k, |s| - 1);
    }
  }

  /** A number below 10^k renders with at most `k` characters. */
  lemma RenderingAtMost(n: nat, k: nat)
    requires k >= 1 && n < Pow10(k)
    ensures |NatToString(n)| <= k
  {
    var s := NatToString(n);
    if |s| > k {
      LeadingDigitBound(s);
    }
  }

  lemma {:induction false} PowMonotone(j: nat, k: nat)
    requires j <= k
    ensures Pow10(j) <= Pow10(k)
  {
    if j < k {
      PowMonotone(j, k - 1);
    }
  }
}
