/**
  Decimal text of unsigned integers, as Rust's standard library writes it
  (the `Display` of `u64`/`usize`, also behind `format!("{}")`) and reads it
  (`str::parse::<u64>`), plus right-aligned zero padding (`{:0>2}`).
*/
module Decimal {
  import opened Wrappers

  const U64_MAX: nat := 0xFFFF_FFFF_FFFF_FFFF

  predicate IsDigit(c: char) {
    '0' <= c <= '9'
  }

  predicate AllDigits(s: string) {
    forall i :: 0 <= i < |s| ==> IsDigit(s[i])
  }

  function DigitValue(c: char): (d: nat)
    requires IsDigit(c)
    ensures d < 10
  {
    (c as int) - ('0' as int)
  }

  function DigitChar(d: nat): (c: char)
    requires d < 10
    ensures IsDigit(c) && DigitValue(c) == d
  {
    (('0' as int) + d) as char
  }

  /** The value of a string of decimal digits, most significant first. */
  function DigitsValue(s: string): nat
    requires AllDigits(s)
  {
    if |s| == 0 then 0 else DigitsValue(s[..|s| - 1]) * 10 + DigitValue(s[|s| - 1])
  }

  /** A canonical numeral: non-empty, digits only, no leading zero unless it is "0". */
  predicate Canonical(s: string) {
    |s| > 0 && AllDigits(s) && (s[0] == '0' ==> s == "0")
  }

  /** How Rust displays an unsigned integer. */
  function ToDecimal(n: nat): (s: string)
    ensures |s| > 0
  {
    if n < 10 then [DigitChar(n)] else ToDecimal(n / 10) + [DigitChar(n % 10)]
  }

  /** A displayed number is a canonical numeral, and reading it gives the number back. */
  lemma {:induction false} ToDecimalValue(n: nat)
    ensures Canonical(ToDecimal(n)) && DigitsValue(ToDecimal(n)) == n
  {
    if n >= 10 {
      ToDecimalValue(n / 10);
      var p := ToDecimal(n / 10);
      var s := ToDecimal(n);
      assert s == p + [DigitChar(n % 10)];
      assert s[0] == p[0];
      if |p| == 1 {
        assert p == [DigitChar(n / 10)];
      }
      assert s[..|s| - 1] == p;
    }
  }

  /** A numeral's value is at least its leading digit. */
  lemma {:induction false} LeadingDigitBound(s: string)
    requires |s| > 0 && AllDigits(s)
    ensures DigitsValue(s) >= DigitValue(s[0])
  {
    if |s| > 1 {
      LeadingDigitBound(s[..|s| - 1]);
    }
  }

  /** Displaying the value of a canonical numeral gives the numeral back: together with
      ToDecimalValue, ToDecimal is a bijection onto the canonical numerals. */
  lemma {:induction false} CanonicalRoundTrip(s: string)
    requires Canonical(s)
    ensures ToDecimal(DigitsValue(s)) == s
  {
    if |s| > 1 {
      var p := s[..|s| - 1];
      assert p[0] == s[0] && s[0] != '0';
      LeadingDigitBound(p);
      CanonicalRoundTrip(p);
      assert s == p + [s[|s| - 1]];
    }
  }

  /** `str::repeat` on a one-character string. */
  function Repeat(c: char, k: nat): (s: string)
    ensures |s| == k && forall i :: 0 <= i < k ==> s[i] == c
  {
    seq(k, _ => c)
  }

  /** Rust's `{:0>width}`: right-align in `width` columns, filling with '0'. */
  function ZeroPad(s: string, width: nat): (r: string)
    ensures |r| == if |s| >= width then |s| else width
  {
    if |s| >= width then s else Repeat('0', width - |s|) + s
  }

  /** The padded text ends with the original and is filled with '0' in front of it. */
  lemma ZeroPadShape(s: string, width: nat)
    ensures var r := ZeroPad(s, width);
      && r[|r| - |s|..] == s
      && forall i :: 0 <= i < |r| - |s| ==> r[i] == '0'
  {
    var r := ZeroPad(s, width);
    if |s| < width {
      assert r == Repeat('0', width - |s|) + s;
    }
  }

  /** One digit below ten, two below a hundred. */
  lemma ToDecimalWidth(n: nat)
    ensures n < 10 ==> |ToDecimal(n)| == 1
    ensures 10 <= n < 100 ==> |ToDecimal(n)| == 2
  {
  }

  /** Leading zeros do not change a numeral's value. */
  lemma {:induction false} LeadingZerosValue(z: string, s: string)
    requires forall i :: 0 <= i < |z| ==> z[i] == '0'
    requires AllDigits(s)
    ensures AllDigits(z + s) && DigitsValue(z + s) == DigitsValue(s)
  {
    if |s| == 0 {
      assert z + s == z;
      if |z| > 0 {
        LeadingZerosValue(z[..|z| - 1], s);
        assert z[..|z| - 1] + s == z[..|z| - 1];
      }
    } else {
      LeadingZerosValue(z, s[..|s| - 1]);
      assert (z + s)[..|z + s| - 1] == z + s[..|s| - 1];
    }
  }

  /** The length of the optional leading '+' that `str::parse::<u64>` accepts. */
  function SignLength(s: string): (k: nat)
    ensures k <= |s| && (k == 1 <==> |s| > 0 && s[0] == '+')
  {
    if |s| > 0 && s[0] == '+' then 1 else 0
  }

  /** Rust's `str::parse::<u64>`: an optional '+', then one or more ASCII digits, and a value
      that fits in 64 bits. Any other text is an error. */
  function ParseU64(s: string): (r: Option<nat>)
    ensures var digits := s[SignLength(s)..];
      r.Some? <==> |digits| > 0 && AllDigits(digits) && DigitsValue(digits) <= U64_MAX
    ensures r.Some? ==> AllDigits(s[SignLength(s)..]) && r.value == DigitsValue(s[SignLength(s)..])
    ensures |s| == 0 || s[0] == '-' ==> r.None?
  {
    if |s| == 0 then None
    else
      var k := if s[0] == '+' then 1 else 0;
      var digits := s[k..];
      if |digits| == 0 || !AllDigits(digits) then None
      else if DigitsValue(digits) > U64_MAX then None
      else Some(DigitsValue(digits))
  }

  /** Every 64-bit value survives display followed by parsing, also with leading zeros. */
  lemma ParseZeroPadded(n: nat, width: nat)
    requires n <= U64_MAX
    ensures ParseU64(ZeroPad(ToDecimal(n), width)) == Some(n)
  {
    var d := ToDecimal(n);
    var p := ZeroPad(d, width);
    ToDecimalValue(n);
    if |d| < width {
      LeadingZerosValue(Repeat('0', width - |d|), d);
    }
  }

  lemma ParseToDecimal(n: nat)
    requires n <= U64_MAX
    ensures ParseU64(ToDecimal(n)) == Some(n)
  {
    ParseZeroPadded(n, 0);
  }
}
