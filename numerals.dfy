/**
 * Decimal digit strings and the integers they denote: JavaScript's `Number(…)`
 * applied to a `\d+` or `[-+]?\d+` capture, and the template-literal
 * conversion `${n}` of an integer back to text.
 */
module Numerals {
  import opened Strings

  predicate IsDigits(s: string) {
    forall i :: 0 <= i < |s| ==> IsDigit(s[i])
  }

  function DigitValue(c: char): nat
    requires IsDigit(c)
  {
    c as int - '0' as int
  }

  function DigitChar(d: nat): (c: char)
    requires d < 10
    ensures IsDigit(c) && DigitValue(c) == d
  {
    ('0' as int + d) as char
  }

  /** `Number(s)` for a string of decimal digits (leading zeros allowed). */
  function DigitsValue(s: string): nat
    requires IsDigits(s)
    decreases |s|
  {
    if s == [] then 0 else DigitsValue(s[..|s| - 1]) * 10 + DigitValue(s[|s| - 1])
  }

  lemma DigitsValueSnoc(s: string, c: char)
    requires IsDigits(s) && IsDigit(c)
    ensures IsDigits(s + [c]) && DigitsValue(s + [c]) == DigitsValue(s) * 10 + DigitValue(c)
  {
    assert (s + [c])[..|s|] == s;
  }

  /** What `[-+]?\d+` captures: an optional sign and at least one digit. */
  predicate IsSignedDigits(s: string) {
    |s| > 0 &&
    if s[0] == '-' || s[0] == '+' then |s| > 1 && IsDigits(s[1..]) else IsDigits(s)
  }

  /** `Number(s)` for an optionally signed digit string. */
  function SignedValue(s: string): int
    requires IsSignedDigits(s)
  {
    if s[0] == '-' then -(DigitsValue(s[1..]) as int)
    else if s[0] == '+' then DigitsValue(s[1..])
    else DigitsValue(s)
  }

  /** The digits JavaScript prints for a non-negative integer: no sign, no leading zero. */
  function NatToDecimal(n: nat): (r: string)
    ensures |r| > 0 && IsDigits(r) && DigitsValue(r) == n
    ensures r[0] == '0' ==> r == "0"
    decreases n
  {
    if n < 10 then [DigitChar(n)]
    else
      var front := NatToDecimal(n / 10);
      DigitsValueSnoc(front, DigitChar(n % 10));
      front + [DigitChar(n % 10)]
  }

  /** `${n}` for an integer `n`: a minus sign for negatives, then the digits. */
  function IntToDecimal(n: int): (r: string)
    ensures IsSignedDigits(r) && SignedValue(r) == n
    ensures r[0] != '+'
  {
    if n < 0 then
      var digits := NatToDecimal(-n);
      assert ("-" + digits)[1..] == digits;
      "-" + digits
    else NatToDecimal(n)
  }

  /** A signed digit string has no upper-case letter and no white space at either end. */
  lemma SignedDigitsPlain(s: string)
    requires IsSignedDigits(s)
    ensures NoUpper(s) && Trimmed(s)
  {
    forall i | 0 <= i < |s| ensures !IsUpper(s[i]) && !IsSpace(s[i]) {
      if i > 0 && (s[0] == '-' || s[0] == '+') {
        assert s[i] == s[1..][i - 1];
      }
    }
  }

  /** The text of `n` is `"1"` exactly when `n` is 1. */
  lemma DecimalIsOne(n: int)
    ensures IntToDecimal(n) == "1" <==> n == 1
  {
    assert IntToDecimal(1) == "1";
    if IntToDecimal(n) == "1" {
      assert SignedValue("1") == 1;
    }
  }

  /** Printing is injective: the text of `n` is `"1"` only for `n == 1`, and so on. */
  lemma IntToDecimalInjective(m: int, n: int)
    ensures IntToDecimal(m) == IntToDecimal(n) <==> m == n
  {
  }
}
