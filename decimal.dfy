/**
 * Decimal rendering of integers, as fmt.Sprintf("%d", n) does it, and a
 * reference reader of decimal strings that states what such a string means.
 */
module Decimal {
  import opened Wrappers

  predicate IsDigitChar(c: char) {
    '0' <= c <= '9'
  }

  function DigitChar(d: nat): (c: char)
    requires d < 10
    ensures IsDigitChar(c) && c as int - '0' as int == d
  {
    ('0' as int + d) as char
  }

  /** The decimal digits of n, most significant first, with no leading zero. */
  function FormatNat(n: nat): (s: string)
    ensures |s| >= 1
    ensures forall i | 0 <= i < |s| :: IsDigitChar(s[i])
    ensures s[0] == '0' ==> n == 0
  {
    if n < 10 then [DigitChar(n)] else FormatNat(n / 10) + [DigitChar(n % 10)]
  }

  /** %d: a '-' sign for negative numbers, then the digits of the magnitude. */
  function FormatInt(n: int): (s: string)
    ensures |s| >= 1
    ensures (s[0] == '-') <==> n < 0
  {
    if n < 0 then "-" + FormatNat(-n) else FormatNat(n)
  }

  /** The value of a string of decimal digits. */
  function DigitsValue(s: string): nat
    requires forall i | 0 <= i < |s| :: IsDigitChar(s[i])
  {
    if s == [] then 0
    else
      assert IsDigitChar(s[|s| - 1]);
      DigitsValue(s[..|s| - 1]) * 10 + (s[|s| - 1] as int - '0' as int)
  }

  /** Reads an optionally signed decimal integer; anything else is rejected. */
  function ParseInt(s: string): Option<int> {
    if |s| > 0 && s[0] == '-' then
      var digits := s[1..];
      if |digits| > 0 && forall i | 0 <= i < |digits| :: IsDigitChar(digits[i])
      then Some(0 - DigitsValue(digits)) else None
    else if |s| > 0 && forall i | 0 <= i < |s| :: IsDigitChar(s[i]) then Some(DigitsValue(s))
    else None
  }

  lemma {:induction false} DigitsOfFormatNat(n: nat)
    ensures DigitsValue(FormatNat(n)) == n
  {
    if n >= 10 {
      DigitsOfFormatNat(n / 10);
      var s := FormatNat(n);
      assert s[..|s| - 1] == FormatNat(n / 10);
    }
  }

  /** Reading back a rendered integer gives that integer. */
  lemma ParseFormatInt(n: int)
    ensures ParseInt(FormatInt(n)) == Some(n)
  {
    var digits := FormatNat(if n < 0 then -n else n);
    DigitsOfFormatNat(if n < 0 then -n else n);
    assert digits[0] != '-';
    if n < 0 {
      var s := FormatInt(n);
      assert s[1..] == digits;
      assert ParseInt(s) == Some(0 - DigitsValue(digits));
    } else {
      assert ParseInt(digits) == Some(DigitsValue(digits));
    }
  }

  /** Distinct integers render to distinct strings. */
  lemma FormatIntIsInjective(m: int, n: int)
    requires FormatInt(m) == FormatInt(n)
    ensures m == n
  {
    ParseFormatInt(m);
    ParseFormatInt(n);
  }
}
