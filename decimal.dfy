/**
 * Go's `%d` verb applied to an `int`: base-10 digits with no leading zeros,
 * preceded by `-` for a negative value and by nothing otherwise.
 * `ParseInt` reads such text back and is proved to be its exact inverse.
 */
module Decimal {

  predicate IsDigit(c: char) {
    '0' <= c <= '9'
  }

  predicate AllDigits(s: string) {
    forall i :: 0 <= i < |s| ==> IsDigit(s[i])
  }

  /** The value of a decimal digit character. */
  function DigitValue(c: char): (d: nat)
    requires IsDigit(c)
    ensures d < 10
  {
    c as int - '0' as int
  }

  /** The character of a decimal digit. */
  function DigitChar(d: nat): (c: char)
    requires d < 10
    ensures IsDigit(c) && DigitValue(c) == d
  {
    ('0' as int + d) as char
  }

  /**
   * Canonical decimal text of a natural number: digits only, at least one,
   * and a leading `0` only for zero itself.
   */
  predicate IsCanonicalNat(s: string) {
    |s| >= 1 && AllDigits(s) && (|s| > 1 ==> s[0] != '0')
  }

  /** The decimal digits of `n`. */
  function FormatNat(n: nat): (s: string)
    ensures IsCanonicalNat(s)
    ensures n < 10 <==> |s| == 1
  {
    if n < 10 then [DigitChar(n)] else FormatNat(n / 10) + [DigitChar(n % 10)]
  }

  /** The value of a string of decimal digits (most significant first). */
  function ParseNat(s: string): nat
    requires AllDigits(s)
  {
    if s == [] then 0 else ParseNat(s[..|s| - 1]) * 10 + DigitValue(s[|s| - 1])
  }

  /** fmt's `%d` on a signed integer. */
  function FormatInt(n: int): (s: string)
    ensures |s| >= 1
    ensures s[0] == '-' <==> n < 0
    ensures IsCanonicalNat(if n < 0 then s[1..] else s)
  {
    if n < 0 then "-" + FormatNat(-n) else FormatNat(n)
  }

  /** Text that `%d` can produce: an optional `-` then canonical digits, never "-0". */
  predicate IsCanonicalInt(s: string) {
    if |s| >= 1 && s[0] == '-' then IsCanonicalNat(s[1..]) && s[1..] != "0"
    else IsCanonicalNat(s)
  }

  function ParseInt(s: string): int
    requires IsCanonicalInt(s)
  {
    if |s| >= 1 && s[0] == '-' then -(ParseNat(s[1..]) as int) else ParseNat(s)
  }

  /** Reading back the digits of `n` gives `n`. */
  lemma {:induction false} ParseFormatNat(n: nat)
    ensures ParseNat(FormatNat(n)) == n
  {
    if n >= 10 {
      var s := FormatNat(n);
      assert s[..|s| - 1] == FormatNat(n / 10);
      ParseFormatNat(n / 10);
    }
  }

  /** Canonical digits with a non-zero leading digit denote a positive number. */
  lemma {:induction false} ParseNatPositive(s: string)
    requires |s| >= 1 && AllDigits(s) && s[0] != '0'
    ensures ParseNat(s) >= 1
  {
    if |s| > 1 {
      ParseNatPositive(s[..|s| - 1]);
    }
  }

  /** Formatting the value of canonical digits gives back those digits. */
  lemma {:induction false} FormatParseNat(s: string)
    requires IsCanonicalNat(s)
    ensures FormatNat(ParseNat(s)) == s
  {
    if |s| > 1 {
      var init := s[..|s| - 1];
      FormatParseNat(init);
      ParseNatPositive(init);
      assert s == init + [s[|s| - 1]];
    }
  }

  /** `%d` output is canonical, and parsing it recovers the integer. */
  lemma ParseFormatInt(n: int)
    ensures IsCanonicalInt(FormatInt(n))
    ensures ParseInt(FormatInt(n)) == n
  {
    var s := FormatInt(n);
    if n < 0 {
      assert s[1..] == FormatNat(-n);
      ParseFormatNat(-n);
    } else {
      ParseFormatNat(n);
    }
  }

  /** Every canonical integer text is the `%d` output of its value. */
  lemma FormatParseInt(s: string)
    requires IsCanonicalInt(s)
    ensures FormatInt(ParseInt(s)) == s
  {
    if |s| >= 1 && s[0] == '-' {
      var unsigned := s[1..];
      assert unsigned[0] != '0' by {
        if |unsigned| == 1 { assert unsigned == [unsigned[0]]; }
      }
      FormatParseNat(unsigned);
      ParseNatPositive(unsigned);
      var m: int := ParseNat(unsigned);
      assert ParseInt(s) == -m;
      assert FormatInt(-m) == "-" + FormatNat(m);
      assert s == "-" + unsigned;
    } else {
      FormatParseNat(s);
    }
  }

  /** `%d` never gives two integers the same text. */
  lemma FormatIntInjective(a: int, b: int)
    requires FormatInt(a) == FormatInt(b)
    ensures a == b
  {
    ParseFormatInt(a);
    ParseFormatInt(b);
  }

  /** The length of the longest run of digits at the start of `s`. */
  function DigitPrefixLen(s: string): (k: nat)
    ensures k <= |s|
    ensures AllDigits(s[..k])
    ensures k < |s| ==> !IsDigit(s[k])
  {
    if s == [] || !IsDigit(s[0]) then 0 else 1 + DigitPrefixLen(s[1..])
  }

  /** A run of digits followed by a non-digit is read up to that non-digit. */
  lemma {:induction false} DigitPrefixOfConcat(a: string, b: string)
    requires AllDigits(a)
    requires b == [] || !IsDigit(b[0])
    ensures DigitPrefixLen(a + b) == |a|
  {
    if a != [] {
      assert (a + b)[1..] == a[1..] + b;
      DigitPrefixOfConcat(a[1..], b);
    }
  }
}
