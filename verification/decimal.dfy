/**
 * Decimal rendering and parsing of integers as the JVM does it:
 * Kotlin's `Int.toString()`/`Long.toString()` and `String.toInt()`/`String.toLong()`
 * (radix 10). A parse failure, which Kotlin reports with a
 * NumberFormatException, is `None` here.
 */
module Decimal {
  import opened Wrappers

  const INT_MIN: int := -0x8000_0000
  const INT_MAX: int := 0x7FFF_FFFF
  const LONG_MIN: int := -0x8000_0000_0000_0000
  const LONG_MAX: int := 0x7FFF_FFFF_FFFF_FFFF

  predicate IsInt(x: int) { INT_MIN <= x <= INT_MAX }
  predicate IsLong(x: int) { LONG_MIN <= x <= LONG_MAX }

  predicate IsDigit(c: char) { '0' <= c <= '9' }

  predicate AllDigits(s: string) { forall i :: 0 <= i < |s| ==> IsDigit(s[i]) }

  function DigitChar(d: nat): (c: char)
    requires d < 10
    ensures IsDigit(c)
  {
    (('0' as int) + d) as char
  }

  function DigitValue(c: char): (d: nat)
    requires IsDigit(c)
    ensures d < 10 && DigitChar(d) == c
  {
    (c as int) - ('0' as int)
  }

  /** The decimal digits of `n`, most significant first, without leading zeros. */
  function NatToString(n: nat): (s: string)
    ensures |s| >= 1 && AllDigits(s)
    ensures |s| > 1 ==> s[0] != '0'
    decreases n
  {
    if n < 10 then [DigitChar(n)] else NatToString(n / 10) + [DigitChar(n % 10)]
  }

  /** The value of a string of digits (leading zeros allowed). */
  function DigitsValue(s: string): nat
    requires AllDigits(s)
    decreases |s|
  {
    if s == [] then 0 else DigitsValue(s[..|s| - 1]) * 10 + DigitValue(s[|s| - 1])
  }

  lemma {:induction false} NatToStringRoundTrip(n: nat)
    ensures DigitsValue(NatToString(n)) == n
    decreases n
  {
    if n >= 10 {
      var s := NatToString(n / 10);
      var t := s + [DigitChar(n % 10)];
      assert t[..|t| - 1] == s;
      NatToStringRoundTrip(n / 10);
    }
  }

  /** `Int.toString()` / `Long.toString()`: a minus sign for negatives, then the digits of |x|. */
  function IntToString(x: int): (s: string)
    ensures |s| >= 1
    ensures x < 0 <==> s[0] == '-'
    ensures x >= 0 ==> AllDigits(s)
    ensures x < 0 ==> AllDigits(s[1..]) && |s| >= 2
  {
    if x < 0 then "-" + NatToString(-x) else NatToString(x)
  }

  /** Only digits and a leading minus sign occur in a rendered integer. */
  lemma IntToStringAlphabet(x: int, c: char)
    requires c in IntToString(x)
    ensures IsDigit(c) || c == '-'
  {
    var s := IntToString(x);
    var i :| 0 <= i < |s| && s[i] == c;
    if x < 0 && i > 0 {
      assert s[1..][i - 1] == c;
    }
  }

  /** A character that is neither a digit nor '-' never occurs in a rendered integer. */
  lemma IntToStringLacks(x: int, c: char)
    requires !IsDigit(c) && c != '-'
    ensures c !in IntToString(x)
  {
    if c in IntToString(x) { IntToStringAlphabet(x, c); }
  }

  /** A non-negative number renders without any sign. */
  lemma NonNegativeHasNoSign(x: int)
    requires x >= 0
    ensures '-' !in IntToString(x)
  {
  }

  /** An optional sign followed by at least one ASCII digit. */
  predicate IsNumeral(s: string)
  {
    if |s| > 0 && (s[0] == '-' || s[0] == '+') then |s| >= 2 && AllDigits(s[1..])
    else |s| >= 1 && AllDigits(s)
  }

  /** The integer a numeral denotes. */
  function NumeralValue(s: string): int
    requires IsNumeral(s)
  {
    if s[0] == '-' then -(DigitsValue(s[1..]) as int)
    else if s[0] == '+' then DigitsValue(s[1..])
    else DigitsValue(s)
  }

  /**
   * Kotlin's radix-10 `toInt`/`toLong` with the range [lo, hi] of the target
   * type: `None` for an empty string, a lone sign, any non-digit, or a value
   * out of range.
   */
  function ParseInteger(s: string, lo: int, hi: int): (r: Option<int>)
    ensures r.Some? <==> IsNumeral(s) && lo <= NumeralValue(s) <= hi
    ensures r.Some? ==> r.value == NumeralValue(s) && lo <= r.value <= hi
  {
    if |s| == 0 then None
    else if s[0] == '-' || s[0] == '+' then
      if |s| == 1 || !AllDigits(s[1..]) then None
      else
        var v := if s[0] == '-' then -(DigitsValue(s[1..]) as int) else DigitsValue(s[1..]);
        if lo <= v <= hi then Some(v) else None
    else if AllDigits(s) && lo <= DigitsValue(s) <= hi then Some(DigitsValue(s))
    else None
  }

  /** `String.toInt()`. */
  function ParseInt(s: string): Option<int>
  {
    ParseInteger(s, INT_MIN, INT_MAX)
  }

  /** `String.toLong()`. */
  function ParseLong(s: string): Option<int>
  {
    ParseInteger(s, LONG_MIN, LONG_MAX)
  }

  /** Parsing what `toString` rendered gives the number back, for every value in range. */
  lemma IntToStringRoundTrip(x: int, lo: int, hi: int)
    requires lo <= x <= hi
    ensures ParseInteger(IntToString(x), lo, hi) == Some(x)
  {
    var s := IntToString(x);
    if x < 0 {
      assert s[1..] == NatToString(-x);
      NatToStringRoundTrip(-x);
    } else {
      NatToStringRoundTrip(x);
    }
  }
}
