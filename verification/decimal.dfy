/** Decimal digit strings: the zero-padded fields of `strftime` and the
    `str(int)` rendering of a day count inside an f-string. */
module Decimal {

  const Digits: string := "0123456789"

  predicate IsDigit(c: char) {
    '0' <= c <= '9'
  }

  predicate AllDigits(s: string) {
    forall i :: 0 <= i < |s| ==> IsDigit(s[i])
  }

  function Digit(k: int): (c: char)
    requires 0 <= k < 10
    ensures IsDigit(c)
  {
    Digits[k]
  }

  function DigitValue(c: char): (k: int)
    requires IsDigit(c)
    ensures 0 <= k < 10
  {
    c as int - '0' as int
  }

  /** The number a string of decimal digits denotes, most significant first. */
  function Value(s: string): (v: int)
    requires AllDigits(s)
    ensures v >= 0
  {
    if s == [] then 0 else Value(s[..|s| - 1]) * 10 + DigitValue(s[|s| - 1])
  }

  function Pow10(w: nat): (p: int)
    ensures p >= 1
  {
    if w == 0 then 1 else 10 * Pow10(w - 1)
  }

  /** `n` written with exactly `width` digits, padded on the left with zeros,
      as `%02d`-style fields (`%d`, `%m`) and a padded `%Y` print it. */
  function ZeroPad(n: int, width: nat): (s: string)
    requires 0 <= n < Pow10(width)
    ensures |s| == width
    ensures AllDigits(s)
    ensures Value(s) == n
  {
    if width == 0 then ""
    else
      var prefix := ZeroPad(n / 10, width - 1);
      var s := prefix + [Digit(n % 10)];
      assert s[..|s| - 1] == prefix;
      s
  }

  /** `str(n)` for a non-negative integer: shortest decimal form, no leading
      zero except for 0 itself. */
  function NatToString(n: nat): (s: string)
    ensures |s| >= 1
    ensures AllDigits(s)
    ensures Value(s) == n
    ensures |s| > 1 ==> s[0] != '0'
  {
    if n < 10 then [Digit(n)]
    else
      var prefix := NatToString(n / 10);
      var s := prefix + [Digit(n % 10)];
      assert s[..|s| - 1] == prefix;
      s
  }

  /** Text holding no line break of either kind. */
  predicate SingleLine(s: string) {
    '\n' !in s && '\r' !in s
  }

  /** Digit strings hold no line break. */
  lemma DigitsSingleLine(s: string)
    requires AllDigits(s)
    ensures SingleLine(s)
  {
  }
}
