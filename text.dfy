/**
 * Characters and strings as the JavaScript runtime sees them: the character
 * classes used by the parser's regular expressions, ASCII lower-casing for
 * the case-insensitive status pattern, and the decimal conversions done by
 * `Number(...)`, `parseInt(...)` and template literals on whole numbers.
 */
module Text {

  /** `[0-9]` and `\d` */
  predicate IsDigit(c: char) {
    '0' <= c <= '9'
  }

  /** `\s`: JavaScript's WhiteSpace and LineTerminator code points. */
  predicate IsSpace(c: char) {
    c == '\t' || c == '\n' || c == '\U{0B}' || c == '\U{0C}' || c == '\r' || c == ' '
    || c == '\U{A0}' || c == '\U{1680}' || ('\U{2000}' <= c <= '\U{200A}')
    || c == '\U{2028}' || c == '\U{2029}' || c == '\U{202F}' || c == '\U{205F}'
    || c == '\U{3000}' || c == '\U{FEFF}'
  }

  /** The character classes that the patterns repeat with `+` or `*`. */
  datatype CharClass = Digit | Space | DigitOrDot

  predicate InClass(c: char, k: CharClass) {
    match k
    case Digit => IsDigit(c)
    case Space => IsSpace(c)
    case DigitOrDot => IsDigit(c) || c == '.'
  }

  /** Every character of `s[lo..hi]` is in class `k`. */
  predicate AllIn(s: string, lo: nat, hi: nat, k: CharClass)
    requires lo <= hi <= |s|
  {
    forall m :: lo <= m < hi ==> InClass(s[m], k)
  }

  predicate AllDigits(t: string) {
    forall k :: 0 <= k < |t| ==> IsDigit(t[k])
  }

  /**
   * End of the longest run of class `k` that starts at `i`: a greedy
   * `k*` matched from `i`.
   */
  function RunEnd(s: string, i: nat, k: CharClass): (j: nat)
    requires i <= |s|
    ensures i <= j <= |s|
    ensures forall m :: i <= m < j ==> InClass(s[m], k)
    ensures j == |s| || !InClass(s[j], k)
    decreases |s| - i
  {
    if i < |s| && InClass(s[i], k) then RunEnd(s, i + 1, k) else i
  }

  /** A run is determined by where it stops: any maximal run from `i` ends where RunEnd says. */
  lemma RunEndUnique(s: string, i: nat, k: CharClass, j: nat)
    requires i <= j <= |s|
    requires forall m :: i <= m < j ==> InClass(s[m], k)
    requires j == |s| || !InClass(s[j], k)
    ensures RunEnd(s, i, k) == j
  {
  }

  /** ASCII lower-casing, which is all that `/i` and `toLowerCase` do to the status keywords. */
  function Lower(c: char): (l: char)
    ensures 'A' <= c <= 'Z' ==> 'a' <= l <= 'z' && l as int - c as int == 32
    ensures !('A' <= c <= 'Z') ==> l == c
  {
    if 'A' <= c <= 'Z' then (c as int + 32) as char else c
  }

  function LowerString(s: string): (r: string)
    ensures |r| == |s|
    ensures forall k :: 0 <= k < |s| ==> r[k] == Lower(s[k])
  {
    seq(|s|, k requires 0 <= k < |s| => Lower(s[k]))
  }

  /** Lower-casing leaves a string without capitals unchanged. */
  lemma LowerStringNoCapitals(t: string)
    requires forall k :: 0 <= k < |t| ==> !('A' <= t[k] <= 'Z')
    ensures LowerString(t) == t
  {
  }

  function DigitValue(c: char): (v: nat)
    requires IsDigit(c)
    ensures v < 10
  {
    c as int - '0' as int
  }

  function DigitChar(v: nat): (c: char)
    requires v < 10
    ensures IsDigit(c) && DigitValue(c) == v
  {
    ('0' as int + v) as char
  }

  /** `Number(t)` and `parseInt(t)` on a string of decimal digits (leading zeros allowed). */
  function DecimalValue(t: string): nat
    requires AllDigits(t)
  {
    if t == [] then 0 else 10 * DecimalValue(t[..|t| - 1]) + DigitValue(t[|t| - 1])
  }

  /**
   * A whole number printed by a template literal: decimal digits with no
   * leading zero, which read back as the number.
   */
  function NatToDecimal(n: nat): (r: string)
    ensures |r| >= 1 && AllDigits(r)
    ensures n == 0 <==> r == "0"
    ensures n > 0 ==> r[0] != '0'
    ensures DecimalValue(r) == n
    decreases n
  {
    if n < 10 then [DigitChar(n)]
    else
      var prefix := NatToDecimal(n / 10);
      var r := prefix + [DigitChar(n % 10)];
      assert r[..|r| - 1] == prefix;
      r
  }

  /** Decimal digits as a template literal prints them: at least one, and no leading zero unless the number is 0. */
  predicate IsCanonicalDecimal(t: string) {
    |t| >= 1 && AllDigits(t) && (t[0] == '0' ==> |t| == 1)
  }

  /** Digits that do not start with `0` denote a positive number. */
  lemma {:induction false} LeadingDigitPositive(t: string)
    requires |t| >= 1 && AllDigits(t) && t[0] != '0'
    ensures DecimalValue(t) >= 1
    decreases |t|
  {
    if |t| > 1 {
      var prefix := t[..|t| - 1];
      assert prefix[0] == t[0];
      LeadingDigitPositive(prefix);
    }
  }

  /** The other half of the decimal round trip: printing the value of canonical digits gives the digits back. */
  lemma {:induction false} DecimalReadsBack(t: string)
    requires IsCanonicalDecimal(t)
    ensures NatToDecimal(DecimalValue(t)) == t
    decreases |t|
  {
    if |t| > 1 {
      var prefix := t[..|t| - 1];
      assert prefix[0] == t[0];
      LeadingDigitPositive(prefix);
      DecimalReadsBack(prefix);
      var n := DecimalValue(t);
      assert n / 10 == DecimalValue(prefix) && n % 10 == DigitValue(t[|t| - 1]);
      assert t == prefix + [t[|t| - 1]];
    }
  }
}
