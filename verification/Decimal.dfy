/** Decimal text of natural numbers, as JavaScript writes and reads it. */
module Decimal {

  const DIGITS := "0123456789"

  predicate IsDigit(c: char) { '0' <= c <= '9' }

  predicate AllDigits(s: string) { forall i | 0 <= i < |s| :: IsDigit(s[i]) }

  function DigitValue(c: char): (v: int)
    requires IsDigit(c)
    ensures 0 <= v < 10
  {
    c as int - '0' as int
  }

  function Text(n: nat): (s: string)
    ensures |s| > 0 && AllDigits(s)
  {
    if n < 10 then [DIGITS[n]] else Text(n / 10) + [DIGITS[n % 10]]
  }

  function Value(s: string): (n: nat)
    requires AllDigits(s)
  {
    if s == "" then 0 else 10 * Value(s[..|s| - 1]) + DigitValue(s[|s| - 1])
  }

  lemma {:induction false} TextRoundTrip(n: nat)
    ensures Value(Text(n)) == n
  {
    if n >= 10 {
      TextRoundTrip(n / 10);
      assert Text(n)[..|Text(n)| - 1] == Text(n / 10);
    } else {
      assert Value([DIGITS[n]][..0]) == 0;
    }
  }

  lemma TextInjective(a: nat, b: nat)
    requires Text(a) == Text(b)
    ensures a == b
  {
    TextRoundTrip(a);
    TextRoundTrip(b);
  }
}
