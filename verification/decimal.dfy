/** Go's `%d` rendering of a non-negative integer (used in the `(fexit: N)`
    label), together with the parser that reads it back. */
module Decimal {

  predicate IsDigit(c: char) {
    '0' <= c <= '9'
  }

  function DigitChar(d: nat): (c: char)
    requires d < 10
    ensures IsDigit(c)
  {
    ['0', '1', '2', '3', '4', '5', '6', '7', '8', '9'][d]
  }

  function DigitValue(c: char): (d: nat)
    requires IsDigit(c)
    ensures d < 10
  {
    (c as int) - ('0' as int)
  }

  lemma DigitRoundTrip(d: nat)
    requires d < 10
    ensures DigitValue(DigitChar(d)) == d
  {
  }

  /** Decimal digits of `n`, most significant first, without leading zeros. */
  function Show(n: nat): (s: string)
    ensures 1 <= |s|
    ensures forall i :: 0 <= i < |s| ==> IsDigit(s[i])
    ensures n < 10 <==> |s| == 1
    ensures |s| > 1 ==> s[0] != '0'
  {
    if n < 10 then [DigitChar(n)] else Show(n / 10) + [DigitChar(n % 10)]
  }

  predicate AllDigits(s: string) {
    forall i :: 0 <= i < |s| ==> IsDigit(s[i])
  }

  /** What `%d` can print: digits only, at least one, and no leading zero
      unless the number is zero. */
  predicate Canonical(s: string) {
    AllDigits(s) && |s| > 0 && (|s| > 1 ==> s[0] != '0')
  }

  /** The value of a string of decimal digits, most significant first. */
  function Parse(s: string): nat
    requires AllDigits(s)
  {
    if |s| == 0 then 0 else Parse(s[..|s| - 1]) * 10 + DigitValue(s[|s| - 1])
  }

  /** Reading back what `%d` printed gives the number printed. */
  lemma {:induction false} ParseShow(n: nat)
    ensures AllDigits(Show(n))
    ensures Parse(Show(n)) == n
  {
    var s := Show(n);
    if n < 10 {
      DigitRoundTrip(n);
    } else {
      ParseShow(n / 10);
      DigitRoundTrip(n % 10);
      assert s[..|s| - 1] == Show(n / 10);
    }
  }

  /** Distinct numbers print differently. */
  lemma ShowInjective(m: nat, n: nat)
    requires Show(m) == Show(n)
    ensures m == n
  {
    ParseShow(m);
    ParseShow(n);
  }

  lemma CharRoundTrip(c: char)
    requires IsDigit(c)
    ensures DigitChar(DigitValue(c)) == c
  {
  }

  /** A digit string without a leading zero has a positive value. */
  lemma {:induction false} ParsePositive(s: string)
    requires AllDigits(s) && |s| > 0 && s[0] != '0'
    ensures Parse(s) >= 1
  {
    if |s| > 1 {
      ParsePositive(s[..|s| - 1]);
    }
  }

  /** Conversely, every string `%d` can print is the rendering of its value:
      the decimal form of a number is unique. */
  lemma {:induction false} ShowParse(s: string)
    requires Canonical(s)
    ensures Show(Parse(s)) == s
  {
    var c := s[|s| - 1];
    CharRoundTrip(c);
    if |s| > 1 {
      var front := s[..|s| - 1];
      ShowParse(front);
      ParsePositive(front);
      assert Parse(s) / 10 == Parse(front) && Parse(s) % 10 == DigitValue(c);
      assert s == front + [c];
    }
  }
}
