/** Decimal numerals. */
module Decimals {

  function Digit(d: nat): (c: char)
    requires d < 10
    ensures '0' <= c <= '9'
  {
    ['0', '1', '2', '3', '4', '5', '6', '7', '8', '9'][d]
  }

  /** std::to_string. */
  function ToString(n: nat): (s: string)
    ensures s != [] && '0' <= s[|s| - 1] <= '9'
  {
    if n < 10 then [Digit(n)] else ToString(n / 10) + [Digit(n % 10)]
  }

  lemma DigitIsInjective(a: nat, b: nat)
    requires a < 10 && b < 10 && Digit(a) == Digit(b)
    ensures a == b
  {
  }

  lemma {:induction false} ToStringIsInjective(a: nat, b: nat)
    requires ToString(a) == ToString(b)
    ensures a == b
    decreases a
  {
    var s, t := ToString(a), ToString(b);
    LongNumber(a);
    LongNumber(b);
    assert s[|s| - 1] == t[|t| - 1];
    DigitIsInjective(a % 10, b % 10);
    if a >= 10 {
      assert s[..|s| - 1] == t[..|t| - 1];
      assert ToString(a / 10) == s[..|s| - 1];
      assert ToString(b / 10) == t[..|t| - 1];
      ToStringIsInjective(a / 10, b / 10);
    }
  }

  lemma LongNumber(n: nat)
    ensures n >= 10 <==> |ToString(n)| > 1
    ensures ToString(n)[|ToString(n)| - 1] == Digit(n % 10)
  {
  }

  predicate IsDigit(c: char) {
    '0' <= c <= '9'
  }

  function Value(s: string): nat
    requires forall c :: c in s ==> IsDigit(c)
  {
    if s == "" then 0
    else
      assert IsDigit(s[|s| - 1]);
      Value(s[..|s| - 1]) * 10 + (s[|s| - 1] as int - '0' as int)
  }

  predicate AllDigits(s: string) {
    forall c :: c in s ==> IsDigit(c)
  }

  lemma DigitValue(d: nat)
    requires d < 10
    ensures Digit(d) as int - '0' as int == d
  {
  }

  lemma {:induction false} ToStringValue(n: nat)
    ensures AllDigits(ToString(n)) && Value(ToString(n)) == n
  {
    DigitValue(n % 10);
    if n >= 10 {
      ToStringValue(n / 10);
      assert ToString(n)[..|ToString(n)| - 1] == ToString(n / 10);
    } else {
      assert ToString(n)[..0] == "";
    }
  }
}
