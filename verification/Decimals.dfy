/** Numbers in decimal notation: powers of ten, and the text of a number. */
module Decimals {

  function Pow10(n: nat): (p: nat)
    ensures p > 0
  {
    if n == 0 then 1 else 10 * Pow10(n - 1)
  }

  lemma {:induction false} Pow10Grows(a: nat, b: nat)
    requires a <= b
    ensures Pow10(a) <= Pow10(b)
    decreases b - a
  {
    if a < b {
      Pow10Grows(a, b - 1);
    }
  }

  function DecimalText(n: nat): string
  {
    var digit := [(n % 10 + '0' as nat) as char];
    if n < 10 then digit else DecimalText(n / 10) + digit
  }

  predicate IsDigit(c: char)
  {
    '0' <= c <= '9'
  }

  lemma {:induction false} DecimalIsDigits(n: nat)
    ensures DecimalText(n) != "" && forall c :: c in DecimalText(n) ==> IsDigit(c)
  {
    if n >= 10 {
      DecimalIsDigits(n / 10);
    }
  }

  lemma {:induction false} ThreeDigits(n: nat)
    requires 100 <= n < 1000
    ensures |DecimalText(n)| == 3
  {
    assert |DecimalText(n / 10)| == 2;
  }

  lemma {:induction false} DecimalInjective(a: nat, b: nat)
    requires DecimalText(a) == DecimalText(b)
    ensures a == b
    decreases a
  {
    var s, t := DecimalText(a), DecimalText(b);
    DecimalIsDigits(a / 10);
    DecimalIsDigits(b / 10);
    assert s[|s| - 1] as nat - '0' as nat == a % 10 && t[|t| - 1] as nat - '0' as nat == b % 10;
    if a >= 10 && b >= 10 {
      assert s[..|s| - 1] == DecimalText(a / 10) && t[..|t| - 1] == DecimalText(b / 10);
      DecimalInjective(a / 10, b / 10);
    }
  }
}
