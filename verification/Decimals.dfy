/** Numbers rendered in decimal, as parts of ids. */
module Decimals {

  function Digit(n: nat): char
    requires n < 10
  {
    "0123456789"[n]
  }

  function Decimal(n: nat): (s: string)
    ensures s != []
  {
    (if n < 10 then "" else Decimal(n / 10)) + [Digit(n % 10)]
  }

  lemma {:induction false} DecimalInjective(a: nat, b: nat)
    requires Decimal(a) == Decimal(b)
    ensures a == b
  {
    var s, t := Decimal(a), Decimal(b);
    assert s[|s| - 1] == Digit(a % 10) && t[|t| - 1] == Digit(b % 10);
    assert s[..|s| - 1] == (if a < 10 then "" else Decimal(a / 10));
    assert t[..|t| - 1] == (if b < 10 then "" else Decimal(b / 10));
    if a >= 10 && b >= 10 {
      DecimalInjective(a / 10, b / 10);
    }
  }
}
