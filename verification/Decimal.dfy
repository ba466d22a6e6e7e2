/** Decimal notation, most significant digit first. */
module Decimal {
  function Digits(n: nat): (d: seq<nat>)
    ensures d != [] && forall x :: x in d ==> x < 10
  {
    if n < 10 then [n] else Digits(n / 10) + [n % 10]
  }

  /** A number is known by its digits. */
  lemma {:induction false} DigitsUnique(m: nat, n: nat)
    requires Digits(m) == Digits(n)
    ensures m == n
  {
    var p, q := Digits(m), Digits(n);
    assert p[|p| - 1] == m % 10 && q[|q| - 1] == n % 10;
    if m >= 10 && n >= 10 {
      assert p[..|p| - 1] == Digits(m / 10) && q[..|q| - 1] == Digits(n / 10);
      DigitsUnique(m / 10, n / 10);
    }
  }
}
