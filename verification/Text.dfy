/** The string operations the game uses, on strings of basic-plane characters. */
module Text {
  import Decimal
  import Lexicographic

  /** Decimal digits of n, as a template literal prints them. */
  function OfNat(n: nat): string {
    var d := Decimal.Digits(n);
    seq(|d|, i requires 0 <= i < |d| => assert d[i] in d; ('0' as int + d[i]) as char)
  }

  function OfInt(n: int): string {
    if n < 0 then "-" + OfNat(-n) else OfNat(n)
  }

  lemma DigitsArePrinted(n: nat)
    ensures var d, s := Decimal.Digits(n), OfNat(n);
            |s| == |d| && forall i :: 0 <= i < |s| ==> d[i] < 10 && s[i] as int == '0' as int + d[i]
  {
    hide Decimal.Digits;
    var d := Decimal.Digits(n);
    assert forall i :: 0 <= i < |d| ==> d[i] in d;
  }

  lemma NatsPrintApart(m: nat, n: nat)
    requires OfNat(m) == OfNat(n)
    ensures m == n
  {
    hide Decimal.Digits, OfNat;
    DigitsArePrinted(m);
    DigitsArePrinted(n);
    var d, e := Decimal.Digits(m), Decimal.Digits(n);
    assert forall i :: 0 <= i < |d| ==> d[i] == e[i];
    Decimal.DigitsUnique(m, n);
  }

  /** Different numbers print differently. */
  lemma NumbersPrintApart(m: int, n: int)
    requires OfInt(m) == OfInt(n)
    ensures m == n
  {
    hide Decimal.Digits, OfNat;
    DigitsArePrinted(if m < 0 then -m else m);
    DigitsArePrinted(if n < 0 then -n else n);
    assert OfInt(m)[0] == '-' <==> m < 0;
    assert OfInt(n)[0] == '-' <==> n < 0;
    if m < 0 {
      assert OfInt(m)[1..] == OfNat(-m) && OfInt(n)[1..] == OfNat(-n);
      NatsPrintApart(-m, -n);
    } else {
      NatsPrintApart(m, n);
    }
  }

  function Rank(): char -> int {
    c => c as int
  }

  /** `a < b` on strings. */
  predicate Less(a: string, b: string) {
    Lexicographic.Less(a, b, Rank())
  }

  predicate AtMost(a: string, b: string) {
    a == b || Less(a, b)
  }

  lemma LessTrichotomy(a: string, b: string)
    ensures !(Less(a, b) && Less(b, a))
    ensures a != b ==> Less(a, b) || Less(b, a)
    ensures a == b ==> !Less(a, b)
  {
    Lexicographic.Trichotomy(a, b, Rank());
  }

  lemma LessTransitive(a: string, b: string, c: string)
    requires Less(a, b) && Less(b, c)
    ensures Less(a, c)
  {
    Lexicographic.Transitive(a, b, c, Rank());
  }
}
