/** Decimal numbers as they are printed and matched. */
module Decimal {
  import opened Utf

  predicate IsDigit(u: Unit) { 48 <= u <= 57 }

  predicate AllDigits(t: Text) { forall u | u in t :: IsDigit(u) }

  function Digits(n: nat): (t: Text)
    ensures t != [] && AllDigits(t)
  {
    if n < 10 then [48 + n] else Digits(n / 10) + [48 + n % 10]
  }

  /** The number a run of digits stands for; leading zeros are allowed. */
  function Value(t: Text): nat
    requires AllDigits(t)
  {
    if t == [] then 0
    else
      assert IsDigit(t[|t| - 1]);
      Value(t[..|t| - 1]) * 10 + (t[|t| - 1] - 48)
  }

  lemma {:induction false} ValueOfDigits(n: nat)
    ensures Value(Digits(n)) == n
  {
    if n >= 10 {
      ValueOfDigits(n / 10);
      var t := Digits(n);
      assert t[..|t| - 1] == Digits(n / 10);
    } else {
      assert Digits(n)[..0] == [];
    }
  }

  /** A larger number is never shorter. */
  lemma {:induction false} DigitsMonotone(m: nat, n: nat)
    requires m <= n
    ensures |Digits(m)| <= |Digits(n)|
  {
    if m >= 10 { DigitsMonotone(m / 10, n / 10); }
  }
}
