/** Decimal numerals, up to the largest integer a JavaScript number holds exactly. */
module Decimal {
  import opened Basics

  const MAX_SAFE: nat := 9_007_199_254_740_991

  predicate IsDigit(c: char) {
    '0' <= c <= '9'
  }

  function NumberOf(digits: string): nat
    requires forall c <- digits :: IsDigit(c)
  {
    if digits == "" then 0
    else
      assert IsDigit(digits[|digits| - 1]);
      10 * NumberOf(digits[..|digits| - 1]) + (digits[|digits| - 1] as int - '0' as int)
  }

  function ToDigits(n: nat): string {
    var digit := [('0' as int + n % 10) as char];
    if n < 10 then digit else ToDigits(n / 10) + digit
  }

  /** `safeLineNumber`: exact up to the largest safe integer. */
  function SafeNumber(digits: string): Option<nat> {
    if digits != "" && (forall c <- digits :: IsDigit(c)) && NumberOf(digits) <= MAX_SAFE then Some(NumberOf(digits)) else None
  }

  lemma {:induction false} ToDigitsMeaning(n: nat)
    ensures ToDigits(n) != "" && (forall c <- ToDigits(n) :: IsDigit(c)) && NumberOf(ToDigits(n)) == n
  {
    var digit := ('0' as int + n % 10) as char;
    var d := ToDigits(n);
    if n < 10 {
      assert d[..0] == "";
    } else {
      ToDigitsMeaning(n / 10);
      assert d[..|d| - 1] == ToDigits(n / 10);
    }
  }
}
