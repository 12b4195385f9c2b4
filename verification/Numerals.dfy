/** The one decimal numeral of a number. */
module Numerals {
  import opened Decimal

  /** The decimal numeral of `n`, without a leading zero. */
  ghost predicate Numeral(text: string, n: nat) {
    text != "" && (forall c <- text :: IsDigit(c)) && (|text| > 1 ==> text[0] != '0') && NumberOf(text) == n
  }

  lemma {:induction false} NumeralSize(text: string, n: nat)
    requires Numeral(text, n)
    ensures n < 10 <==> |text| == 1
    ensures n == 0 ==> text == "0"
  {
    var init := text[..|text| - 1];
    assert IsDigit(text[|text| - 1]);
    if |text| == 1 {
      assert init == "";
      assert NumberOf(text) == text[0] as int - '0' as int;
    } else {
      NumeralSize(init, NumberOf(init));
    }
  }

  /** A number has one numeral. */
  lemma {:induction false} NumeralIsUnique(a: string, b: string, n: nat)
    requires Numeral(a, n) && Numeral(b, n)
    ensures a == b
  {
    NumeralSize(a, n);
    NumeralSize(b, n);
    var c, d := a[..|a| - 1], b[..|b| - 1];
    assert IsDigit(a[|a| - 1]) && IsDigit(b[|b| - 1]);
    assert a == c + [a[|a| - 1]] && b == d + [b[|b| - 1]];
    if n < 10 {
      assert c == "" && d == "";
    } else {
      assert NumberOf(c) == n / 10 == NumberOf(d);
      NumeralIsUnique(c, d, n / 10);
    }
  }

  lemma {:induction false} ToDigitsIsNumeral(n: nat)
    ensures Numeral(ToDigits(n), n)
  {
    ToDigitsMeaning(n);
    if n >= 10 {
      ToDigitsIsNumeral(n / 10);
      ToDigitsMeaning(n / 10);
      NumeralSize(ToDigits(n / 10), n / 10);
    }
  }
}
