/**
  Percentages as a page writes them: a typed literal becomes a number, and the number is written out again.
  Numbers are doubles, so rounding and writing are parameters with the laws this needs; section 6.1.6.1.20 of
  ECMA-262 writes a number with an exponent when it is below 10^-6.
*/
module Percentages {
  import opened Basics
  import opened AttributeText
  import opened Decimal

  /** `round` is the double next to an exact value, `show` is how a double is written. */
  datatype Percent = Percent(round: real -> real, show: real -> string)

  const THRESHOLD: real := 0.000001

  // ----- literals

  /** `\d+(?:\.\d+)?|\.\d+` */
  predicate IsDecimal(s: string) {
    var n := Run(s, IsDigit);
    if n == |s| then n > 0
    else s[n] == '.' && n + 1 < |s| && Run(s[n + 1..], IsDigit) == |s| - n - 1
  }

  function Whole(s: string): (digits: string)
    ensures forall c <- digits :: IsDigit(c)
  {
    s[..Run(s, IsDigit)]
  }

  function Fraction(s: string): (digits: string)
    requires IsDecimal(s)
    ensures forall c <- digits :: IsDigit(c)
  {
    if Run(s, IsDigit) == |s| then "" else s[Run(s, IsDigit) + 1..]
  }

  function Ten(n: nat): (t: nat)
    ensures t >= 1
  {
    if n == 0 then 1 else 10 * Ten(n - 1)
  }

  /** What the literal stands for. */
  function Value(s: string): real
    requires IsDecimal(s)
  {
    NumberOf(Whole(s)) as real + NumberOf(Fraction(s)) as real / Ten(|Fraction(s)|) as real
  }

  /** The percentage as it is written; None outside (0, 100]. */
  function Written(percent: Percent, literal: string): Option<string>
    requires IsDecimal(literal)
  {
    var size := percent.round(Value(literal));
    if 0.0 < size <= 100.0 then Some(percent.show(size)) else None
  }

  // ----- the laws of doubles

  ghost predicate Monotone(percent: Percent) {
    forall x, y :: x <= y ==> percent.round(x) <= percent.round(y)
  }

  /** Half a unit in the last place, for the sizes at hand. */
  ghost predicate Close(percent: Percent) {
    forall x :: 0.000000001 <= x <= 1000.0 ==>
      -x <= 9007199254740992.0 * (percent.round(x) - x) <= x
  }

  /** Below the threshold a number is written with an exponent, and else so that it is read again. */
  ghost predicate WellShown(percent: Percent, size: real) {
    var text := percent.show(size);
    text != "" && (forall c <- text :: IsDigit(c) || c in ".e+-") &&
    if size < percent.round(THRESHOLD) then !IsDecimal(text) else IsDecimal(text) && percent.round(Value(text)) == size
  }

  ghost predicate GoodPercent(percent: Percent) {
    && Monotone(percent)
    && Close(percent)
    && forall x :: 0.0 < percent.round(x) <= 100.0 ==> WellShown(percent, percent.round(x))
  }

  /** The number the literal is read as is smaller than 0.000001. */
  predicate IsTiny(percent: Percent, literal: string)
    requires IsDecimal(literal)
  {
    percent.round(Value(literal)) < percent.round(THRESHOLD)
  }

  lemma WrittenMeaning(percent: Percent, literal: string)
    requires GoodPercent(percent) && IsDecimal(literal) && Written(percent, literal).Some?
    ensures var text := Written(percent, literal).value;
            text != "" && (forall c <- text :: IsDigit(c) || c in ".e+-") &&
            (IsDecimal(text) <==> !IsTiny(percent, literal)) &&
            (IsDecimal(text) ==> Written(percent, text) == Some(text))
  {
    hide IsDecimal, Value;
    var size := percent.round(Value(literal));
    assert WellShown(percent, size);
  }

  // ----- which literals are tiny

  lemma {:induction false} TenAdds(a: nat, b: nat)
    ensures Ten(a + b) == Ten(a) * Ten(b)
  {
    if a > 0 { TenAdds(a - 1, b); }
  }

  lemma {:induction false} ZeroIff(digits: string)
    requires forall c <- digits :: IsDigit(c)
    ensures NumberOf(digits) == 0 <==> forall i :: 0 <= i < |digits| ==> digits[i] == '0'
  {
    if digits != "" {
      var last := |digits| - 1;
      assert IsDigit(digits[last]) && forall c <- digits[..last] :: c in digits;
      ZeroIff(digits[..last]);
      assert forall i :: 0 <= i < last ==> digits[..last][i] == digits[i];
    }
  }

  lemma TimesMonotone(a: nat, b: nat, c: nat)
    requires c >= 1
    ensures a * c < b * c <==> a < b
  {
  }

  /** A number of digits is below a power of ten exactly when its leading digits are zeros. */
  lemma {:induction false} LeadingZeros(digits: string, m: nat)
    requires forall c <- digits :: IsDigit(c)
    ensures NumberOf(digits) * Ten(m) < Ten(|digits|) <==> forall i :: 0 <= i < m && i < |digits| ==> digits[i] == '0'
  {
    ZeroIff(digits);
    if |digits| <= m {
      TenAdds(m - |digits|, |digits|);
      ProductAtLeast(NumberOf(digits), Ten(m - |digits|), Ten(|digits|));
    } else {
      var last := |digits| - 1;
      var shorter := digits[..last];
      assert IsDigit(digits[last]) && forall c <- shorter :: c in digits;
      LeadingZeros(shorter, m);
      assert forall i :: 0 <= i < last ==> shorter[i] == digits[i];
      TenAdds(last - m, m);
      var unit, n := Ten(last - m), NumberOf(shorter);
      TimesMonotone(n, unit, Ten(m));
      TimesMonotone(NumberOf(digits), 10 * unit, Ten(m));
      assert 10 * unit * Ten(m) == 10 * (unit * Ten(m));
    }
  }

  lemma ProductAtLeast(n: nat, a: nat, b: nat)
    requires a >= 1 && b >= 1
    ensures n * (a * b) < b <==> n == 0
  {
    if n >= 1 {
      assert a * b >= b;
      assert n * (a * b) >= a * b;
    } else {
      assert n * (a * b) == 0;
    }
  }

  /** Nothing but zeros up to the sixth place behind the point. */
  predicate SixZeros(s: string)
    requires IsDecimal(s)
  {
    (forall i :: 0 <= i < |Whole(s)| ==> Whole(s)[i] == '0') &&
    forall i :: 0 <= i < 6 && i < |Fraction(s)| ==> Fraction(s)[i] == '0'
  }

  lemma Quotient(n: real, k: real, c: real)
    requires k > 0.0
    ensures n / k < c <==> n < c * k
  {
    var r := n / k;
    assert r * k == n;
    if r < c { Scaled(r, c, k); } else if c < r { Scaled(c, r, k); }
  }

  lemma Scaled(a: real, b: real, k: real)
    requires a < b && k > 0.0
    ensures a * k < b * k
  {
    assert (b - a) * k > 0.0;
  }

  lemma Ratio(n: nat, k: nat)
    requires k >= 1
    ensures n as real / k as real < THRESHOLD <==> n * 1000000 < k
    ensures n as real / k as real >= 0.0
  {
    Quotient(n as real, k as real, THRESHOLD);
    Quotient(n as real, k as real, 0.0);
    assert n * 1000000 < k <==> n as real * 1000000.0 < k as real;
  }

  lemma BelowThreshold(s: string)
    requires IsDecimal(s)
    ensures Value(s) < THRESHOLD <==> SixZeros(s)
  {
    hide IsDecimal, Whole, Fraction, NumberOf;
    var f := Fraction(s);
    ZeroIff(Whole(s));
    LeadingZeros(f, 6);
    Ratio(NumberOf(f), Ten(|f|));
    assert Ten(6) == 1000000 by { assert Ten(3) == 1000; TenAdds(3, 3); }
  }

  /** Only literals below 10^-6 are tiny, and of those only the ones so close to it that they round up are not. */
  lemma TinyIffSixZeros(percent: Percent, s: string)
    requires GoodPercent(percent) && IsDecimal(s)
    ensures IsTiny(percent, s) ==> SixZeros(s)
    ensures SixZeros(s) && !IsTiny(percent, s) ==> percent.round(Value(s)) == percent.round(THRESHOLD)
    ensures SixZeros(s) && 0.000000001 <= Value(s) <= 0.00000099999999 ==> IsTiny(percent, s)
  {
    hide IsDecimal, Value, SixZeros;
    BelowThreshold(s);
    assert Value(s) <= THRESHOLD ==> percent.round(Value(s)) <= percent.round(THRESHOLD);
    assert THRESHOLD <= Value(s) ==> percent.round(THRESHOLD) <= percent.round(Value(s));
  }
}
