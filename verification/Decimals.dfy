/** Decimal numerals. */
module Decimals {

  predicate IsDigit(c: char) { '0' <= c <= '9' }

  function DigitValue(c: char): (d: nat)
    requires IsDigit(c)
    ensures d < 10
  {
    c as int - '0' as int
  }

  function Digit(d: nat): (c: char)
    requires d < 10
    ensures IsDigit(c) && DigitValue(c) == d && (c == '0' <==> d == 0)
  {
    ['0', '1', '2', '3', '4', '5', '6', '7', '8', '9'][d]
  }

  predicate IsDigits(s: string) {
    forall i :: 0 <= i < |s| ==> IsDigit(s[i])
  }

  /** The number that a string of digits stands for. */
  function Number(s: string): nat
    requires IsDigits(s)
  {
    if s == "" then 0 else 10 * Number(s[..|s| - 1]) + DigitValue(s[|s| - 1])
  }

  /** The shortest numeral of a number. */
  function Decimal(n: nat): string {
    if n < 10 then [Digit(n)] else Decimal(n / 10) + [Digit(n % 10)]
  }

  /** Exactly `width` digits of a number. */
  function Padded(n: nat, width: nat): string {
    if width == 0 then "" else Padded(n / 10, width - 1) + [Digit(n % 10)]
  }

  function Pow10(k: nat): (r: nat)
    ensures r > 0
  {
    if k == 0 then 1 else 10 * Pow10(k - 1)
  }

  lemma NumberSnoc(s: string, c: char)
    requires IsDigits(s) && IsDigit(c)
    ensures IsDigits(s + [c]) && Number(s + [c]) == 10 * Number(s) + DigitValue(c)
  {
    assert (s + [c])[..|s|] == s;
  }

  lemma {:induction false} NumberDecimal(n: nat)
    ensures IsDigits(Decimal(n)) && Number(Decimal(n)) == n
    ensures Decimal(n) != "" && (n > 0 ==> Decimal(n)[0] != '0')
  {
    hide Digit, DigitValue;
    if n < 10 {
      assert [Digit(n)] == "" + [Digit(n)];
      NumberSnoc("", Digit(n));
    } else {
      NumberDecimal(n / 10);
      NumberSnoc(Decimal(n / 10), Digit(n % 10));
    }
  }

  lemma {:induction false} NumberPadded(n: nat, width: nat)
    requires n < Pow10(width)
    ensures |Padded(n, width)| == width && IsDigits(Padded(n, width)) && Number(Padded(n, width)) == n
  {
    hide Digit, DigitValue;
    if width > 0 {
      NumberPadded(n / 10, width - 1);
      NumberSnoc(Padded(n / 10, width - 1), Digit(n % 10));
    }
  }

  lemma {:induction false} NumberBound(s: string)
    requires IsDigits(s)
    ensures Number(s) < Pow10(|s|)
  {
    if s != "" {
      NumberBound(s[..|s| - 1]);
    }
  }

  lemma Pow10Step(k: nat)
    ensures Pow10(0) == 1 && Pow10(k + 1) == 10 * Pow10(k)
  {
  }

  lemma Tenfold(a: nat, b: nat)
    ensures 10 * (a * b) == a * (10 * b) == (10 * a) * b
  {
  }

  lemma {:induction false} Pow10Sum(j: nat, k: nat)
    ensures Pow10(j + k) == Pow10(j) * Pow10(k)
  {
    hide Pow10;
    if j == 0 {
      Pow10Step(0);
    } else {
      Pow10Sum(j - 1, k);
      Pow10Step(j - 1);
      Pow10Step(j - 1 + k);
      Tenfold(Pow10(j - 1), Pow10(k));
    }
  }

  /** A numeral cut in two. */
  lemma {:induction false} NumberConcat(s: string, t: string)
    requires IsDigits(s) && IsDigits(t)
    ensures IsDigits(s + t) && Number(s + t) == Number(s) * Pow10(|t|) + Number(t)
  {
    hide Pow10, DigitValue;
    if t == "" {
      assert s + t == s;
      Pow10Step(0);
    } else {
      var front, c := t[..|t| - 1], t[|t| - 1];
      NumberConcat(s, front);
      NumberSnoc(s + front, c);
      assert s + t == s + front + [c] && t == front + [c];
      Pow10Step(|front|);
      Tenfold(Number(s), Pow10(|front|));
    }
  }

  lemma DecimalInjective(m: nat, n: nat)
    requires Decimal(m) == Decimal(n)
    ensures m == n
  {
    NumberDecimal(m);
    NumberDecimal(n);
  }
}
