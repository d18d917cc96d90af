/** Decimal seconds to integer nanoseconds (`decimal_seconds_to_nanoseconds`). */
module DecimalTime {
  import opened Wrappers
  import opened Numbers
  import opened Decimals

  const MAXIMUM_DECIMAL_SECONDS_BYTES: nat := 64
  const UINT64_MAX: nat := 0xffff_ffff_ffff_ffff
  const BILLION: nat := 1_000_000_000

  datatype TimeError = InvalidArgument | Overflow

  // ----- what a lexeme stands for -----

  datatype Parts = Parts(sign: string, whole: string, point: bool, fraction: string)
  {
    predicate Valid() {
      && sign in {"", "+", "-"}
      && whole != "" && IsDigits(whole)
      && if point then fraction != "" && IsDigits(fraction) else fraction == ""
    }

    function Text(): string {
      sign + whole + if point then "." + fraction else ""
    }
  }

  ghost predicate Spells(lexeme: string, p: Parts) {
    p.Valid() && lexeme == p.Text()
  }

  /** Nearest integer to num/den, halves upwards. */
  function RoundHalfUp(num: nat, den: nat): nat
    requires den > 0
  {
    (2 * num + den) / (2 * den)
  }

  lemma MulMonotone(a: int, b: int, d: nat)
    requires a <= b
    ensures a * d <= b * d
  {
    assert (b - a) * d >= 0;
  }

  lemma QuotientUnique(a: nat, d: nat, n: nat)
    requires d > 0 && n * d <= a < n * d + d
    ensures a / d == n
  {
    var q := a / d;
    assert a == q * d + a % d;
    if q < n {
      MulMonotone(q + 1, n, d);
      assert false;
    }
    if n < q {
      MulMonotone(n + 1, q, d);
      assert false;
    }
  }

  /** The rounded value is the one integer within half a unit, the larger one at a tie. */
  lemma RoundHalfUpNearest(num: nat, den: nat, n: nat)
    requires den > 0
    ensures n == RoundHalfUp(num, den) <==> n * (2 * den) <= 2 * num + den < n * (2 * den) + 2 * den
  {
    var a, d := 2 * num + den, 2 * den;
    if n * d <= a < n * d + d {
      QuotientUnique(a, d, n);
    }
    if n == a / d {
      assert a == n * d + a % d;
    }
  }

  /** The magnitude of the value in nanoseconds, halves rounded away from zero. */
  ghost function Magnitude(p: Parts): nat
    requires p.Valid()
  {
    NumberConcat(p.whole, p.fraction);
    RoundHalfUp(Number(p.whole + p.fraction) * BILLION, Pow10(|p.fraction|))
  }

  ghost function Nanoseconds(p: Parts): int
    requires p.Valid()
  {
    (if p.sign == "-" then -1 else 1) * Magnitude(p)
  }

  ghost predicate Readable(lexeme: string) {
    |lexeme| <= MAXIMUM_DECIMAL_SECONDS_BYTES && exists p :: Spells(lexeme, p) && Number(p.whole) <= UINT64_MAX
  }

  /** The result for every lexeme. */
  ghost function Parsed(lexeme: string): Result<int, TimeError> {
    if !Readable(lexeme) then Err(InvalidArgument)
    else
      var p :| Spells(lexeme, p) && Number(p.whole) <= UINT64_MAX;
      if INT64_MIN <= Nanoseconds(p) <= INT64_MAX then Ok(Nanoseconds(p)) else Err(Overflow)
  }

  // ----- a lexeme has one reading -----

  function SignLength(lexeme: string): nat
    requires lexeme != ""
  {
    if lexeme[0] == '+' || lexeme[0] == '-' then 1 else 0
  }

  /** `end` is the end of the run of digits that starts at `from`. */
  ghost predicate Run(lexeme: string, from: nat, end: nat) {
    && from <= end <= |lexeme| && IsDigits(lexeme[from..end])
    && (end < |lexeme| ==> !IsDigit(lexeme[end]))
  }

  lemma SpelledSign(lexeme: string, p: Parts)
    requires Spells(lexeme, p)
    ensures lexeme != "" && p.sign == lexeme[..SignLength(lexeme)]
  {
    if p.sign == "" {
      assert lexeme[0] == p.whole[0] && IsDigit(p.whole[0]);
    } else {
      assert lexeme[0] == p.sign[0];
    }
  }

  lemma SpelledWhole(lexeme: string, p: Parts, end: nat)
    requires Spells(lexeme, p) && lexeme != "" && Run(lexeme, SignLength(lexeme), end)
    ensures p.whole == lexeme[SignLength(lexeme)..end]
    ensures p.point <==> end < |lexeme|
    ensures p.point ==> lexeme[end] == '.' && p.fraction == lexeme[end + 1..]
  {
    hide Run;
    SpelledSign(lexeme, p);
    SpelledRun(lexeme, p);
    RunUnique(lexeme, SignLength(lexeme), end, SignLength(lexeme) + |p.whole|);
  }

  /** The digits before the point are a whole run. */
  lemma SpelledRun(lexeme: string, p: Parts)
    requires Spells(lexeme, p) && lexeme != "" && p.sign == lexeme[..SignLength(lexeme)]
    ensures var from, stop := SignLength(lexeme), SignLength(lexeme) + |p.whole|;
            && Run(lexeme, from, stop) && p.whole == lexeme[from..stop] && (p.point <==> stop < |lexeme|)
            && (p.point ==> lexeme[stop] == '.' && p.fraction == lexeme[stop + 1..])
  {
    hide IsDigits;
    var from := |p.sign|;
    assert |p.sign| == SignLength(lexeme);
    var rest := if p.point then "." + p.fraction else "";
    assert lexeme == p.sign + p.whole + rest;
    assert lexeme[from..from + |p.whole|] == p.whole && lexeme[from + |p.whole|..] == rest;
    assert p.point ==> rest[0] == '.' && rest[1..] == p.fraction;
  }

  lemma RunUnique(lexeme: string, from: nat, a: nat, b: nat)
    requires Run(lexeme, from, a) && Run(lexeme, from, b)
    ensures a == b
  {
    forall i | from <= i < a ensures IsDigit(lexeme[i]) {
      assert lexeme[from..a][i - from] == lexeme[i];
    }
    forall i | from <= i < b ensures IsDigit(lexeme[i]) {
      assert lexeme[from..b][i - from] == lexeme[i];
    }
  }

  lemma {:induction false} ReadingUnique(lexeme: string, p: Parts, q: Parts)
    requires Spells(lexeme, p) && Spells(lexeme, q)
    ensures p == q
  {
    SpelledSign(lexeme, p);
    SpelledSign(lexeme, q);
    var end := RunEnd(lexeme, SignLength(lexeme));
    SpelledWhole(lexeme, p, end);
    SpelledWhole(lexeme, q, end);
  }

  lemma RunEnd(lexeme: string, from: nat) returns (end: nat)
    requires from <= |lexeme|
    ensures Run(lexeme, from, end)
  {
    end := from;
    while end < |lexeme| && IsDigit(lexeme[end])
      invariant from <= end <= |lexeme| && IsDigits(lexeme[from..end])
    {
      assert lexeme[from..end + 1] == lexeme[from..end] + [lexeme[end]];
      end := end + 1;
    }
  }

  lemma ParsedIs(lexeme: string, p: Parts)
    requires Spells(lexeme, p)
    ensures Parsed(lexeme) ==
      if |lexeme| > MAXIMUM_DECIMAL_SECONDS_BYTES || Number(p.whole) > UINT64_MAX then Err(InvalidArgument)
      else if INT64_MIN <= Nanoseconds(p) <= INT64_MAX then Ok(Nanoseconds(p)) else Err(Overflow)
  {
    hide Spells, Nanoseconds;
    forall q | Spells(lexeme, q) ensures q == p {
      ReadingUnique(lexeme, p, q);
    }
  }

  // ----- rounding from the first ten fractional digits -----

  /** The first nine fractional digits, as nanoseconds. */
  ghost function Leading(fraction: string): nat
    requires IsDigits(fraction)
  {
    var n := MinNat(|fraction|, 9);
    Number(fraction[..n]) * Pow10(9 - n)
  }

  predicate RoundsUp(fraction: string) {
    |fraction| > 9 && fraction[9] >= '5'
  }

  lemma BillionIsPow()
    ensures Pow10(9) == BILLION
  {
    assert Pow10(3) == 1000;
    Pow10Sum(3, 3);
    Pow10Sum(6, 3);
  }

  lemma ExactQuotient(value: nat, den: nat, r: nat)
    requires den > 0 && r * den == value
    ensures RoundHalfUp(value, den) == r
  {
    RoundHalfUpNearest(value, den, r);
    assert r * (2 * den) == 2 * value;
  }

  lemma Spread(w: nat, n: nat, den: nat, pad: nat)
    requires den * pad == BILLION
    ensures (w * BILLION + n * pad) * den == (w * den + n) * BILLION
  {
    assert n * pad * den == n * (den * pad);
    assert w * BILLION * den == w * den * BILLION;
  }

  lemma ShortFraction(p: Parts)
    requires p.Valid() && |p.fraction| <= 9
    ensures Magnitude(p) == Number(p.whole) * BILLION + Leading(p.fraction)
  {
    hide RoundHalfUp, Number, Pow10;
    var f, k := p.fraction, |p.fraction|;
    NumberConcat(p.whole, f);
    assert f[..k] == f;
    BillionIsPow();
    Pow10Sum(k, 9 - k);
    Spread(Number(p.whole), Number(f), Pow10(k), Pow10(9 - k));
    ExactQuotient(Number(p.whole + f) * BILLION, Pow10(k), Number(p.whole) * BILLION + Number(f) * Pow10(9 - k));
  }

  /** The first digit of a fraction decides whether it reaches one half. */
  lemma HalfDigit(rest: string)
    requires IsDigits(rest) && rest != ""
    ensures 2 * Number(rest) >= Pow10(|rest|) <==> rest[0] >= '5'
    ensures Number(rest) < Pow10(|rest|)
  {
    var head, tail := rest[..1], rest[1..];
    assert rest == head + tail && head[..0] == "";
    NumberConcat(head, tail);
    NumberBound(tail);
    NumberBound(rest);
    var d, unit := DigitValue(rest[0]), Pow10(|tail|);
    assert Number(head) == d;
    if d >= 5 {
      MulMonotone(5, d, unit);
    } else {
      MulMonotone(d, 4, unit);
    }
  }

  lemma RoundedQuotient(x: nat, b: nat, unit: nat, up: bool)
    requires b < unit && (up <==> 2 * b >= unit)
    ensures RoundHalfUp((x * unit + b) * BILLION, unit * BILLION) == x + if up then 1 else 0
  {
    var r := x + if up then 1 else 0;
    var low, mid := r * (2 * unit), 2 * (x * unit + b) + unit;
    assert low == 2 * (x * unit) + if up then 2 * unit else 0;
    assert low <= mid < low + 2 * unit;
    assert low * BILLION <= mid * BILLION < low * BILLION + 2 * unit * BILLION;
    assert r * (2 * (unit * BILLION)) == low * BILLION;
    RoundHalfUpNearest((x * unit + b) * BILLION, unit * BILLION, r);
  }

  lemma Gather(w: nat, a: nat, b: nat, unit: nat)
    ensures w * (unit * BILLION) + (a * unit + b) == (w * BILLION + a) * unit + b
  {
  }

  lemma LongFraction(p: Parts)
    requires p.Valid() && |p.fraction| > 9
    ensures Magnitude(p) == Number(p.whole) * BILLION + Leading(p.fraction) + if RoundsUp(p.fraction) then 1 else 0
  {
    hide RoundHalfUp, Number, Pow10;
    var f := p.fraction;
    var head, rest := f[..9], f[9..];
    assert f == head + rest;
    NumberConcat(head, rest);
    NumberConcat(p.whole, f);
    HalfDigit(rest);
    BillionIsPow();
    Pow10Sum(|rest|, 9);
    PowZero();
    var w, a, b, unit := Number(p.whole), Number(head), Number(rest), Pow10(|rest|);
    Gather(w, a, b, unit);
    RoundedQuotient(w * BILLION + a, b, unit, RoundsUp(f));
  }

  lemma PowZero()
    ensures Pow10(0) == 1
  {
  }

  /** Ten fractional digits decide the rounding of any number of them. */
  lemma MagnitudeByDigits(p: Parts)
    requires p.Valid()
    ensures Magnitude(p) == Number(p.whole) * BILLION + Leading(p.fraction) + if RoundsUp(p.fraction) then 1 else 0
    ensures Leading(p.fraction) < BILLION
  {
    hide Magnitude, Number;
    if |p.fraction| <= 9 {
      ShortFraction(p);
    } else {
      LongFraction(p);
    }
    LeadingBound(p.fraction);
  }

  lemma LeadingBound(fraction: string)
    requires IsDigits(fraction)
    ensures Leading(fraction) < BILLION
  {
    hide Number, Pow10;
    var n := MinNat(|fraction|, 9);
    NumberBound(fraction[..n]);
    Pow10Sum(n, 9 - n);
    BillionIsPow();
    MulMonotone(Number(fraction[..n]) + 1, Pow10(n), Pow10(9 - n));
  }
}
