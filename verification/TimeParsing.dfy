/** The cursor loop of `decimal_seconds_to_nanoseconds`, and printing back. */
module TimeParsing {
  import opened Wrappers
  import opened Numbers
  import opened Decimals
  import opened DecimalTime

  /** The end of the run of digits at `from`. */
  method ScanDigits(lexeme: string, from: nat) returns (cursor: nat)
    requires from <= |lexeme|
    ensures Run(lexeme, from, cursor)
  {
    cursor := from;
    while cursor < |lexeme| && '0' <= lexeme[cursor] <= '9'
      invariant from <= cursor <= |lexeme| && IsDigits(lexeme[from..cursor])
    {
      assert lexeme[from..cursor + 1] == lexeme[from..cursor] + [lexeme[cursor]];
      cursor := cursor + 1;
    }
  }

  /** std::from_chars into 64 bits: fails on the first value that does not fit. */
  method ParseUnsigned(s: string) returns (value: Option<nat>)
    requires IsDigits(s)
    ensures value == if Number(s) <= UINT64_MAX then Some(Number(s)) else None
  {
    hide Number;
    var n := 0;
    assert Number(s[..0]) == 0 by { NumberEmpty(s); }
    for i := 0 to |s|
      invariant n == Number(s[..i]) <= UINT64_MAX
    {
      NumberSnoc(s[..i], s[i]);
      assert s[..i + 1] == s[..i] + [s[i]];
      n := 10 * n + DigitValue(s[i]);
      if n > UINT64_MAX {
        NumberPrefix(s, i + 1);
        return None;
      }
    }
    assert s[..|s|] == s;
    return Some(n);
  }

  lemma NumberEmpty(s: string)
    ensures Number(s[..0]) == 0
  {
  }

  lemma {:induction false} NumberPrefix(s: string, n: nat)
    requires IsDigits(s) && n <= |s|
    ensures Number(s[..n]) <= Number(s)
  {
    if n == |s| {
      assert s[..n] == s;
    } else {
      NumberPrefix(s[..|s| - 1], n);
      assert s[..|s| - 1][..n] == s[..n];
    }
  }

  /** The run of fractional digits: its first nine as a number, and whether the tenth rounds up. */
  method ScanFraction(lexeme: string, from: nat) returns (cursor: nat, fractionNs: nat, digits: nat, roundUp: bool)
    requires from <= |lexeme|
    ensures Run(lexeme, from, cursor) && digits == cursor - from
    ensures fractionNs == Number(lexeme[from..cursor][..MinNat(digits, 9)])
    ensures roundUp == RoundsUp(lexeme[from..cursor])
  {
    hide Number;
    cursor, fractionNs, digits, roundUp := from, 0, 0, false;
    assert Number(lexeme[from..from][..0]) == 0 by { NumberEmpty(lexeme[from..from]); }
    while cursor < |lexeme| && '0' <= lexeme[cursor] <= '9'
      invariant from <= cursor <= |lexeme| && IsDigits(lexeme[from..cursor]) && digits == cursor - from
      invariant fractionNs == Number(lexeme[from..cursor][..MinNat(digits, 9)])
      invariant roundUp == RoundsUp(lexeme[from..cursor])
    {
      var run, c := lexeme[from..cursor], lexeme[cursor];
      assert lexeme[from..cursor + 1] == run + [c];
      if digits < 9 {
        NumberSnoc(run, c);
        assert run[..digits] == run && (run + [c])[..digits + 1] == run + [c];
        fractionNs := fractionNs * 10 + DigitValue(c);
      } else {
        assert (run + [c])[..9] == run[..9];
        if digits == 9 {
          roundUp := c >= '5';
        }
      }
      digits := digits + 1;
      cursor := cursor + 1;
    }
  }

  /** The factor still missing after `digits` fractional digits. */
  ghost function Missing(digits: nat): nat { Pow10(9 - MinNat(digits, 9)) }

  lemma MissingStep(digits: nat)
    ensures digits < 9 ==> Missing(digits) == 10 * Missing(digits + 1)
    ensures digits >= 9 ==> Missing(digits) == 1
  {
  }

  /** Pad to nine fractional digits. */
  method Pad(fractionNs: nat, digits: nat) returns (padded: nat)
    ensures padded == fractionNs * Pow10(9 - MinNat(digits, 9))
  {
    hide Pow10;
    padded := fractionNs;
    var n := digits;
    while n < 9
      invariant padded * Missing(n) == fractionNs * Missing(digits)
      decreases if n < 9 then 9 - n else 0
    {
      MissingStep(n);
      Tenfold(padded, Missing(n + 1));
      padded := padded * 10;
      n := n + 1;
    }
    MissingStep(n);
  }

  function Signed(negative: bool, magnitude: nat): int { (if negative then -1 else 1) * magnitude }

  /** Combine seconds and nanoseconds without leaving 64 bits. */
  function CheckedMagnitude(seconds: nat, fractionNs: nat, negative: bool): (r: Result<int, TimeError>)
    requires fractionNs < BILLION
    ensures var value := Signed(negative, seconds * BILLION + fractionNs);
      r == if INT64_MIN <= value <= INT64_MAX then Ok(value) else Err(Overflow)
    ensures r.Ok? ==> seconds * BILLION + fractionNs <= UINT64_MAX
  {
    var positiveLimit: nat := INT64_MAX;
    var limit := if negative then positiveLimit + 1 else positiveLimit;
    if seconds > limit / BILLION || (seconds == limit / BILLION && fractionNs > limit % BILLION) then Err(Overflow)
    else
      var magnitude := seconds * BILLION + fractionNs;
      if !negative then Ok(magnitude)
      else if magnitude == positiveLimit + 1 then Ok(INT64_MIN)
      else Ok(-magnitude)
  }

  lemma NotReadable(lexeme: string)
    requires forall p :: !Spells(lexeme, p)
    ensures Parsed(lexeme) == Err(InvalidArgument)
  {
  }

  /** What reading any lexeme must find. */
  lemma EveryReading(lexeme: string, end: nat)
    requires lexeme != "" && Run(lexeme, SignLength(lexeme), end)
    ensures forall p :: Spells(lexeme, p) ==>
      && end > SignLength(lexeme) && p.whole == lexeme[SignLength(lexeme)..end]
      && (end < |lexeme| ==> lexeme[end] == '.' && IsDigits(lexeme[end + 1..]) && end + 1 < |lexeme|)
  {
    forall p | Spells(lexeme, p) ensures p.whole == lexeme[SignLength(lexeme)..end]
      ensures end > SignLength(lexeme)
      ensures end < |lexeme| ==> lexeme[end] == '.' && IsDigits(lexeme[end + 1..]) && end + 1 < |lexeme|
    {
      SpelledWhole(lexeme, p, end);
    }
  }

  method ParseDecimalSeconds(lexeme: string) returns (r: Result<int, TimeError>)
    ensures r == Parsed(lexeme)
  {
    hide Parsed, Spells, Number, Magnitude, Run, Leading, RoundsUp, Pow10;
    if lexeme == "" || |lexeme| > MAXIMUM_DECIMAL_SECONDS_BYTES {
      TooShortOrLong(lexeme);
      return Err(InvalidArgument);
    }
    var negative := false;
    var cursor := 0;
    if lexeme[cursor] == '+' || lexeme[cursor] == '-' {
      negative := lexeme[cursor] == '-';
      cursor := cursor + 1;
    }
    var integerBegin := cursor;
    cursor := ScanDigits(lexeme, integerBegin);
    EveryReading(lexeme, cursor);
    if cursor == integerBegin {
      NotReadable(lexeme);
      return Err(InvalidArgument);
    }
    RunDigits(lexeme, integerBegin, cursor);
    ghost var whole := lexeme[integerBegin..cursor];
    var seconds := ParseUnsigned(lexeme[integerBegin..cursor]);
    if seconds.None? {
      TooManySeconds(lexeme, cursor);
      return Err(InvalidArgument);
    }
    var fractionNs, roundUp := 0, false;
    ghost var p := Parts(lexeme[..integerBegin], whole, false, "");
    var digits := 0;
    var end := cursor;
    if cursor < |lexeme| {
      if lexeme[cursor] != '.' {
        NotReadable(lexeme);
        return Err(InvalidArgument);
      }
      cursor := cursor + 1;
      var fractionBegin := cursor;
      cursor, fractionNs, digits, roundUp := ScanFraction(lexeme, fractionBegin);
      RunDigits(lexeme, fractionBegin, cursor);
      if cursor == fractionBegin || cursor != |lexeme| {
        assert cursor < |lexeme| ==> !IsDigit(lexeme[fractionBegin..][cursor - fractionBegin]);
        NotReadable(lexeme);
        return Err(InvalidArgument);
      }
      p := Parts(lexeme[..integerBegin], whole, true, lexeme[fractionBegin..cursor]);
    }
    ReadingFound(lexeme, integerBegin, end, p);
    if end == |lexeme| {
      NumberEmpty(p.fraction);
      assert p.fraction[..0] == "";
      NoRounding(p.fraction);
    }
    fractionNs := Pad(fractionNs, digits);
    assert fractionNs == Leading(p.fraction) by { LeadingIs(p.fraction); }
    r := Finish(lexeme, p, negative, seconds.value, fractionNs, roundUp);
  }

  lemma NoRounding(fraction: string)
    requires fraction == ""
    ensures !RoundsUp(fraction)
  {
  }

  lemma LeadingIs(fraction: string)
    requires IsDigits(fraction)
    ensures Leading(fraction) == Number(fraction[..MinNat(|fraction|, 9)]) * Pow10(9 - MinNat(|fraction|, 9))
  {
  }

  lemma TooShortOrLong(lexeme: string)
    requires lexeme == "" || |lexeme| > MAXIMUM_DECIMAL_SECONDS_BYTES
    ensures Parsed(lexeme) == Err(InvalidArgument)
  {
  }

  lemma RunDigits(lexeme: string, from: nat, end: nat)
    requires Run(lexeme, from, end)
    ensures from <= end <= |lexeme| && IsDigits(lexeme[from..end]) && (end < |lexeme| ==> !IsDigit(lexeme[end]))
  {
  }

  lemma TooManySeconds(lexeme: string, end: nat)
    requires lexeme != "" && Run(lexeme, SignLength(lexeme), end)
    requires IsDigits(lexeme[SignLength(lexeme)..end]) && Number(lexeme[SignLength(lexeme)..end]) > UINT64_MAX
    ensures Parsed(lexeme) == Err(InvalidArgument)
  {
    hide Spells;
    EveryReading(lexeme, end);
  }

  lemma ReadingFound(lexeme: string, begin: nat, end: nat, p: Parts)
    requires lexeme != "" && begin == SignLength(lexeme) < end <= |lexeme| && IsDigits(lexeme[begin..end])
    requires p == if end == |lexeme| then Parts(lexeme[..begin], lexeme[begin..end], false, "")
                  else Parts(lexeme[..begin], lexeme[begin..end], true, lexeme[end + 1..|lexeme|])
    requires end < |lexeme| ==> end + 1 < |lexeme| && lexeme[end] == '.' && IsDigits(lexeme[end + 1..|lexeme|])
    ensures Spells(lexeme, p) && p.Valid()
    ensures p.sign == "-" <==> lexeme[0] == '-'
  {
    assert begin == 1 ==> lexeme[..begin] == [lexeme[0]];
    assert lexeme == p.Text();
  }

  /** The carry into the seconds, and the range check. */
  method Finish(lexeme: string, ghost p: Parts, negative: bool, seconds: nat, fractionNs: nat, roundUp: bool)
    returns (r: Result<int, TimeError>)
    requires |lexeme| <= MAXIMUM_DECIMAL_SECONDS_BYTES && Spells(lexeme, p) && p.Valid()
    requires negative == (p.sign == "-") && seconds == Number(p.whole) <= UINT64_MAX
    requires fractionNs == Leading(p.fraction) && roundUp == RoundsUp(p.fraction)
    ensures r == Parsed(lexeme)
  {
    hide Parsed, Spells, Number, Magnitude, Leading, RoundsUp;
    ParsedIs(lexeme, p);
    MagnitudeByDigits(p);
    var total, rounded := seconds, fractionNs;
    if roundUp {
      rounded := rounded + 1;
    }
    if rounded == BILLION {
      rounded := 0;
      if total == UINT64_MAX {
        return Err(Overflow);
      }
      total := total + 1;
    }
    r := CheckedMagnitude(total, rounded, negative);
  }

  // ----- printing -----

  /** Sign, seconds, point, nine digits. */
  function Printed(n: int): string {
    var magnitude: nat := if n < 0 then -n else n;
    (if n < 0 then "-" else "") + Decimal(magnitude / BILLION) + "." + Padded(magnitude % BILLION, 9)
  }

  lemma DecimalLength(n: nat, width: nat)
    requires width > 0 && n < Pow10(width)
    ensures |Decimal(n)| <= width
  {
    if n >= 10 {
      DecimalLength(n / 10, width - 1);
    }
  }

  lemma SecondsLength(n: nat)
    requires n <= 10_000_000_000
    ensures |Decimal(n)| <= 12
  {
    hide Pow10, Decimal;
    Pow10Sum(9, 3);
    BillionIsPow();
    assert Pow10(3) == 1000 by { Thousand(); }
    DecimalLength(n, 12);
  }

  lemma Thousand()
    ensures Pow10(3) == 1000
  {
  }

  /** Printing any 64-bit value with nine fractional digits and parsing it gives it back. */
  lemma ParsePrinted(n: int)
    requires INT64_MIN <= n <= INT64_MAX
    ensures Parsed(Printed(n)) == Ok(n)
  {
    hide Parsed, Number, Magnitude, Leading, Decimal, Padded, Pow10;
    var magnitude: nat := if n < 0 then -n else n;
    var whole, fraction := Decimal(magnitude / BILLION), Padded(magnitude % BILLION, 9);
    var p := Parts(if n < 0 then "-" else "", whole, true, fraction);
    NumberDecimal(magnitude / BILLION);
    BillionIsPow();
    NumberPadded(magnitude % BILLION, 9);
    SecondsLength(magnitude / BILLION);
    assert Spells(Printed(n), p);
    LeadingIs(fraction);
    assert fraction[..9] == fraction;
    PowZero();
    MagnitudeByDigits(p);
    ParsedIs(Printed(n), p);
  }
}
