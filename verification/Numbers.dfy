/** Small functions of numbers that several modules share. */
module Numbers {

  function Min(x: real, y: real): real { if y < x then y else x }

  function Max(x: real, y: real): real { if x < y then y else x }

  function Abs(x: real): real { if x < 0.0 then -x else x }

  function MinNat(x: nat, y: nat): nat { if y < x then y else x }

  function MaxInt(x: int, y: int): int { if x < y then y else x }

  lemma MulDiv(n: real, f: real)
    requires f > 0.0
    ensures n / f * f == n
  {
  }

  lemma MulMonotone(x: real, y: real, f: real)
    requires f > 0.0
    ensures x <= y <==> x * f <= y * f
  {
    if x > y {
      assert (x - y) * f > 0.0;
    } else {
      assert (y - x) * f >= 0.0;
    }
  }

  lemma ProductNonNegative(x: real, y: real)
    requires x >= 0.0 && y >= 0.0
    ensures x * y >= 0.0
  {
  }

  lemma QuotientMonotone(m: real, n: real, f: real)
    requires f > 0.0 && m <= n
    ensures m / f <= n / f
  {
    MulDiv(m, f);
    MulDiv(n, f);
    MulMonotone(m / f, n / f, f);
  }
}
