/** Equal cells over a real interval, and how many samples fall up to a cell (`_FixedHistogram`). */
module Binning {
  import opened Numbers
  import opened Sorting

  datatype Scale = Scale(minimum: real, maximum: real, bins: nat)
  {
    predicate Valid() { bins > 0 }

    predicate Proper() { minimum < maximum && bins > 0 }

    /** Whether `x` can be given a cell: not without cells, and not at both bounds at once, where there is no width. */
    predicate Accepts(x: real) { bins > 0 && !(minimum == x == maximum) }

    function Width(): (w: real)
      requires Valid()
    {
      (maximum - minimum) / bins as real
    }

    /** Cells from the lower end to `x`. */
    function Position(x: real): real
      requires Proper()
    {
      (x - minimum) / (maximum - minimum) * bins as real
    }

    /** Out-of-range values go to the end cells; truncation is downwards, the position being nonnegative. */
    function Bin(x: real): int
      requires Valid()
    {
      if x < minimum then 0
      else if x > maximum then bins - 1
      else if minimum == maximum then 0
      else
        var cell := Position(x).Floor;
        if cell < bins - 1 then cell else bins - 1
    }

    function Centre(b: int): real
      requires Valid()
    {
      minimum + (b as real + 0.5) * Width()
    }
  }

  // ----- geometry of the cells -----

  lemma TimesPositive(a: real, b: real)
    requires a >= 0.0 && b >= 0.0
    ensures a * b >= 0.0
  {
  }

  lemma PositionInverts(s: Scale, x: real)
    requires s.Proper()
    ensures s.Width() > 0.0 && x - s.minimum == s.Position(x) * s.Width()
    ensures s.Position(s.minimum) == 0.0 && s.Position(s.maximum) == s.bins as real
  {
    var n, whole := s.bins as real, s.maximum - s.minimum;
    var part := (x - s.minimum) / whole;
    assert part * whole == x - s.minimum;
    assert n * (whole / n) == whole;
    assert part * n * (whole / n) == part * (n * (whole / n));
    assert whole / whole == 1.0;
  }

  lemma PositionMonotone(s: Scale, x: real, y: real)
    requires s.Proper() && x <= y
    ensures s.Position(x) <= s.Position(y)
  {
    var whole := s.maximum - s.minimum;
    assert (y - s.minimum) / whole - (x - s.minimum) / whole == (y - x) / whole;
    assert (y - x) / whole >= 0.0;
    TimesPositive((y - x) / whole, s.bins as real);
  }

  lemma BinRange(s: Scale, x: real)
    requires s.Valid()
    ensures 0 <= s.Bin(x) < s.bins
  {
    hide Scale.Position;
    if s.minimum <= x <= s.maximum && s.minimum < s.maximum {
      PositionMonotone(s, s.minimum, x);
      PositionInverts(s, x);
    }
  }

  /** A sample in range lies between the edges of its cell; an inner edge belongs to the cell above it. */
  lemma BinMeaning(s: Scale, x: real)
    requires s.Proper() && s.minimum <= x <= s.maximum
    ensures var b := s.Bin(x);
            && 0 <= b < s.bins && s.minimum + b as real * s.Width() <= x
            && (x < s.minimum + (b + 1) as real * s.Width() || (b == s.bins - 1 && x == s.maximum))
  {
    hide Scale.Position, Scale.Width;
    var q, w, b := s.Position(x), s.Width(), s.Bin(x);
    PositionInverts(s, x);
    PositionMonotone(s, s.minimum, x);
    PositionMonotone(s, x, s.maximum);
    BinRange(s, x);
    CellEdges(x - s.minimum, q, w, b);
    if x < s.maximum {
      PositionInverts(s, s.maximum);
      CellEdges(x - s.minimum, q, w, s.bins);
      assert s.maximum - s.minimum == s.bins as real * w;
    }
  }

  lemma CellEdges(distance: real, q: real, w: real, b: int)
    requires w > 0.0 && distance == q * w
    ensures b as real <= q <==> b as real * w <= distance
    ensures q < (b + 1) as real <==> distance < (b + 1) as real * w
  {
    EdgeTest(distance, q, w, b as real);
    EdgeTest(distance, q, w, (b + 1) as real);
  }

  lemma EdgeTest(distance: real, q: real, w: real, edge: real)
    requires w > 0.0 && distance == q * w
    ensures edge <= q <==> edge * w <= distance
  {
    MulMonotone(edge, q, w);
  }

  lemma BinMonotone(s: Scale, x: real, y: real)
    requires s.Valid() && x <= y
    ensures s.Bin(x) <= s.Bin(y)
  {
    hide Scale.Position;
    BinRange(s, x);
    BinRange(s, y);
    if s.minimum < s.maximum {
      PositionMonotone(s, x, y);
    }
  }

  /** A sample in range lies within half a cell of the centre of its cell. */
  lemma CentreNear(s: Scale, x: real)
    requires s.Proper() && s.minimum <= x <= s.maximum
    ensures -s.Width() / 2.0 <= s.Centre(s.Bin(x)) - x <= s.Width() / 2.0
  {
    hide Scale.Position, Scale.Width;
    var q, w, b := s.Position(x), s.Width(), s.Bin(x);
    PositionInverts(s, x);
    PositionMonotone(s, s.minimum, x);
    PositionMonotone(s, x, s.maximum);
    assert b as real <= q <= b as real + 1.0;
    var off := b as real + 0.5 - q;
    assert s.Centre(b) - x == off * w by {
      assert (b as real + 0.5) * w - q * w == off * w;
    }
    TimesPositive(0.5 - off, w);
    TimesPositive(0.5 + off, w);
  }

  // ----- counting -----

  ghost function CountAt(s: Scale, samples: seq<real>, b: int): nat
    requires s.Valid()
  {
    if samples == [] then 0
    else CountAt(s, samples[..|samples| - 1], b) + if s.Bin(samples[|samples| - 1]) == b then 1 else 0
  }

  /** Samples in cells up to `b`. */
  ghost function CountUpTo(s: Scale, samples: seq<real>, b: int): nat
    requires s.Valid()
  {
    if samples == [] then 0
    else CountUpTo(s, samples[..|samples| - 1], b) + if s.Bin(samples[|samples| - 1]) <= b then 1 else 0
  }

  lemma {:induction false} CountCell(s: Scale, samples: seq<real>, b: int)
    requires s.Valid()
    ensures CountUpTo(s, samples, b) == CountUpTo(s, samples, b - 1) + CountAt(s, samples, b)
  {
    hide Scale.Bin;
    if samples != [] {
      CountCell(s, samples[..|samples| - 1], b);
    }
  }

  lemma {:induction false} CountEnds(s: Scale, samples: seq<real>, b: int)
    requires s.Valid()
    ensures b < 0 ==> CountUpTo(s, samples, b) == 0
    ensures b >= s.bins - 1 ==> CountUpTo(s, samples, b) == |samples|
  {
    hide Scale.Bin;
    if samples != [] {
      CountEnds(s, samples[..|samples| - 1], b);
      BinRange(s, samples[|samples| - 1]);
    }
  }

  lemma {:induction false} CountWithout(s: Scale, samples: seq<real>, k: nat, b: int)
    requires s.Valid() && k < |samples|
    ensures CountUpTo(s, samples, b) ==
      CountUpTo(s, samples[..k] + samples[k + 1..], b) + if s.Bin(samples[k]) <= b then 1 else 0
  {
    hide Scale.Bin;
    var without := samples[..k] + samples[k + 1..];
    if k == |samples| - 1 {
      assert without == samples[..k];
    } else {
      var front := samples[..|samples| - 1];
      CountWithout(s, front, k, b);
      assert without[..|without| - 1] == front[..k] + front[k + 1..];
      assert without[|without| - 1] == samples[|samples| - 1];
    }
  }

  lemma {:induction false} CountPermuted(s: Scale, a: seq<real>, c: seq<real>, b: int)
    requires s.Valid() && multiset(a) == multiset(c)
    ensures CountUpTo(s, a, b) == CountUpTo(s, c, b)
  {
    hide Scale.Bin;
    PermutationFacts(a, c);
    if a != [] {
      var k := RemoveOne(a, c);
      CountPermuted(s, a[..|a| - 1], c[..k] + c[k + 1..], b);
      CountWithout(s, c, k, b);
    }
  }

  // ----- order statistics -----

  predicate Below(x: real, y: real) { x < y }

  /** `x` is the sample of rank `rank`, counted from one. */
  ghost predicate OrderStatistic(samples: seq<real>, rank: int, x: real) {
    exists r :: Ranked(samples, r) && 1 <= rank <= |r| && r[rank - 1] == x
  }

  ghost predicate Ranked(samples: seq<real>, r: seq<real>) {
    Sorted(Below, r) && multiset(r) == multiset(samples)
  }

  lemma {:induction false} CountFirst(s: Scale, r: seq<real>, n: nat, b: int)
    requires s.Valid() && n <= |r|
    requires forall i :: 0 <= i < n ==> s.Bin(r[i]) <= b
    ensures CountUpTo(s, r, b) >= n
  {
    hide Scale.Bin;
    if r != [] {
      var front := r[..|r| - 1];
      CountFirst(s, front, if n < |r| then n else n - 1, b);
    }
  }

  lemma {:induction false} CountLast(s: Scale, r: seq<real>, n: nat, b: int)
    requires s.Valid() && n <= |r|
    requires forall i :: n <= i < |r| ==> s.Bin(r[i]) > b
    ensures CountUpTo(s, r, b) <= n
  {
    hide Scale.Bin;
    if n < |r| {
      CountLast(s, r[..|r| - 1], n, b);
    } else {
      CountAtMost(s, r, b);
    }
  }

  lemma {:induction false} CountAtMost(s: Scale, r: seq<real>, b: int)
    requires s.Valid()
    ensures CountUpTo(s, r, b) <= |r|
  {
    hide Scale.Bin;
    if r != [] {
      CountAtMost(s, r[..|r| - 1], b);
    }
  }

  /** The first cell at which the count reaches a rank is the cell of the sample of that rank. */
  lemma CellOfRank(s: Scale, samples: seq<real>, rank: nat, x: real, b: int)
    requires s.Valid() && OrderStatistic(samples, rank, x)
    ensures CountUpTo(s, samples, b) >= rank <==> b >= s.Bin(x)
  {
    hide Scale.Bin, CountUpTo;
    var r :| Ranked(samples, r) && 1 <= rank <= |r| && r[rank - 1] == x;
    CountPermuted(s, samples, r, b);
    forall i | 0 <= i < |r| ensures i <= rank - 1 ==> s.Bin(r[i]) <= s.Bin(x)
      ensures i >= rank - 1 ==> s.Bin(r[i]) >= s.Bin(x)
    {
      if i < rank - 1 {
        assert !Below(r[rank - 1], r[i]);
        BinMonotone(s, r[i], x);
      } else if i > rank - 1 {
        assert !Below(r[i], r[rank - 1]);
        BinMonotone(s, x, r[i]);
      }
    }
    if b >= s.Bin(x) {
      CountFirst(s, r, rank, b);
    } else {
      CountLast(s, r, rank - 1, b);
    }
  }
}
