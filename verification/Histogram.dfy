/** Streaming quantiles over fixed cells (`_FixedHistogram`). */
module Histogram {
  import opened Wrappers
  import opened Numbers
  import opened Sorting
  import opened Binning

  function Ceil(x: real): int { -((-x).Floor) }

  /** The rank that a probability asks for. */
  function Rank(p: real, n: nat): nat {
    var wanted := Ceil(p * n as real);
    if wanted > 1 then wanted else 1
  }

  /** The rank is the least positive whole number that is no smaller than the share `p` of `n`. */
  lemma RankMeaning(p: real, n: nat, k: int)
    ensures Rank(p, n) == k <==> k >= 1 && k as real >= p * n as real && (k == 1 || (k - 1) as real < p * n as real)
  {
    var share := p * n as real;
    var below := (-share).Floor;
    assert below as real <= -share < below as real + 1.0;
    assert Ceil(share) == -below;
  }

  lemma RankMonotone(p: real, q: real, n: nat)
    requires p <= q
    ensures Rank(p, n) <= Rank(q, n)
  {
    assert (q - p) * n as real >= 0.0;
    assert -(p * n as real) >= -(q * n as real);
  }

  lemma RankWithin(p: real, n: nat)
    requires p <= 1.0 && n > 0
    ensures 1 <= Rank(p, n) <= n
  {
    assert (1.0 - p) * n as real >= 0.0;
    var least := -1 * n;
    assert -(p * n as real) >= least as real;
  }

  /** The first cell at which the running count reaches `rank`, or the last cell. */
  ghost function Selected(s: Scale, samples: seq<real>, rank: nat, b: int): (r: int)
    requires s.Valid() && 0 <= b < s.bins
    ensures b <= r < s.bins
    decreases s.bins - b
  {
    if b == s.bins - 1 || CountUpTo(s, samples, b) >= rank then b else Selected(s, samples, rank, b + 1)
  }

  /** The values that have a cell. */
  ghost function Accepted(s: Scale, values: seq<real>): seq<real> {
    if values == [] then []
    else
      var front, x := Accepted(s, values[..|values| - 1]), values[|values| - 1];
      if s.Accepts(x) then front + [x] else front
  }

  ghost predicate AllAccepted(s: Scale, values: seq<real>) {
    forall x :: x in values ==> s.Accepts(x)
  }

  lemma {:induction false} AcceptedAll(s: Scale, values: seq<real>)
    requires AllAccepted(s, values)
    ensures Accepted(s, values) == values
  {
    if values != [] {
      var front, x := values[..|values| - 1], values[|values| - 1];
      assert values == front + [x] && x in values && forall y :: y in front ==> y in values;
      AcceptedAll(s, front);
    }
  }

  /** The reported quantile of the values added so far, None without any: ranks count all of them, cells only those that
      have one. */
  ghost function Quantile(s: Scale, values: seq<real>, p: real): Option<real>
    requires s.Valid()
  {
    if values == [] then None else Some(s.Centre(Selected(s, Accepted(s, values), Rank(p, |values|), 0)))
  }

  lemma {:induction false} SelectedIs(s: Scale, samples: seq<real>, rank: nat, b: int, cell: int)
    requires s.Valid() && 0 <= b <= cell < s.bins
    requires forall c :: b <= c < cell ==> CountUpTo(s, samples, c) < rank
    requires cell == s.bins - 1 || CountUpTo(s, samples, cell) >= rank
    ensures Selected(s, samples, rank, b) == cell
    decreases s.bins - b
  {
    hide CountUpTo;
    if b < cell {
      SelectedIs(s, samples, rank, b + 1, cell);
    }
  }

  lemma {:induction false} SelectedMonotone(s: Scale, samples: seq<real>, j: nat, k: nat, b: int)
    requires s.Valid() && j <= k && 0 <= b < s.bins
    ensures Selected(s, samples, j, b) <= Selected(s, samples, k, b)
    decreases s.bins - b
  {
    hide CountUpTo;
    if b < s.bins - 1 {
      SelectedMonotone(s, samples, j, k, b + 1);
    }
  }

  /** When every value has a cell, the selected cell is that of the exact order statistic, in range or not. */
  lemma SelectedCell(s: Scale, samples: seq<real>, p: real, x: real)
    requires s.Valid() && samples != [] && AllAccepted(s, samples) && OrderStatistic(samples, Rank(p, |samples|), x)
    ensures Quantile(s, samples, p) == Some(s.Centre(s.Bin(x)))
  {
    hide CountUpTo, Scale.Bin, Rank, OrderStatistic, Accepted, AllAccepted;
    AcceptedAll(s, samples);
    var rank := Rank(p, |samples|);
    BinRange(s, x);
    forall b | 0 <= b < s.bins ensures CountUpTo(s, samples, b) >= rank <==> b >= s.Bin(x) {
      CellOfRank(s, samples, rank, x, b);
    }
    SelectedIs(s, samples, rank, 0, s.Bin(x));
  }

  /** Every probability up to one asks for a rank that some sample has. */
  lemma OrderStatisticExists(samples: seq<real>, p: real) returns (x: real)
    requires samples != [] && p <= 1.0
    ensures OrderStatistic(samples, Rank(p, |samples|), x) && x in samples
  {
    hide Rank, Sorted;
    assert StrictWeak(Below);
    var r := SortedExists(Below, samples);
    PermutationFacts(r, samples);
    RankWithin(p, |samples|);
    x := r[Rank(p, |samples|) - 1];
    assert Ranked(samples, r);
  }

  ghost predicate InRange(s: Scale, samples: seq<real>) {
    forall x :: x in samples ==> s.minimum <= x <= s.maximum
  }

  /** For samples in range the quantile is within half a cell of the exact order statistic. */
  lemma QuantileAccuracy(s: Scale, samples: seq<real>, p: real, x: real)
    requires s.Proper() && samples != [] && InRange(s, samples)
    requires OrderStatistic(samples, Rank(p, |samples|), x)
    ensures Quantile(s, samples, p).Some?
    ensures -s.Width() / 2.0 <= Quantile(s, samples, p).value - x <= s.Width() / 2.0
  {
    hide Rank, Quantile, Scale.Bin, Scale.Centre, Scale.Width, Sorted;
    SelectedCell(s, samples, p, x);
    var r :| Ranked(samples, r) && 1 <= Rank(p, |samples|) <= |r| && r[Rank(p, |samples|) - 1] == x;
    PermutationFacts(r, samples);
    assert x in samples;
    CentreNear(s, x);
  }

  lemma WidthNonNegative(s: Scale)
    requires s.Valid() && s.minimum <= s.maximum
    ensures s.Width() >= 0.0
  {
    QuotientMonotone(0.0, s.maximum - s.minimum, s.bins as real);
  }

  /** Quantiles rise with the probability. */
  lemma QuantileMonotone(s: Scale, samples: seq<real>, p: real, q: real)
    requires s.Valid() && s.minimum <= s.maximum && samples != [] && p <= q
    ensures Quantile(s, samples, p).value <= Quantile(s, samples, q).value
  {
    hide Rank, Selected, Scale.Width;
    RankMonotone(p, q, |samples|);
    var cells := Accepted(s, samples);
    var i := Selected(s, cells, Rank(p, |samples|), 0);
    var j := Selected(s, cells, Rank(q, |samples|), 0);
    SelectedMonotone(s, cells, Rank(p, |samples|), Rank(q, |samples|), 0);
    WidthNonNegative(s);
    TimesPositive((j - i) as real, s.Width());
    assert s.Centre(j) - s.Centre(i) == (j - i) as real * s.Width() by {
      assert (j as real + 0.5) * s.Width() - (i as real + 0.5) * s.Width() == (j - i) as real * s.Width();
    }
  }

  ghost function Total(counts: seq<nat>): nat {
    if counts == [] then 0 else Total(counts[..|counts| - 1]) + counts[|counts| - 1]
  }

  /** `counts` holds the number of samples in each cell. */
  ghost predicate Tallies(s: Scale, samples: seq<real>, counts: seq<nat>)
    requires s.Valid()
  {
    |counts| == s.bins && forall b {:trigger counts[b]} :: 0 <= b < s.bins ==> counts[b] == CountAt(s, samples, b)
  }

  lemma {:induction false} TotalUpTo(s: Scale, samples: seq<real>, counts: seq<nat>, k: nat)
    requires s.Valid() && Tallies(s, samples, counts) && k <= s.bins
    ensures Total(counts[..k]) == CountUpTo(s, samples, k - 1)
  {
    hide CountAt, CountUpTo;
    if k == 0 {
      CountEnds(s, samples, -1);
    } else {
      TotalUpTo(s, samples, counts, k - 1);
      CountCell(s, samples, k - 1);
      assert counts[..k][..k - 1] == counts[..k - 1];
    }
  }

  /** No sample is lost: the cell counts sum to the number of samples. */
  lemma CellsSumToSamples(s: Scale, samples: seq<real>, counts: seq<nat>)
    requires s.Valid() && Tallies(s, samples, counts)
    ensures Total(counts) == |samples|
  {
    TotalUpTo(s, samples, counts, s.bins);
    CountEnds(s, samples, s.bins - 1);
    assert counts[..s.bins] == counts;
  }

  /** Values below the lower bound; the others above the upper bound. */
  ghost function Outside(s: Scale, values: seq<real>, low: bool): nat {
    if values == [] then 0
    else
      var x := values[|values| - 1];
      Outside(s, values[..|values| - 1], low) +
      if (if low then x < s.minimum else x >= s.minimum && x > s.maximum) then 1 else 0
  }

  lemma Appended(s: Scale, samples: seq<real>, x: real)
    requires s.Valid()
    ensures forall b :: CountAt(s, samples + [x], b) == CountAt(s, samples, b) + (if s.Bin(x) == b then 1 else 0)
  {
    hide Scale.Bin;
    assert (samples + [x])[..|samples|] == samples;
  }

  lemma AppendedOutside(s: Scale, values: seq<real>, x: real)
    ensures Outside(s, values + [x], true) == Outside(s, values, true) + (if x < s.minimum then 1 else 0)
    ensures Outside(s, values + [x], false) ==
            Outside(s, values, false) + (if x >= s.minimum && x > s.maximum then 1 else 0)
  {
    assert (values + [x])[..|values|] == values;
  }

  lemma AppendedAccepted(s: Scale, values: seq<real>, x: real)
    ensures Accepted(s, values + [x]) == if s.Accepts(x) then Accepted(s, values) + [x] else Accepted(s, values)
  {
    assert (values + [x])[..|values|] == values;
  }

  class FixedHistogram {
    const scale: Scale
    var counts: array<nat>
    var finiteCount: nat
    var below: nat
    var above: nat
    ghost var values: seq<real>

    ghost predicate Valid()
      reads this, counts
    {
      && counts.Length == scale.bins
      && (scale.Valid() ==> Tallies(scale, Accepted(scale, values), counts[..]))
      && finiteCount == |values|
      && below == Outside(scale, values, true)
      && above == Outside(scale, values, false)
    }

    constructor (minimum: real, maximum: real, bins: nat)
      ensures Valid() && fresh(counts) && scale == Scale(minimum, maximum, bins) && values == []
    {
      this.scale := Scale(minimum, maximum, bins);
      counts := new nat[bins](_ => 0);
      finiteCount, below, above := 0, 0, 0;
      values := [];
    }

    /** Count one value; None stands for a value that is not finite. A value without a cell raises an error after it has
        been counted. */
    method Add(value: Option<real>) returns (raised: bool)
      requires Valid()
      modifies this`finiteCount, this`below, this`above, this`values, counts
      ensures Valid() && values == old(values) + if value.Some? then [value.value] else []
      ensures raised <==> value.Some? && !scale.Accepts(value.value)
      ensures raised ==> counts[..] == old(counts[..])
    {
      hide CountAt, Outside, Scale.Position;
      if value.None? {
        return false;
      }
      var x := value.value;
      finiteCount := finiteCount + 1;
      AppendedOutside(scale, values, x);
      AppendedAccepted(scale, values, x);
      ghost var cells := Accepted(scale, values);
      values := values + [x];
      var index;
      if x < scale.minimum {
        below := below + 1;
        index := 0;
      } else if x > scale.maximum {
        above := above + 1;
        index := scale.bins - 1;
      } else {
        if scale.minimum == scale.maximum {
          return true;
        }
        if scale.bins > 0 {
          BinRange(scale, x);
          var cell := scale.Position(x).Floor;
          index := if scale.bins - 1 < cell then scale.bins - 1 else cell;
        } else {
          index := -1;
        }
      }
      if scale.bins == 0 {
        return true;
      }
      counts[index] := counts[index] + 1;
      Appended(scale, cells, x);
      return false;
    }

    /** The first cell whose running count reaches `rank`. */
    method SelectCell(rank: nat) returns (selected: nat)
      requires Valid() && scale.Valid()
      ensures selected == Selected(scale, Accepted(scale, values), rank, 0)
    {
      hide CountAt, CountUpTo, Outside, Selected, Accepted;
      ghost var samples := Accepted(scale, values);
      var cumulative := 0;
      CountEnds(scale, samples, -1);
      for index := 0 to scale.bins
        invariant cumulative == CountUpTo(scale, samples, index - 1)
        invariant forall c :: 0 <= c < index ==> CountUpTo(scale, samples, c) < rank
      {
        assert counts[index] == counts[..][index];
        CountCell(scale, samples, index);
        cumulative := cumulative + counts[index];
        if cumulative >= rank {
          SelectedIs(scale, samples, rank, 0, index);
          return index;
        }
      }
      SelectedIs(scale, samples, rank, 0, scale.bins - 1);
      return scale.bins - 1;
    }

    /** One quantile for each probability; None stands for the error of a histogram that has values and no cells. */
    method Quantiles(probabilities: seq<real>) returns (r: Option<seq<Option<real>>>)
      requires Valid()
      ensures r.None? <==> !scale.Valid() && values != [] && probabilities != []
      ensures r.Some? ==>
                |r.value| == |probabilities| &&
                forall i :: 0 <= i < |r.value| ==>
                  r.value[i] == if values == [] then None else Quantile(scale, values, probabilities[i])
    {
      hide Tallies, Outside, Rank, Selected, Accepted;
      var result: seq<Option<real>> := [];
      for i := 0 to |probabilities|
        invariant |result| == i && (i > 0 ==> scale.Valid() || values == [])
        invariant forall j :: 0 <= j < i ==>
                  result[j] == if values == [] then None else Quantile(scale, values, probabilities[j])
      {
        if finiteCount == 0 {
          result := result + [None];
        } else {
          if scale.bins == 0 {
            return None;
          }
          var selected := SelectCell(Rank(probabilities[i], finiteCount));
          result := result + [Some(scale.Centre(selected))];
        }
      }
      return Some(result);
    }
  }
}
