/** Coverage of one bin: its traversals, usable time and modalities (`aggregate_directed_road_bins`). */
module BinCoverage {
  import opened FiniteSets
  import opened Wrappers
  import opened Numbers
  import opened Rounding
  import opened Sorting
  import opened RoadBinTypes
  import opened IntervalMeasure
  import opened TraversalModality
  import opened BinAggregate

  // ----- the traversals of a bin -----

  /** `keys` lists `all`, each once. */
  ghost predicate Lists(keys: seq<TravelKey>, all: set<TravelKey>) {
    NoDuplicates(keys) && forall key :: key in keys <==> key in all
  }

  method ListTraversals(groups: map<TravelKey, seq<Piece>>, arc: nat, bin: nat) returns (keys: seq<TravelKey>)
    ensures Lists(keys, BinKeys(groups, arc, bin))
  {
    var left := set key | key in groups && key.arc == arc && key.bin == bin;
    keys := [];
    while left != {}
      invariant NoDuplicates(keys) && forall key :: key in keys <==> key in BinKeys(groups, arc, bin) - left
      invariant left <= BinKeys(groups, arc, bin)
      decreases left
    {
      var key :| key in left;
      assert key !in keys;
      left := left - {key};
      keys := keys + [key];
    }
  }

  ghost predicate KeysIn(keys: seq<TravelKey>, groups: map<TravelKey, seq<Piece>>) {
    forall k :: 0 <= k < |keys| ==> keys[k] in groups
  }

  ghost function KeySum(groups: map<TravelKey, seq<Piece>>, keys: seq<TravelKey>): int
    requires KeysIn(keys, groups)
  {
    if keys == [] then 0
    else KeySum(groups, keys[..|keys| - 1]) + TotalDuration(groups[keys[|keys| - 1]])
  }

  ghost function KeySet(keys: seq<TravelKey>): set<TravelKey> { set key | key in keys }

  lemma {:induction false} ListedDuration(pieces: seq<Piece>, groups: map<TravelKey, seq<Piece>>, keys: seq<TravelKey>)
    requires Grouped(pieces, groups) && NoDuplicates(keys) && KeysIn(keys, groups)
    ensures KeySum(groups, keys) == DurationOf(pieces, KeySet(keys))
  {
    hide TotalDuration, DurationOf;
    if keys == [] {
      assert KeySet(keys) == {};
      DurationNone(pieces);
    } else {
      var front, last := keys[..|keys| - 1], keys[|keys| - 1];
      ListedDuration(pieces, groups, front);
      assert last !in front && KeySet(keys) == KeySet(front) + {last};
      DurationAdds(pieces, KeySet(front), last);
    }
  }

  /** The listed traversals last, together, exactly as long as the pieces of the bin. */
  lemma BinDuration(pieces: seq<Piece>, groups: map<TravelKey, seq<Piece>>, keys: seq<TravelKey>, arc: nat, bin: nat)
    requires Grouped(pieces, groups) && Lists(keys, BinKeys(groups, arc, bin)) && KeysIn(keys, groups)
    ensures KeySum(groups, keys) == DurationIn(pieces, arc, bin)
  {
    ListedDuration(pieces, groups, keys);
    assert KeySet(keys) == BinKeys(groups, arc, bin);
    BinKeysDuration(pieces, groups, arc, bin);
  }

  // ----- one modality over the traversals -----

  function RequestOf(groups: map<TravelKey, seq<Piece>>, key: TravelKey, m: Modality): Request
    requires key in groups
  {
    Request(groups[key], key.sequence, m)
  }

  /** Durations, points, overlap-supported time and its weighted sum, and ids over several traversals. */
  datatype Total = Total(valid: int, stamped: int, points: real, weight: int, product: real, ids: set<string>)

  function Include(t: Total, c: Coverage): Total {
    Total(t.valid + c.valid, t.stamped + c.stamped, t.points + c.points,
          if c.overlap.Some? then t.weight + c.valid else t.weight,
          if c.overlap.Some? then t.product + c.overlap.value * c.valid as real else t.product,
          t.ids + c.ids)
  }

  function BinReport(t: Total, places: nat): Coverage {
    Coverage(t.valid, t.stamped, RoundPlaces(t.points, places),
             if t.weight > 0 then Some(RoundPlaces(t.product / t.weight as real, places)) else None, t.ids)
  }

  ghost function CoverageAt(groups: map<TravelKey, seq<Piece>>, evidence: seq<Evidence>, m: Modality, places: nat,
                            key: TravelKey): Coverage
    requires AllValid(evidence) && key in groups
  {
    ReportOf(TallyOf(RequestOf(groups, key, m), evidence), places)
  }

  ghost function TotalOf(groups: map<TravelKey, seq<Piece>>, evidence: seq<Evidence>, m: Modality, places: nat,
                         keys: seq<TravelKey>): Total
    requires AllValid(evidence) && KeysIn(keys, groups)
  {
    if keys == [] then Total(0, 0, 0.0, 0, 0.0, {})
    else Include(TotalOf(groups, evidence, m, places, keys[..|keys| - 1]),
                 CoverageAt(groups, evidence, m, places, keys[|keys| - 1]))
  }

  ghost predicate PositivePieces(groups: map<TravelKey, seq<Piece>>) {
    forall key :: key in groups ==> forall i :: 0 <= i < |groups[key]| ==> groups[key][i].start < groups[key][i].end
  }

  lemma CoverageBounds(groups: map<TravelKey, seq<Piece>>, evidence: seq<Evidence>, m: Modality, places: nat,
                       key: TravelKey)
    requires AllValid(evidence) && key in groups && PositivePieces(groups)
    ensures var c := CoverageAt(groups, evidence, m, places, key);
            0 <= c.stamped <= c.valid <= TotalDuration(groups[key])
  {
    hide Covered, TotalDuration, TallyOf;
    var q := RequestOf(groups, key, m);
    TallyMeaning(q, evidence);
    SubsetSize(TallyOf(q, evidence).stamped, TallyOf(q, evidence).valid);
    SubsetSize(TallyOf(q, evidence).valid, Covered(PieceIntervals(q.pieces)));
    UnionAtMostSum(q.pieces);
  }

  /** Timestamp-supported <= valid <= usable time over all traversals, and every part is at most the whole. */
  lemma {:induction false} TotalBounds(groups: map<TravelKey, seq<Piece>>, evidence: seq<Evidence>, m: Modality,
                                       places: nat, keys: seq<TravelKey>)
    requires AllValid(evidence) && KeysIn(keys, groups) && PositivePieces(groups)
    ensures var t := TotalOf(groups, evidence, m, places, keys);
            0 <= t.stamped <= t.valid <= KeySum(groups, keys) && 0 <= t.weight <= t.valid
  {
    hide CoverageAt, TotalDuration, PositivePieces, AllValid;
    if keys != [] {
      TotalBounds(groups, evidence, m, places, keys[..|keys| - 1]);
      CoverageBounds(groups, evidence, m, places, keys[|keys| - 1]);
    }
  }

  lemma {:induction false} TotalGrows(groups: map<TravelKey, seq<Piece>>, evidence: seq<Evidence>, m: Modality,
                                      places: nat, keys: seq<TravelKey>, n: nat)
    requires AllValid(evidence) && KeysIn(keys, groups) && PositivePieces(groups) && n <= |keys|
    ensures KeysIn(keys[..n], groups)
    ensures TotalOf(groups, evidence, m, places, keys[..n]).valid <= TotalOf(groups, evidence, m, places, keys).valid
    decreases |keys|
  {
    hide CoverageAt, TotalDuration, PositivePieces, AllValid;
    if n == |keys| {
      assert keys[..n] == keys;
    } else {
      TotalGrows(groups, evidence, m, places, keys[..|keys| - 1], n);
      assert keys[..|keys| - 1][..n] == keys[..n];
      CoverageBounds(groups, evidence, m, places, keys[|keys| - 1]);
    }
  }

  lemma TotalStep(groups: map<TravelKey, seq<Piece>>, evidence: seq<Evidence>, m: Modality, places: nat,
                  keys: seq<TravelKey>, n: nat)
    requires AllValid(evidence) && KeysIn(keys, groups) && n < |keys|
    ensures KeysIn(keys[..n], groups) && KeysIn(keys[..n + 1], groups)
    ensures TotalOf(groups, evidence, m, places, keys[..n + 1]) ==
            Include(TotalOf(groups, evidence, m, places, keys[..n]), CoverageAt(groups, evidence, m, places, keys[n]))
  {
    hide CoverageAt, Include;
    assert keys[..n + 1][..n] == keys[..n];
  }

  ghost predicate TraversalOverflows(groups: map<TravelKey, seq<Piece>>, evidence: seq<Evidence>, m: Modality,
                                     key: TravelKey)
    requires AllValid(evidence) && key in groups
  {
    Overflows(RequestOf(groups, key, m), evidence)
  }

  /** Add up one modality over the listed traversals. */
  method SumModality(groups: map<TravelKey, seq<Piece>>, evidence: seq<Evidence>, m: Modality, places: nat,
                     keys: seq<TravelKey>)
    returns (r: Result<Coverage, Error>)
    requires AllValid(evidence) && KeysIn(keys, groups) && PositivePieces(groups)
    ensures r.Err? <==>
              || (exists k :: 0 <= k < |keys| && TraversalOverflows(groups, evidence, m, keys[k]))
              || TotalOf(groups, evidence, m, places, keys).valid > INT64_MAX
    ensures r.Ok? ==> r.value == BinReport(TotalOf(groups, evidence, m, places, keys), places)
  {
    hide TotalOf, AllValid, Overflows, TallyOf, ReportOf;
    var total := Total(0, 0, 0.0, 0, 0.0, {});
    NoTraversals(groups, evidence, m, places, keys);
    for n := 0 to |keys|
      invariant KeysIn(keys[..n], groups) && total == TotalOf(groups, evidence, m, places, keys[..n])
      invariant total.valid <= INT64_MAX
      invariant forall k :: 0 <= k < n ==> !TraversalOverflows(groups, evidence, m, keys[k])
    {
      TotalStep(groups, evidence, m, places, keys, n);
      TotalGrows(groups, evidence, m, places, keys, n + 1);
      TotalBounds(groups, evidence, m, places, keys[..n + 1]);
      TotalBounds(groups, evidence, m, places, keys[..n]);
      var one := ModalityCoverage(RequestOf(groups, keys[n], m), evidence, places);
      if one.Err? {
        assert TraversalOverflows(groups, evidence, m, keys[n]);
        return Err(TimeOverflow);
      }
      var c := one.value;
      var valid := CheckedAdd(total.valid, c.valid);
      if valid.Err? {
        return Err(TimeOverflow);
      }
      var stamped := CheckedAdd(total.stamped, c.stamped);
      if stamped.Err? {
        return Err(TimeOverflow);
      }
      total := Include(total, c);
    }
    assert keys[..|keys|] == keys;
    return Ok(BinReport(total, places));
  }

  lemma NoTraversals(groups: map<TravelKey, seq<Piece>>, evidence: seq<Evidence>, m: Modality, places: nat,
                     keys: seq<TravelKey>)
    requires AllValid(evidence)
    ensures TotalOf(groups, evidence, m, places, keys[..0]) == Total(0, 0, 0.0, 0, 0.0, {})
  {
  }

  // ----- what the numbers mean -----

  ghost predicate SumOfTwo(t: Total, a: Total, b: Total) {
    t.valid == a.valid + b.valid && t.stamped == a.stamped + b.stamped && t.points == a.points + b.points &&
    t.weight == a.weight + b.weight && t.product == a.product + b.product && t.ids == a.ids + b.ids
  }

  /** Totals add up over any division of the traversals. */
  lemma {:induction false} TotalSplits(groups: map<TravelKey, seq<Piece>>, evidence: seq<Evidence>, m: Modality,
                                       places: nat, a: seq<TravelKey>, b: seq<TravelKey>)
    requires AllValid(evidence) && KeysIn(a, groups) && KeysIn(b, groups)
    ensures KeysIn(a + b, groups)
    ensures SumOfTwo(TotalOf(groups, evidence, m, places, a + b), TotalOf(groups, evidence, m, places, a),
                     TotalOf(groups, evidence, m, places, b))
  {
    hide CoverageAt, AllValid, Include, SumOfTwo;
    if b == [] {
      assert a + b == a;
      SumWithNothing(TotalOf(groups, evidence, m, places, a));
    } else {
      var front, last := b[..|b| - 1], b[|b| - 1];
      TotalSplits(groups, evidence, m, places, a, front);
      assert (a + b)[..|a + b| - 1] == a + front;
      IncludeInSum(TotalOf(groups, evidence, m, places, a + front), TotalOf(groups, evidence, m, places, a),
                   TotalOf(groups, evidence, m, places, front), CoverageAt(groups, evidence, m, places, last));
    }
  }

  lemma SumWithNothing(t: Total)
    ensures SumOfTwo(t, t, Total(0, 0, 0.0, 0, 0.0, {}))
  {
  }

  lemma IncludeInSum(t: Total, a: Total, b: Total, c: Coverage)
    requires SumOfTwo(t, a, b)
    ensures SumOfTwo(Include(t, c), a, Include(b, c))
  {
  }

  /** The total of one traversal is its own coverage, overlap support weighted by valid time. */
  lemma TotalOfOne(groups: map<TravelKey, seq<Piece>>, evidence: seq<Evidence>, m: Modality, places: nat,
                   key: TravelKey)
    requires AllValid(evidence) && KeysIn([key], groups)
    ensures var t, c := TotalOf(groups, evidence, m, places, [key]), CoverageAt(groups, evidence, m, places, key);
            && t.valid == c.valid && t.stamped == c.stamped && t.points == c.points && t.ids == c.ids
            && (c.overlap.None? ==> t.weight == 0 && t.product == 0.0)
            && (c.overlap.Some? ==> t.weight == c.valid && t.product == c.overlap.value * c.valid as real)
  {
    hide CoverageAt, AllValid;
    assert [key][..0] == [];
  }

  /** A bin's report gives durations and ids as they are, points and mean overlap support to the last decimal place. */
  lemma BinReportMeaning(t: Total, places: nat)
    ensures var c := BinReport(t, places);
            && c.valid == t.valid && c.stamped == t.stamped && c.ids == t.ids
            && Abs(c.points - t.points) * Unit(places) <= 0.5
            && (c.overlap.Some? <==> t.weight > 0)
            && (c.overlap.Some? ==> Abs(c.overlap.value - t.product / t.weight as real) * Unit(places) <= 0.5)
  {
    hide RoundPlaces;
    RoundPlacesNear(t.points, places);
    if t.weight > 0 {
      RoundPlacesNear(t.product / t.weight as real, places);
    }
  }

  ghost predicate TotalWeighted(t: Total, low: real, high: real) {
    low * t.weight as real <= t.product <= high * t.weight as real
  }

  lemma IncludeWeighted(t: Total, c: Coverage, low: real, high: real)
    requires TotalWeighted(t, low, high) && c.valid >= 0 && (c.overlap.Some? ==> low <= c.overlap.value <= high)
    ensures TotalWeighted(Include(t, c), low, high)
  {
    if c.overlap.Some? {
      WeightBetween(t.product, t.weight, c.overlap.value, c.valid, low, high);
    }
  }

  lemma NothingIncluded(low: real, high: real)
    ensures TotalWeighted(Total(0, 0, 0.0, 0, 0.0, {}), low, high)
  {
  }

  lemma {:induction false} TotalIsWeighted(groups: map<TravelKey, seq<Piece>>, evidence: seq<Evidence>, m: Modality,
                                           places: nat, keys: seq<TravelKey>, low: real, high: real)
    requires AllValid(evidence) && KeysIn(keys, groups) && PositivePieces(groups)
    requires forall k :: 0 <= k < |keys| ==>
               var c := CoverageAt(groups, evidence, m, places, keys[k]);
               c.overlap.Some? ==> low <= c.overlap.value <= high
    ensures TotalWeighted(TotalOf(groups, evidence, m, places, keys), low, high)
  {
    hide CoverageAt, TotalWeighted, PositivePieces, AllValid, Include, TotalDuration;
    if keys == [] {
      NothingIncluded(low, high);
    } else {
      var front, last := keys[..|keys| - 1], keys[|keys| - 1];
      TotalIsWeighted(groups, evidence, m, places, front, low, high);
      CoverageBounds(groups, evidence, m, places, last);
      IncludeWeighted(TotalOf(groups, evidence, m, places, front), CoverageAt(groups, evidence, m, places, last),
                      low, high);
    }
  }

  /** A bin keeps timestamp-supported <= valid <= usable time, and its overlap support lies between those of its
      traversals. */
  lemma BinMeaning(pieces: seq<Piece>, groups: map<TravelKey, seq<Piece>>, evidence: seq<Evidence>, m: Modality,
                   places: nat, keys: seq<TravelKey>, arc: nat, bin: nat, low: real, high: real)
    requires AllValid(evidence) && Grouped(pieces, groups) && PositivePieces(groups)
    requires Lists(keys, BinKeys(groups, arc, bin)) && KeysIn(keys, groups)
    requires forall k :: 0 <= k < |keys| ==>
               var c := CoverageAt(groups, evidence, m, places, keys[k]);
               c.overlap.Some? ==> low <= c.overlap.value <= high
    ensures var c := BinReport(TotalOf(groups, evidence, m, places, keys), places);
            && 0 <= c.stamped <= c.valid <= DurationIn(pieces, arc, bin)
            && (c.overlap.Some? ==> RoundPlaces(low, places) <= c.overlap.value <= RoundPlaces(high, places))
  {
    hide CoverageAt, TotalOf, RoundPlaces, Grouped, PositivePieces, AllValid, DurationIn, TotalDuration, Lists;
    var t := TotalOf(groups, evidence, m, places, keys);
    BinDuration(pieces, groups, keys, arc, bin);
    TotalBounds(groups, evidence, m, places, keys);
    TotalIsWeighted(groups, evidence, m, places, keys, low, high);
    if t.weight > 0 {
      MeanBetween(t.product, t.weight as real, low, high);
      RoundPlacesMonotone(low, t.product / t.weight as real, places);
      RoundPlacesMonotone(t.product / t.weight as real, high, places);
    }
  }
}
