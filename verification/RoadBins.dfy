/** The whole aggregation of matched travel into road bins (`aggregate_directed_road_bins`). */
module RoadBins {
  import opened Wrappers
  import opened Sorting
  import opened RoadBinTypes
  import opened BinSplit
  import opened PieceMaker
  import opened Traversals
  import opened TraversalModality
  import opened BinAggregate
  import opened BinCoverage

  datatype Bin = Bin(arc: nat, bin: nat, usable: int, traversals: nat, modalities: map<Modality, Coverage>)

  const MODALITIES: seq<Modality> := [Camera, Gnss, Imu, Lidar, Radar, Trajectory]

  // ----- one bin -----

  /** The times of the bin's pieces, and for each modality of its traversals. */
  ghost predicate Covers(pieces: seq<Piece>, b: Bin) {
    b.usable == DurationIn(pieces, b.arc, b.bin) <= INT64_MAX &&
    b.traversals == |TraversalsOf(pieces, b.arc, b.bin)| &&
    forall m :: m in b.modalities && 0 <= b.modalities[m].stamped <= b.modalities[m].valid <= b.usable
  }

  /** The usable time of the bin, or a duration met while one of its traversals is measured, leaves int64. */
  ghost predicate BinOverflows(pieces: seq<Piece>, groups: map<TravelKey, seq<Piece>>, evidence: seq<Evidence>,
                               arc: nat, bin: nat)
    requires AllValid(evidence)
  {
    DurationIn(pieces, arc, bin) > INT64_MAX ||
    exists key, m :: key in BinKeys(groups, arc, bin) && key in groups && TraversalOverflows(groups, evidence, m, key)
  }

  /** The reports of the bin are those of its traversals, none of which overflows. */
  ghost predicate Measures(pieces: seq<Piece>, groups: map<TravelKey, seq<Piece>>, evidence: seq<Evidence>,
                           places: nat, b: Bin)
    requires AllValid(evidence)
  {
    && !BinOverflows(pieces, groups, evidence, b.arc, b.bin)
    && exists keys :: Reports(groups, evidence, places, keys, b)
  }

  ghost predicate Reports(groups: map<TravelKey, seq<Piece>>, evidence: seq<Evidence>, places: nat,
                          keys: seq<TravelKey>, b: Bin)
    requires AllValid(evidence)
  {
    && Lists(keys, BinKeys(groups, b.arc, b.bin)) && KeysIn(keys, groups)
    && forall m :: m in b.modalities && b.modalities[m] == BinReport(TotalOf(groups, evidence, m, places, keys), places)
  }

  method CoverBin(ghost pieces: seq<Piece>, groups: map<TravelKey, seq<Piece>>, evidence: seq<Evidence>, places: nat,
                  arc: nat, bin: nat)
    returns (r: Result<Bin, Error>)
    requires Grouped(pieces, groups) && PositivePieces(groups) && AllValid(evidence)
    requires forall p :: p in pieces ==> p.start < p.end
    ensures r.Ok? ==> r.value.arc == arc && r.value.bin == bin && Covers(pieces, r.value)
    ensures r.Ok? ==> Measures(pieces, groups, evidence, places, r.value)
    ensures r.Err? <==> BinOverflows(pieces, groups, evidence, arc, bin)
  {
    hide Grouped, PositivePieces, AllValid, DurationIn, BinKeys, TotalOf, TotalDuration, TraversalOverflows,
         NoDuplicates;
    EveryModality();
    var usable := BinUsable(pieces, groups, arc, bin);
    if usable.Err? {
      return Err(TimeOverflow);
    }
    var keys := ListTraversals(groups, arc, bin);
    ListedInGroups(keys, groups, arc, bin);
    TraversalCount(pieces, groups, arc, bin);
    BinDuration(pieces, groups, keys, arc, bin);
    var modalities: map<Modality, Coverage> := map[];
    for i := 0 to |MODALITIES|
      invariant forall m :: m in MODALITIES[..i] ==> m in modalities
      invariant forall m :: m in MODALITIES[..i] ==>
                  forall k :: 0 <= k < |keys| ==> !TraversalOverflows(groups, evidence, m, keys[k])
      invariant forall m :: m in modalities ==> 0 <= modalities[m].stamped <= modalities[m].valid <= usable.value
      invariant forall m :: m in modalities ==>
                  modalities[m] == BinReport(TotalOf(groups, evidence, m, places, keys), places)
    {
      var one := SumModality(groups, evidence, MODALITIES[i], places, keys);
      TotalBounds(groups, evidence, MODALITIES[i], places, keys);
      assert MODALITIES[..i + 1] == MODALITIES[..i] + [MODALITIES[i]];
      if one.Err? {
        ghost var k :| 0 <= k < |keys| && TraversalOverflows(groups, evidence, MODALITIES[i], keys[k]);
        assert keys[k] in keys;
        return Err(TimeOverflow);
      }
      modalities := modalities[MODALITIES[i] := one.value];
    }
    assert MODALITIES[..|MODALITIES|] == MODALITIES;
    forall key, m | key in BinKeys(groups, arc, bin) && key in groups
      ensures !TraversalOverflows(groups, evidence, m, key)
    {
      assert key in keys && m in MODALITIES;
      var k :| 0 <= k < |keys| && keys[k] == key;
    }
    r := Ok(Bin(arc, bin, usable.value, |keys|, modalities));
    assert Reports(groups, evidence, places, keys, r.value);
  }

  lemma EveryModality()
    ensures forall m :: m in MODALITIES
  {
    forall m: Modality ensures m in MODALITIES {
      match m
      case Camera => assert MODALITIES[0] == m;
      case Gnss => assert MODALITIES[1] == m;
      case Imu => assert MODALITIES[2] == m;
      case Lidar => assert MODALITIES[3] == m;
      case Radar => assert MODALITIES[4] == m;
      case Trajectory => assert MODALITIES[5] == m;
    }
  }

  lemma ListedInGroups(keys: seq<TravelKey>, groups: map<TravelKey, seq<Piece>>, arc: nat, bin: nat)
    requires Lists(keys, BinKeys(groups, arc, bin))
    ensures KeysIn(keys, groups) && |keys| == |BinKeys(groups, arc, bin)|
  {
    forall k | 0 <= k < |keys| ensures keys[k] in groups {
      assert keys[k] in keys;
    }
    ListSize(keys, BinKeys(groups, arc, bin));
  }

  lemma {:induction false} ListSize(keys: seq<TravelKey>, all: set<TravelKey>)
    requires Lists(keys, all)
    ensures |keys| == |all|
    decreases |keys|
  {
    if keys == [] {
      assert all == {};
    } else {
      var front, last := keys[..|keys| - 1], keys[|keys| - 1];
      assert keys == front + [last] && last !in front;
      ListSize(front, all - {last});
    }
  }

  // ----- all bins -----

  function BinsOf(setting: Setting, arc: nat): nat
    requires setting.Valid() && arc < |setting.arcLengths|
  {
    BinCount(setting.arcLengths[arc], setting.binLength)
  }

  predicate IsBin(setting: Setting, b: (nat, nat))
    requires setting.Valid()
  {
    b.0 < |setting.arcLengths| && b.1 < BinsOf(setting, b.0)
  }

  ghost predicate AllBins(setting: Setting, bins: seq<(nat, nat)>)
    requires setting.Valid()
  {
    NoDuplicates(bins) && forall b: (nat, nat) :: b in bins <==> IsBin(setting, b)
  }

  /** Every bin of every arc, arc by arc. */
  method EnumerateBins(setting: Setting) returns (bins: seq<(nat, nat)>)
    requires setting.Valid()
    ensures AllBins(setting, bins)
  {
    hide BinCount;
    bins := [];
    for arc := 0 to |setting.arcLengths|
      invariant NoDuplicates(bins) && forall b: (nat, nat) :: b in bins <==> b.0 < arc && IsBin(setting, b)
    {
      for bin := 0 to BinsOf(setting, arc)
        invariant NoDuplicates(bins)
        invariant forall b: (nat, nat) :: b in bins <==> IsBin(setting, b) && (b.0 < arc || (b.0 == arc && b.1 < bin))
      {
        assert (arc, bin) !in bins;
        bins := bins + [(arc, bin)];
      }
    }
  }

  /** Time in the listed bins together. */
  function DurationOver(pieces: seq<Piece>, bins: seq<(nat, nat)>): int {
    if bins == [] then 0
    else DurationOver(pieces, bins[..|bins| - 1]) + DurationIn(pieces, bins[|bins| - 1].0, bins[|bins| - 1].1)
  }

  lemma {:induction false} DurationOverStep(pieces: seq<Piece>, p: Piece, bins: seq<(nat, nat)>)
    requires NoDuplicates(bins)
    ensures DurationOver(pieces + [p], bins) ==
            DurationOver(pieces, bins) + if (p.arc, p.bin) in bins then p.Duration() else 0
  {
    if bins != [] {
      var front, last := bins[..|bins| - 1], bins[|bins| - 1];
      DurationOverStep(pieces, p, front);
      assert bins == front + [last] && last !in front;
      assert (pieces + [p])[..|pieces|] == pieces;
      assert p.arc == last.0 && p.bin == last.1 <==> (p.arc, p.bin) == last;
    }
  }

  /** Bins that contain every piece account for all of the time. */
  lemma {:induction false} BinsAccount(pieces: seq<Piece>, bins: seq<(nat, nat)>)
    requires NoDuplicates(bins) && forall p :: p in pieces ==> (p.arc, p.bin) in bins
    ensures DurationOver(pieces, bins) == TotalDuration(pieces)
  {
    if pieces == [] {
      NothingOver(bins);
    } else {
      var front, last := pieces[..|pieces| - 1], pieces[|pieces| - 1];
      assert pieces == front + [last];
      BinsAccount(front, bins);
      DurationOverStep(front, last, bins);
    }
  }

  lemma {:induction false} NothingOver(bins: seq<(nat, nat)>)
    ensures DurationOver([], bins) == 0
  {
    if bins != [] {
      NothingOver(bins[..|bins| - 1]);
    }
  }

  // ----- the whole aggregation -----

  /** What the pieces owe to the matched paths: each lies on a segment of a path, no two are the same, and every
      eligible segment is represented. Their ordinals number the traversals. */
  ghost predicate PiecesOk(setting: Setting, paths: seq<MatchedPath>, gap: int, pieces: seq<Piece>)
    requires setting.Valid() && forall k :: 0 <= k < |paths| ==> ValidPath(setting, paths[k])
  {
    && DistinctIdentities(pieces) && InTimeOrder(pieces) && OrdinalsOk(pieces, gap)
    && (forall k :: 0 <= k < |paths| ==> RepresentsPath(setting, paths[k], |paths[k].points|, pieces))
    && (forall p :: p in pieces ==> Made(setting, paths, p))
  }

  ghost predicate Made(setting: Setting, paths: seq<MatchedPath>, p: Piece)
    requires setting.Valid() && forall k :: 0 <= k < |paths| ==> ValidPath(setting, paths[k])
  {
    exists k :: 0 <= k < |paths| && FromPath(setting, paths[k], p.(ordinal := 0))
  }

  /** Every bin once, each with the time of its pieces, and together the time of all of them. */
  ghost predicate BinsOk(setting: Setting, pieces: seq<Piece>, result: seq<Bin>)
    requires setting.Valid()
  {
    && AllBins(setting, Places(result)) && (forall i :: 0 <= i < |result| ==> Covers(pieces, result[i]))
    && (forall p :: p in pieces ==> (p.arc, p.bin) in Places(result))
    && UsableSum(result) == TotalDuration(pieces)
  }

  ghost function Places(result: seq<Bin>): (places: seq<(nat, nat)>)
    ensures |places| == |result| && forall i :: 0 <= i < |result| ==> places[i] == (result[i].arc, result[i].bin)
  {
    seq(|result|, i requires 0 <= i < |result| => (result[i].arc, result[i].bin))
  }

  function UsableSum(result: seq<Bin>): int {
    if result == [] then 0 else UsableSum(result[..|result| - 1]) + result[|result| - 1].usable
  }

  lemma {:induction false} UsableIsDuration(pieces: seq<Piece>, result: seq<Bin>)
    requires forall i :: 0 <= i < |result| ==> Covers(pieces, result[i])
    ensures UsableSum(result) == DurationOver(pieces, Places(result))
  {
    hide DurationIn;
    if result != [] {
      var front := result[..|result| - 1];
      UsableIsDuration(pieces, front);
      assert Places(result)[..|front|] == Places(front);
    }
  }

  lemma PieceBin(setting: Setting, paths: seq<MatchedPath>, p: Piece)
    requires setting.Valid() && forall k :: 0 <= k < |paths| ==> ValidPath(setting, paths[k])
    requires Made(setting, paths, p)
    ensures IsBin(setting, (p.arc, p.bin))
  {
    hide TimeAt, SpeedAt, BinCount;
    var k :| 0 <= k < |paths| && FromPath(setting, paths[k], p.(ordinal := 0));
    var path := paths[k];
    var i :| 0 < i < |path.points| && SegmentAt(setting, path, i).Some? &&
             FromSegment(SegmentAt(setting, path, i).value, p.(ordinal := 0));
    assert PieceOk(SegmentAt(setting, path, i).value, p.(ordinal := 0));
  }

  /** `pieces` is a permutation of `made` in which only ordinals have changed. */
  ghost predicate Renumbered(made: seq<Piece>, sorted: seq<Piece>, pieces: seq<Piece>) {
    multiset(sorted) == multiset(made) && |pieces| == |sorted| &&
    forall i :: 0 <= i < |sorted| ==> pieces[i] == sorted[i].(ordinal := pieces[i].ordinal)
  }

  lemma RenumberedDistinct(made: seq<Piece>, sorted: seq<Piece>, pieces: seq<Piece>)
    requires Renumbered(made, sorted, pieces) && DistinctIdentities(made)
    ensures DistinctIdentities(pieces)
  {
    PermutationFacts(sorted, made);
    assert NoDuplicates(made) by {
      forall i, j | 0 <= i < j < |made| ensures made[i] != made[j] {
        assert IdentityOf(made[i]) != IdentityOf(made[j]);
      }
    }
    PermutationNoDuplicates(sorted, made);
    forall i, j | 0 <= i < j < |pieces| ensures IdentityOf(pieces[i]) != IdentityOf(pieces[j]) {
      assert sorted[i] in made && sorted[j] in made && sorted[i] != sorted[j];
    }
  }

  lemma RenumberedPresent(made: seq<Piece>, sorted: seq<Piece>, pieces: seq<Piece>)
    requires Renumbered(made, sorted, pieces)
    ensures AllPresent(pieces, made)
  {
    PermutationFacts(sorted, made);
    forall q | q in made ensures exists p :: p in pieces && IdentityOf(p) == IdentityOf(q) {
      var i :| 0 <= i < |sorted| && sorted[i] == q;
      assert pieces[i] in pieces;
    }
  }

  lemma RenumberedMember(made: seq<Piece>, sorted: seq<Piece>, pieces: seq<Piece>, p: Piece) returns (q: Piece)
    requires Renumbered(made, sorted, pieces) && p in pieces
    ensures q in made && p == q.(ordinal := p.ordinal)
  {
    PermutationFacts(sorted, made);
    var i :| 0 <= i < |pieces| && pieces[i] == p;
    q := sorted[i];
  }

  lemma FreshOrdinal(setting: Setting, path: MatchedPath, q: Piece)
    requires setting.Valid() && ValidPath(setting, path) && FromPath(setting, path, q)
    ensures q.ordinal == 0
  {
    hide PieceOk, TimeAt, SpeedAt;
    var i :| 0 < i < |path.points| && SegmentAt(setting, path, i).Some? &&
             FromSegment(SegmentAt(setting, path, i).value, q);
  }

  lemma RenumberedMade(setting: Setting, paths: seq<MatchedPath>, p: Piece, q: Piece)
    requires setting.Valid() && forall k :: 0 <= k < |paths| ==> ValidPath(setting, paths[k])
    requires p == q.(ordinal := p.ordinal) && exists k :: 0 <= k < |paths| && FromPath(setting, paths[k], q)
    ensures Made(setting, paths, p)
  {
    hide FromPath, ValidPath;
    var k :| 0 <= k < |paths| && FromPath(setting, paths[k], q);
    FreshOrdinal(setting, paths[k], q);
    assert p.(ordinal := 0) == q;
  }

  lemma RenumberedOk(setting: Setting, paths: seq<MatchedPath>, gap: int, made: seq<Piece>, sorted: seq<Piece>,
                     pieces: seq<Piece>)
    requires setting.Valid() && forall k :: 0 <= k < |paths| ==> ValidPath(setting, paths[k])
    requires Renumbered(made, sorted, pieces) && DistinctIdentities(made)
    requires forall k :: 0 <= k < |paths| ==> RepresentsPath(setting, paths[k], |paths[k].points|, made)
    requires forall p :: p in made ==> exists k :: 0 <= k < |paths| && FromPath(setting, paths[k], p)
    requires InTimeOrder(pieces) && OrdinalsOk(pieces, gap)
    ensures PiecesOk(setting, paths, gap, pieces)
  {
    hide Renumbered, DistinctIdentities, InTimeOrder, OrdinalsOk, RepresentsPath, FromPath, ValidPath, Made, AllPresent;
    RenumberedDistinct(made, sorted, pieces);
    RenumberedPresent(made, sorted, pieces);
    forall k | 0 <= k < |paths| ensures RepresentsPath(setting, paths[k], |paths[k].points|, pieces) {
      MorePieces(setting, paths[k], |paths[k].points|, made, pieces);
    }
    forall p | p in pieces ensures Made(setting, paths, p) {
      var q := RenumberedMember(made, sorted, pieces, p);
      RenumberedMade(setting, paths, p, q);
    }
  }

  /** Some eligible segment lasts too long for int64. */
  ghost predicate PiecesOverflow(setting: Setting, paths: seq<MatchedPath>)
    requires setting.Valid() && forall k :: 0 <= k < |paths| ==> ValidPath(setting, paths[k])
  {
    exists k :: 0 <= k < |paths| && HasTooLong(setting, paths[k], |paths[k].points|)
  }

  /** The pieces before they are numbered. */
  ghost predicate PiecesMade(setting: Setting, paths: seq<MatchedPath>, made: seq<Piece>)
    requires setting.Valid() && forall k :: 0 <= k < |paths| ==> ValidPath(setting, paths[k])
  {
    && DistinctIdentities(made)
    && (forall k :: 0 <= k < |paths| ==> RepresentsPath(setting, paths[k], |paths[k].points|, made))
    && (forall p :: p in made ==> exists k :: 0 <= k < |paths| && FromPath(setting, paths[k], p))
  }

  ghost predicate AnyCutOff(made: seq<Piece>) {
    exists q :: q in made && CutOff(made, q)
  }

  lemma Numbered(setting: Setting, paths: seq<MatchedPath>, gap: int, made: seq<Piece>, pieces: seq<Piece>)
    requires setting.Valid() && forall k :: 0 <= k < |paths| ==> ValidPath(setting, paths[k])
    requires PiecesMade(setting, paths, made) && InTimeOrder(pieces) && OrdinalsOk(pieces, gap)
    requires exists sorted: seq<Piece> ::
               multiset(sorted) == multiset(made) && Sorted(PieceLess, sorted) && |sorted| == |pieces| &&
               forall i :: 0 <= i < |sorted| ==> pieces[i] == sorted[i].(ordinal := pieces[i].ordinal)
    ensures PiecesOk(setting, paths, gap, pieces)
  {
    hide RepresentsPath, FromPath, ValidPath, OrdinalsOk, InTimeOrder, DistinctIdentities, PiecesOk, Sorted;
    var sorted: seq<Piece> :|
      multiset(sorted) == multiset(made) && Sorted(PieceLess, sorted) && |sorted| == |pieces| &&
      forall i :: 0 <= i < |sorted| ==> pieces[i] == sorted[i].(ordinal := pieces[i].ordinal);
    RenumberedOk(setting, paths, gap, made, sorted, pieces);
  }

  /** What measuring the numbered pieces gives: every bin, or an error exactly when some bin overflows. */
  ghost predicate FromPieces(setting: Setting, paths: seq<MatchedPath>, gap: int, evidence: seq<Evidence>, places: nat,
                             pieces: seq<Piece>, groups: map<TravelKey, seq<Piece>>, r: Result<seq<Bin>, Error>)
    requires setting.Valid() && AllValid(evidence) && forall k :: 0 <= k < |paths| ==> ValidPath(setting, paths[k])
  {
    && PiecesOk(setting, paths, gap, pieces) && Grouped(pieces, groups)
    && (r.Err? ==> exists b :: IsBin(setting, b) && BinOverflows(pieces, groups, evidence, b.0, b.1))
    && (r.Ok? ==> BinsOk(setting, pieces, r.value) &&
                  forall i :: 0 <= i < |r.value| ==> Measures(pieces, groups, evidence, places, r.value[i]))
  }

  /** What the pieces made from the paths give: an error exactly when one is cut off or some bin overflows. */
  ghost predicate FromMade(setting: Setting, paths: seq<MatchedPath>, gap: int, evidence: seq<Evidence>, places: nat,
                           made: seq<Piece>, r: Result<seq<Bin>, Error>)
    requires setting.Valid() && AllValid(evidence) && forall k :: 0 <= k < |paths| ==> ValidPath(setting, paths[k])
  {
    && PiecesMade(setting, paths, made)
    && if AnyCutOff(made) then r.Err?
       else exists pieces, groups :: FromPieces(setting, paths, gap, evidence, places, pieces, groups, r)
  }

  /** Measure every bin of every arc. */
  method MeasureBins(setting: Setting, paths: seq<MatchedPath>, gap: int, evidence: seq<Evidence>, places: nat,
                     pieces: seq<Piece>)
    returns (r: Result<seq<Bin>, Error>)
    requires setting.Valid() && AllValid(evidence) && forall k :: 0 <= k < |paths| ==> ValidPath(setting, paths[k])
    requires PiecesOk(setting, paths, gap, pieces)
    ensures exists groups :: FromPieces(setting, paths, gap, evidence, places, pieces, groups, r)
  {
    hide PiecesOk, ValidPath, AllValid, Grouped, PositivePieces, BinOverflows, Covers, IsBin, Measures, BinsOk;
    var groups := GroupTraversals(pieces);
    PiecesPositive(setting, paths, gap, pieces, groups);
    var bins := EnumerateBins(setting);
    var result: seq<Bin> := [];
    for i := 0 to |bins|
      invariant |result| == i
      invariant forall k :: 0 <= k < i ==> Covers(pieces, result[k]) && (result[k].arc, result[k].bin) == bins[k]
      invariant forall k :: 0 <= k < i ==> Measures(pieces, groups, evidence, places, result[k])
    {
      var bin := CoverBin(pieces, groups, evidence, places, bins[i].0, bins[i].1);
      if bin.Err? {
        assert bins[i] in bins;
        r := Err(TimeOverflow);
        assert FromPieces(setting, paths, gap, evidence, places, pieces, groups, r);
        return;
      }
      result := result + [bin.value];
    }
    assert Places(result) == bins;
    BinsComplete(setting, paths, gap, pieces, result);
    r := Ok(result);
    assert FromPieces(setting, paths, gap, evidence, places, pieces, groups, r);
  }

  /** Cut, number, group, and measure every bin of every arc. */
  method Aggregate(setting: Setting, paths: seq<MatchedPath>, gap: int, evidence: seq<Evidence>, places: nat)
    returns (r: Result<seq<Bin>, Error>)
    requires setting.Valid() && gap >= 0 && AllValid(evidence)
    requires forall k :: 0 <= k < |paths| ==> ValidPath(setting, paths[k])
    ensures if PiecesOverflow(setting, paths) then r.Err?
            else exists made :: FromMade(setting, paths, gap, evidence, places, made, r)
  {
    hide RepresentsPath, FromPath, ValidPath, OrdinalsOk, InTimeOrder, HasTooLong, CutOff, DistinctIdentities,
         PiecesOk, Sorted, AllValid, FromPieces;
    var made := MakePieces(setting, paths);
    if made.Err? {
      return Err(TimeOverflow);
    }
    assert PiecesMade(setting, paths, made.value);
    var numbered := NumberTraversals(made.value, gap);
    if numbered.Err? {
      r := Err(TimeOverflow);
    } else {
      Numbered(setting, paths, gap, made.value, numbered.value);
      r := MeasureBins(setting, paths, gap, evidence, places, numbered.value);
    }
    assert FromMade(setting, paths, gap, evidence, places, made.value, r);
  }

  lemma PiecesPositive(setting: Setting, paths: seq<MatchedPath>, gap: int, pieces: seq<Piece>,
                       groups: map<TravelKey, seq<Piece>>)
    requires setting.Valid() && forall k :: 0 <= k < |paths| ==> ValidPath(setting, paths[k])
    requires PiecesOk(setting, paths, gap, pieces) && Grouped(pieces, groups)
    ensures (forall p :: p in pieces ==> p.start < p.end) && PositivePieces(groups)
  {
    hide ValidPath, RepresentsPath, OrdinalsOk, DistinctIdentities, Made;
    forall key, i | key in groups && 0 <= i < |groups[key]| ensures groups[key][i].start < groups[key][i].end {
      GroupMembers(pieces, key);
      assert groups[key][i] in GroupOf(pieces, key);
    }
  }

  lemma BinsComplete(setting: Setting, paths: seq<MatchedPath>, gap: int, pieces: seq<Piece>, result: seq<Bin>)
    requires setting.Valid() && forall k :: 0 <= k < |paths| ==> ValidPath(setting, paths[k])
    requires PiecesOk(setting, paths, gap, pieces) && AllBins(setting, Places(result))
    requires forall i :: 0 <= i < |result| ==> Covers(pieces, result[i])
    ensures BinsOk(setting, pieces, result)
  {
    hide ValidPath, RepresentsPath, OrdinalsOk, DistinctIdentities, InTimeOrder, Made, Covers, IsBin;
    forall p | p in pieces ensures (p.arc, p.bin) in Places(result) {
      PieceBin(setting, paths, p);
    }
    BinsAccount(pieces, Places(result));
    UsableIsDuration(pieces, result);
  }
}
