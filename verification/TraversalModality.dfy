/** Modality coverage of one traversal (`make_traversal` and `finalize_modality`). */
module TraversalModality {
  import opened FiniteSets
  import opened Wrappers
  import opened Numbers
  import opened Rounding
  import opened RoadBinTypes
  import opened IntervalMeasure

  datatype Modality = Camera | Gnss | Imu | Lidar | Radar | Trajectory

  datatype Evidence = Evidence(id: string, sequence: string, modality: Modality, start: int, end: int,
                               usable: bool, stamped: bool, points: real, overlap: Option<real>)
  {
    /** The checks of validate_inputs. */
    predicate Valid() {
      start < end && points >= 0.0 && (overlap.Some? ==> overlap.value >= 0.0)
    }
  }

  /** The pieces of one traversal, and the modality asked for. */
  datatype Request = Request(pieces: seq<Piece>, sequence: string, modality: Modality)
  {
    predicate Valid() {
      forall i :: 0 <= i < |pieces| ==> pieces[i].start < pieces[i].end
    }
  }

  datatype Coverage = Coverage(valid: int, stamped: int, points: real, overlap: Option<real>, ids: set<string>)

  ghost function Shared(q: Request, e: Evidence): set<int> { SharedTime(q.pieces, e.start, e.end) }

  /** Usable evidence of the traversal's sequence and the modality that lasts while the traversal does. */
  ghost predicate Contributes(q: Request, e: Evidence) {
    e.usable && e.sequence == q.sequence && e.modality == q.modality && Shared(q, e) != {}
  }

  // ----- what is counted -----

  ghost predicate AllValid(evidence: seq<Evidence>) {
    forall e :: e in evidence ==> e.Valid()
  }

  /** Supported nanoseconds, points in proportion to shared time, overlap-supported time and its weighted sum, ids. */
  datatype Tally = Tally(valid: set<int>, stamped: set<int>, points: real, overlapTime: int, product: real,
                         ids: set<string>)

  function Share(points: real, part: real, whole: real): real
    requires whole > 0.0
  {
    points * part / whole
  }

  ghost function Add(q: Request, t: Tally, e: Evidence): Tally
    requires e.Valid()
  {
    if !Contributes(q, e) then t
    else
      var shared := Shared(q, e);
      Tally(t.valid + shared, if e.stamped then t.stamped + shared else t.stamped,
            t.points + Share(e.points, |shared| as real, (e.end - e.start) as real),
            if e.overlap.Some? then t.overlapTime + |shared| else t.overlapTime,
            if e.overlap.Some? then t.product + e.overlap.value * |shared| as real else t.product,
            t.ids + {e.id})
  }

  ghost function TallyOf(q: Request, evidence: seq<Evidence>): Tally
    requires AllValid(evidence)
  {
    if evidence == [] then Tally({}, {}, 0.0, 0, 0.0, {})
    else Add(q, TallyOf(q, evidence[..|evidence| - 1]), evidence[|evidence| - 1])
  }

  /** What make_traversal reports for the modality. */
  ghost function ReportOf(t: Tally, places: nat): Coverage {
    Coverage(|t.valid|, |t.stamped|, RoundPlaces(t.points, places),
             if t.overlapTime > 0 then Some(RoundPlaces(t.product / t.overlapTime as real, places)) else None, t.ids)
  }

  ghost predicate Endless(q: Request, e: Evidence) {
    Contributes(q, e) && e.end - e.start > INT64_MAX
  }

  /** A duration that int64 cannot hold: of contributing evidence, of overlap-supported time, or of valid time. */
  ghost predicate Overflows(q: Request, evidence: seq<Evidence>)
    requires AllValid(evidence)
  {
    || (exists e :: e in evidence && Endless(q, e))
    || TallyOf(q, evidence).overlapTime > INT64_MAX || |TallyOf(q, evidence).valid| > INT64_MAX
  }

  lemma TallyStep(q: Request, evidence: seq<Evidence>, i: nat)
    requires AllValid(evidence) && i < |evidence|
    ensures AllValid(evidence[..i]) && AllValid(evidence[..i + 1]) && evidence[i].Valid()
    ensures TallyOf(q, evidence[..i + 1]) == Add(q, TallyOf(q, evidence[..i]), evidence[i])
  {
    hide Add;
    assert evidence[..i + 1][..i] == evidence[..i];
    assert forall x :: x in evidence[..i + 1] ==> x in evidence;
  }

  lemma {:induction false} TallyGrows(q: Request, evidence: seq<Evidence>, i: nat)
    requires AllValid(evidence) && i <= |evidence|
    ensures AllValid(evidence[..i]) && 0 <= TallyOf(q, evidence[..i]).overlapTime <= TallyOf(q, evidence).overlapTime
    decreases |evidence|
  {
    hide Contributes, Share, Shared;
    if i == |evidence| {
      assert evidence[..i] == evidence;
      if i > 0 {
        TallyGrows(q, evidence[..i - 1], i - 1);
        assert evidence[..i - 1][..i - 1] == evidence[..i - 1];
      }
    } else {
      TallyGrows(q, evidence[..|evidence| - 1], i);
      assert evidence[..|evidence| - 1][..i] == evidence[..i];
    }
  }

  /** At nanosecond `x` the traversal is under way, and `e` is usable evidence of its sequence and the modality. */
  ghost predicate Supports(q: Request, e: Evidence, x: int) {
    && e.usable && e.sequence == q.sequence && e.modality == q.modality && e.start <= x < e.end
    && exists p :: p in q.pieces && p.start <= x < p.end
  }

  lemma SupportsIs(q: Request, e: Evidence)
    ensures forall x :: Supports(q, e, x) <==> Contributes(q, e) && x in Shared(q, e)
    ensures Contributes(q, e) <==> exists x :: Supports(q, e, x)
  {
    forall x ensures Supports(q, e, x) <==> Contributes(q, e) && x in Shared(q, e) {
      assert x in Shared(q, e) <==> e.start <= x < e.end && InPieces(q.pieces, x);
    }
    if Contributes(q, e) {
      var x :| x in Shared(q, e);
      assert Supports(q, e, x);
    }
  }

  /** What evidence adds: its points in proportion to the time it supports, and that time with its overlap support. */
  lemma AddMeaning(q: Request, t: Tally, e: Evidence, time: set<int>)
    requires e.Valid() && forall x :: x in time <==> Supports(q, e, x)
    ensures var r := Add(q, t, e);
            && (r.points - t.points) * (e.end - e.start) as real == e.points * |time| as real
            && r.overlapTime - t.overlapTime == (if e.overlap.Some? then |time| else 0)
            && r.product - t.product == (if e.overlap.Some? then e.overlap.value * |time| as real else 0.0)
  {
    hide Supports, Contributes, Shared;
    SupportsIs(q, e);
    var whole := (e.end - e.start) as real;
    if Contributes(q, e) {
      assert forall x :: x in time <==> x in Shared(q, e);
      assert time == Shared(q, e);
      MulDiv(e.points * |time| as real, whole);
    } else {
      assert forall x :: x !in time;
      assert time == {};
    }
  }

  /** The supported nanoseconds, by their meaning; timestamp-supported ones are valid; all lie in the pieces. */
  lemma {:induction false} TallyMeaning(q: Request, evidence: seq<Evidence>)
    requires AllValid(evidence)
    ensures var t := TallyOf(q, evidence);
            && (forall x :: x in t.valid <==> exists e :: e in evidence && Supports(q, e, x))
            && (forall x :: x in t.stamped <==> exists e :: e in evidence && e.stamped && Supports(q, e, x))
            && (forall id :: id in t.ids <==> exists e :: e in evidence && e.id == id && exists x :: Supports(q, e, x))
            && t.stamped <= t.valid <= Covered(PieceIntervals(q.pieces))
  {
    hide Contributes, Share, Shared, Covered, Supports;
    if evidence != [] {
      var front, last := evidence[..|evidence| - 1], evidence[|evidence| - 1];
      TallyMeaning(q, front);
      assert forall e :: e in evidence <==> e in front || e == last;
      SharedInside(q, last);
      SupportsIs(q, last);
    }
  }

  lemma SharedInside(q: Request, e: Evidence)
    ensures Shared(q, e) <= Covered(PieceIntervals(q.pieces))
  {
    hide SharedTime, Covered;
    SharedInPieces(q.pieces, e.start, e.end);
  }

  // ----- the loop -----

  datatype Sums = Sums(valid: seq<TimeInterval>, stamped: seq<TimeInterval>, points: real, overlapTime: int,
                       product: real, ids: set<string>)

  ghost predicate Tallied(sums: Sums, t: Tally) {
    && NonEmptyIntervals(sums.valid) && Covered(sums.valid) == t.valid
    && NonEmptyIntervals(sums.stamped) && Covered(sums.stamped) == t.stamped
    && sums.points == t.points && sums.overlapTime == t.overlapTime && sums.product == t.product && sums.ids == t.ids
  }

  /** Add one interval of evidence to the sums. */
  method AddEvidence(q: Request, sums: Sums, e: Evidence, ghost t: Tally) returns (r: Result<Sums, Error>)
    requires e.Valid() && Tallied(sums, t) && 0 <= sums.overlapTime <= INT64_MAX
    ensures r.Ok? ==> Tallied(r.value, Add(q, t, e))
    ensures r.Err? <==> Endless(q, e) || Add(q, t, e).overlapTime > INT64_MAX
  {
    hide Covered, SharedTime, Share;
    if !e.usable || e.sequence != q.sequence || e.modality != q.modality {
      return Ok(sums);
    }
    var overlaps := Overlaps(q.pieces, e.start, e.end);
    SharedAtMostSpan(q.pieces, e.start, e.end);
    var duration := MergedDuration(overlaps);
    if duration.Err? {
      return Err(TimeOverflow);
    }
    if duration.value <= 0 {
      return Ok(sums);
    }
    var span := CheckedDifference(e.end, e.start);
    if span.Err? {
      return Err(TimeOverflow);
    }
    CoveredConcat(sums.valid, overlaps);
    CoveredConcat(sums.stamped, overlaps);
    var next := sums.(valid := sums.valid + overlaps,
                      stamped := if e.stamped then sums.stamped + overlaps else sums.stamped,
                      points := sums.points + Share(e.points, duration.value as real, span.value as real),
                      ids := sums.ids + {e.id});
    if e.overlap.Some? {
      var time := CheckedAdd(sums.overlapTime, duration.value);
      if time.Err? {
        return Err(TimeOverflow);
      }
      next := next.(overlapTime := time.value, product := sums.product + e.overlap.value * duration.value as real);
    }
    return Ok(next);
  }

  method ModalityCoverage(q: Request, evidence: seq<Evidence>, places: nat) returns (r: Result<Coverage, Error>)
    requires q.Valid() && AllValid(evidence)
    ensures r.Err? <==> Overflows(q, evidence)
    ensures r.Ok? ==> r.value == ReportOf(TallyOf(q, evidence), places)
  {
    hide Add, Endless, Covered, Contributes, NonEmptyIntervals;
    var sums := Sums([], [], 0.0, 0, 0.0, {});
    StartTallied(q, evidence);
    for i := 0 to |evidence|
      invariant AllValid(evidence[..i]) && Tallied(sums, TallyOf(q, evidence[..i]))
      invariant 0 <= sums.overlapTime <= INT64_MAX && forall j :: 0 <= j < i ==> !Endless(q, evidence[j])
    {
      TallyStep(q, evidence, i);
      TallyGrows(q, evidence, i + 1);
      var next := AddEvidence(q, sums, evidence[i], TallyOf(q, evidence[..i]));
      if next.Err? {
        assert evidence[i] in evidence;
        return Err(TimeOverflow);
      }
      sums := next.value;
    }
    assert evidence[..|evidence|] == evidence;
    ghost var t := TallyOf(q, evidence);
    TallyMeaning(q, evidence);
    SubsetSize(t.stamped, t.valid);
    var valid := MergedDuration(sums.valid);
    if valid.Err? {
      return Err(TimeOverflow);
    }
    var stamped := MergedDuration(sums.stamped);
    assert stamped.Ok?;
    var overlap := if sums.overlapTime > 0
                   then Some(RoundPlaces(sums.product / sums.overlapTime as real, places)) else None;
    return Ok(Coverage(valid.value, stamped.value, RoundPlaces(sums.points, places), overlap, sums.ids));
  }

  lemma StartTallied(q: Request, evidence: seq<Evidence>)
    ensures AllValid(evidence[..0]) && Tallied(Sums([], [], 0.0, 0, 0.0, {}), TallyOf(q, evidence[..0]))
  {
  }

  // ----- what the numbers mean -----

  /** The report counts the supported nanoseconds, and gives the points and the mean overlap support to the last decimal
      place. */
  lemma ReportMeaning(t: Tally, places: nat)
    ensures var c := ReportOf(t, places);
            && c.valid == |t.valid| && c.stamped == |t.stamped| && c.ids == t.ids
            && Abs(c.points - t.points) * Unit(places) <= 0.5
            && (c.overlap.Some? <==> t.overlapTime > 0)
            && (c.overlap.Some? ==> Abs(c.overlap.value - t.product / t.overlapTime as real) * Unit(places) <= 0.5)
  {
    hide RoundPlaces;
    RoundPlacesNear(t.points, places);
    if t.overlapTime > 0 {
      RoundPlacesNear(t.product / t.overlapTime as real, places);
    }
  }

  /** Timestamp-supported <= valid <= usable time; the mean overlap support lies between its extremes; and no evidence
      contributes more points than it has. */
  lemma CoverageMeaning(q: Request, evidence: seq<Evidence>, places: nat, low: real, high: real)
    requires q.Valid() && AllValid(evidence)
    requires forall e :: e in evidence && Contributes(q, e) && e.overlap.Some? ==> low <= e.overlap.value <= high
    ensures var c := ReportOf(TallyOf(q, evidence), places);
            && 0 <= c.stamped <= c.valid <= TotalDuration(q.pieces)
            && (c.overlap.Some? ==> RoundPlaces(low, places) <= c.overlap.value <= RoundPlaces(high, places))
            && RoundPlaces(0.0, places) <= c.points <= RoundPlaces(AllPoints(evidence), places)
  {
    hide RoundPlaces, Covered, TallyOf, Contributes, TotalDuration, AllPoints;
    var t := TallyOf(q, evidence);
    TallyMeaning(q, evidence);
    SubsetSize(t.stamped, t.valid);
    SubsetSize(t.valid, Covered(PieceIntervals(q.pieces)));
    UnionAtMostSum(q.pieces);
    TallyBounds(q, evidence, low, high);
    RoundPlacesMonotone(0.0, t.points, places);
    RoundPlacesMonotone(t.points, AllPoints(evidence), places);
    if t.overlapTime > 0 {
      MeanBetween(t.product, t.overlapTime as real, low, high);
      RoundPlacesMonotone(low, t.product / t.overlapTime as real, places);
      RoundPlacesMonotone(t.product / t.overlapTime as real, high, places);
    }
  }

  function AllPoints(evidence: seq<Evidence>): real {
    if evidence == [] then 0.0 else AllPoints(evidence[..|evidence| - 1]) + evidence[|evidence| - 1].points
  }

  lemma MeanBetween(product: real, time: real, low: real, high: real)
    requires time > 0.0 && low * time <= product <= high * time
    ensures low <= product / time <= high
  {
    MulDiv(product, time);
    MulMonotone(low, product / time, time);
    MulMonotone(product / time, high, time);
  }

  lemma ShareBounds(points: real, part: real, whole: real)
    requires points >= 0.0 && 0.0 <= part <= whole && whole > 0.0
    ensures 0.0 <= Share(points, part, whole) <= points
  {
    ProductNonNegative(points, part);
    ProductNonNegative(points, whole - part);
    assert points * whole == points * part + points * (whole - part);
    MeanBetween(points * part, whole, 0.0, points);
  }

  /** The product is a sum of values between `low` and `high`, weighted by time. */
  ghost predicate Weighted(t: Tally, low: real, high: real) {
    low * t.overlapTime as real <= t.product <= high * t.overlapTime as real
  }

  lemma {:induction false} TallyBounds(q: Request, evidence: seq<Evidence>, low: real, high: real)
    requires AllValid(evidence)
    requires forall e :: e in evidence && Contributes(q, e) && e.overlap.Some? ==> low <= e.overlap.value <= high
    ensures Weighted(TallyOf(q, evidence), low, high) && 0.0 <= TallyOf(q, evidence).points <= AllPoints(evidence)
  {
    hide Shared, Contributes, Share, Weighted;
    if evidence == [] {
      NothingWeighted(low, high);
    } else {
      var front, last := evidence[..|evidence| - 1], evidence[|evidence| - 1];
      assert last in evidence && forall e :: e in front ==> e in evidence;
      TallyBounds(q, front, low, high);
      SharedLength(q, last);
      ShareBounds(last.points, |Shared(q, last)| as real, (last.end - last.start) as real);
      AddWeighted(q, TallyOf(q, front), last, low, high);
    }
  }

  lemma NothingWeighted(low: real, high: real)
    ensures Weighted(Tally({}, {}, 0.0, 0, 0.0, {}), low, high)
  {
  }

  lemma AddWeighted(q: Request, t: Tally, e: Evidence, low: real, high: real)
    requires e.Valid() && Weighted(t, low, high)
    requires Contributes(q, e) && e.overlap.Some? ==> low <= e.overlap.value <= high
    ensures Weighted(Add(q, t, e), low, high)
  {
    hide Shared, Contributes, Share;
    if Contributes(q, e) && e.overlap.Some? {
      WeightBetween(t.product, t.overlapTime, e.overlap.value, |Shared(q, e)|, low, high);
    }
  }

  lemma SharedLength(q: Request, e: Evidence)
    requires e.Valid()
    ensures |Shared(q, e)| <= e.end - e.start
  {
    hide SharedTime;
    SharedAtMostSpan(q.pieces, e.start, e.end);
  }

  lemma WeightBetween(product: real, time: int, value: real, weight: nat, low: real, high: real)
    requires low * time as real <= product <= high * time as real && low <= value <= high
    ensures low * (time + weight) as real <= product + value * weight as real <= high * (time + weight) as real
  {
    var t, w := time as real, weight as real;
    ProductNonNegative(value - low, w);
    ProductNonNegative(high - value, w);
    assert (value - low) * w == value * w - low * w && (high - value) * w == high * w - value * w;
    assert (time + weight) as real == t + w;
    assert low * (t + w) == low * t + low * w && high * (t + w) == high * t + high * w;
  }
}
