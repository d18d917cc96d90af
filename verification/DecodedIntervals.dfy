/** Stationary runs, ambiguity and constant intervals of a decoded path (the end of `decode_candidate_batches`). */
module DecodedIntervals {
  import opened Wrappers
  import opened Numbers
  import opened Rounding
  import opened Transition
  import opened TrellisPaths
  import opened BeamSearch
  import opened Decoder
  import opened Decoding

  predicate Slow(obs: seq<Observation>, threshold: real, i: nat) {
    i < |obs| && obs[i].speed <= threshold
  }

  /** A longest stretch of slow observations. */
  ghost predicate MaximalRun(obs: seq<Observation>, threshold: real, a: nat, b: nat) {
    a < b <= |obs| && (forall k :: a <= k < b ==> Slow(obs, threshold, k)) &&
    (a == 0 || !Slow(obs, threshold, a - 1)) && !Slow(obs, threshold, b)
  }

  ghost predicate StaysNear(obs: seq<Observation>, metric: (Point, Point) -> real, tolerance: real, a: nat, b: nat) {
    a <= b <= |obs| && forall k :: a <= k < b ==> metric(obs[a].position, obs[k].position) <= tolerance
  }

  ghost predicate StationaryRun(obs: seq<Observation>, metric: (Point, Point) -> real, threshold: real,
                                tolerance: real, minimum: nat, a: nat, b: nat) {
    MaximalRun(obs, threshold, a, b) && b - a >= minimum && StaysNear(obs, metric, tolerance, a, b)
  }

  lemma RunsCoincide(obs: seq<Observation>, threshold: real, a: nat, b: nat, c: nat, d: nat, i: nat)
    requires MaximalRun(obs, threshold, a, b) && MaximalRun(obs, threshold, c, d)
    requires a <= i < b && c <= i < d
    ensures a == c && b == d
  {
    assert !(c <= a - 1 < d) && !(a <= c - 1 < b) && !(c <= b < d) && !(a <= d < b);
  }

  ghost predicate FlagOk(obs: seq<Observation>, metric: (Point, Point) -> real, threshold: real,
                         tolerance: real, minimum: nat, flag: bool, i: nat) {
    flag <==> exists a: nat, b: nat ::
                StationaryRun(obs, metric, threshold, tolerance, minimum, a, b) && a <= i < b
  }

  /** A point is stationary exactly when it lies in a long enough maximal slow run that stays near its start. */
  method StationaryFlags(obs: seq<Observation>, metric: (Point, Point) -> real, threshold: real,
                         tolerance: real, minimum: nat)
    returns (result: seq<bool>)
    ensures |result| == |obs|
    ensures forall i :: 0 <= i < |obs| ==> FlagOk(obs, metric, threshold, tolerance, minimum, result[i], i)
  {
    var flags := new bool[|obs|](_ => false);
    var cursor := 0;
    while cursor < |obs|
      invariant cursor <= |obs|
      invariant cursor == 0 || !Slow(obs, threshold, cursor - 1) || !Slow(obs, threshold, cursor)
      invariant forall i :: 0 <= i < cursor ==> FlagOk(obs, metric, threshold, tolerance, minimum, flags[i], i)
      invariant forall i :: cursor <= i < |obs| ==> !flags[i]
    {
      if obs[cursor].speed > threshold {
        cursor := cursor + 1;
        continue;
      }
      var end := cursor + 1;
      while end < |obs| && obs[end].speed <= threshold
        invariant cursor < end <= |obs|
        invariant forall k :: cursor <= k < end ==> Slow(obs, threshold, k)
      {
        end := end + 1;
      }
      var within := true;
      for index := cursor to end
        invariant within <==> forall k :: cursor <= k < index ==>
                    metric(obs[cursor].position, obs[k].position) <= tolerance
      {
        within := within && metric(obs[cursor].position, obs[index].position) <= tolerance;
      }
      ghost var before := flags[..];
      var stationary := end - cursor >= minimum && within;
      if stationary {
        forall i | cursor <= i < end {
          flags[i] := true;
        }
      }
      assert MaximalRun(obs, threshold, cursor, end);
      forall i | cursor <= i < end
        ensures FlagOk(obs, metric, threshold, tolerance, minimum, flags[i], i)
      {
        RunDecides(obs, metric, threshold, tolerance, minimum, cursor, end, i);
      }
      forall i | 0 <= i < cursor ensures flags[i] == before[i] {
      }
      cursor := end;
    }
    result := flags[..];
  }

  lemma RunDecides(obs: seq<Observation>, metric: (Point, Point) -> real, threshold: real, tolerance: real,
                   minimum: nat, a: nat, b: nat, i: nat)
    requires MaximalRun(obs, threshold, a, b) && a <= i < b
    ensures FlagOk(obs, metric, threshold, tolerance, minimum,
                   b - a >= minimum && StaysNear(obs, metric, tolerance, a, b), i)
  {
    forall c: nat, d: nat | StationaryRun(obs, metric, threshold, tolerance, minimum, c, d) && c <= i < d
      ensures a == c && b == d
    {
      RunsCoincide(obs, threshold, a, b, c, d, i);
    }
    if b - a >= minimum && StaysNear(obs, metric, tolerance, a, b) {
      assert StationaryRun(obs, metric, threshold, tolerance, minimum, a, b);
    }
  }

  // ----- intervals of constant matching state -----

  /** What must stay constant inside one decoded interval. */
  datatype PointState = PointState(arc: Option<nat>, stationary: bool, ambiguous: bool)

  /** `separation` is the score separation of the two best paths, where they differ inside the interval. */
  datatype Interval = Interval(start: nat, end: nat, usableDistance: real, separation: Option<real>)

  ghost predicate ConstantOn(states: seq<PointState>, v: Interval) {
    v.start < v.end <= |states| && forall i :: v.start <= i < v.end ==> states[i] == states[v.start]
  }

  /** The intervals tile the path and break exactly where the state changes. */
  ghost predicate Segments(states: seq<PointState>, intervals: seq<Interval>, bound: nat) {
    && (bound == 0 <==> intervals == [])
    && (intervals != [] ==> intervals[0].start == 0 && intervals[|intervals| - 1].end == bound)
    && (forall k :: 0 <= k < |intervals| ==> ConstantOn(states, intervals[k]))
    && (forall k, m :: 0 <= k && k + 1 == m < |intervals| ==> Breaks(states, intervals, k, m))
  }

  ghost predicate Breaks(states: seq<PointState>, intervals: seq<Interval>, k: nat, m: nat)
    requires k < |intervals| && m < |intervals|
  {
    intervals[k].end == intervals[m].start < |states| && 0 < intervals[m].start &&
    states[intervals[m].start] != states[intervals[m].start - 1]
  }

  /** Unsigned travel between consecutive offsets of `start..end`. */
  function Travel(offsets: seq<real>, start: nat, end: nat): real
    requires start <= end <= |offsets|
    decreases end
  {
    if end <= start + 1 then 0.0
    else Travel(offsets, start, end - 1) + Abs(offsets[end - 1] - offsets[end - 2])
  }

  /** Travel adds up over adjoining stretches, is no shorter than the way from end to end, and as long where the offsets
      never turn back. */
  lemma {:induction false} TravelMeaning(offsets: seq<real>, start: nat, middle: nat, end: nat)
    requires start <= middle < end <= |offsets|
    ensures Travel(offsets, start, end) == Travel(offsets, start, middle + 1) + Travel(offsets, middle, end)
    ensures Travel(offsets, start, end) >= offsets[end - 1] - offsets[start]
    ensures Travel(offsets, start, end) >= offsets[start] - offsets[end - 1]
    ensures (forall i, j :: start <= i < j < end ==> offsets[i] <= offsets[j]) ==>
              Travel(offsets, start, end) == offsets[end - 1] - offsets[start]
    ensures (forall i, j :: start <= i < j < end ==> offsets[i] >= offsets[j]) ==>
              Travel(offsets, start, end) == offsets[start] - offsets[end - 1]
    decreases end
  {
    if end > start + 1 {
      TravelMeaning(offsets, start, MinNat(middle, end - 2), end - 1);
    }
  }

  ghost predicate UsableOk(states: seq<PointState>, offsets: seq<real>, v: Interval)
    requires |offsets| == |states|
  {
    v.start < v.end <= |states| &&
    v.usableDistance ==
      if states[v.start].arc.Some? && !states[v.start].stationary && !states[v.start].ambiguous
      then Round(Travel(offsets, v.start, v.end), 6) else Round(0.0, 6)
  }

  ghost predicate SeparationOk(differs: seq<bool>, separation: Option<real>, v: Interval) {
    v.end <= |differs| && v.separation == if exists i :: v.start <= i < v.end && differs[i] then separation else None
  }

  /** Whether some point of `start..end` differs. */
  method SomeDiffers(differs: seq<bool>, start: nat, end: nat) returns (r: bool)
    requires start <= end <= |differs|
    ensures r <==> exists i :: start <= i < end && differs[i]
  {
    r := false;
    for index := start to end
      invariant r <==> exists i :: start <= i < index && differs[i]
    {
      r := r || differs[index];
    }
  }

  method UsableTravel(state: PointState, offsets: seq<real>, start: nat, end: nat) returns (usable: real)
    requires start < end <= |offsets|
    ensures usable == if state.arc.Some? && !state.stationary && !state.ambiguous
                      then Travel(offsets, start, end) else 0.0
  {
    usable := 0.0;
    if state.arc.Some? && !state.stationary && !state.ambiguous {
      for index := start + 1 to end
        invariant usable == Travel(offsets, start, index)
      {
        usable := usable + Abs(offsets[index] - offsets[index - 1]);
      }
    }
  }

  method BuildIntervals(states: seq<PointState>, offsets: seq<real>, differs: seq<bool>, separation: Option<real>)
    returns (intervals: seq<Interval>)
    requires |offsets| == |differs| == |states|
    ensures Segments(states, intervals, |states|)
    ensures forall k :: 0 <= k < |intervals| ==>
              UsableOk(states, offsets, intervals[k]) && SeparationOk(differs, separation, intervals[k])
  {
    hide Round, Travel;
    intervals := [];
    var cursor := 0;
    while cursor < |states|
      invariant cursor <= |states|
      invariant Segments(states, intervals, cursor)
      invariant 0 < cursor < |states| ==> states[cursor] != states[cursor - 1]
      invariant forall k :: 0 <= k < |intervals| ==>
                  UsableOk(states, offsets, intervals[k]) && SeparationOk(differs, separation, intervals[k])
    {
      var first := states[cursor];
      var end := cursor + 1;
      while end < |states| && states[end] == first
        invariant cursor < end <= |states|
        invariant forall i :: cursor <= i < end ==> states[i] == first
      {
        end := end + 1;
      }
      var usable := UsableTravel(first, offsets, cursor, end);
      var differing := SomeDiffers(differs, cursor, end);
      var next := Interval(cursor, end, Round(usable, 6), if differing then separation else None);
      SegmentsSnoc(states, intervals, cursor, next);
      intervals := intervals + [next];
      cursor := end;
    }
  }

  lemma SegmentsSnoc(states: seq<PointState>, intervals: seq<Interval>, bound: nat, next: Interval)
    requires Segments(states, intervals, bound) && next.start == bound && ConstantOn(states, next)
    requires bound > 0 ==> states[bound] != states[bound - 1]
    ensures Segments(states, intervals + [next], next.end)
  {
    var all := intervals + [next];
    forall k, m | 0 <= k && k + 1 == m < |all| ensures Breaks(states, all, k, m) {
      if m < |intervals| {
        assert Breaks(states, intervals, k, m);
      }
    }
  }

  // ----- the annotated path -----

  datatype Annotation = Annotation(ambiguous: bool, states: seq<PointState>, intervals: seq<Interval>)

  /** One candidate of every batch. */
  predicate Selects(p: Problem, path: seq<nat>) {
    |path| == |p.batches| && forall i :: 0 <= i < |path| ==> path[i] < |p.batches[i]|
  }

  predicate Selected(p: Problem, d: DecodedPath) {
    Selects(p, d.best) && (d.runnerUp.Some? ==> Selects(p, d.runnerUp.value.path))
  }

  /** Best path and runner-up choose different candidates at point `i`. */
  predicate Differ(d: DecodedPath, i: nat)
    requires i < |d.best| && (d.runnerUp.Some? ==> |d.runnerUp.value.path| == |d.best|)
  {
    d.runnerUp.Some? && d.runnerUp.value.path[i] != d.best[i]
  }

  ghost predicate StateOk(p: Problem, d: DecodedPath, ambiguous: bool, state: PointState, i: nat)
    requires Selected(p, d) && i < |p.batches|
  {
    && state.arc == p.batches[i][d.best[i]].arc
    && FlagOk(p.scene.observations, p.scene.metric, p.decoder.stationarySpeed, p.decoder.stationaryTolerance,
              p.decoder.stationaryMinimum, state.stationary, i)
    && (state.ambiguous <==> ambiguous && Differ(d, i))
  }

  ghost function Separation(d: DecodedPath): Option<real> {
    if d.runnerUp.Some? then Some(d.runnerUp.value.separation) else None
  }

  function OffsetOf(c: Candidate): real { if c.offset.Some? then c.offset.value else 0.0 }

  /** What holds of every interval: constant state, its usable travel, and the separation exactly where paths differ. */
  ghost predicate IntervalOk(p: Problem, d: DecodedPath, a: Annotation, v: Interval)
    requires Selected(p, d) && |a.states| == |p.batches|
  {
    && UsableOk(a.states, Offsets(p, d), v)
    && (v.separation.Some? <==> exists i :: v.start <= i < v.end && Differ(d, i))
    && (v.separation.Some? ==> v.separation == Separation(d))
  }

  function Offsets(p: Problem, d: DecodedPath): (offsets: seq<real>)
    requires Selected(p, d)
    ensures |offsets| == |p.batches|
  {
    seq(|p.batches|, i requires 0 <= i < |p.batches| => OffsetOf(p.batches[i][d.best[i]]))
  }

  /** Candidate ids are compared; within a batch they differ exactly for different candidates. */
  method Differences(p: Problem, d: DecodedPath) returns (differs: seq<bool>)
    requires p.Valid() && Selected(p, d)
    ensures |differs| == |p.batches| && forall i :: 0 <= i < |differs| ==> (differs[i] <==> Differ(d, i))
  {
    differs := [];
    for i := 0 to |p.batches|
      invariant |differs| == i && forall k :: 0 <= k < i ==> (differs[k] <==> Differ(d, k))
    {
      assert ValidBatch(p.scene.graph, p.batches[i], i);
      var here := d.runnerUp.Some? && p.batches[i][d.best[i]].id != p.batches[i][d.runnerUp.value.path[i]].id;
      differs := differs + [here];
    }
  }

  /** The ambiguity, states and intervals of a decoded path. */
  method Annotate(p: Problem, d: DecodedPath) returns (a: Annotation)
    requires p.Valid() && Selected(p, d)
    ensures a.ambiguous <==> d.runnerUp.Some? && d.runnerUp.value.separation <= p.decoder.ambiguity
    ensures |a.states| == |p.batches| && forall i :: 0 <= i < |a.states| ==> StateOk(p, d, a.ambiguous, a.states[i], i)
    ensures Segments(a.states, a.intervals, |a.states|)
    ensures forall k :: 0 <= k < |a.intervals| ==> IntervalOk(p, d, a, a.intervals[k])
  {
    hide Segments, UsableOk, FlagOk, Differ;
    var ambiguous := d.runnerUp.Some? && d.runnerUp.value.separation <= p.decoder.ambiguity;
    var differs := Differences(p, d);
    var stationary := StationaryFlags(p.scene.observations, p.scene.metric, p.decoder.stationarySpeed,
                                      p.decoder.stationaryTolerance, p.decoder.stationaryMinimum);
    var states := seq(|p.batches|, i requires 0 <= i < |p.batches| =>
      PointState(p.batches[i][d.best[i]].arc, stationary[i], ambiguous && differs[i]));
    var separation := if d.runnerUp.Some? then Some(d.runnerUp.value.separation) else None;
    var intervals := BuildIntervals(states, Offsets(p, d), differs, separation);
    a := Annotation(ambiguous, states, intervals);
    forall k | 0 <= k < |intervals| ensures IntervalOk(p, d, a, intervals[k]) {
      DiffersSeparates(p, d, differs, separation, intervals[k]);
    }
  }

  lemma DiffersSeparates(p: Problem, d: DecodedPath, differs: seq<bool>, separation: Option<real>, v: Interval)
    requires Selected(p, d) && |differs| == |p.batches| && separation == Separation(d)
    requires forall i :: 0 <= i < |differs| ==> (differs[i] <==> Differ(d, i))
    requires SeparationOk(differs, separation, v)
    ensures v.separation.Some? <==> exists i :: v.start <= i < v.end && Differ(d, i)
    ensures v.separation.Some? ==> v.separation == Separation(d)
  {
    if i :| v.start <= i < v.end && Differ(d, i) {
      assert differs[i];
    }
    if i :| v.start <= i < v.end && differs[i] {
      assert Differ(d, i);
    }
  }

  /** What the decoder returns can be annotated. */
  lemma DecodedSelects(p: Problem, d: DecodedPath)
    requires p.Valid() && DecodeSpec(p, Ok(d))
    ensures Selected(p, d)
  {
    hide TrellisOf, UniqueIds, FirstLevel, StepOk, Counts, Score, ValidBatch, InOrder, StepPossible;
    TrellisFacts(p);
    var t := TrellisOf(p);
    var run :| Reports(t, p.decoder.limits, run, d);
    KeptSequences(t, p.decoder.limits, run);
    var kept := Last(run).kept;
    assert kept[0] in kept && (|kept| > 1 ==> kept[1] in kept);
  }

  /** An interval of ambiguous points carries a separation, and it is within the ambiguity limit. */
  lemma AmbiguousSeparated(p: Problem, d: DecodedPath, a: Annotation, v: Interval)
    requires Selected(p, d) && |a.states| == |p.batches| && v.start < v.end <= |a.states|
    requires a.ambiguous <==> d.runnerUp.Some? && d.runnerUp.value.separation <= p.decoder.ambiguity
    requires StateOk(p, d, a.ambiguous, a.states[v.start], v.start) && IntervalOk(p, d, a, v)
    requires a.states[v.start].ambiguous
    ensures v.separation.Some? && v.separation.value <= p.decoder.ambiguity && v.usableDistance == Round(0.0, 6)
  {
    hide Round, Travel, FlagOk;
    assert Differ(d, v.start);
  }
}
