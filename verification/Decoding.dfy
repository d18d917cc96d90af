/** The whole beam decoder (`decode_candidate_batches`), refined to the search it performs. */
module Decoding {
  import opened Wrappers
  import opened Rounding
  import opened Sorting
  import opened Transition
  import opened TrellisPaths
  import opened BeamSearch
  import opened Beam
  import opened BeamPruning
  import opened BeamStep
  import opened BeamAdvance
  import opened Decoder

  datatype RunnerUp = RunnerUp(path: seq<nat>, score: real, separation: real)

  datatype Diagnostics = Diagnostics(generated: seq<nat>, retained: seq<nat>, rejected: seq<nat>, pruned: seq<nat>)

  datatype DecodedPath = DecodedPath(best: seq<nat>, score: real, runnerUp: Option<RunnerUp>, diagnostics: Diagnostics)

  // ----- what a search reports -----

  /** The second sequence of the last level, if there is one. */
  ghost function RunnerUpOf(t: Trellis, kept: seq<seq<nat>>): Option<RunnerUp>
    requires forall s :: s in kept ==> GraphValid(t, s)
  {
    if |kept| > 1 then
      Some(RunnerUp(kept[1], Score(t, kept[1]), Round(Score(t, kept[0]) - Score(t, kept[1]), t.places)))
    else None
  }

  ghost predicate CountsAt(t: Trellis, run: seq<Level>, d: Diagnostics, k: nat)
    requires k < |run| <= |t.widths| && |d.retained| == |d.rejected| == |d.pruned| == |run|
  {
    && d.retained[k] == |run[k].kept| && d.pruned[k] == |run[k].sorted| - |run[k].kept|
    && d.rejected[k] == (if k == 0 then t.widths[0] else |run[k - 1].kept| * t.widths[k]) - |run[k].sorted|
  }

  /** The diagnostics count, level by level, what was retained, pruned and rejected. */
  ghost predicate Counts(t: Trellis, run: seq<Level>, d: Diagnostics) {
    && |run| <= |t.widths| && d.generated == t.widths && |d.retained| == |d.rejected| == |d.pruned| == |run|
    && forall k :: 0 <= k < |run| ==> CountsAt(t, run, d, k)
  }

  /** `d` reports a search through all observations. */
  ghost predicate Reports(t: Trellis, l: Limits, run: seq<Level>, d: DecodedPath) {
    && IsRun(t, l, run) && |run| == |t.widths|
    && var kept := Last(run).kept;
    && kept != [] && (forall s :: s in kept ==> GraphValid(t, s))
    && d.best == kept[0] && d.score == Score(t, kept[0]) && d.runnerUp == RunnerUpOf(t, kept)
    && Counts(t, run, d.diagnostics)
  }

  ghost predicate StepOverflows(p: Problem, i: nat)
    requires p.Valid() && 0 < i < |p.batches|
  {
    ElapsedOverflows(p.scene.observations[i - 1].time, p.scene.observations[i].time)
  }

  /** A search that could not go past the last observation of its run. */
  ghost predicate Stops(p: Problem, run: seq<Level>)
    requires p.Valid()
  {
    IsRun(TrellisOf(p), p.decoder.limits, run) && |run| < |p.batches|
  }

  /** Nothing the run kept can be continued. */
  ghost predicate Stuck(t: Trellis, run: seq<Level>)
    requires run != []
  {
    forall s :: GraphValid(t, s) && |s| == |run| + 1 ==> Front(s) !in Last(run).kept
  }

  /** Result of a decoder call, error cases included. */
  ghost predicate DecodeSpec(p: Problem, r: Result<DecodedPath, DecodeError>)
    requires p.Valid()
  {
    var t, l := TrellisOf(p), p.decoder.limits;
    match r
    case Ok(d) => exists run :: Reports(t, l, run, d)
    case Err(InvalidInput) => false
    case Err(ElapsedOverflow) => exists run :: Stops(p, run) && StepOverflows(p, |run|)
    case Err(NoValidPath) => exists run :: Stops(p, run) && !StepOverflows(p, |run|) && Stuck(t, run)
  }

  // ----- the first beam -----

  ghost function Initial(t: Trellis, n: nat): seq<Hypothesis> {
    seq(n, c requires 0 <= c < n => Hypothesis(0, c, Round(t.emission(0, c), t.places), 0, None))
  }

  lemma InitialFacts(t: Trellis, beam: seq<Hypothesis>)
    requires |t.widths| > 0 && beam == Initial(t, t.widths[0])
    ensures AllRepresent(t, 1, beam) && DistinctPaths(beam)
    ensures forall h :: h in beam ==> h.previous.None?
    ensures forall s :: s in Paths(beam) <==> GraphValid(t, s) && |s| == 1
  {
    forall i | 0 <= i < |beam| ensures Represents(t, 1, beam[i]) && Path(beam[i]) == [i] {
    }
    forall s | GraphValid(t, s) && |s| == 1 ensures s in Paths(beam) {
      assert Paths(beam)[s[0]] == s;
    }
  }

  method FirstHypotheses(p: Problem, ghost t: Trellis) returns (sorted: seq<Hypothesis>)
    requires p.Valid() && t == TrellisOf(p)
    ensures AllRepresent(t, 1, sorted) && DistinctPaths(sorted) && RankOrdered(t, sorted) && Sorted(Better, sorted)
    ensures |sorted| == |p.batches[0]| > 0 && forall s :: s in Paths(sorted) <==> GraphValid(t, s) && |s| == 1
  {
    hide Represents, AllRepresent, RankOrdered, UniqueIds, ValidCandidate, Path, GraphValid, StepOf, Better, Sorted;
    TrellisFacts(p);
    BatchIdsOf(p, 1);
    var batch := p.batches[0];
    assert ValidBatch(p.scene.graph, batch, 0);
    var initial := seq(|batch|, c requires 0 <= c < |batch| =>
                                  Hypothesis(0, c, Round(batch[c].emission, p.decoder.places), 0, None));
    assert initial == Initial(t, t.widths[0]);
    InitialFacts(t, initial);
    var ranked := Rank(t, 1, [], BatchIds(batch), initial);
    BetterStrictWeak();
    sorted := Sort(Better, ranked);
    PermutationNoDuplicates(sorted, ranked);
    SameMembersSamePaths(sorted, ranked);
    PartFacts(t, 1, ranked, sorted);
  }

  /** Ranked sequences of one observation, cut at the beam width, are a search so far. */
  lemma FirstPaths(t: Trellis, l: Limits, paths: seq<seq<nat>>, width: nat)
    requires l.Valid() && paths != [] && Ranked(t, paths) && forall s :: s in paths <==> GraphValid(t, s) && |s| == 1
    requires width == if |paths| > l.beamWidth then l.beamWidth else |paths|
    ensures IsRun(t, l, [Level(paths, paths, paths[..width])])
  {
    hide GraphValid, Ranked, NextLevel;
    assert paths[..|paths|] == paths;
  }

  lemma FirstBeamOk(t: Trellis, sorted: seq<Hypothesis>, width: nat)
    requires 0 < width <= |sorted| && AllRepresent(t, 1, sorted) && DistinctPaths(sorted) && RankOrdered(t, sorted)
    ensures BeamOk(t, 1, sorted[..width]) && Paths(sorted[..width]) == Paths(sorted)[..width]
  {
    hide AllRepresent, RankOrdered, Path, ChildrenOf;
    assert NoDuplicates(sorted[..width]);
    PartFacts(t, 1, sorted, sorted[..width]);
  }

  /** The first beam is the first level of the search. */
  lemma FirstBeam(t: Trellis, l: Limits, sorted: seq<Hypothesis>, beam: seq<Hypothesis>)
    requires l.Valid() && UniqueIds(t) && sorted != [] && Sorted(Better, sorted)
    requires AllRepresent(t, 1, sorted) && DistinctPaths(sorted) && RankOrdered(t, sorted)
    requires forall s :: s in Paths(sorted) <==> GraphValid(t, s) && |s| == 1
    requires beam == if |sorted| > l.beamWidth then sorted[..l.beamWidth] else sorted
    ensures BeamOk(t, 1, beam) && IsRun(t, l, [Level(Paths(sorted), Paths(sorted), Paths(beam))])
  {
    hide AllRepresent, RankOrdered, DistinctPaths, UniqueIds, Path, GraphValid, Ranked, Sorted, IsRun, BeamOk;
    var width := if |sorted| > l.beamWidth then l.beamWidth else |sorted|;
    assert sorted[..|sorted|] == sorted;
    FirstBeamOk(t, sorted, width);
    SortedIsRanked(t, 1, sorted);
    FirstPaths(t, l, Paths(sorted), width);
  }

  method Start(p: Problem, ghost t: Trellis) returns (beam: seq<Hypothesis>, ghost level: Level)
    requires p.Valid() && t == TrellisOf(p)
    ensures BeamOk(t, 1, beam) && IsRun(t, p.decoder.limits, [level]) && level.kept == Paths(beam)
    ensures |level.sorted| == |p.batches[0]| >= |beam|
  {
    hide TrellisOf, AllRepresent, RankOrdered, UniqueIds, ValidBatch, InOrder, Path, GraphValid, Sorted,
         DistinctPaths, IsRun, BeamOk;
    TrellisFacts(p);
    var sorted := FirstHypotheses(p, t);
    var width := p.decoder.limits.beamWidth;
    beam := if |sorted| > width then sorted[..width] else sorted;
    FirstBeam(t, p.decoder.limits, sorted, beam);
    level := Level(Paths(sorted), Paths(sorted), Paths(beam));
  }

  // ----- one observation -----

  lemma ExtendRun(t: Trellis, l: Limits, run: seq<Level>, level: Level)
    requires IsRun(t, l, run) && NextLevel(t, l, |run|, Last(run).kept, level)
    ensures IsRun(t, l, run + [level])
  {
    hide NextLevel, FirstLevel;
    var longer := run + [level];
    forall k | 0 < k < |longer| ensures StepOk(t, l, longer, k) {
      assert k < |run| ==> StepOk(t, l, run, k);
    }
  }

  /** An empty expansion means that nothing kept can continue. */
  lemma NothingExpands(t: Trellis, n: nat, beam: seq<Hypothesis>, s: seq<nat>)
    requires 0 < n && BeamOk(t, n, beam) && Expanded(t, n, beam, [])
    requires GraphValid(t, s) && |s| == n + 1
    ensures Front(s) !in Paths(beam)
  {
    ExpandedIsExpansion(t, n, beam, []);
  }

  method Advance(p: Problem, ghost t: Trellis, n: nat, beam: seq<Hypothesis>, ghost run: seq<Level>)
    returns (r: Result<seq<Hypothesis>, DecodeError>, rejected: nat, pruned: nat, ghost level: Level)
    requires p.Valid() && t == TrellisOf(p) && 0 < n < |p.batches| && BeamOk(t, n, beam)
    requires IsRun(t, p.decoder.limits, run) && |run| == n && Last(run).kept == Paths(beam)
    ensures r.Err? ==> DecodeSpec(p, Err(r.error))
    ensures r.Ok? ==>
              && BeamOk(t, n + 1, r.value) && IsRun(t, p.decoder.limits, run + [level]) && level.kept == Paths(r.value)
              && rejected + |level.sorted| == |beam| * |p.batches[n]| && pruned == |level.sorted| - |level.kept|
  {
    hide TrellisOf, AllRepresent, DistinctPaths, RankOrdered, Expanded, UniqueIds, IdsOf, ElapsedOverflows, IsRun,
         NextLevel, Path, GraphValid;
    TrellisFacts(p);
    BatchIdsOf(p, n + 1);
    level := Last(run);
    var expanded, overflow;
    expanded, rejected, overflow := Expand(p, t, n, beam);
    pruned := 0;
    if overflow {
      assert Stops(p, run) && StepOverflows(p, |run|);
      return Err(ElapsedOverflow), rejected, pruned, level;
    }
    if expanded == [] {
      forall s | GraphValid(t, s) && |s| == |run| + 1 ensures Front(s) !in Last(run).kept {
        NothingExpands(t, n, beam, s);
      }
      assert Stops(p, run) && !StepOverflows(p, |run|) && Stuck(t, run);
      return Err(NoValidPath), rejected, pruned, level;
    }
    var next;
    next, level := Prune(t, p.decoder.limits, n, beam, BatchIds(p.batches[n]), expanded);
    ExtendRun(t, p.decoder.limits, run, level);
    PrunedSize(t, p.decoder.limits, n, Paths(beam), level);
    pruned := |expanded| - |next|;
    r := Ok(next);
  }

  lemma PrunedSize(t: Trellis, l: Limits, n: nat, before: seq<seq<nat>>, level: Level)
    requires NextLevel(t, l, n, before, level)
    ensures |level.kept| <= |level.sorted|
  {
    hide Tally, GraphValid, Score, Expansion, Ranked;
    FilterFull(level.sorted, l.perTerminal);
  }

  function Push(d: Diagnostics, retained: nat, rejected: nat, pruned: nat): Diagnostics {
    d.(retained := d.retained + [retained], rejected := d.rejected + [rejected], pruned := d.pruned + [pruned])
  }

  lemma PushCounts(t: Trellis, run: seq<Level>, level: Level, d: Diagnostics, rejected: nat, pruned: nat)
    requires run != [] && |run| < |t.widths| && Counts(t, run, d)
    requires rejected + |level.sorted| == |Last(run).kept| * t.widths[|run|]
    requires pruned == |level.sorted| - |level.kept|
    ensures Counts(t, run + [level], Push(d, |level.kept|, rejected, pruned))
  {
    var longer, e := run + [level], Push(d, |level.kept|, rejected, pruned);
    forall k | 0 <= k < |longer| ensures CountsAt(t, longer, e, k) {
      assert k < |run| ==> CountsAt(t, run, d, k);
    }
  }

  // ----- the result -----

  lemma BeamSequences(t: Trellis, n: nat, beam: seq<Hypothesis>)
    requires AllRepresent(t, n, beam)
    ensures forall s :: s in Paths(beam) ==> GraphValid(t, s) && |s| == n
    ensures forall i :: 0 <= i < |beam| ==> GraphValid(t, Path(beam[i])) && beam[i].score == Score(t, Path(beam[i]))
  {
    hide Score, GraphValid;
    forall i | 0 <= i < |beam| ensures Represents(t, n, beam[i]) {
      assert beam[i] in beam;
    }
  }

  /** A level is in order already, so sorting it for the result changes nothing. */
  lemma LastLevelRanked(t: Trellis, l: Limits, run: seq<Level>)
    requires IsRun(t, l, run)
    ensures Ranked(t, Last(run).kept)
  {
    hide Precedes, GraphValid, Expansion;
    var n := |run| - 1;
    var level := run[n];
    if n > 0 {
      assert StepOk(t, l, run, n);
      FilteredRanked(t, level.sorted, l.perTerminal);
    }
    PrefixRanked(t, level.filtered, level.kept);
  }

  lemma PrefixRanked(t: Trellis, paths: seq<seq<nat>>, kept: seq<seq<nat>>)
    requires Ranked(t, paths) && kept <= paths
    ensures Ranked(t, kept)
  {
    hide PathOrder;
  }

  lemma {:induction false} FilteredRanked(t: Trellis, paths: seq<seq<nat>>, limit: nat)
    requires Ranked(t, paths)
    ensures Ranked(t, FirstPerTerminal(paths, limit))
  {
    hide PathOrder, Tally;
    FirstPerTerminalDistinct(paths, limit);
    if paths != [] {
      var front, last := paths[..|paths| - 1], paths[|paths| - 1];
      PrefixRanked(t, paths, front);
      FilteredRanked(t, front, limit);
      forall s | s in FirstPerTerminal(front, limit) ensures !PathOrder(t)(last, s) {
        var j :| 0 <= j < |front| && front[j] == s;
        assert paths[j] == s;
      }
    }
  }

  method OrderResult(ghost t: Trellis, ghost l: Limits, ghost run: seq<Level>, beam: seq<Hypothesis>)
    returns (sorted: seq<Hypothesis>)
    requires UniqueIds(t) && BeamOk(t, |t.widths|, beam) && IsRun(t, l, run) && Last(run).kept == Paths(beam)
    ensures Paths(sorted) == Paths(beam) && AllRepresent(t, |t.widths|, sorted)
  {
    hide UniqueIds, IsRun, GraphValid, Ranked, RankOrdered, Path, AllRepresent, Sorted, ChildrenOf;
    BetterStrictWeak();
    sorted := Sort(Better, beam);
    PermutationNoDuplicates(sorted, beam);
    PartFacts(t, |t.widths|, beam, sorted);
    SameMembersSamePaths(sorted, beam);
    SortedIsRanked(t, |t.widths|, sorted);
    LastLevelRanked(t, l, run);
    RankedUnique(t, Paths(sorted), Paths(beam));
  }

  method Finish(ghost t: Trellis, ghost l: Limits, ghost run: seq<Level>, places: nat, beam: seq<Hypothesis>,
                diagnostics: Diagnostics)
    returns (d: DecodedPath)
    requires UniqueIds(t) && places == t.places && BeamOk(t, |t.widths|, beam)
    requires IsRun(t, l, run) && |run| == |t.widths| && Last(run).kept == Paths(beam) && Counts(t, run, diagnostics)
    ensures Reports(t, l, run, d)
  {
    hide UniqueIds, IsRun, Counts, GraphValid, Score, Path, AllRepresent, Round;
    hide DistinctPaths, RankOrdered;
    var sorted := OrderResult(t, l, run, beam);
    BeamSequences(t, |t.widths|, sorted);
    var best := Reconstruct(sorted[0]);
    var runnerUp := None;
    if |sorted| > 1 {
      var second := Reconstruct(sorted[1]);
      runnerUp := Some(RunnerUp(second, sorted[1].score, Round(sorted[0].score - sorted[1].score, places)));
    }
    d := DecodedPath(best, sorted[0].score, runnerUp, diagnostics);
  }

  // ----- the decoder -----

  method DecodeValid(p: Problem) returns (r: Result<DecodedPath, DecodeError>)
    requires p.Valid()
    ensures DecodeSpec(p, r)
  {
    hide TrellisOf, BeamOk, UniqueIds, Counts, Reports, Path, IsRun, ValidBatch, InOrder, Push;
    ghost var t := TrellisOf(p);
    var l := p.decoder.limits;
    TrellisFacts(p);
    var beam, first := Start(p, t);
    ghost var run := [first];
    var diagnostics := Diagnostics(seq(|p.batches|, i requires 0 <= i < |p.batches| => |p.batches[i]|),
                                   [|beam|], [0], [|p.batches[0]| - |beam|]);
    assert diagnostics.generated == t.widths;
    StartCounts(t, first, diagnostics);
    for n := 1 to |p.batches|
      invariant BeamOk(t, n, beam) && IsRun(t, l, run) && |run| == n && Last(run).kept == Paths(beam)
      invariant Counts(t, run, diagnostics)
    {
      var step, rejected, pruned, level := Advance(p, t, n, beam, run);
      if step.Err? {
        return Err(step.error);
      }
      PushCounts(t, run, level, diagnostics, rejected, pruned);
      beam := step.value;
      run := run + [level];
      diagnostics := Push(diagnostics, |beam|, rejected, pruned);
    }
    var d := Finish(t, l, run, p.decoder.places, beam, diagnostics);
    return Ok(d);
  }

  lemma StartCounts(t: Trellis, level: Level, d: Diagnostics)
    requires |t.widths| > 0 && d.generated == t.widths && |level.sorted| == t.widths[0] >= |level.kept|
    requires d.retained == [|level.kept|] && d.rejected == [0] && d.pruned == [|level.sorted| - |level.kept|]
    ensures Counts(t, [level], d)
  {
    assert CountsAt(t, [level], d, 0);
  }

  method Decode(p: Problem) returns (r: Result<DecodedPath, DecodeError>)
    ensures !p.Valid() ==> r == Err(InvalidInput)
    ensures p.Valid() ==> DecodeSpec(p, r)
  {
    if !p.Valid() {
      return Err(InvalidInput);
    }
    r := DecodeValid(p);
  }
}
