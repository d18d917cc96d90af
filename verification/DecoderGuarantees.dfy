/** What a finished search says about all sequences, and when it reports the exact order. */
module DecoderGuarantees {
  import opened Wrappers
  import opened Rounding
  import opened Transition
  import opened TrellisPaths
  import opened BeamSearch
  import opened Decoder
  import opened Decoding

  /** A possible sequence of one candidate per observation. */
  ghost predicate Complete(t: Trellis, s: seq<nat>) {
    GraphValid(t, s) && |s| == |t.widths|
  }

  /** `d` reports a best sequence, and with `second` a second best one if there are two. */
  ghost predicate ReportsBest(t: Trellis, exact: bool, second: bool, d: DecodedPath) {
    && Complete(t, d.best) && d.score == Score(t, d.best)
    && (forall s :: Complete(t, s) ==> Score(t, s) <= d.score && (exact && s != d.best ==> Precedes(t, d.best, s)))
    && (d.runnerUp.Some? ==>
          Complete(t, d.runnerUp.value.path) && d.runnerUp.value.path != d.best &&
          d.runnerUp.value.score == Score(t, d.runnerUp.value.path) <= d.score &&
          d.runnerUp.value.separation == Round(d.score - d.runnerUp.value.score, t.places))
    && (second ==> forall s :: Complete(t, s) && s != d.best ==> RunnerUpBounds(t, exact, d, s))
  }

  ghost predicate RunnerUpBounds(t: Trellis, exact: bool, d: DecodedPath, s: seq<nat>)
    requires GraphValid(t, s)
  {
    d.runnerUp.Some? && Score(t, s) <= d.runnerUp.value.score &&
    (exact && s != d.runnerUp.value.path ==>
       GraphValid(t, d.runnerUp.value.path) && Precedes(t, d.runnerUp.value.path, s))
  }

  /** In a ranked list nothing precedes the first sequence, and only the first precedes the second. */
  lemma RankedLeads(t: Trellis, kept: seq<seq<nat>>, i: nat, j: nat)
    requires UniqueIds(t) && Ranked(t, kept) && i <= j < |kept| && forall s :: s in kept ==> GraphValid(t, s)
    ensures kept[i] in kept && kept[j] in kept && Score(t, kept[j]) <= Score(t, kept[i])
    ensures i < j ==> Precedes(t, kept[i], kept[j]) && kept[i] != kept[j]
  {
    hide UniqueIds, GraphValid, Score, Before;
    assert kept[i] in kept && kept[j] in kept;
    if i < j {
      assert !PathOrder(t)(kept[j], kept[i]);
      PrecedesTotal(t, kept[i], kept[j]);
    }
  }

  lemma BestLeads(t: Trellis, exact: bool, kept: seq<seq<nat>>, s: seq<nat>)
    requires UniqueIds(t) && Ranked(t, kept) && kept != [] && forall u :: u in kept ==> GraphValid(t, u)
    requires GraphValid(t, s) && Dominated(t, exact, kept, s)
    ensures Score(t, s) <= Score(t, kept[0]) && (exact && s != kept[0] ==> Precedes(t, kept[0], s))
  {
    hide UniqueIds, GraphValid, Score, Ranked, Before;
    var u :| u in kept && Dominates(t, exact, u, s);
    var j :| 0 <= j < |kept| && kept[j] == u;
    RankedLeads(t, kept, 0, j);
    if exact && u != s && j > 0 {
      PrecedesTransitive(t, kept[0], u, s);
    }
  }

  lemma SecondLeads(t: Trellis, exact: bool, kept: seq<seq<nat>>, s: seq<nat>)
    requires UniqueIds(t) && Ranked(t, kept) && kept != [] && forall u :: u in kept ==> GraphValid(t, u)
    requires GraphValid(t, s) && DoublyDominated(t, exact, kept, s) && s != kept[0]
    ensures |kept| > 1 && Score(t, s) <= Score(t, kept[1]) && (exact && s != kept[1] ==> Precedes(t, kept[1], s))
  {
    hide UniqueIds, GraphValid, Score, Ranked, Before, Dominates;
    var u := LaterDominator(t, exact, kept, s);
    var j :| 0 < j < |kept| && kept[j] == u;
    RankedLeads(t, kept, 1, j);
    DominatorLeads(t, exact, kept[1], u, s);
  }

  lemma DominatorLeads(t: Trellis, exact: bool, lead: seq<nat>, u: seq<nat>, s: seq<nat>)
    requires GraphValid(t, lead) && GraphValid(t, u) && GraphValid(t, s) && Dominates(t, exact, u, s)
    requires Score(t, u) <= Score(t, lead) && (lead == u || Precedes(t, lead, u))
    ensures Score(t, s) <= Score(t, lead) && (exact && s != lead ==> Precedes(t, lead, s))
  {
    hide GraphValid, Score, Before;
    if exact && u != s && lead != u {
      PrecedesTransitive(t, lead, u, s);
    }
  }

  lemma LaterDominator(t: Trellis, exact: bool, kept: seq<seq<nat>>, s: seq<nat>) returns (u: seq<nat>)
    requires kept != [] && GraphValid(t, s) && DoublyDominated(t, exact, kept, s) && s != kept[0]
    ensures Dominates(t, exact, u, s) && exists j :: 0 < j < |kept| && kept[j] == u
  {
    hide GraphValid, Precedes, Score;
    if s in kept {
      u := s;
    } else {
      var a, b :| a in kept && b in kept && a != b && Dominates(t, exact, a, s) && Dominates(t, exact, b, s);
      u := if a == kept[0] then b else a;
    }
    var j :| 0 <= j < |kept| && kept[j] == u;
    assert j != 0;
  }

  // ----- what the whole decoder guarantees -----

  lemma CoveredReport(t: Trellis, l: Limits, exact: bool, second: bool, run: seq<Level>, d: DecodedPath)
    requires UniqueIds(t) && Reports(t, l, run, d) && CoversBest(t, exact, |run|, Last(run).kept)
    requires second ==> CoversTwo(t, exact, |run|, Last(run).kept)
    requires forall s :: s in Last(run).kept ==> |s| == |run|
    ensures ReportsBest(t, exact, second, d)
  {
    hide UniqueIds, GraphValid, Score, Ranked, Precedes, FirstLevel, StepOk, Counts, Dominated, DoublyDominated;
    var kept := Last(run).kept;
    LastLevelRanked(t, l, run);
    forall s | Complete(t, s)
      ensures Score(t, s) <= d.score && (exact && s != d.best ==> Precedes(t, d.best, s))
      ensures second && s != d.best ==> RunnerUpBounds(t, exact, d, s)
    {
      assert Dominated(t, exact, kept, s);
      BestLeads(t, exact, kept, s);
      if second && s != d.best {
        assert DoublyDominated(t, exact, kept, s);
        SecondLeads(t, exact, kept, s);
        RankedLeads(t, kept, 1, 1);
      }
    }
    if |kept| > 1 {
      RankedLeads(t, kept, 0, 1);
    }
    RankedLeads(t, kept, 0, 0);
  }

  /** If width and score delta removed nothing, the reported score is maximal over all sequences, and for K of at
      least two the runner-up's is the second best. On the decimal grid the exact order holds as well. */
  lemma UncutIsOptimal(t: Trellis, l: Limits, exact: bool, run: seq<Level>, d: DecodedPath)
    requires l.Valid() && Askable(t, exact) && Reports(t, l, run, d) && Uncut(run)
    ensures ReportsBest(t, exact, l.perTerminal >= 2, d)
  {
    hide GraphValid, Score, FirstLevel, StepOk, Counts, Uncut, CoversBest, CoversTwo, UniqueIds, GridScores, Complete,
         ReportsBest;
    UncutCovers(t, l, exact, run);
    KeptSequences(t, l, run);
    CoveredReport(t, l, exact, l.perTerminal >= 2, run, d);
  }

  /** If nothing at all was removed, the exact order holds off the grid, too. */
  lemma UnprunedIsExact(t: Trellis, l: Limits, run: seq<Level>, d: DecodedPath)
    requires l.Valid() && UniqueIds(t) && Reports(t, l, run, d) && Unpruned(run)
    ensures ReportsBest(t, true, true, d)
  {
    hide GraphValid, Score, FirstLevel, StepOk, Counts, Unpruned, CoversBest, CoversTwo, CoversAll, UniqueIds, Complete,
         ReportsBest;
    UnprunedCovers(t, l, run);
    AllCoverMore(t, true, |run|, Last(run).kept);
    KeptSequences(t, l, run);
    CoveredReport(t, l, true, true, run, d);
  }

  // ----- reading the diagnostics -----

  lemma LevelShrinks(t: Trellis, l: Limits, run: seq<Level>, k: nat)
    requires l.Valid() && IsRun(t, l, run) && k < |run|
    ensures 1 <= |run[k].kept| <= l.beamWidth && |run[k].kept| <= |run[k].sorted|
    ensures |run[k].kept| == |run[k].sorted| <==> run[k].kept == run[k].sorted
    ensures run[k].kept[0] == run[k].sorted[0]
  {
    hide Ranked, Expansion, Score, GraphValid, Tally, PathOrder;
    RunPrefix(t, l, run, k + 1);
    KeptSequences(t, l, run[..k + 1]);
    if k > 0 {
      assert StepOk(t, l, run, k);
      FilterFull(run[k].sorted, l.perTerminal);
      assert run[k].kept == run[k].filtered[..|run[k].kept|];
    }
  }

  /** What was generated at observation `k`. */
  function Generated(g: Diagnostics, k: nat): nat
    requires k < |g.generated| == |g.retained|
  {
    if k == 0 then g.generated[0] else g.retained[k - 1] * g.generated[k]
  }

  /** At every observation, what was generated is retained, pruned or rejected; the beam is never empty nor too wide. */
  ghost predicate Balanced(l: Limits, g: Diagnostics) {
    && |g.generated| == |g.retained| == |g.rejected| == |g.pruned|
    && forall k :: 0 <= k < |g.retained| ==>
         1 <= g.retained[k] <= l.beamWidth && g.retained[k] + g.pruned[k] + g.rejected[k] == Generated(g, k)
  }

  ghost predicate NothingPruned(g: Diagnostics) {
    forall k :: 0 <= k < |g.pruned| ==> g.pruned[k] == 0
  }

  /** Conservation of hypotheses; and nothing was removed exactly when every pruned count is zero. */
  lemma DiagnosticsAccount(t: Trellis, l: Limits, run: seq<Level>, d: DecodedPath)
    requires l.Valid() && Reports(t, l, run, d)
    ensures |d.diagnostics.retained| == |t.widths| && d.diagnostics.generated == t.widths && Balanced(l, d.diagnostics)
    ensures Unpruned(run) <==> NothingPruned(d.diagnostics)
  {
    hide GraphValid, Score, FirstLevel, StepOk, RunnerUpOf;
    var g := d.diagnostics;
    forall k | 0 <= k < |t.widths|
      ensures 1 <= g.retained[k] <= l.beamWidth && (g.pruned[k] == 0 <==> run[k].kept == run[k].sorted)
      ensures g.retained[k] + g.pruned[k] + g.rejected[k] == Generated(g, k)
    {
      LevelShrinks(t, l, run, k);
      assert CountsAt(t, run, g, k);
      assert k > 0 ==> CountsAt(t, run, g, k - 1);
    }
  }

  // ----- the same for a decoding problem -----

  /** The one search through a problem is never cut by width or score delta. */
  ghost predicate SearchUncut(p: Problem)
    requires p.Valid()
  {
    forall run :: IsRun(TrellisOf(p), p.decoder.limits, run) && |run| <= |p.batches| ==> Uncut(run)
  }

  /** Whenever the search is not cut, a decoded path has the best score of all complete sequences. */
  lemma DecodedIsOptimal(p: Problem, exact: bool, d: DecodedPath)
    requires p.Valid() && DecodeSpec(p, Ok(d)) && SearchUncut(p) && (exact ==> GridScores(TrellisOf(p)))
    ensures ReportsBest(TrellisOf(p), exact, p.decoder.limits.perTerminal >= 2, d)
  {
    hide TrellisOf, UniqueIds, GridScores, IsRun, ReportsBest, Counts;
    TrellisFacts(p);
    var run :| Reports(TrellisOf(p), p.decoder.limits, run, d);
    UncutIsOptimal(TrellisOf(p), p.decoder.limits, exact, run, d);
  }

  lemma ValidPrefix(t: Trellis, s: seq<nat>, n: nat)
    requires GraphValid(t, s) && 0 < n <= |s|
    ensures GraphValid(t, s[..n])
  {
    forall i | 0 < i < n ensures StepPossible(t, s[..n], i) {
      assert StepPossible(t, s, i);
    }
  }

  /** An uncut search gets stuck only where no sequence continues. */
  lemma StuckMeansNoSequence(t: Trellis, l: Limits, run: seq<Level>, s: seq<nat>)
    requires l.Valid() && UniqueIds(t) && IsRun(t, l, run) && Uncut(run) && Stuck(t, run)
    ensures !(GraphValid(t, s) && |s| > |run|)
  {
    hide UniqueIds, Score, FirstLevel, StepOk, Uncut, CoversTwo, GraphValid, Precedes;
    if GraphValid(t, s) && |s| > |run| {
      var longer := s[..|run| + 1];
      ValidPrefix(t, s, |run| + 1);
      FrontValid(t, longer);
      UncutCovers(t, l, false, run);
      assert Dominated(t, false, Last(run).kept, Front(longer));
      var u :| u in Last(run).kept && Dominates(t, false, u, Front(longer));
      DominatesSnoc(t, false, u, longer);
      assert false;
    }
  }

  /** With an uncut search and representable times, decoding succeeds exactly when some sequence is complete. */
  lemma DecodesIffPossible(p: Problem, r: Result<DecodedPath, DecodeError>)
    requires p.Valid() && DecodeSpec(p, r) && SearchUncut(p) && forall i :: 0 < i < |p.batches| ==> !StepOverflows(p, i)
    ensures r.Ok? <==> exists s :: Complete(TrellisOf(p), s)
  {
    hide TrellisOf, UniqueIds, FirstLevel, StepOk, Counts, GraphValid, Score, StepOverflows, Stuck;
    TrellisFacts(p);
    var t, l := TrellisOf(p), p.decoder.limits;
    match r
    case Ok(d) =>
      var run :| Reports(t, l, run, d);
      KeptSequences(t, l, run);
      assert Complete(t, Last(run).kept[0]);
    case Err(error) =>
      if error.NoValidPath? {
        var run :| Stops(p, run) && !StepOverflows(p, |run|) && Stuck(t, run);
        forall s ensures !Complete(t, s) {
          StuckMeansNoSequence(t, l, run, s);
        }
      }
  }

  /** Room for every terminal and a score delta above all differences: a check that needs no search. */
  lemma RoomySearch(p: Problem)
    requires p.Valid() && Roomy(TrellisOf(p), p.decoder.limits)
    ensures SearchUncut(p)
  {
    hide TrellisOf, UniqueIds, Roomy, IsRun, Uncut;
    TrellisFacts(p);
    forall run | IsRun(TrellisOf(p), p.decoder.limits, run) && |run| <= |p.batches| ensures Uncut(run) {
      RoomyIsUncut(TrellisOf(p), p.decoder.limits, run);
    }
  }

  // ----- when the exact order may be asked for -----

  ghost predicate GridEmissions(p: Problem) {
    forall i, c: nat :: 0 <= i < |p.batches| && c < |p.batches[i]| ==>
      OnGrid(p.batches[i][c].emission, p.decoder.places)
  }

  lemma StepOnGrid(p: Problem, i: nat, a: nat, b: nat)
    requires p.Valid() && StepOf(p, i, a, b).Some? && p.scene.parameters.scorePlaces <= p.decoder.places
    ensures OnGrid(StepOf(p, i, a, b).value, p.decoder.places)
  {
    hide Round, OnGrid, ValidStep, RouteQuery, RouteOf, PathScore, SpeedScore, TurnScore, OffMapScore, ElapsedOverflows;
    var total := StepOf(p, i, a, b).value;
    assert exists x :: total == Round(x, p.scene.parameters.scorePlaces);
    var x :| total == Round(x, p.scene.parameters.scorePlaces);
    RoundOntoGrid(x, p.scene.parameters.scorePlaces);
    GridFiner(total, p.scene.parameters.scorePlaces, p.decoder.places);
  }

  /** Transition totals are rounded already, so emissions on the decoder's grid and no coarser decoder are enough. */
  lemma GridFromInput(p: Problem)
    requires p.Valid() && GridEmissions(p) && p.scene.parameters.scorePlaces <= p.decoder.places
    ensures GridScores(TrellisOf(p))
  {
    hide OnGrid, StepOf;
    var t := TrellisOf(p);
    forall i: nat, c: nat | i < |t.widths| && c < t.widths[i] ensures OnGrid(t.emission(i, c), t.places) {
      assert OnGrid(p.batches[i][c].emission, p.decoder.places);
    }
    forall i: nat, a: nat, b: nat
      | 0 < i < |t.widths| && a < t.widths[i - 1] && b < t.widths[i] && t.step(i, a, b).Some?
      ensures OnGrid(t.step(i, a, b).value, t.places)
    {
      StepOnGrid(p, i, a, b);
    }
  }

  /** The total of a transition result, if it is possible. */
  ghost predicate HasTotal(r: Result<TransitionResult, TransitionError>, total: Option<real>) {
    match r
    case Err(_) => total.None?
    case Ok(step) => total == if step.Impossible? then None else Some(step.total)
  }

  /** The steps of the trellis are the transitions between consecutive observations, in plain terms. */
  lemma StepOfMeaning(p: Problem, i: nat, a: nat, b: nat) returns (r: Result<TransitionResult, TransitionError>)
    requires p.Valid() && 0 < i < |p.batches| && a < |p.batches[i - 1]| && b < |p.batches[i]|
    ensures StepMeaning(p.scene, i - 1, p.batches[i - 1][a], i, p.batches[i][b], r)
    ensures HasTotal(r, TrellisOf(p).step(i, a, b))
  {
    hide StepMeaning, TransitionOf;
    r := TransitionOf(p.scene, i - 1, p.batches[i - 1][a], i, p.batches[i][b]);
    TransitionMeaning(p.scene, i - 1, p.batches[i - 1][a], i, p.batches[i][b]);
  }
}
