/** Why decoding cannot fail on generated batches, and how a batch is assembled. */
module DecoderTotality {
  import opened Wrappers
  import opened Lexicographic
  import opened Sorting
  import opened Transition
  import opened TrellisPaths
  import opened BeamSearch
  import opened Decoder
  import opened Decoding

  ghost predicate HasOffMap(batch: seq<Candidate>) {
    exists c :: 0 <= c < |batch| && batch[c].OffMap()
  }

  lemma OffMapStepPossible(p: Problem, i: nat, a: nat, b: nat)
    requires p.Valid() && 0 < i < |p.batches| && a < |p.batches[i - 1]| && b < |p.batches[i]|
    requires p.batches[i][b].OffMap() && !StepOverflows(p, i)
    ensures StepOf(p, i, a, b).Some?
  {
    assert ValidBatch(p.scene.graph, p.batches[i], i) && ValidBatch(p.scene.graph, p.batches[i - 1], i - 1);
    assert InOrder(p.scene.observations, i);
  }

  /** No difference of consecutive observation times leaves int64. */
  ghost predicate Representable(p: Problem)
    requires p.Valid()
  {
    forall i :: 0 < i < |p.batches| ==> !StepOverflows(p, i)
  }

  lemma OffMapContinues(p: Problem, s: seq<nat>) returns (longer: seq<nat>)
    requires p.Valid() && Representable(p) && GraphValid(TrellisOf(p), s) && |s| < |p.batches|
    requires HasOffMap(p.batches[|s|])
    ensures GraphValid(TrellisOf(p), longer) && |longer| == |s| + 1 && Front(longer) == s
  {
    hide StepOf, UniqueIds;
    var t := TrellisOf(p);
    TrellisFacts(p);
    var b :| 0 <= b < |p.batches[|s|]| && p.batches[|s|][b].OffMap();
    assert s[|s| - 1] < t.widths[|s| - 1];
    OffMapStepPossible(p, |s|, Final(s), b);
    SnocValid(t, s, b);
    longer := s + [b];
  }

  /** With an off-map candidate in every batch and representable elapsed times, valid input always decodes. */
  lemma OffMapMakesDecodingTotal(p: Problem, r: Result<DecodedPath, DecodeError>)
    requires p.Valid() && DecodeSpec(p, r) && Representable(p)
    requires forall i :: 0 <= i < |p.batches| ==> HasOffMap(p.batches[i])
    ensures r.Ok?
  {
    hide GraphValid, TrellisOf, HasOffMap, FirstLevel, StepOk, StepOverflows;
    if r == Err(NoValidPath) {
      var run :| Stops(p, run) && !StepOverflows(p, |run|) && Stuck(TrellisOf(p), run);
      KeptSequences(TrellisOf(p), p.decoder.limits, run);
      var longer := OffMapContinues(p, Last(run).kept[0]);
      assert false;
    }
  }

  /** An on-road candidate with the values its batch is ordered by. */
  datatype Scored = Scored(candidate: Candidate, lateral: real, arcId: string)

  /** Higher emission first, then the nearer arc, then the smaller arc id. */
  predicate Preferred(x: Scored, y: Scored) {
    x.candidate.emission > y.candidate.emission ||
    (x.candidate.emission == y.candidate.emission &&
     (x.lateral < y.lateral || (x.lateral == y.lateral && StringLess(x.arcId, y.arcId))))
  }

  /** Between two candidates in the order of the batch: the first has no smaller emission, with equal emissions it is no
      farther, and as near its arc id is no greater. */
  ghost predicate NoWorse(x: Scored, y: Scored) {
    && x.candidate.emission >= y.candidate.emission
    && (x.candidate.emission == y.candidate.emission ==>
          x.lateral <= y.lateral && (x.lateral == y.lateral ==> !StringLess(y.arcId, x.arcId)))
  }

  lemma PreferredStrictWeak()
    ensures StrictWeak(Preferred)
  {
    StringLessTotal();
    hide StringLess;
  }

  /** Keep the best on-road candidates and append the off-map one (`generate_candidate_batches`). */
  method AssembleBatch(onRoad: seq<Scored>, maximum: nat, offMap: Candidate) returns (batch: seq<Candidate>)
    requires offMap.OffMap()
    ensures HasOffMap(batch) && 1 <= |batch| <= maximum + 1 && batch[|batch| - 1] == offMap
    ensures exists kept: seq<Scored>, dropped: seq<Scored> ::
              multiset(kept) + multiset(dropped) == multiset(onRoad) && |kept| == |batch| - 1 &&
              (forall i :: 0 <= i < |kept| ==> batch[i] == kept[i].candidate) &&
              (forall i, j :: 0 <= i < j < |kept| ==> NoWorse(kept[i], kept[j])) &&
              (forall x, y :: x in kept && y in dropped ==> NoWorse(x, y))
    ensures |batch| == maximum + 1 || |batch| == |onRoad| + 1
  {
    PreferredStrictWeak();
    var sorted := Sort(Preferred, onRoad);
    var count := if |sorted| > maximum then maximum else |sorted|;
    var kept := sorted[..count];
    assert sorted == kept + sorted[count..];
    batch := seq(count, i requires 0 <= i < count => kept[i].candidate) + [offMap];
    assert batch[|batch| - 1].OffMap();
    SortedNoWorse(sorted, count);
  }

  lemma SortedNoWorse(sorted: seq<Scored>, count: nat)
    requires Sorted(Preferred, sorted) && count <= |sorted|
    ensures forall i, j :: 0 <= i < j < count ==> NoWorse(sorted[i], sorted[j])
    ensures forall x, y :: x in sorted[..count] && y in sorted[count..] ==> NoWorse(x, y)
  {
    hide StringLess;
    StringLessTotal();
    forall i, j | 0 <= i < j < |sorted| ensures NoWorse(sorted[i], sorted[j]) {
      assert !Preferred(sorted[j], sorted[i]);
    }
    forall x, y | x in sorted[..count] && y in sorted[count..] ensures NoWorse(x, y) {
      var i :| 0 <= i < count && sorted[i] == x;
      var j :| count <= j < |sorted| && sorted[j] == y;
    }
  }
}
