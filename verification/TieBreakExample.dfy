/** A decoder input whose result is not the first among equal scores. */
module TieBreakExample {
  import opened Wrappers
  import opened Rounding
  import opened Lexicographic
  import opened RoadGraph
  import opened Transition
  import opened TrellisPaths
  import opened BeamSearch
  import opened Decoder
  import opened Decoding
  import opened DecoderTotality
  import opened DecoderGuarantees

  function At(i: nat): Observation
    requires i < 3
  {
    Observation(["x", "y", "z"][i], i as int64, Point(0.0, 0.0), 0.0)
  }

  function OffMapAt(i: nat, id: string, emission: real): Candidate {
    Candidate(id, i, None, None, emission)
  }

  function ExampleLimits(): Limits { Limits(8, 1, 100.0) }

  /** Three off-map observations and free steps; `a` and `b` start apart, and whole numbers are kept.
      One sequence per terminal, and a beam and a score delta that never bind. */
  function Example(): (p: Problem)
    ensures p.Valid()
  {
    Problem(
      Scene(Graph([Arc("arc", "from", "to", 1, Forward, 1.0)], []), [At(0), At(1), At(2)],
            (p: Point, q: Point) => 0.0,
            Parameters(1.0, 1.0, 0.0, 0.0, 0.0, 0.0, 0.0, 0.0, 0.0, 1.0, 1, 0, 0)),
      [[OffMapAt(0, "a", -2.0), OffMapAt(0, "b", -1.0)], [OffMapAt(1, "c", 0.0)], [OffMapAt(2, "d", -0.5)]],
      DecoderParameters(ExampleLimits(), 0.0, 0.0, 0.0, 2, 3, 0))
  }

  /** What the decoder sees of the example. */
  ghost predicate ExampleTrellis(t: Trellis) {
    && t.widths == [2, 1, 1] && t.places == 0 && UniqueIds(t)
    && t.emission(0, 0) == -2.0 && t.emission(0, 1) == -1.0 && t.emission(1, 0) == 0.0 && t.emission(2, 0) == -0.5
    && t.id(0, 0) == "a" && t.id(0, 1) == "b"
    && t.step(1, 0, 0) == t.step(1, 1, 0) == t.step(2, 0, 0) == Some(0.0)
  }

  lemma WholePlaces(x: real)
    ensures Round(x, 0) == RoundToInteger(x) as real
  {
    assert Unit(0) == 1.0;
  }

  lemma FreeStep(i: nat, a: nat)
    requires 0 < i < 3 && a < |Example().batches[i - 1]|
    ensures StepOf(Example(), i, a, 0) == Some(0.0)
  {
    hide ValidGraph, RoundToInteger;
    WholePlaces(0.0);
    RoundInteger(0);
    assert ValidBatch(Example().scene.graph, Example().batches[i - 1], i - 1);
    assert ValidBatch(Example().scene.graph, Example().batches[i], i);
    assert Example().batches[i - 1][a].OffMap();
  }

  lemma ExampleIsTrellis()
    ensures ExampleTrellis(TrellisOf(Example()))
  {
    hide StepOf;
    TrellisFacts(Example());
    FreeStep(1, 0);
    FreeStep(1, 1);
    FreeStep(2, 0);
  }

  function Through(first: nat, n: nat): seq<nat> {
    if n == 1 then [first] else if n == 2 then [first, 0] else [first, 0, 0]
  }

  lemma ExampleSequences(t: Trellis, first: nat, n: nat)
    requires ExampleTrellis(t) && first < 2 && 1 <= n <= 3
    ensures GraphValid(t, Through(first, n))
    ensures Score(t, Through(first, n)) == if n == 3 then -2.0 else if first == 0 then -2.0 else -1.0
    decreases n
  {
    hide UniqueIds, RoundToInteger;
    var s := Through(first, n);
    if n == 1 {
      WholePlaces(t.emission(0, first));
      RoundInteger(if first == 0 then -2 else -1);
    } else {
      ExampleSequences(t, first, n - 1);
      var front := Through(first, n - 1);
      assert s == front + [0];
      SnocScore(t, front, 0);
      var sum := Score(t, front) + t.emission(n - 1, 0);
      WholePlaces(sum);
      RoundInteger(if first == 0 then -2 else -1);
      HalvesToEven();
    }
  }

  lemma HalvesToEven()
    ensures RoundToInteger(-2.5) == RoundToInteger(-1.5) == -2
  {
    assert (-2.5).Floor == -3 && (-1.5).Floor == -2;
  }

  lemma OnlySequences(t: Trellis, s: seq<nat>)
    requires ExampleTrellis(t) && GraphValid(t, s)
    ensures 1 <= |s| <= 3 && (s == Through(0, |s|) || s == Through(1, |s|))
  {
  }

  lemma ExampleOrder(t: Trellis)
    requires ExampleTrellis(t)
    ensures Before(t, Through(0, 3), Through(1, 3))
  {
    assert Ids(t, [0, 0, 0])[0] == "a" && Ids(t, [1, 0, 0])[0] == "b";
    assert StringLess("a", "b");
  }

  function Pair(n: nat): seq<seq<nat>> { [Through(1, n), Through(0, n)] }

  function ExampleRun(): seq<Level> {
    [Level(Pair(1), Pair(1), Pair(1)),
     Level(Pair(2), [Through(1, 2)], [Through(1, 2)]),
     Level([Through(1, 3)], [Through(1, 3)], [Through(1, 3)])]
  }

  lemma PairRanked(t: Trellis, n: nat)
    requires ExampleTrellis(t) && 1 <= n <= 2
    ensures Ranked(t, Pair(n)) && forall s :: s in Pair(n) <==> GraphValid(t, s) && |s| == n
  {
    hide UniqueIds, Score, Before;
    ExampleSequences(t, 0, n);
    ExampleSequences(t, 1, n);
    forall s | GraphValid(t, s) && |s| == n ensures s in Pair(n) {
      OnlySequences(t, s);
    }
  }

  lemma AloneKept(a: seq<nat>)
    ensures FirstPerTerminal([a], 1) == [a]
  {
    assert [a][..0] == [];
  }

  lemma FirstOfTwo(a: seq<nat>, b: seq<nat>)
    requires a != [] && b != [] && Final(a) == Final(b)
    ensures FirstPerTerminal([a, b], 1) == [a]
  {
    AloneKept(a);
    assert [a, b][..1] == [a] && [a][..0] == [];
    assert Tally([a], Final(b)) == 1;
  }

  lemma ThroughFront(first: nat, n: nat)
    requires 2 <= n <= 3
    ensures Front(Through(first, n)) == Through(first, n - 1) && Final(Through(first, n)) == 0
  {
  }

  lemma SecondStep(t: Trellis, l: Limits)
    requires ExampleTrellis(t) && l == ExampleLimits()
    ensures NextLevel(t, l, 1, Pair(1), ExampleRun()[1])
  {
    hide UniqueIds, Score, Ranked, FirstPerTerminal, GraphValid, Through, ExampleTrellis;
    PairRanked(t, 1);
    PairRanked(t, 2);
    ThroughFront(0, 2);
    ThroughFront(1, 2);
    FirstOfTwo(Through(1, 2), Through(0, 2));
  }

  lemma ThirdStep(t: Trellis, l: Limits)
    requires ExampleTrellis(t) && l == ExampleLimits()
    ensures NextLevel(t, l, 2, [Through(1, 2)], ExampleRun()[2])
  {
    hide UniqueIds, Score, Precedes, FirstPerTerminal, GraphValid, ExampleTrellis;
    ExampleSequences(t, 1, 3);
    AloneKept(Through(1, 3));
    ThroughFront(0, 3);
    ThroughFront(1, 3);
    forall s | GraphValid(t, s) && |s| == 3 && Front(s) in [Through(1, 2)] ensures s in [Through(1, 3)] {
      OnlySequences(t, s);
    }
  }

  lemma ExampleRuns(t: Trellis)
    requires ExampleTrellis(t)
    ensures IsRun(t, ExampleLimits(), ExampleRun())
  {
    hide UniqueIds, GraphValid, Ranked, NextLevel, ExampleTrellis;
    var l, run := ExampleLimits(), ExampleRun();
    PairRanked(t, 1);
    SecondStep(t, l);
    ThirdStep(t, l);
    assert FirstLevel(t, l, run[0]);
    assert StepOk(t, l, run, 1) && StepOk(t, l, run, 2);
  }

  lemma ExampleUncut()
    ensures SearchUncut(Example())
  {
    hide TrellisOf, UniqueIds, FirstLevel, StepOk;
    var t, l := TrellisOf(Example()), Example().decoder.limits;
    ExampleIsTrellis();
    ExampleRuns(t);
    forall run | IsRun(t, l, run) && |run| <= 3 ensures Uncut(run) {
      RunPrefix(t, l, ExampleRun(), |run|);
      RunUnique(t, l, run, ExampleRun()[..|run|]);
    }
  }

  lemma ExampleOffMap()
    ensures Representable(Example())
    ensures forall i :: 0 <= i < |Example().batches| ==> HasOffMap(Example().batches[i])
  {
    forall i | 0 <= i < |Example().batches| ensures HasOffMap(Example().batches[i]) {
      assert Example().batches[i][0].OffMap();
    }
  }

  lemma ExampleDecodes(r: Result<DecodedPath, DecodeError>)
    requires DecodeSpec(Example(), r)
    ensures r.Ok?
  {
    hide TrellisOf, DecodeSpec, Example;
    ExampleOffMap();
    OffMapMakesDecodingTotal(Example(), r);
  }

  /** Nothing is cut by width or score delta, both complete sequences score the same, and the decoder returns the
      one that comes later by ids: its rival was dropped at the second observation, where it still scored less. */
  lemma TieBreakLost(r: Result<DecodedPath, DecodeError>)
    requires DecodeSpec(Example(), r)
    ensures SearchUncut(Example()) && r.Ok? && r.value.best == [1, 0, 0] && Complete(TrellisOf(Example()), [0, 0, 0])
    ensures Score(TrellisOf(Example()), [0, 0, 0]) == r.value.score
    ensures Before(TrellisOf(Example()), [0, 0, 0], r.value.best)
  {
    hide TrellisOf, UniqueIds, Score, FirstLevel, StepOk, Counts, Before, StepOverflows;
    var t, l := TrellisOf(Example()), Example().decoder.limits;
    ExampleDecodes(r);
    ExampleUncut();
    ExampleIsTrellis();
    var run :| Reports(t, l, run, r.value);
    ExampleRuns(t);
    RunUnique(t, l, run, ExampleRun());
    ExampleSequences(t, 0, 3);
    ExampleSequences(t, 1, 3);
    ExampleOrder(t);
  }
}
