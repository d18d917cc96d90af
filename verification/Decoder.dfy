/** Beam decoding of candidate batches (`decode_candidate_batches`). */
module Decoder {
  import opened Wrappers
  import opened Rounding
  import opened Sorting
  import opened RoadGraph
  import opened Transition
  import opened TrellisPaths
  import opened BeamSearch
  import opened Beam
  import opened BeamStep

  datatype DecoderParameters = DecoderParameters(
    limits: Limits, ambiguity: real, stationarySpeed: real, stationaryTolerance: real, stationaryMinimum: nat,
    maxObservations: nat, places: nat)

  predicate ValidDecoder(d: DecoderParameters) {
    d.limits.Valid() && d.ambiguity >= 0.0 &&
    d.stationarySpeed >= 0.0 && d.stationaryTolerance >= 0.0 && d.stationaryMinimum >= 2 &&
    d.maxObservations > 0 && d.places <= 15
  }

  datatype Problem = Problem(scene: Scene, batches: seq<seq<Candidate>>, decoder: DecoderParameters) {
    /** The input checks of the decoder. */
    predicate Valid() {
      && scene.Valid() && ValidDecoder(decoder)
      && 0 < |scene.observations| <= decoder.maxObservations
      && |batches| == |scene.observations|
      && (forall i, j :: 0 <= i < j < |scene.observations| ==> scene.observations[i].id != scene.observations[j].id)
      && (forall i :: 0 <= i < |scene.observations| ==> scene.observations[i].id != "")
      && (forall i :: 0 < i < |scene.observations| ==> InOrder(scene.observations, i))
      && (forall i :: 0 <= i < |batches| ==> ValidBatch(scene.graph, batches[i], i))
    }
  }

  predicate InOrder(observations: seq<Observation>, i: nat)
    requires 0 < i < |observations|
  {
    observations[i - 1].time < observations[i].time
  }

  predicate ValidBatch(g: Graph, batch: seq<Candidate>, observation: nat) {
    && batch != []
    && (forall c :: 0 <= c < |batch| ==> ValidCandidate(g, batch[c], observation))
    && (forall c, d :: 0 <= c < d < |batch| ==> batch[c].id != batch[d].id)
  }

  datatype DecodeError = InvalidInput | ElapsedOverflow | NoValidPath

  // ----- the trellis of a problem -----

  ghost function TotalOf(r: Result<TransitionResult, TransitionError>): Option<real> {
    match r
    case Ok(OffMapStep(total)) => Some(total)
    case Ok(OnRoadStep(_, _, _, _, _, _, _, total)) => Some(total)
    case _ => None
  }

  ghost predicate InBatch(p: Problem, i: nat, c: nat) {
    i < |p.batches| && c < |p.batches[i]|
  }

  /** Log-likelihood of moving from candidate `a` of observation `i - 1` to candidate `b` of observation `i`. */
  ghost function StepOf(p: Problem, i: nat, a: nat, b: nat): Option<real>
    requires p.Valid()
  {
    if i > 0 && InBatch(p, i - 1, a) && InBatch(p, i, b) then
      TotalOf(TransitionOf(p.scene, i - 1, p.batches[i - 1][a], i, p.batches[i][b]))
    else None
  }

  ghost function TrellisOf(p: Problem): Trellis
    requires p.Valid()
  {
    Trellis(seq(|p.batches|, i requires 0 <= i < |p.batches| => |p.batches[i]|),
            (i: nat, c: nat) => if InBatch(p, i, c) then p.batches[i][c].id else "",
            (i: nat, c: nat) => if InBatch(p, i, c) then p.batches[i][c].emission else 0.0,
            (i: nat, a: nat, b: nat) => StepOf(p, i, a, b),
            p.decoder.places)
  }

  lemma TrellisFacts(p: Problem)
    requires p.Valid()
    ensures var t := TrellisOf(p);
            && |t.widths| == |p.batches| && t.places == p.decoder.places
            && (forall i :: 0 <= i < |p.batches| ==> t.widths[i] == |p.batches[i]|)
            && UniqueIds(t)
  {
    hide StepOf;
    var t := TrellisOf(p);
    forall i: nat, c: nat, d: nat | i < |t.widths| && c < d < t.widths[i] ensures t.id(i, c) != t.id(i, d) {
      assert ValidBatch(p.scene.graph, p.batches[i], i);
    }
  }

  function BatchIds(batch: seq<Candidate>): (ids: seq<string>)
    ensures |ids| == |batch| && forall c :: 0 <= c < |batch| ==> ids[c] == batch[c].id
  {
    seq(|batch|, c requires 0 <= c < |batch| => batch[c].id)
  }

  lemma BatchIdsOf(p: Problem, n: nat)
    requires p.Valid() && 0 < n <= |p.batches|
    ensures IdsOf(TrellisOf(p), n, BatchIds(p.batches[n - 1]))
  {
    hide StepOf;
    TrellisFacts(p);
  }

  // ----- expansion -----

  /** Possible extensions of `g` by the first `m` candidates, in candidate order. */
  ghost function Children(t: Trellis, n: nat, g: Hypothesis, m: nat): seq<Hypothesis>
    requires g.observation + 1 == n < |t.widths| && m <= t.widths[n]
  {
    if m == 0 then []
    else Children(t, n, g, m - 1) + if Extends(t, n, g, m - 1) then [Extension(t, g, m - 1)] else []
  }

  ghost predicate Preceding(n: nat, beam: seq<Hypothesis>) {
    forall g :: g in beam ==> g.observation + 1 == n
  }

  ghost function AllChildren(t: Trellis, n: nat, beam: seq<Hypothesis>): seq<Hypothesis>
    requires n < |t.widths| && Preceding(n, beam)
  {
    if beam == [] then []
    else AllChildren(t, n, beam[..|beam| - 1]) + Children(t, n, beam[|beam| - 1], t.widths[n])
  }

  lemma {:induction false} ChildrenFacts(t: Trellis, n: nat, g: Hypothesis, m: nat)
    requires g.observation + 1 == n < |t.widths| && m <= t.widths[n]
    ensures forall h :: h in Children(t, n, g, m) ==>
              h.candidate < m && Extends(t, n, g, h.candidate) && h == Extension(t, g, h.candidate)
    ensures forall c :: 0 <= c < m && Extends(t, n, g, c) ==> Extension(t, g, c) in Children(t, n, g, m)
    ensures NoDuplicates(Children(t, n, g, m))
  {
    if m > 0 {
      ChildrenFacts(t, n, g, m - 1);
    }
  }

  lemma {:induction false} AllChildrenExpanded(t: Trellis, n: nat, beam: seq<Hypothesis>)
    requires n < |t.widths| && Preceding(n, beam) && NoDuplicates(beam)
    ensures Expanded(t, n, beam, AllChildren(t, n, beam))
  {
    hide Extension;
    if beam != [] {
      var front, last := beam[..|beam| - 1], beam[|beam| - 1];
      AllChildrenExpanded(t, n, front);
      ChildrenFacts(t, n, last, t.widths[n]);
      assert last !in front;
      assert beam == front + [last];
      var left, right := AllChildren(t, n, front), Children(t, n, last, t.widths[n]);
      forall h | h in right ensures IsExtension(t, n, beam, h) && h !in left {
        ExtensionPrevious(t, last, h.candidate);
      }
      forall h | h in left ensures IsExtension(t, n, beam, h) {
        assert IsExtension(t, n, front, h);
      }
      NoDuplicatesConcat(left, right);
    }
  }

  lemma ExtensionPrevious(t: Trellis, g: Hypothesis, c: nat)
    requires t.step(g.observation + 1, g.candidate, c).Some?
    ensures Extension(t, g, c).previous == Some(g) && Extension(t, g, c).candidate == c
  {
  }

  lemma NoDuplicatesConcat<T>(s: seq<T>, r: seq<T>)
    requires NoDuplicates(s) && NoDuplicates(r) && forall x :: x in r ==> x !in s
    ensures NoDuplicates(s + r)
  {
    forall i, j | 0 <= i < j < |s + r| ensures (s + r)[i] != (s + r)[j] {
      if i < |s| <= j {
        assert (s + r)[j] in r && (s + r)[i] in s;
      }
    }
  }

  lemma BatchNonEmpty(p: Problem, n: nat)
    requires p.Valid() && n < |p.batches|
    ensures p.batches[n] != []
  {
    assert ValidBatch(p.scene.graph, p.batches[n], n);
  }

  method ExpandFrom(p: Problem, ghost t: Trellis, n: nat, g: Hypothesis)
    returns (children: seq<Hypothesis>, rejected: nat, overflow: bool)
    requires p.Valid() && t == TrellisOf(p) && 0 < n < |p.batches|
    requires g.observation + 1 == n && g.candidate < |p.batches[n - 1]|
    ensures overflow <==> ElapsedOverflows(p.scene.observations[n - 1].time, p.scene.observations[n].time)
    ensures n < |t.widths| && t.widths[n] == |p.batches[n]|
    ensures !overflow ==> children == Children(t, n, g, |p.batches[n]|) && |children| + rejected == |p.batches[n]|
  {
    hide TransitionOf, StepMeaning, ElapsedOverflows, UniqueIds, ValidBatch, ValidDecoder, InOrder, Round;
    TrellisFacts(p);
    children, rejected, overflow := [], 0, false;
    BatchNonEmpty(p, n);
    var batch := p.batches[n];
    for c := 0 to |batch|
      invariant children == Children(t, n, g, c)
      invariant |children| + rejected == c
      invariant c > 0 ==> !ElapsedOverflows(p.scene.observations[n - 1].time, p.scene.observations[n].time)
    {
      var transition := ScoreTransition(p.scene, n - 1, p.batches[n - 1][g.candidate], n, batch[c]);
      assert t.step(n, g.candidate, c) == TotalOf(transition);
      OnlyOverflow(p, n, g.candidate, c);
      if transition.Err? {
        overflow := true;
        return;
      }
      if transition.value.Impossible? {
        rejected := rejected + 1;
        continue;
      }
      var score := Round(g.score + transition.value.total + batch[c].emission, p.decoder.places);
      children := children + [Hypothesis(n, c, score, 0, Some(g))];
    }
  }

  /** With validated candidates only the elapsed time can make scoring fail. */
  lemma OnlyOverflow(p: Problem, n: nat, a: nat, b: nat)
    requires p.Valid() && 0 < n < |p.batches| && a < |p.batches[n - 1]| && b < |p.batches[n]|
    ensures TransitionOf(p.scene, n - 1, p.batches[n - 1][a], n, p.batches[n][b]).Err? <==>
      ElapsedOverflows(p.scene.observations[n - 1].time, p.scene.observations[n].time)
  {
    assert ValidBatch(p.scene.graph, p.batches[n], n) && ValidBatch(p.scene.graph, p.batches[n - 1], n - 1);
  }

  method Expand(p: Problem, ghost t: Trellis, n: nat, beam: seq<Hypothesis>)
    returns (expanded: seq<Hypothesis>, rejected: nat, overflow: bool)
    requires p.Valid() && t == TrellisOf(p) && 0 < n < |p.batches| && BeamOk(t, n, beam)
    ensures overflow <==> ElapsedOverflows(p.scene.observations[n - 1].time, p.scene.observations[n].time)
    ensures !overflow ==> Expanded(t, n, beam, expanded) && |expanded| + rejected == |beam| * |p.batches[n]|
  {
    hide TrellisOf;
    hide Expanded;
    hide AllRepresent;
    hide NoDuplicates;
    hide RankOrdered;
    hide Children;
    hide ElapsedOverflows;
    hide UniqueIds;
    TrellisFacts(p);
    BeamCandidates(t, n, beam);
    expanded, rejected, overflow := [], 0, false;
    ghost var product := 0;
    for i := 0 to |beam|
      invariant expanded == AllChildren(t, n, beam[..i])
      invariant |expanded| + rejected == product == i * |p.batches[n]|
      invariant i > 0 ==> !ElapsedOverflows(p.scene.observations[n - 1].time, p.scene.observations[n].time)
    {
      var children, refused;
      assert beam[i] in beam;
      children, refused, overflow := ExpandFrom(p, t, n, beam[i]);
      if overflow {
        return;
      }
      assert beam[..i + 1][..i] == beam[..i];
      assert (i + 1) * |p.batches[n]| == i * |p.batches[n]| + |p.batches[n]|;
      expanded, rejected, product := expanded + children, rejected + refused, product + |p.batches[n]|;
    }
    assert beam[..|beam|] == beam;
    AllChildrenExpanded(t, n, beam);
  }

  lemma BeamCandidates(t: Trellis, n: nat, beam: seq<Hypothesis>)
    requires 0 < n && BeamOk(t, n, beam)
    ensures Preceding(n, beam) && NoDuplicates(beam) && n <= |t.widths|
    ensures forall g :: g in beam ==> g.candidate < t.widths[n - 1]
  {
    hide Score;
    forall g | g in beam ensures g.observation + 1 == n <= |t.widths| && g.candidate < t.widths[n - 1] {
      assert Represents(t, n, g);
      PathFront(g);
    }
    assert beam[0] in beam;
  }
}
