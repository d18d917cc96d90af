/** One observation of the beam decoder: expansion, ranking and pruning of a beam. */
module BeamStep {
  import opened Wrappers
  import opened Rounding
  import opened Sorting
  import opened TrellisPaths
  import opened Beam

  /** A beam after `n` observations. */
  ghost predicate BeamOk(t: Trellis, n: nat, beam: seq<Hypothesis>) {
    beam != [] && AllRepresent(t, n, beam) && DistinctPaths(beam) && RankOrdered(t, beam)
  }

  ghost predicate ChildrenOf(beam: seq<Hypothesis>, s: seq<Hypothesis>) {
    forall h :: h in s ==> h.previous.Some? && h.previous.value in beam
  }

  /** `ids` lists the candidate ids of the last of `n` observations. */
  ghost predicate IdsOf(t: Trellis, n: nat, ids: seq<string>) {
    0 < n <= |t.widths| && |ids| == t.widths[n - 1] && forall c: nat :: c < |ids| ==> ids[c] == t.id(n - 1, c)
  }

  /** The hypothesis that extends `g` by candidate `c`. */
  ghost function Extension(t: Trellis, g: Hypothesis, c: nat): Hypothesis
    requires t.step(g.observation + 1, g.candidate, c).Some?
  {
    Hypothesis(g.observation + 1, c,
               Round(g.score + t.step(g.observation + 1, g.candidate, c).value + t.emission(g.observation + 1, c),
                     t.places),
               0, Some(g))
  }

  ghost predicate Extends(t: Trellis, n: nat, g: Hypothesis, c: nat) {
    n < |t.widths| && g.observation + 1 == n && c < t.widths[n] && t.step(n, g.candidate, c).Some?
  }

  ghost predicate IsExtension(t: Trellis, n: nat, beam: seq<Hypothesis>, h: Hypothesis) {
    && h.previous.Some? && h.previous.value in beam && Extends(t, n, h.previous.value, h.candidate)
    && h == Extension(t, h.previous.value, h.candidate)
  }

  /** All possible extensions of the beam, each once. */
  ghost predicate Expanded(t: Trellis, n: nat, beam: seq<Hypothesis>, expanded: seq<Hypothesis>) {
    && (forall h :: h in expanded ==> IsExtension(t, n, beam, h))
    && (forall g, c: nat :: g in beam && Extends(t, n, g, c) ==> Extension(t, g, c) in expanded)
    && NoDuplicates(expanded)
  }

  lemma ExtensionRepresents(t: Trellis, n: nat, beam: seq<Hypothesis>, h: Hypothesis)
    requires AllRepresent(t, n, beam) && IsExtension(t, n, beam, h)
    ensures Represents(t, n + 1, h)
  {
    var g := h.previous.value;
    assert Represents(t, n, g);
    PathFront(g);
    PathFront(h);
    SnocScore(t, Path(g), h.candidate);
    assert Path(h) == Path(g) + [h.candidate];
  }

  lemma ExtensionReaches(t: Trellis, n: nat, beam: seq<Hypothesis>, expanded: seq<Hypothesis>, s: seq<nat>)
    requires AllRepresent(t, n, beam) && n > 0
    requires forall g, c: nat :: g in beam && Extends(t, n, g, c) ==> Extension(t, g, c) in expanded
    requires GraphValid(t, s) && |s| == n + 1 && Front(s) in Paths(beam)
    ensures s in Paths(expanded)
  {
    hide Score;
    hide Round;
    var g := MemberOfPaths(beam, Front(s));
    assert Represents(t, n, g);
    FrontValid(t, s);
    PathFront(g);
    assert Extends(t, n, g, Final(s));
    var h := Extension(t, g, Final(s));
    assert h in expanded && Path(h) == Path(g) + [h.candidate] == s;
    PathsMember(expanded, h);
  }

  lemma ExpandedRepresents(t: Trellis, n: nat, beam: seq<Hypothesis>, expanded: seq<Hypothesis>)
    requires AllRepresent(t, n, beam) && forall h :: h in expanded ==> IsExtension(t, n, beam, h)
    ensures AllRepresent(t, n + 1, expanded) && ChildrenOf(beam, expanded)
    ensures forall h :: h in expanded ==> Front(Path(h)) in Paths(beam)
  {
    hide Represents;
    hide Extension;
    forall h | h in expanded ensures Represents(t, n + 1, h) && Front(Path(h)) in Paths(beam) {
      ExtensionRepresents(t, n, beam, h);
      PathFront(h);
      PathsMember(beam, h.previous.value);
    }
  }

  /** The expanded beam stands for exactly the possible extensions of the sequences in the beam. */
  lemma ExpandedIsExpansion(t: Trellis, n: nat, beam: seq<Hypothesis>, expanded: seq<Hypothesis>)
    requires n > 0 && BeamOk(t, n, beam) && Expanded(t, n, beam, expanded)
    ensures AllRepresent(t, n + 1, expanded) && ChildrenOf(beam, expanded)
    ensures Expansion(t, n, Paths(beam), Paths(expanded))
  {
    hide Extension;
    hide IsExtension;
    hide GraphValid;
    hide Score;
    ExpandedRepresents(t, n, beam, expanded);
    forall s | GraphValid(t, s) && |s| == n + 1 && Front(s) in Paths(beam) ensures s in Paths(expanded) {
      ExtensionReaches(t, n, beam, expanded, s);
    }
    forall s | s in Paths(expanded) ensures GraphValid(t, s) && |s| == n + 1 && Front(s) in Paths(beam) {
      var h := MemberOfPaths(expanded, s);
      assert Represents(t, n + 1, h);
    }
  }

  lemma ExpandedDistinct(t: Trellis, n: nat, beam: seq<Hypothesis>, expanded: seq<Hypothesis>)
    requires BeamOk(t, n, beam) && Expanded(t, n, beam, expanded)
    ensures DistinctPaths(expanded)
  {
    forall g, h | g in expanded && h in expanded && Path(g) == Path(h) ensures g == h {
      PathFront(g);
      PathFront(h);
      assert IsExtension(t, n, beam, g) && IsExtension(t, n, beam, h);
    }
  }

  // ----- ranking -----

  lemma KeysDifferByPath(t: Trellis, n: nat, earlier: seq<Hypothesis>, ids: seq<string>, s: seq<Hypothesis>)
    requires UniqueIds(t) && IdsOf(t, n, ids) && AllRepresent(t, n, s) && DistinctPaths(s)
    requires n > 1 ==> BeamOk(t, n - 1, earlier) && ChildrenOf(earlier, s)
    requires n == 1 ==> forall h :: h in s ==> h.previous.None?
    ensures KeysDiffer(ids, s)
  {
    hide Before;
    hide KeyLess;
    forall i, j | 0 <= i < j < |s| ensures KeyLess(ids, s[i], s[j]) || KeyLess(ids, s[j], s[i]) {
      var g, h := s[i], s[j];
      assert g in s && h in s && Represents(t, n, g) && Represents(t, n, h);
      KeysAreLexicographic(t, n, earlier, ids, g, h);
      KeysAreLexicographic(t, n, earlier, ids, h, g);
      BeforeTotal(t, Path(g), Path(h));
    }
  }

  /** `r` is `s` with new ranks. */
  ghost predicate Reranked(s: seq<Hypothesis>, r: seq<Hypothesis>) {
    |r| == |s| && forall i :: 0 <= i < |s| ==> r[i] == s[i].(rank := r[i].rank)
  }

  lemma RerankedPath(h: Hypothesis, rank: nat)
    ensures Path(h.(rank := rank)) == Path(h)
  {
  }

  lemma RerankedFacts(t: Trellis, n: nat, s: seq<Hypothesis>, r: seq<Hypothesis>)
    requires Reranked(s, r) && AllRepresent(t, n, s) && DistinctPaths(s)
    ensures AllRepresent(t, n, r) && DistinctPaths(r) && Paths(r) == Paths(s)
    ensures forall beam :: ChildrenOf(beam, s) ==> ChildrenOf(beam, r)
  {
    hide Score;
    forall i | 0 <= i < |s| ensures Path(r[i]) == Path(s[i]) && r[i] in r && s[i] in s {
      RerankedPath(s[i], r[i].rank);
    }
    forall i | 0 <= i < |s| ensures Represents(t, n, r[i]) {
      assert Represents(t, n, s[i]);
    }
    forall i, j | 0 <= i < |s| && 0 <= j < |s| && Path(r[i]) == Path(r[j]) ensures i == j {
      assert s[i] == s[j];
    }
  }

  /** Ranks assigned by key order the beam as the id sequences do. */
  lemma RerankedOrder(t: Trellis, n: nat, earlier: seq<Hypothesis>, ids: seq<string>,
                      s: seq<Hypothesis>, r: seq<Hypothesis>)
    requires UniqueIds(t) && IdsOf(t, n, ids) && AllRepresent(t, n, s) && Reranked(s, r)
    requires n > 1 ==> BeamOk(t, n - 1, earlier) && ChildrenOf(earlier, s)
    requires n == 1 ==> forall h :: h in s ==> h.previous.None?
    requires forall i, j :: 0 <= i < |s| && 0 <= j < |s| ==> (r[i].rank < r[j].rank <==> KeyLess(ids, s[i], s[j]))
    ensures RankOrdered(t, r)
  {
    hide Before;
    hide KeyLess;
    forall i, j | 0 <= i < |s| && 0 <= j < |s|
      ensures r[i].rank < r[j].rank <==> Before(t, Path(r[i]), Path(r[j]))
    {
      assert s[i] in s && s[j] in s && Represents(t, n, s[i]) && Represents(t, n, s[j]);
      KeysAreLexicographic(t, n, earlier, ids, s[i], s[j]);
      RerankedPath(s[i], r[i].rank);
      RerankedPath(s[j], r[j].rank);
    }
  }

  method Rank(ghost t: Trellis, ghost n: nat, ghost earlier: seq<Hypothesis>, ids: seq<string>, s: seq<Hypothesis>)
    returns (r: seq<Hypothesis>)
    requires UniqueIds(t) && IdsOf(t, n, ids) && AllRepresent(t, n, s) && DistinctPaths(s)
    requires n > 1 ==> BeamOk(t, n - 1, earlier) && ChildrenOf(earlier, s)
    requires n == 1 ==> forall h :: h in s ==> h.previous.None?
    ensures Reranked(s, r) && AllRepresent(t, n, r) && DistinctPaths(r) && RankOrdered(t, r)
    ensures Paths(r) == Paths(s) && (n > 1 ==> ChildrenOf(earlier, r))
  {
    hide AllRepresent;
    hide UniqueIds;
    KeysDifferByPath(t, n, earlier, ids, s);
    r := AssignRanks(ids, s);
    RerankedFacts(t, n, s, r);
    RerankedOrder(t, n, earlier, ids, s, r);
  }

  // ----- parts of a beam -----

  /** Any part of a ranked, distinct set of hypotheses is one too. */
  lemma PartFacts(t: Trellis, n: nat, s: seq<Hypothesis>, part: seq<Hypothesis>)
    requires AllRepresent(t, n, s) && DistinctPaths(s) && NoDuplicates(part)
    requires forall h :: h in part ==> h in s
    ensures AllRepresent(t, n, part) && DistinctPaths(part)
    ensures RankOrdered(t, s) ==> RankOrdered(t, part)
    ensures forall beam :: ChildrenOf(beam, s) ==> ChildrenOf(beam, part)
  {
    hide Represents;
    hide Before;
  }
}
