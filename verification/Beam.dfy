/** Beam hypotheses: back-pointers, lexicographic ranks and pruning. */
module Beam {
  import opened Wrappers
  import opened Lexicographic
  import opened Sorting
  import opened TrellisPaths

  datatype Hypothesis = Hypothesis(observation: nat, candidate: nat, score: real, rank: nat,
                                   previous: Option<Hypothesis>)

  function Path(h: Hypothesis): (s: seq<nat>)
    ensures s != [] && s[|s| - 1] == h.candidate
  {
    PathTo(h.previous) + [h.candidate]
  }

  lemma PathFront(h: Hypothesis)
    ensures Front(Path(h)) == PathTo(h.previous)
    ensures Final(Path(h)) == h.candidate
  {
  }

  function PathTo(h: Option<Hypothesis>): seq<nat> {
    if h.Some? then Path(h.value) else []
  }

  function Reverse<T>(s: seq<T>): (r: seq<T>)
    ensures |r| == |s| && forall i :: 0 <= i < |s| ==> r[i] == s[|s| - 1 - i]
  {
    seq(|s|, i requires 0 <= i < |s| => s[|s| - 1 - i])
  }

  lemma ReverseSnoc<T>(before: seq<T>, s: seq<T>, x: T)
    ensures before + [x] + Reverse(s) == before + Reverse(s + [x])
  {
    assert Reverse(s + [x]) == [x] + Reverse(s);
  }

  /** Follow the back-pointers, then reverse. */
  method Reconstruct(h: Hypothesis) returns (path: seq<nat>)
    ensures path == Path(h)
  {
    var reversed := [];
    var current := Some(h);
    while current.Some?
      invariant Path(h) == PathTo(current) + Reverse(reversed)
      decreases current
    {
      hide Reverse;
      ReverseSnoc(PathTo(current.value.previous), reversed, current.value.candidate);
      reversed := reversed + [current.value.candidate];
      current := current.value.previous;
    }
    path := Reverse(reversed);
  }

  // ----- a beam and the sequences it stands for -----

  ghost function Paths(beam: seq<Hypothesis>): (paths: seq<seq<nat>>)
    ensures |paths| == |beam| && forall i :: 0 <= i < |beam| ==> paths[i] == Path(beam[i])
  {
    seq(|beam|, i requires 0 <= i < |beam| => Path(beam[i]))
  }

  lemma PathsMember(beam: seq<Hypothesis>, h: Hypothesis)
    requires h in beam
    ensures Path(h) in Paths(beam)
  {
    var i :| 0 <= i < |beam| && beam[i] == h;
    assert Paths(beam)[i] == Path(h);
  }

  lemma MemberOfPaths(beam: seq<Hypothesis>, s: seq<nat>) returns (h: Hypothesis)
    requires s in Paths(beam)
    ensures h in beam && Path(h) == s
  {
    var i :| 0 <= i < |beam| && Paths(beam)[i] == s;
    h := beam[i];
  }

  ghost predicate Represents(t: Trellis, n: nat, h: Hypothesis) {
    h.observation + 1 == n && GraphValid(t, Path(h)) && |Path(h)| == n && h.score == Score(t, Path(h))
  }

  ghost predicate AllRepresent(t: Trellis, n: nat, beam: seq<Hypothesis>) {
    forall h :: h in beam ==> Represents(t, n, h)
  }

  ghost predicate DistinctPaths(beam: seq<Hypothesis>) {
    NoDuplicates(beam) && forall g, h :: g in beam && h in beam && Path(g) == Path(h) ==> g == h
  }

  /** Ranks order the beam as the id sequences do. */
  ghost predicate RankOrdered(t: Trellis, beam: seq<Hypothesis>) {
    forall g, h :: g in beam && h in beam ==> (g.rank < h.rank <==> Before(t, Path(g), Path(h)))
  }

  // ----- ranks -----

  function PreviousRank(h: Hypothesis): nat {
    if h.previous.Some? then h.previous.value.rank else 0
  }

  predicate KeyLess(ids: seq<string>, g: Hypothesis, h: Hypothesis) {
    PreviousRank(g) < PreviousRank(h) ||
    (PreviousRank(g) == PreviousRank(h) && StringLess(IdAt(ids, g.candidate), IdAt(ids, h.candidate)))
  }

  function IdAt(ids: seq<string>, c: nat): string {
    if c < |ids| then ids[c] else ""
  }

  datatype Indexed = Indexed(index: nat, hypothesis: Hypothesis)

  function KeyOrder(ids: seq<string>): (Indexed, Indexed) -> bool {
    (x: Indexed, y: Indexed) => KeyLess(ids, x.hypothesis, y.hypothesis)
  }

  lemma KeyOrderStrictWeak(ids: seq<string>)
    ensures StrictWeak(KeyOrder(ids))
  {
    StringLessTotal();
    hide StringLess;
  }

  ghost predicate KeysDiffer(ids: seq<string>, beam: seq<Hypothesis>) {
    forall i, j :: 0 <= i < j < |beam| ==> KeyLess(ids, beam[i], beam[j]) || KeyLess(ids, beam[j], beam[i])
  }

  /** Rank the beam by (rank of the previous hypothesis, candidate id), leaving its order alone. */
  method AssignRanks(ids: seq<string>, beam: seq<Hypothesis>) returns (ranked: seq<Hypothesis>)
    requires KeysDiffer(ids, beam)
    ensures |ranked| == |beam|
    ensures forall i :: 0 <= i < |beam| ==> ranked[i] == beam[i].(rank := ranked[i].rank)
    ensures forall i, j :: 0 <= i < |beam| && 0 <= j < |beam| ==>
              (ranked[i].rank < ranked[j].rank <==> KeyLess(ids, beam[i], beam[j]))
  {
    KeyOrderStrictWeak(ids);
    var pairs := seq(|beam|, i requires 0 <= i < |beam| => Indexed(i, beam[i]));
    var order := Sort(KeyOrder(ids), pairs);
    PermutationNoDuplicates(order, pairs);
    var ranks := new nat[|beam|];
    for index := 0 to |order|
      invariant forall k :: 0 <= k < index ==> order[k].index < ranks.Length && ranks[order[k].index] == k
    {
      assert order[index] in pairs;
      forall k | 0 <= k < index ensures order[k].index != order[index].index {
        assert order[k] in pairs && order[k] != order[index];
      }
      ranks[order[index].index] := index;
    }
    ranked := seq(|beam|, i requires 0 <= i < |beam| reads ranks => beam[i].(rank := ranks[i]));
    forall i | 0 <= i < |beam| ensures ranks[i] < |order| && order[ranks[i]] == Indexed(i, beam[i]) {
      assert pairs[i] in order;
    }
    RanksFollowKeys(ids, beam, order, ranks[..]);
  }

  lemma RanksFollowKeys(ids: seq<string>, beam: seq<Hypothesis>, order: seq<Indexed>, ranks: seq<nat>)
    requires KeysDiffer(ids, beam) && Sorted(KeyOrder(ids), order) && |ranks| == |beam|
    requires forall i :: 0 <= i < |beam| ==> ranks[i] < |order| && order[ranks[i]] == Indexed(i, beam[i])
    ensures forall i, j :: 0 <= i < |beam| && 0 <= j < |beam| ==>
              (ranks[i] < ranks[j] <==> KeyLess(ids, beam[i], beam[j]))
  {
    KeyOrderStrictWeak(ids);
    forall i, j | 0 <= i < |beam| && 0 <= j < |beam|
      ensures ranks[i] < ranks[j] <==> KeyLess(ids, beam[i], beam[j])
    {
      assert KeyLess(ids, beam[i], beam[j]) == KeyOrder(ids)(order[ranks[i]], order[ranks[j]]);
      assert KeyLess(ids, beam[j], beam[i]) == KeyOrder(ids)(order[ranks[j]], order[ranks[i]]);
      assert ranks[i] == ranks[j] ==> i == j;
    }
  }

  /** In a ranked beam equal ranks mean the same sequence. */
  lemma EqualRanks(t: Trellis, n: nat, beam: seq<Hypothesis>, g: Hypothesis, h: Hypothesis)
    requires UniqueIds(t) && AllRepresent(t, n, beam) && DistinctPaths(beam) && RankOrdered(t, beam)
    requires g in beam && h in beam
    ensures g.rank < h.rank <==> Before(t, Path(g), Path(h))
    ensures g.rank == h.rank <==> Path(g) == Path(h)
  {
    hide Before;
    hide Score;
    assert Represents(t, n, g) && Represents(t, n, h);
    BeforeTotal(t, Path(g), Path(h));
    assert h.rank < g.rank <==> Before(t, Path(h), Path(g));
  }

  /** Ranking by (previous rank, id) is ranking by whole id sequences. */
  lemma KeysAreLexicographic(t: Trellis, n: nat, earlier: seq<Hypothesis>, ids: seq<string>,
                             g: Hypothesis, h: Hypothesis)
    requires UniqueIds(t) && Represents(t, n, g) && Represents(t, n, h)
    requires |ids| == t.widths[n - 1] && forall c :: 0 <= c < |ids| ==> ids[c] == t.id(n - 1, c)
    requires n > 1 ==>
               && AllRepresent(t, n - 1, earlier) && DistinctPaths(earlier) && RankOrdered(t, earlier)
               && g.previous.Some? && g.previous.value in earlier && h.previous.Some? && h.previous.value in earlier
    requires n == 1 ==> g.previous.None? && h.previous.None?
    ensures KeyLess(ids, g, h) <==> Before(t, Path(g), Path(h))
  {
    hide UniqueIds;
    hide Less;
    hide Ids;
    hide StringLess;
    hide Score;
    hide Before;
    hide DistinctPaths;
    hide AllRepresent;
    hide RankOrdered;
    hide Path;
    PathFront(g);
    PathFront(h);
    BeforeSnoc(t, Path(g), Path(h));
    if n > 1 {
      EqualRanks(t, n - 1, earlier, g.previous.value, h.previous.value);
    } else {
      BeforeTotal(t, [], []);
    }
  }
}
