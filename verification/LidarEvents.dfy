/** Consolidation of raw failures into groups (`LidarIntegrityAnalyzer._events`). */
module LidarEvents {
  import opened Sorting
  import opened Clustering

  /** A rule is known by its place in the priority list, a severity by its own. */
  datatype Failure = Failure(rule: nat, frame: int, start: int, end: int, severity: nat,
                             measurements: map<string, real>, offsets: set<nat>)

  predicate Earlier(x: Failure, y: Failure) {
    x.rule < y.rule || (x.rule == y.rule && x.frame < y.frame)
  }

  /** Two successive failures that one event holds. */
  predicate Linked(x: Failure, y: Failure) {
    x.rule == y.rule && y.frame <= x.frame + 1
  }

  ghost predicate IsRun(g: seq<Failure>) {
    && g != [] && Sorted(Earlier, g)
    && forall i, j :: 0 <= i && i + 1 == j < |g| ==> Linked(g[i], g[j])
  }

  ghost predicate AllRuns(groups: seq<seq<Failure>>) {
    forall i :: 0 <= i < |groups| ==> IsRun(groups[i])
  }

  /** Nothing in a later group comes before anything in an earlier one. */
  ghost predicate Ordered(groups: seq<seq<Failure>>) {
    forall i, j, k, l :: 0 <= i < j < |groups| && 0 <= k < |groups[i]| && 0 <= l < |groups[j]| ==>
      !Earlier(groups[j][l], groups[i][k])
  }

  ghost predicate Broken(groups: seq<seq<Failure>>)
    requires AllRuns(groups)
  {
    forall i, j :: 0 <= i && i + 1 == j < |groups| ==> Parted(groups[i], groups[j])
  }

  ghost predicate Parted(g: seq<Failure>, h: seq<Failure>) {
    g != [] && h != [] && !Linked(g[|g| - 1], h[0])
  }

  ghost predicate Grouped(groups: seq<seq<Failure>>, failures: seq<Failure>) {
    && AllRuns(groups) && Ordered(groups) && Broken(groups)
    && Flatten(groups) == failures
  }

  lemma {:induction false} FlattenSnoc<T>(groups: seq<seq<T>>, g: seq<T>)
    ensures Flatten(groups + [g]) == Flatten(groups) + g
  {
    if groups == [] {
      assert (groups + [g])[1..] == [];
    } else {
      FlattenSnoc(groups[1..], g);
      assert (groups + [g])[1..] == groups[1..] + [g];
    }
  }

  lemma LastBefore(groups: seq<seq<Failure>>, failures: seq<Failure>, f: Failure)
    requires Flatten(groups) == failures && Sorted(Earlier, failures + [f])
    ensures forall i, k :: 0 <= i < |groups| && 0 <= k < |groups[i]| ==> !Earlier(f, groups[i][k])
  {
    forall i, k | 0 <= i < |groups| && 0 <= k < |groups[i]| ensures !Earlier(f, groups[i][k]) {
      InFlatten(groups, i, k);
      var m :| 0 <= m < |failures| && failures[m] == groups[i][k];
      assert (failures + [f])[m] == failures[m] && (failures + [f])[|failures|] == f;
    }
  }

  lemma StartsGroup(groups: seq<seq<Failure>>, failures: seq<Failure>, f: Failure)
    requires Grouped(groups, failures) && Sorted(Earlier, failures + [f])
    requires groups == [] || var last := groups[|groups| - 1]; !Linked(last[|last| - 1], f)
    ensures Grouped(groups + [[f]], failures + [f])
  {
    hide Linked, Sorted;
    LastBefore(groups, failures, f);
    FlattenSnoc(groups, [f]);
    assert IsRun([f]) by { SingleRun(f); }
  }

  lemma SingleRun(f: Failure)
    ensures IsRun([f])
  {
  }

  lemma RunExtended(g: seq<Failure>, f: Failure)
    requires IsRun(g) && Linked(g[|g| - 1], f) && forall k :: 0 <= k < |g| ==> !Earlier(f, g[k])
    ensures IsRun(g + [f])
  {
  }

  /** The groups after the last one takes one more failure. */
  ghost function Joined(groups: seq<seq<Failure>>, f: Failure): seq<seq<Failure>>
    requires groups != []
  {
    groups[..|groups| - 1] + [groups[|groups| - 1] + [f]]
  }

  ghost predicate LatestIs(groups: seq<seq<Failure>>, f: Failure) {
    forall i, k :: 0 <= i < |groups| && 0 <= k < |groups[i]| ==> !Earlier(f, groups[i][k])
  }

  lemma JoinedOrdered(groups: seq<seq<Failure>>, f: Failure)
    requires groups != [] && Ordered(groups) && LatestIs(groups, f)
    ensures Ordered(Joined(groups, f))
  {
    hide Earlier;
    var joined, n := Joined(groups, f), |groups| - 1;
    forall i, j, k, l | 0 <= i < j < |joined| && 0 <= k < |joined[i]| && 0 <= l < |joined[j]|
      ensures !Earlier(joined[j][l], joined[i][k])
    {
      assert joined[i] == groups[i];
      if j < n || l < |groups[n]| {
        assert joined[j][l] == groups[j][l];
      } else {
        assert joined[j][l] == f;
      }
    }
  }

  lemma JoinedBroken(groups: seq<seq<Failure>>, f: Failure)
    requires groups != [] && AllRuns(groups) && AllRuns(Joined(groups, f)) && Broken(groups)
    ensures Broken(Joined(groups, f))
  {
    hide Linked, IsRun;
    var joined := Joined(groups, f);
    forall i, j | 0 <= i && i + 1 == j < |joined| ensures Parted(joined[i], joined[j]) {
      assert Parted(groups[i], groups[j]);
      assert joined[i] == groups[i] && joined[j][0] == groups[j][0];
    }
  }

  lemma JoinedRuns(groups: seq<seq<Failure>>, f: Failure)
    requires groups != [] && AllRuns(groups) && LatestIs(groups, f)
    requires var last := groups[|groups| - 1]; last != [] && Linked(last[|last| - 1], f)
    ensures AllRuns(Joined(groups, f))
  {
    hide Linked, IsRun, Earlier;
    var joined, n := Joined(groups, f), |groups| - 1;
    RunExtended(groups[n], f);
    forall i | 0 <= i < |joined| ensures IsRun(joined[i]) {
      assert i < n ==> joined[i] == groups[i];
    }
  }

  lemma JoinsGroup(groups: seq<seq<Failure>>, failures: seq<Failure>, f: Failure)
    requires Grouped(groups, failures) && Sorted(Earlier, failures + [f])
    requires groups != [] && var last := groups[|groups| - 1]; last != [] && Linked(last[|last| - 1], f)
    ensures Grouped(Joined(groups, f), failures + [f])
  {
    hide Linked, Sorted, IsRun, Earlier, Ordered, Broken;
    var front, last := groups[..|groups| - 1], groups[|groups| - 1];
    LastBefore(groups, failures, f);
    assert groups == front + [last];
    FlattenSnoc(front, last);
    FlattenSnoc(front, last + [f]);
    JoinedRuns(groups, f);
    JoinedOrdered(groups, f);
    JoinedBroken(groups, f);
  }

  lemma RunNonempty(groups: seq<seq<Failure>>)
    requires AllRuns(groups)
    ensures forall i :: 0 <= i < |groups| ==> groups[i] != []
  {
  }

  /** One pass over the failures in order of rule and frame. */
  method GroupFailures(failures: seq<Failure>) returns (groups: seq<seq<Failure>>, sorted: seq<Failure>)
    ensures Sorted(Earlier, sorted) && multiset(sorted) == multiset(failures)
    ensures Grouped(groups, sorted)
  {
    hide Sorted, Ordered, Broken, IsRun;
    assert StrictWeak(Earlier);
    sorted := Sort(Earlier, failures);
    groups := [];
    assert Grouped([], []) by { NoGroups(); }
    for n := 0 to |sorted|
      invariant Grouped(groups, sorted[..n])
    {
      var f := sorted[n];
      assert sorted[..n] + [f] == sorted[..n + 1];
      SortedPrefix(sorted, n + 1);
      RunNonempty(groups);
      if groups == [] {
        StartsGroup(groups, sorted[..n], f);
        groups := groups + [[f]];
      } else {
        var last := groups[|groups| - 1];
        RunSameRule(groups, |groups| - 1);
        if last[0].rule != f.rule || f.frame > last[|last| - 1].frame + 1 {
          StartsGroup(groups, sorted[..n], f);
          groups := groups + [[f]];
        } else {
          JoinsGroup(groups, sorted[..n], f);
          groups := groups[..|groups| - 1] + [last + [f]];
        }
      }
    }
    assert sorted[..|sorted|] == sorted;
  }

  lemma NoGroups()
    ensures Grouped([], [])
  {
  }

  lemma SortedPrefix(s: seq<Failure>, n: nat)
    requires Sorted(Earlier, s) && n <= |s|
    ensures Sorted(Earlier, s[..n])
  {
  }

  lemma {:induction false} RunRule(g: seq<Failure>, k: nat)
    requires IsRun(g) && k < |g|
    ensures g[k].rule == g[0].rule
  {
    if k > 0 {
      RunRule(g, k - 1);
      assert Linked(g[k - 1], g[k]);
    }
  }

  lemma RunSameRule(groups: seq<seq<Failure>>, i: nat)
    requires AllRuns(groups) && i < |groups|
    ensures groups[i] != [] && forall k :: 0 <= k < |groups[i]| ==> groups[i][k].rule == groups[i][0].rule
  {
    forall k | 0 <= k < |groups[i]| ensures groups[i][k].rule == groups[i][0].rule {
      RunRule(groups[i], k);
    }
  }

  // ----- events are the unbroken stretches of frames -----

  ghost predicate FailsAt(failures: seq<Failure>, rule: nat, frame: int) {
    exists f :: f in failures && f.rule == rule && f.frame == frame
  }

  /** Every frame from `from` to `until` has a failure of the rule. */
  ghost predicate Unbroken(failures: seq<Failure>, rule: nat, from: int, until: int) {
    forall frame :: from <= frame <= until ==> FailsAt(failures, rule, frame)
  }

  /** A run has a failure at every frame between any two of its own. */
  lemma {:induction false} RunCovers(g: seq<Failure>, i: nat, j: nat, frame: int)
    requires IsRun(g) && i <= j < |g| && g[i].frame <= frame <= g[j].frame
    ensures FailsAt(g, g[0].rule, frame)
    decreases j
  {
    RunRule(g, j);
    if frame == g[j].frame {
      assert g[j] in g;
    } else {
      assert i < j && Linked(g[j - 1], g[j]);
      RunCovers(g, i, j - 1, frame);
    }
  }

  lemma RunOrder(g: seq<Failure>, i: nat, j: nat)
    requires IsRun(g) && i <= j < |g|
    ensures g[i].frame <= g[j].frame
  {
    RunRule(g, i);
    RunRule(g, j);
    assert i < j ==> !Earlier(g[j], g[i]);
  }

  /** No failure falls in the frame that follows a group when a later group has its rule. */
  lemma GapAfterGroup(groups: seq<seq<Failure>>, failures: seq<Failure>, i: nat, j: nat)
    requires Grouped(groups, failures) && i < j < |groups| && groups[i] != [] && groups[j] != []
    requires groups[i][0].rule == groups[j][0].rule
    ensures var gap := groups[i][|groups[i]| - 1].frame + 1;
      !FailsAt(failures, groups[i][0].rule, gap) && forall l :: 0 <= l < |groups[j]| ==> gap < groups[j][l].frame
  {
    hide Sorted, IsRun, Flatten;
    var g, h := groups[i], groups[i + 1];
    var rule, last := g[0].rule, g[|g| - 1];
    RunSameRule(groups, i);
    RunSameRule(groups, i + 1);
    RunSameRule(groups, j);
    assert Parted(g, h);
    NextSameRule(groups, i, j);
    assert h[0].frame > last.frame + 1;
    forall l | 0 <= l < |groups[j]| ensures last.frame + 1 < groups[j][l].frame {
      if j == i + 1 {
        FirstEarliest(groups, j, l);
      } else {
        assert !Earlier(groups[j][l], h[0]);
      }
    }
    if x :| x in failures && x.rule == rule && x.frame == last.frame + 1 {
      var m, k := FlattenMember(groups, x);
      AroundGap(groups, i, m, k);
      assert false;
    }
  }

  /** A failure of the rule is no later than the group or no earlier than the next one. */
  lemma AroundGap(groups: seq<seq<Failure>>, i: nat, m: nat, k: nat)
    requires AllRuns(groups) && Ordered(groups) && i + 1 < |groups| && m < |groups| && k < |groups[m]|
    requires groups[i] != [] && groups[i + 1] != []
    requires groups[m][k].rule == groups[i][|groups[i]| - 1].rule == groups[i + 1][0].rule
    ensures groups[m][k].frame <= groups[i][|groups[i]| - 1].frame || groups[m][k].frame >= groups[i + 1][0].frame
  {
    hide IsRun;
    if m < i {
      assert !Earlier(groups[i][|groups[i]| - 1], groups[m][k]);
    } else if m == i {
      LastLatest(groups, i, k);
    } else if m == i + 1 {
      FirstEarliest(groups, m, k);
    } else {
      assert !Earlier(groups[m][k], groups[i + 1][0]);
    }
  }

  lemma NextSameRule(groups: seq<seq<Failure>>, i: nat, j: nat)
    requires AllRuns(groups) && Ordered(groups) && i < j < |groups| && groups[i] != [] && groups[j] != []
    requires groups[i][0].rule == groups[j][0].rule
    ensures groups[i + 1] != [] && groups[i + 1][0].rule == groups[i][0].rule
  {
    hide IsRun;
    RunNonempty(groups);
    assert !Earlier(groups[i + 1][0], groups[i][0]);
    assert i + 1 < j ==> !Earlier(groups[j][0], groups[i + 1][0]);
  }

  lemma FirstEarliest(groups: seq<seq<Failure>>, i: nat, k: nat)
    requires AllRuns(groups) && i < |groups| && k < |groups[i]|
    ensures groups[i][0].frame <= groups[i][k].frame
  {
    RunOrder(groups[i], 0, k);
  }

  lemma LastLatest(groups: seq<seq<Failure>>, i: nat, k: nat)
    requires AllRuns(groups) && i < |groups| && k < |groups[i]|
    ensures groups[i][k].frame <= groups[i][|groups[i]| - 1].frame
  {
    RunOrder(groups[i], k, |groups[i]| - 1);
  }

  /** Two failures share an event exactly when their rule failed at every frame between them. */
  lemma SameEventIffUnbroken(groups: seq<seq<Failure>>, failures: seq<Failure>, i: nat, k: nat, j: nat, l: nat)
    requires Grouped(groups, failures)
    requires i <= j < |groups| && k < |groups[i]| && l < |groups[j]|
    requires groups[i][k].frame <= groups[j][l].frame && groups[i][k].rule == groups[j][l].rule
    ensures i == j <==> Unbroken(failures, groups[i][k].rule, groups[i][k].frame, groups[j][l].frame)
  {
    hide Flatten, Ordered, Broken;
    RunSameRule(groups, i);
    RunSameRule(groups, j);
    if i == j {
      forall frame | groups[i][k].frame <= frame <= groups[i][l].frame
        ensures FailsAt(failures, groups[i][k].rule, frame)
      {
        CoveredInGroup(groups, i, k, l, frame);
      }
    } else {
      GapAfterGroup(groups, failures, i, j);
      LastLatest(groups, i, k);
    }
  }

  lemma CoveredInGroup(groups: seq<seq<Failure>>, i: nat, k: nat, l: nat, frame: int)
    requires AllRuns(groups) && i < |groups| && k < |groups[i]| && l < |groups[i]|
    requires groups[i][k].frame <= frame <= groups[i][l].frame
    ensures FailsAt(Flatten(groups), groups[i][0].rule, frame)
  {
    var g := groups[i];
    if k <= l {
      RunCovers(g, k, l, frame);
    } else {
      RunOrder(g, l, k);
      RunCovers(g, k, k, frame);
    }
    var f :| f in g && f.rule == g[0].rule && f.frame == frame;
    var m :| 0 <= m < |g| && g[m] == f;
    InFlatten(groups, i, m);
  }
}
