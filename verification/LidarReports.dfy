/** The events that groups of failures are reported as (`LidarIntegrityAnalyzer._events`). */
module LidarReports {
  import opened FiniteSets
  import opened Wrappers
  import opened Numbers
  import opened Lexicographic
  import opened Sorting
  import opened Clustering
  import opened LidarEvents

  datatype Event = Event(rule: nat, startFrame: int, endFrame: int, startTime: int, endTime: int, severity: nat,
                         measurements: map<string, real>, offsets: seq<nat>)

  // ----- frames -----

  ghost function Frames(g: seq<Failure>): set<int> {
    set f | f in g :: f.frame
  }

  /** The distinct frames of a group are all the frames from its first to its last. */
  lemma RunFrames(g: seq<Failure>)
    requires IsRun(g)
    ensures Frames(g) == Span(g[0].frame, g[|g| - 1].frame + 1)
    ensures g[0].frame <= g[|g| - 1].frame && |Frames(g)| == g[|g| - 1].frame - g[0].frame + 1
  {
    var first, last := g[0].frame, g[|g| - 1].frame;
    RunOrder(g, 0, |g| - 1);
    forall frame ensures frame in Frames(g) <==> frame in Span(first, last + 1) {
      if first <= frame <= last {
        RunCovers(g, 0, |g| - 1, frame);
      }
      if frame in Frames(g) {
        var f :| f in g && f.frame == frame;
        var k :| 0 <= k < |g| && g[k] == f;
        RunOrder(g, 0, k);
        RunOrder(g, k, |g| - 1);
      }
    }
  }

  // ----- extremes -----

  ghost predicate IsLeast(xs: seq<int>, m: int) {
    m in xs && forall x :: x in xs ==> m <= x
  }

  ghost predicate IsGreatest(xs: seq<int>, m: int) {
    m in xs && forall x :: x in xs ==> x <= m
  }

  method Least(xs: seq<int>) returns (m: int)
    requires xs != []
    ensures IsLeast(xs, m)
  {
    m := xs[0];
    for i := 1 to |xs|
      invariant m in xs && forall k :: 0 <= k < i ==> m <= xs[k]
    {
      m := if xs[i] < m then xs[i] else m;
    }
  }

  method Greatest(xs: seq<int>) returns (m: int)
    requires xs != []
    ensures IsGreatest(xs, m)
  {
    m := xs[0];
    for i := 1 to |xs|
      invariant m in xs && forall k :: 0 <= k < i ==> xs[k] <= m
    {
      m := MaxInt(m, xs[i]);
    }
  }

  function Starts(g: seq<Failure>): seq<int> { seq(|g|, i requires 0 <= i < |g| => g[i].start) }

  function Ends(g: seq<Failure>): seq<int> { seq(|g|, i requires 0 <= i < |g| => g[i].end) }

  function FrameList(g: seq<Failure>): seq<int> { seq(|g|, i requires 0 <= i < |g| => g[i].frame) }

  function Severities(g: seq<Failure>): seq<int> { seq(|g|, i requires 0 <= i < |g| => g[i].severity) }

  /** In a run the first frame is the least and the last one the greatest. */
  lemma RunExtremes(g: seq<Failure>, least: int, greatest: int)
    requires IsRun(g) && IsLeast(FrameList(g), least) && IsGreatest(FrameList(g), greatest)
    ensures least == g[0].frame && greatest == g[|g| - 1].frame
  {
    hide IsRun;
    assert FrameList(g)[0] in FrameList(g) && FrameList(g)[|g| - 1] in FrameList(g);
    var i :| 0 <= i < |g| && g[i].frame == least;
    var j :| 0 <= j < |g| && g[j].frame == greatest;
    RunOrder(g, 0, i);
    RunOrder(g, j, |g| - 1);
  }

  // ----- measurements -----

  ghost predicate MeasuredIn(g: seq<Failure>, key: string) {
    exists f :: f in g && key in f.measurements
  }

  ghost predicate GreatestMeasure(g: seq<Failure>, key: string, value: real) {
    (exists f :: f in g && key in f.measurements && f.measurements[key] == value) &&
    forall f :: f in g && key in f.measurements ==> f.measurements[key] <= value
  }

  method GreatestOf(g: seq<Failure>, key: string) returns (value: real)
    requires MeasuredIn(g, key)
    ensures GreatestMeasure(g, key, value)
  {
    var best: Option<real> := None;
    for i := 0 to |g|
      invariant best.None? ==> forall k :: 0 <= k < i ==> key !in g[k].measurements
      invariant best.Some? ==>
                  exists k :: 0 <= k < i && key in g[k].measurements && g[k].measurements[key] == best.value
      invariant best.Some? ==>
                  forall k :: 0 <= k < i && key in g[k].measurements ==> g[k].measurements[key] <= best.value
    {
      if key in g[i].measurements {
        best := Some(if best.None? then g[i].measurements[key] else Max(best.value, g[i].measurements[key]));
      }
    }
    return best.value;
  }

  /** Every measurement of the group at its greatest value. */
  ghost predicate MeasurementsOk(g: seq<Failure>, measurements: map<string, real>) {
    forall key :: (key in measurements <==> MeasuredIn(g, key)) &&
                  (key in measurements ==> GreatestMeasure(g, key, measurements[key]))
  }

  method Measurements(g: seq<Failure>) returns (measurements: map<string, real>)
    ensures MeasurementsOk(g, measurements)
  {
    hide GreatestMeasure;
    var keys := set f, key | f in g && key in f.measurements :: key;
    var left := keys;
    measurements := map[];
    while left != {}
      invariant left <= keys
      invariant forall key :: key in measurements <==> key in keys - left
      invariant forall key :: key in measurements ==> GreatestMeasure(g, key, measurements[key])
      decreases left
    {
      var key :| key in left;
      assert MeasuredIn(g, key);
      var value := GreatestOf(g, key);
      measurements := measurements[key := value];
      left := left - {key};
    }
  }

  // ----- representative offsets -----

  ghost predicate OffsetIn(g: seq<Failure>, offset: nat) {
    exists f :: f in g && offset in f.offsets
  }

  /** The least offsets of the group in increasing order, all of them unless there are more than `limit`. */
  ghost predicate OffsetsOk(g: seq<Failure>, limit: nat, offsets: seq<nat>) {
    && |offsets| <= limit
    && (forall i, j :: 0 <= i < j < |offsets| ==> offsets[i] < offsets[j])
    && (forall x :: x in offsets ==> OffsetIn(g, x))
    && (forall x: nat :: OffsetIn(g, x) && x !in offsets ==> |offsets| == limit && forall y :: y in offsets ==> y < x)
  }

  method ListSet(all: set<nat>) returns (r: seq<nat>)
    ensures NoDuplicates(r) && forall x :: x in r <==> x in all
  {
    var left := all;
    r := [];
    while left != {}
      invariant NoDuplicates(r) && left <= all && forall x :: x in r <==> x in all - left
      decreases left
    {
      var x :| x in left;
      assert x !in r;
      left := left - {x};
      r := r + [x];
    }
  }

  method Representatives(g: seq<Failure>, limit: nat) returns (offsets: seq<nat>)
    ensures OffsetsOk(g, limit, offsets)
  {
    var all := set f, x | f in g && x in f.offsets :: x;
    assert forall x: nat :: x in all <==> OffsetIn(g, x);
    var listed := ListSet(all);
    var sorted := Sort(NatLess, listed);
    PermutationNoDuplicates(sorted, listed);
    IncreasingPrefix(sorted, MinNat(limit, |sorted|));
    offsets := sorted[..MinNat(limit, |sorted|)];
  }

  lemma IncreasingPrefix(sorted: seq<nat>, n: nat)
    requires Sorted(NatLess, sorted) && NoDuplicates(sorted) && n <= |sorted|
    ensures forall i, j :: 0 <= i < j < n ==> sorted[i] < sorted[j]
    ensures forall x :: x in sorted[..n] ==> x in sorted
    ensures forall x, y :: x in sorted && x !in sorted[..n] && y in sorted[..n] ==> n < |sorted| && y < x
  {
    forall i | 0 <= i < n ensures sorted[i] in sorted[..n] {
      assert sorted[..n][i] == sorted[i];
    }
    forall x, y | x in sorted && x !in sorted[..n] && y in sorted[..n] ensures n < |sorted| && y < x {
      var i :| 0 <= i < |sorted| && sorted[i] == x;
      var j :| 0 <= j < n && sorted[j] == y;
      assert !NatLess(sorted[i], sorted[j]) && sorted[i] != sorted[j];
    }
  }

  // ----- one event -----

  /** `e` reports the group `g`. */
  ghost predicate EventFor(g: seq<Failure>, limit: nat, e: Event) {
    && g != [] && e.rule == g[0].rule && e.startFrame == g[0].frame && e.endFrame == g[|g| - 1].frame + 1
    && IsLeast(Starts(g), e.startTime) && IsGreatest(Ends(g), e.endTime) && IsGreatest(Severities(g), e.severity)
    && MeasurementsOk(g, e.measurements) && OffsetsOk(g, limit, e.offsets)
  }

  method EventOf(g: seq<Failure>, limit: nat) returns (e: Event)
    requires IsRun(g)
    ensures EventFor(g, limit, e)
  {
    hide IsRun, IsLeast, IsGreatest, MeasurementsOk, OffsetsOk;
    RunNotEmpty(g);
    var startFrame := Least(FrameList(g));
    var endFrame := Greatest(FrameList(g));
    RunExtremes(g, startFrame, endFrame);
    var startTime := Least(Starts(g));
    var endTime := Greatest(Ends(g));
    var severity := Greatest(Severities(g));
    SeverityNatural(g, severity);
    var measurements := Measurements(g);
    var offsets := Representatives(g, limit);
    return Event(g[0].rule, startFrame, endFrame + 1, startTime, endTime, severity, measurements, offsets);
  }

  lemma RunNotEmpty(g: seq<Failure>)
    requires IsRun(g)
    ensures g != []
  {
  }

  lemma SeverityNatural(g: seq<Failure>, severity: int)
    requires IsGreatest(Severities(g), severity)
    ensures severity >= 0
  {
  }

  // ----- the report -----

  /** A coverage rule must fail in enough distinct frames. */
  ghost predicate Reported(g: seq<Failure>, coverage: set<nat>, minimumFrames: nat) {
    g != [] && (g[0].rule in coverage ==> |Frames(g)| >= minimumFrames)
  }

  ghost function ReportedGroups(groups: seq<seq<Failure>>, coverage: set<nat>, minimumFrames: nat): seq<seq<Failure>> {
    if groups == [] then []
    else
      var g := groups[|groups| - 1];
      ReportedGroups(groups[..|groups| - 1], coverage, minimumFrames)
      + if Reported(g, coverage, minimumFrames) then [g] else []
  }

  /** One event for each group, in order. */
  ghost predicate EventsFor(groups: seq<seq<Failure>>, limit: nat, events: seq<Event>) {
    |events| == |groups| && forall i :: 0 <= i < |events| ==> EventFor(groups[i], limit, events[i])
  }

  /** Order of the report: start frame, then rule. */
  predicate EventBefore(x: Event, y: Event) {
    x.startFrame < y.startFrame || (x.startFrame == y.startFrame && x.rule < y.rule)
  }

  method DistinctFrames(g: seq<Failure>) returns (count: nat)
    ensures count == |Frames(g)|
  {
    var frames := set f | f in g :: f.frame;
    count := |frames|;
  }

  method BuildEvents(groups: seq<seq<Failure>>, coverage: set<nat>, minimumFrames: nat, limit: nat)
    returns (events: seq<Event>)
    requires AllRuns(groups)
    ensures EventsFor(ReportedGroups(groups, coverage, minimumFrames), limit, events)
  {
    hide IsRun, Frames, EventFor;
    events := [];
    for n := 0 to |groups|
      invariant EventsFor(ReportedGroups(groups[..n], coverage, minimumFrames), limit, events)
    {
      var g := groups[n];
      assert groups[..n + 1][..n] == groups[..n];
      RunNotEmpty(g);
      var distinct := DistinctFrames(g);
      if g[0].rule in coverage && distinct < minimumFrames {
        continue;
      }
      var e := EventOf(g, limit);
      events := events + [e];
    }
    assert groups[..|groups|] == groups;
  }

  // ----- order and separation -----

  /** Two groups in their order: of different rules, or at least one frame without failure apart. */
  ghost predicate GroupsApart(g: seq<Failure>, h: seq<Failure>) {
    g != [] && h != [] && (g[0].rule != h[0].rule || g[|g| - 1].frame + 1 < h[0].frame)
  }

  ghost predicate AllApart(groups: seq<seq<Failure>>) {
    forall i, j :: 0 <= i < j < |groups| ==> GroupsApart(groups[i], groups[j])
  }

  lemma GroupedApart(groups: seq<seq<Failure>>, failures: seq<Failure>)
    requires Grouped(groups, failures)
    ensures AllApart(groups)
  {
    hide IsRun, Ordered, Broken, Flatten;
    RunNonempty(groups);
    forall i, j | 0 <= i < j < |groups| ensures GroupsApart(groups[i], groups[j]) {
      if groups[i][0].rule == groups[j][0].rule {
        GapAfterGroup(groups, failures, i, j);
      }
    }
  }

  lemma {:induction false} ReportedApart(groups: seq<seq<Failure>>, coverage: set<nat>, minimumFrames: nat)
    requires AllApart(groups)
    ensures AllApart(ReportedGroups(groups, coverage, minimumFrames))
    ensures forall g :: g in ReportedGroups(groups, coverage, minimumFrames) ==>
              g in groups && Reported(g, coverage, minimumFrames)
  {
    hide GroupsApart, Reported;
    if groups != [] {
      var front, last := groups[..|groups| - 1], groups[|groups| - 1];
      ReportedApart(front, coverage, minimumFrames);
      var kept := ReportedGroups(front, coverage, minimumFrames);
      forall i | 0 <= i < |kept| ensures GroupsApart(kept[i], last) {
        assert kept[i] in front;
        var k :| 0 <= k < |front| && front[k] == kept[i];
        assert groups[k] == kept[i];
      }
    }
  }

  /** Events of one rule lie apart, the earlier one first. */
  ghost predicate EventsApart(x: Event, y: Event) {
    x.rule != y.rule || x.endFrame < y.startFrame || y.endFrame < x.startFrame
  }

  ghost predicate Sound(e: Event, coverage: set<nat>, minimumFrames: nat) {
    e.startFrame < e.endFrame && (e.rule in coverage ==> e.endFrame - e.startFrame >= minimumFrames)
  }

  lemma EventSound(g: seq<Failure>, limit: nat, e: Event, coverage: set<nat>, minimumFrames: nat)
    requires IsRun(g) && Reported(g, coverage, minimumFrames) && EventFor(g, limit, e)
    ensures Sound(e, coverage, minimumFrames)
  {
    RunFrames(g);
  }

  lemma BuiltFacts(groups: seq<seq<Failure>>, failures: seq<Failure>, coverage: set<nat>, minimumFrames: nat,
                   limit: nat, events: seq<Event>)
    requires Grouped(groups, failures) && EventsFor(ReportedGroups(groups, coverage, minimumFrames), limit, events)
    ensures forall i, j :: 0 <= i < j < |events| ==> EventsApart(events[i], events[j])
    ensures forall e :: e in events ==> Sound(e, coverage, minimumFrames)
  {
    hide IsRun, Ordered, Broken, Flatten, Frames, IsLeast, IsGreatest, MeasurementsOk, OffsetsOk, Sound, Reported;
    var kept := ReportedGroups(groups, coverage, minimumFrames);
    GroupedApart(groups, failures);
    ReportedApart(groups, coverage, minimumFrames);
    forall i, j | 0 <= i < j < |events| ensures EventsApart(events[i], events[j]) {
      assert GroupsApart(kept[i], kept[j]);
      assert EventFor(kept[i], limit, events[i]) && EventFor(kept[j], limit, events[j]);
    }
    forall i | 0 <= i < |events| ensures Sound(events[i], coverage, minimumFrames) {
      assert kept[i] in groups;
      EventSound(kept[i], limit, events[i], coverage, minimumFrames);
    }
  }

  /** Sorting events that lie apart leaves no doubt about their order. */
  lemma SortedEvents(built: seq<Event>, sorted: seq<Event>, coverage: set<nat>, minimumFrames: nat)
    requires forall i, j :: 0 <= i < j < |built| ==> EventsApart(built[i], built[j])
    requires forall e :: e in built ==> Sound(e, coverage, minimumFrames)
    requires multiset(sorted) == multiset(built) && Sorted(EventBefore, sorted)
    ensures forall i, j :: 0 <= i < j < |sorted| ==>
              EventBefore(sorted[i], sorted[j]) &&
              (sorted[i].rule == sorted[j].rule ==> sorted[i].endFrame < sorted[j].startFrame)
  {
    PermutationFacts(sorted, built);
    forall i, j | 0 <= i < j < |built| ensures built[i] != built[j] {
      assert EventsApart(built[i], built[j]) && built[i] in built;
      assert Sound(built[i], coverage, minimumFrames);
    }
    PermutationNoDuplicates(sorted, built);
    forall i, j | 0 <= i < j < |sorted|
      ensures EventBefore(sorted[i], sorted[j])
      ensures sorted[i].rule == sorted[j].rule ==> sorted[i].endFrame < sorted[j].startFrame
    {
      assert !EventBefore(sorted[j], sorted[i]) && sorted[i] != sorted[j];
      assert sorted[i] in built && sorted[j] in built;
      var k :| 0 <= k < |built| && built[k] == sorted[i];
      var l :| 0 <= l < |built| && built[l] == sorted[j];
      assert EventsApart(sorted[i], sorted[j]) by {
        assert k < l ==> EventsApart(built[k], built[l]);
        assert l < k ==> EventsApart(built[l], built[k]);
      }
      assert Sound(sorted[i], coverage, minimumFrames) && Sound(sorted[j], coverage, minimumFrames);
    }
  }

  lemma EventBeforeStrictWeak()
    ensures StrictWeak(EventBefore)
  {
  }
}
