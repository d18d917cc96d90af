/** Lidar events in terms of the failures alone, without the groups they were built from. */
module LidarMeaning {
  import opened Wrappers
  import opened Sorting
  import opened Clustering
  import opened LidarEvents
  import opened LidarReports

  /** The event covers the failure. */
  ghost predicate Inside(e: Event, f: Failure) {
    f.rule == e.rule && e.startFrame <= f.frame < e.endFrame
  }

  /** The event spans a longest stretch of successive frames in which its rule failed. */
  ghost predicate SpansStretch(failures: seq<Failure>, e: Event) {
    && e.startFrame < e.endFrame
    && (forall frame :: e.startFrame <= frame < e.endFrame ==> FailsAt(failures, e.rule, frame))
    && !FailsAt(failures, e.rule, e.startFrame - 1) && !FailsAt(failures, e.rule, e.endFrame)
  }

  /** Times and severity are the extremes of the failures it covers. */
  ghost predicate TellsExtremes(failures: seq<Failure>, e: Event) {
    && (exists f :: f in failures && Inside(e, f) && f.start == e.startTime)
    && (exists f :: f in failures && Inside(e, f) && f.end == e.endTime)
    && (exists f :: f in failures && Inside(e, f) && f.severity == e.severity)
    && forall f :: f in failures && Inside(e, f) ==>
         e.startTime <= f.start && f.end <= e.endTime && f.severity <= e.severity
  }

  /** A value of the measurement among the failures that the event covers. */
  ghost predicate Measured(failures: seq<Failure>, e: Event, key: string, value: real) {
    exists f :: f in failures && Inside(e, f) && key in f.measurements && f.measurements[key] == value
  }

  /** Every measurement taken is told, at its greatest value. */
  ghost predicate TellsMeasurements(failures: seq<Failure>, e: Event) {
    && (forall key :: key in e.measurements ==> Measured(failures, e, key, e.measurements[key]))
    && forall key, value :: Measured(failures, e, key, value) ==>
         key in e.measurements && value <= e.measurements[key]
  }

  ghost predicate Offset(failures: seq<Failure>, e: Event, offset: nat) {
    exists f :: f in failures && Inside(e, f) && offset in f.offsets
  }

  /** The least source offsets in increasing order, as many as the limit allows. */
  ghost predicate TellsOffsets(failures: seq<Failure>, e: Event, limit: nat) {
    && |e.offsets| <= limit && (forall i, j :: 0 <= i < j < |e.offsets| ==> e.offsets[i] < e.offsets[j])
    && (forall x :: x in e.offsets ==> Offset(failures, e, x))
    && forall x :: Offset(failures, e, x) && x !in e.offsets ==>
         |e.offsets| == limit && forall y :: y in e.offsets ==> y < x
  }

  ghost predicate Tells(failures: seq<Failure>, limit: nat, e: Event) {
    SpansStretch(failures, e) && TellsExtremes(failures, e) && TellsMeasurements(failures, e) &&
    TellsOffsets(failures, e, limit)
  }

  /** The failure lies in a stretch of at least `frames` successive frames in which its rule failed. */
  ghost predicate Lasting(failures: seq<Failure>, f: Failure, frames: nat) {
    exists a, z :: a <= f.frame <= z && z - a + 1 >= frames && Unbroken(failures, f.rule, a, z)
  }

  /** The events tell of every failure, except that coverage rules must fail long enough. */
  ghost predicate ReportMeaning(failures: seq<Failure>, coverage: set<nat>, minimumFrames: nat, limit: nat,
                                events: seq<Event>)
  {
    && (forall e :: e in events ==>
          Tells(failures, limit, e) && (e.rule in coverage ==> e.endFrame - e.startFrame >= minimumFrames))
    && forall f :: f in failures ==>
         ((exists e :: e in events && Inside(e, f)) <==> f.rule !in coverage || Lasting(failures, f, minimumFrames))
  }

  // ----- groups are the failures of a stretch -----

  /** A failure of the group's rule lies in the group, or at least one frame without failure away from it. */
  lemma InGroupOrAway(groups: seq<seq<Failure>>, failures: seq<Failure>, i: nat, f: Failure)
    requires Grouped(groups, failures) && i < |groups| && groups[i] != [] && f in failures
    requires f.rule == groups[i][0].rule
    ensures var first, last := groups[i][0].frame, groups[i][|groups[i]| - 1].frame;
            if first - 1 <= f.frame <= last + 1 then f in groups[i] && first <= f.frame <= last else f !in groups[i]
  {
    hide IsRun, Ordered, Broken, Flatten;
    var m, k := FlattenMember(groups, f);
    RunSameRule(groups, i);
    RunSameRule(groups, m);
    GroupEnds(groups, i);
    GroupEnds(groups, m);
    if m < i {
      GapAfterGroup(groups, failures, m, i);
    } else if i < m {
      GapAfterGroup(groups, failures, i, m);
    }
  }

  lemma GroupEnds(groups: seq<seq<Failure>>, i: nat)
    requires AllRuns(groups) && i < |groups|
    ensures groups[i] != []
    ensures forall f :: f in groups[i] ==> groups[i][0].frame <= f.frame <= groups[i][|groups[i]| - 1].frame
  {
    var g := groups[i];
    forall f | f in g ensures g[0].frame <= f.frame <= g[|g| - 1].frame {
      var k :| 0 <= k < |g| && g[k] == f;
      RunOrder(g, 0, k);
      RunOrder(g, k, |g| - 1);
    }
  }

  /** The members of a group are exactly the failures that its event covers. */
  lemma MembersInside(groups: seq<seq<Failure>>, failures: seq<Failure>, i: nat, limit: nat, e: Event)
    requires Grouped(groups, failures) && i < |groups| && EventFor(groups[i], limit, e)
    ensures forall f :: f in groups[i] <==> f in failures && Inside(e, f)
  {
    hide IsRun, Ordered, Broken, Flatten, IsLeast, IsGreatest, MeasurementsOk, OffsetsOk;
    RunSameRule(groups, i);
    GroupEnds(groups, i);
    forall f | f in groups[i] ensures f in failures && Inside(e, f) {
      var k :| 0 <= k < |groups[i]| && groups[i][k] == f;
      InFlatten(groups, i, k);
    }
    forall f | f in failures && Inside(e, f) ensures f in groups[i] {
      InGroupOrAway(groups, failures, i, f);
    }
  }

  lemma EventSpans(groups: seq<seq<Failure>>, failures: seq<Failure>, i: nat, limit: nat, e: Event)
    requires Grouped(groups, failures) && i < |groups| && EventFor(groups[i], limit, e)
    ensures SpansStretch(failures, e)
  {
    hide Ordered, Broken, Flatten, IsLeast, IsGreatest, MeasurementsOk, OffsetsOk, Grouped;
    var g := groups[i];
    assert IsRun(g) by { GroupRuns(groups, failures, i); }
    RunOrder(g, 0, |g| - 1);
    MembersInside(groups, failures, i, limit, e);
    forall frame | e.startFrame <= frame < e.endFrame ensures FailsAt(failures, e.rule, frame) {
      RunCovers(g, 0, |g| - 1, frame);
    }
    forall f | f in failures && f.rule == e.rule ensures f.frame != e.startFrame - 1 && f.frame != e.endFrame {
      InGroupOrAway(groups, failures, i, f);
    }
  }

  lemma GroupRuns(groups: seq<seq<Failure>>, failures: seq<Failure>, i: nat)
    requires Grouped(groups, failures) && i < |groups|
    ensures IsRun(groups[i])
  {
  }

  lemma ExtremesTold(g: seq<Failure>, failures: seq<Failure>, limit: nat, e: Event)
    requires EventFor(g, limit, e) && forall f :: f in g <==> f in failures && Inside(e, f)
    ensures TellsExtremes(failures, e)
  {
    hide Inside, MeasurementsOk, OffsetsOk;
    var i :| 0 <= i < |g| && Starts(g)[i] == e.startTime;
    var j :| 0 <= j < |g| && Ends(g)[j] == e.endTime;
    var k :| 0 <= k < |g| && Severities(g)[k] == e.severity;
    assert g[i] in g && g[j] in g && g[k] in g;
    forall f | f in g ensures e.startTime <= f.start && f.end <= e.endTime && f.severity <= e.severity {
      var l :| 0 <= l < |g| && g[l] == f;
      assert Starts(g)[l] in Starts(g) && Ends(g)[l] in Ends(g) && Severities(g)[l] in Severities(g);
    }
  }

  lemma RestTold(g: seq<Failure>, failures: seq<Failure>, limit: nat, e: Event)
    requires EventFor(g, limit, e) && forall f :: f in g <==> f in failures && Inside(e, f)
    ensures TellsMeasurements(failures, e) && TellsOffsets(failures, e, limit)
  {
    hide Inside, IsLeast, IsGreatest, Starts, Ends, Severities;
    forall key, value | Measured(failures, e, key, value)
      ensures key in e.measurements && value <= e.measurements[key]
    {
      assert MeasuredIn(g, key);
      assert GreatestMeasure(g, key, e.measurements[key]);
    }
    forall key | key in e.measurements ensures Measured(failures, e, key, e.measurements[key]) {
      assert GreatestMeasure(g, key, e.measurements[key]);
    }
    forall x: nat ensures Offset(failures, e, x) <==> OffsetIn(g, x) {
    }
  }

  lemma EventTells(groups: seq<seq<Failure>>, failures: seq<Failure>, i: nat, limit: nat, e: Event)
    requires Grouped(groups, failures) && i < |groups| && EventFor(groups[i], limit, e)
    ensures Tells(failures, limit, e)
  {
    hide Grouped, EventFor, Inside, SpansStretch, TellsExtremes, TellsMeasurements, TellsOffsets;
    MembersInside(groups, failures, i, limit, e);
    EventSpans(groups, failures, i, limit, e);
    ExtremesTold(groups[i], failures, limit, e);
    RestTold(groups[i], failures, limit, e);
  }

  // ----- which failures are told -----

  /** The stretch of a failure is the span of its group. */
  lemma LastingGroup(groups: seq<seq<Failure>>, failures: seq<Failure>, i: nat, f: Failure, frames: nat)
    requires Grouped(groups, failures) && i < |groups| && f in groups[i]
    ensures f in failures && f.rule == groups[i][0].rule
    ensures Lasting(failures, f, frames) <==> |Frames(groups[i])| >= frames
  {
    hide Grouped, IsRun, AllRuns, Flatten, Unbroken, Frames;
    var g := groups[i];
    GroupRuns(groups, failures, i);
    GroupedParts(groups, failures);
    RunSameRule(groups, i);
    GroupEnds(groups, i);
    RunFrames(g);
    var k :| 0 <= k < |g| && g[k] == f;
    InFlatten(groups, i, k);
    GroupUnbroken(groups, failures, i);
    var first, last := g[0].frame, g[|g| - 1].frame;
    forall a, z | a <= f.frame <= z && Unbroken(failures, f.rule, a, z) ensures first <= a && z <= last {
      StretchInside(groups, failures, i, f, a, z);
    }
  }

  lemma GroupUnbroken(groups: seq<seq<Failure>>, failures: seq<Failure>, i: nat)
    requires Grouped(groups, failures) && i < |groups| && groups[i] != []
    ensures Unbroken(failures, groups[i][0].rule, groups[i][0].frame, groups[i][|groups[i]| - 1].frame)
  {
    hide Ordered, Broken, Flatten;
    var g := groups[i];
    forall frame | g[0].frame <= frame <= g[|g| - 1].frame ensures FailsAt(failures, g[0].rule, frame) {
      RunCovers(g, 0, |g| - 1, frame);
      var x :| x in g && x.rule == g[0].rule && x.frame == frame;
      var l :| 0 <= l < |g| && g[l] == x;
      InFlatten(groups, i, l);
    }
  }

  lemma GroupedParts(groups: seq<seq<Failure>>, failures: seq<Failure>)
    requires Grouped(groups, failures)
    ensures AllRuns(groups) && Flatten(groups) == failures
  {
  }

  lemma StretchInside(groups: seq<seq<Failure>>, failures: seq<Failure>, i: nat, f: Failure, a: int, z: int)
    requires Grouped(groups, failures) && i < |groups| && f in groups[i] && groups[i] != []
    requires f.rule == groups[i][0].rule && a <= f.frame <= z && Unbroken(failures, f.rule, a, z)
    requires groups[i][0].frame <= f.frame <= groups[i][|groups[i]| - 1].frame
    ensures groups[i][0].frame <= a && z <= groups[i][|groups[i]| - 1].frame
  {
    hide Grouped;
    var first, last := groups[i][0].frame, groups[i][|groups[i]| - 1].frame;
    if a < first {
      var x := FailureAt(failures, f.rule, a, z, first - 1);
      InGroupOrAway(groups, failures, i, x);
    }
    if last < z {
      var x := FailureAt(failures, f.rule, a, z, last + 1);
      InGroupOrAway(groups, failures, i, x);
    }
  }

  lemma FailureAt(failures: seq<Failure>, rule: nat, a: int, z: int, frame: int) returns (x: Failure)
    requires Unbroken(failures, rule, a, z) && a <= frame <= z
    ensures x in failures && x.rule == rule && x.frame == frame
  {
    assert FailsAt(failures, rule, frame);
    x :| x in failures && x.rule == rule && x.frame == frame;
  }

  /** What the events say about the failures. */
  lemma EventsMeaning(groups: seq<seq<Failure>>, failures: seq<Failure>, coverage: set<nat>, minimumFrames: nat,
                      limit: nat, events: seq<Event>)
    requires Grouped(groups, failures) && EventsFor(ReportedGroups(groups, coverage, minimumFrames), limit, events)
    ensures ReportMeaning(failures, coverage, minimumFrames, limit, events)
  {
    hide Grouped, EventFor, Tells, Inside, Lasting, Reported, EventsApart, GroupsApart;
    var kept := ReportedGroups(groups, coverage, minimumFrames);
    BuiltFacts(groups, failures, coverage, minimumFrames, limit, events);
    KeptGroups(groups, coverage, minimumFrames);
    forall e | e in events
      ensures Tells(failures, limit, e) && (e.rule in coverage ==> e.endFrame - e.startFrame >= minimumFrames)
    {
      var j :| 0 <= j < |events| && events[j] == e;
      assert kept[j] in kept;
      var i :| 0 <= i < |groups| && groups[i] == kept[j];
      EventTells(groups, failures, i, limit, e);
      assert Sound(e, coverage, minimumFrames);
    }
    forall f | f in failures
      ensures (exists e :: e in events && Inside(e, f)) <==> f.rule !in coverage || Lasting(failures, f, minimumFrames)
    {
      FailureTold(groups, failures, coverage, minimumFrames, limit, events, f);
    }
  }

  lemma {:induction false} KeptGroups(groups: seq<seq<Failure>>, coverage: set<nat>, minimumFrames: nat)
    ensures forall g :: g in ReportedGroups(groups, coverage, minimumFrames) <==>
              g in groups && Reported(g, coverage, minimumFrames)
  {
    hide Reported;
    if groups != [] {
      KeptGroups(groups[..|groups| - 1], coverage, minimumFrames);
      assert groups == groups[..|groups| - 1] + [groups[|groups| - 1]];
    }
  }

  lemma FailureTold(groups: seq<seq<Failure>>, failures: seq<Failure>, coverage: set<nat>, minimumFrames: nat,
                    limit: nat, events: seq<Event>, f: Failure)
    requires Grouped(groups, failures) && EventsFor(ReportedGroups(groups, coverage, minimumFrames), limit, events)
    requires f in failures
    ensures (exists e :: e in events && Inside(e, f)) <==> f.rule !in coverage || Lasting(failures, f, minimumFrames)
  {
    hide Grouped, EventFor, Inside, Lasting, Frames;
    var kept := ReportedGroups(groups, coverage, minimumFrames);
    KeptGroups(groups, coverage, minimumFrames);
    assert AllRuns(groups) && Flatten(groups) == failures by { GroupedParts(groups, failures); }
    var i, k := FlattenMember(groups, f);
    LastingGroup(groups, failures, i, f, minimumFrames);
    forall j | 0 <= j < |events| && Inside(events[j], f) ensures Reported(groups[i], coverage, minimumFrames) {
      assert kept[j] in kept;
      var m :| 0 <= m < |groups| && groups[m] == kept[j];
      MembersInside(groups, failures, m, limit, events[j]);
      LastingGroup(groups, failures, m, f, minimumFrames);
    }
    if Reported(groups[i], coverage, minimumFrames) {
      assert groups[i] in kept;
      var j :| 0 <= j < |kept| && kept[j] == groups[i];
      MembersInside(groups, failures, i, limit, events[j]);
      assert events[j] in events;
    }
  }

  /** Only which failures there are matters, not their order. */
  lemma SameFailures(sorted: seq<Failure>, failures: seq<Failure>, coverage: set<nat>, minimumFrames: nat, limit: nat,
                     events: seq<Event>)
    requires ReportMeaning(sorted, coverage, minimumFrames, limit, events)
    requires forall f :: f in sorted <==> f in failures
    ensures ReportMeaning(failures, coverage, minimumFrames, limit, events)
  {
    forall rule, frame ensures FailsAt(sorted, rule, frame) <==> FailsAt(failures, rule, frame) {
    }
    forall rule, a, z ensures Unbroken(sorted, rule, a, z) <==> Unbroken(failures, rule, a, z) {
    }
    forall f: Failure ensures Lasting(sorted, f, minimumFrames) <==> Lasting(failures, f, minimumFrames) {
      SameLasting(sorted, failures, f, minimumFrames);
    }
    forall e | e in events ensures Tells(failures, limit, e) {
      assert Tells(sorted, limit, e);
      SameTold(sorted, failures, limit, e);
    }
  }

  lemma SameLasting(sorted: seq<Failure>, failures: seq<Failure>, f: Failure, frames: nat)
    requires forall rule, a, z :: Unbroken(sorted, rule, a, z) <==> Unbroken(failures, rule, a, z)
    ensures Lasting(sorted, f, frames) <==> Lasting(failures, f, frames)
  {
    hide Unbroken;
    if a, z :| a <= f.frame <= z && z - a + 1 >= frames && Unbroken(sorted, f.rule, a, z) {
      assert Unbroken(failures, f.rule, a, z);
    }
    if a, z :| a <= f.frame <= z && z - a + 1 >= frames && Unbroken(failures, f.rule, a, z) {
      assert Unbroken(sorted, f.rule, a, z);
    }
  }

  lemma SameTold(sorted: seq<Failure>, failures: seq<Failure>, limit: nat, e: Event)
    requires Tells(sorted, limit, e) && forall f :: f in sorted <==> f in failures
    ensures Tells(failures, limit, e)
  {
    hide Inside;
    forall rule, frame ensures FailsAt(sorted, rule, frame) <==> FailsAt(failures, rule, frame) {
    }
    forall key, value ensures Measured(sorted, e, key, value) <==> Measured(failures, e, key, value) {
    }
    forall x ensures Offset(sorted, e, x) <==> Offset(failures, e, x) {
    }
  }

  // ----- the report -----

  ghost predicate InReportOrder(events: seq<Event>) {
    forall i, j :: 0 <= i < j < |events| ==>
      (events[i].startFrame < events[j].startFrame ||
       (events[i].startFrame == events[j].startFrame && events[i].rule < events[j].rule)) &&
      (events[i].rule == events[j].rule ==> events[i].endFrame < events[j].startFrame)
  }

  /** More events than the budget allows, no two of them alike. */
  ghost predicate TooMany(failures: seq<Failure>, coverage: set<nat>, minimumFrames: nat, limit: nat, maximum: nat,
                          events: seq<Event>)
  {
    ReportMeaning(failures, coverage, minimumFrames, limit, events) && InReportOrder(events) && |events| > maximum
  }

  /** The report: the events that the failures call for, in order of start frame and rule; None when there are more of
      them than the budget allows. */
  method Events(failures: seq<Failure>, coverage: set<nat>, minimumFrames: nat, limit: nat, maximum: nat)
    returns (r: Option<seq<Event>>)
    ensures r.None? ==> exists events :: TooMany(failures, coverage, minimumFrames, limit, maximum, events)
    ensures r.Some? ==>
              && ReportMeaning(failures, coverage, minimumFrames, limit, r.value)
              && InReportOrder(r.value) && |r.value| <= maximum
  {
    hide Grouped, EventsFor, ReportMeaning, Sound, EventBefore, ReportedGroups, Sorted;
    var groups, sorted := GroupFailures(failures);
    GroupedParts(groups, sorted);
    var built := BuildEvents(groups, coverage, minimumFrames, limit);
    EventsMeaning(groups, sorted, coverage, minimumFrames, limit, built);
    PermutationFacts(sorted, failures);
    BuiltFacts(groups, sorted, coverage, minimumFrames, limit, built);
    EventBeforeStrictWeak();
    if |built| > maximum {
      ghost var all := InOrder(sorted, failures, coverage, minimumFrames, limit, built);
      assert TooMany(failures, coverage, minimumFrames, limit, maximum, all);
      return None;
    }
    var result := Sort(EventBefore, built);
    ReportedInOrder(sorted, failures, coverage, minimumFrames, limit, built, result);
    return Some(result);
  }

  lemma InOrder(sorted: seq<Failure>, failures: seq<Failure>, coverage: set<nat>, minimumFrames: nat, limit: nat,
                built: seq<Event>) returns (all: seq<Event>)
    requires ReportMeaning(sorted, coverage, minimumFrames, limit, built)
    requires forall f :: f in sorted <==> f in failures
    requires forall i, j :: 0 <= i < j < |built| ==> EventsApart(built[i], built[j])
    requires forall e :: e in built ==> Sound(e, coverage, minimumFrames)
    ensures |all| == |built| && InReportOrder(all)
    ensures ReportMeaning(failures, coverage, minimumFrames, limit, all)
  {
    hide ReportMeaning, Sound, EventsApart, EventBefore, Sorted, InReportOrder;
    EventBeforeStrictWeak();
    all := SortedExists(EventBefore, built);
    PermutationFacts(all, built);
    ReportedInOrder(sorted, failures, coverage, minimumFrames, limit, built, all);
  }

  lemma ReportedInOrder(sorted: seq<Failure>, failures: seq<Failure>, coverage: set<nat>, minimumFrames: nat,
                        limit: nat, built: seq<Event>, all: seq<Event>)
    requires ReportMeaning(sorted, coverage, minimumFrames, limit, built)
    requires forall f :: f in sorted <==> f in failures
    requires forall i, j :: 0 <= i < j < |built| ==> EventsApart(built[i], built[j])
    requires forall e :: e in built ==> Sound(e, coverage, minimumFrames)
    requires multiset(all) == multiset(built) && Sorted(EventBefore, all)
    ensures InReportOrder(all) && |all| == |built| && ReportMeaning(failures, coverage, minimumFrames, limit, all)
  {
    hide Sound, EventsApart, Tells, Inside, Lasting, Sorted;
    PermutationFacts(all, built);
    SameFailures(sorted, failures, coverage, minimumFrames, limit, built);
    SortedEvents(built, all, coverage, minimumFrames);
  }
}
