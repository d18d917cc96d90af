/** The graph search of `route`: a priority queue over (node, incoming arc) states. */
module RouteSearch {
  import opened FiniteSets
  import opened Lexicographic
  import opened Sorting
  import opened RoadGraph
  import opened Wrappers
  import opened Routing

  datatype QueueEntry = QueueEntry(distance: real, turns: nat, path: seq<nat>, node: string, incoming: nat) {
    function Key(): Ranking {
      Ranking(distance, turns, path)
    }
  }

  type State = (string, nat)

  /** Order of the priority queue: ranking first, then node id, then incoming arc. */
  predicate EntryLess(a: QueueEntry, b: QueueEntry) {
    RankLess(a.Key(), b.Key()) ||
    (a.Key() == b.Key() &&
     (StringLess(a.node, b.node) || (a.node == b.node && a.incoming < b.incoming)))
  }

  lemma EntryTransitive(a: QueueEntry, b: QueueEntry, c: QueueEntry)
    requires EntryLess(a, b) && EntryLess(b, c)
    ensures EntryLess(a, c)
  {
    RankTransitive(a.Key(), b.Key(), c.Key());
    if StringLess(a.node, b.node) && StringLess(b.node, c.node) {
      LessTransitive(CharLess, a.node, b.node, c.node);
    }
  }

  /** Top and pop of the priority queue. */
  method PopLeast(queue: seq<QueueEntry>) returns (item: QueueEntry, rest: seq<QueueEntry>)
    requires queue != []
    ensures multiset(queue) == multiset(rest) + multiset{item} && |rest| == |queue| - 1
    ensures forall e :: e in queue ==> !EntryLess(e, item)
    ensures forall e :: e in queue <==> e in rest || e == item
  {
    hide EntryLess;
    var least := 0;
    EntryIrreflexive(queue[0]);
    for i := 1 to |queue|
      invariant 0 <= least < |queue|
      invariant forall j :: 0 <= j < i ==> !EntryLess(queue[j], queue[least])
    {
      if EntryLess(queue[i], queue[least]) {
        forall j | 0 <= j < i ensures !EntryLess(queue[j], queue[i]) {
          if EntryLess(queue[j], queue[i]) {
            EntryTransitive(queue[j], queue[i], queue[least]);
          }
        }
        EntryIrreflexive(queue[i]);
        least := i;
      }
    }
    item := queue[least];
    var before, after := queue[..least], queue[least + 1..];
    rest := before + after;
    assert queue == before + [item] + after;
    MultisetInsert(before, item, after);
  }

  lemma EntryIrreflexive(e: QueueEntry)
    ensures !EntryLess(e, e)
  {
    RankTotal(e.Key(), e.Key());
    LessIrreflexive(CharLess, e.node);
  }

  /** Every listed arc is below `bound` and starts at `node`. */
  ghost predicate LeavesFrom(g: Graph, node: string, arcs: seq<nat>, bound: nat)
    requires bound <= |g.arcs|
  {
    forall n :: n in arcs ==> n < bound && g.arcs[n].from == node
  }

  /** `outgoing` lists, for every node, exactly the arcs that start there. */
  ghost predicate ListsArcs(g: Graph, outgoing: map<string, seq<nat>>) {
    && (forall node :: node in outgoing ==> LeavesFrom(g, node, outgoing[node], |g.arcs|))
    && (forall n :: 0 <= n < |g.arcs| ==> g.arcs[n].from in outgoing && n in outgoing[g.arcs[n].from])
  }

  method BuildOutgoing(g: Graph) returns (outgoing: map<string, seq<nat>>)
    ensures ListsArcs(g, outgoing)
  {
    outgoing := map[];
    for index := 0 to |g.arcs|
      invariant forall node :: node in outgoing ==> LeavesFrom(g, node, outgoing[node], index)
      invariant forall n :: 0 <= n < index ==> g.arcs[n].from in outgoing && n in outgoing[g.arcs[n].from]
    {
      var node := g.arcs[index].from;
      var before := if node in outgoing then outgoing[node] else [];
      outgoing := outgoing[node := before + [index]];
    }
  }

  // ----- search invariant -----

  ghost predicate EntryOk(q: Query, e: QueueEntry)
    requires q.Valid()
  {
    Within(q, e.path) && e.Key() == Rank(q, e.path) &&
    e.incoming == Last(e.path) && e.node == q.graph.arcs[e.incoming].to
  }

  ghost function Entry(q: Query, p: seq<nat>): QueueEntry
    requires q.Valid() && p != [] && InRange(q.graph, p)
  {
    QueueEntry(Length(q, p), |p| - 1, p, q.graph.arcs[Last(p)].to, Last(p))
  }

  ghost function StateOf(q: Query, a: nat): State
    requires q.Valid() && a < |q.graph.arcs|
  {
    (q.graph.arcs[a].to, a)
  }

  ghost predicate SettledOk(q: Query, k: State, r: Ranking)
    requires q.Valid()
  {
    Within(q, r.path) && r == Rank(q, r.path) && k == StateOf(q, Last(r.path)) && !Joined(q, k.1, q.current)
  }

  /** The walk `p` is already settled at least as well, or waits in the queue. */
  ghost predicate Covered(q: Query, queue: seq<QueueEntry>, best: map<State, Ranking>, p: seq<nat>)
    requires q.Valid() && p != [] && InRange(q.graph, p)
  {
    (StateOf(q, Last(p)) in best && RankAtMost(best[StateOf(q, Last(p))], Rank(q, p))) || Entry(q, p) in queue
  }

  /** Every legal continuation of a settled state that fits the budget is covered. */
  ghost predicate Expanded(q: Query, queue: seq<QueueEntry>, best: map<State, Ranking>, r: Ranking)
    requires q.Valid() && r.path != [] && InRange(q.graph, r.path)
  {
    forall n :: 0 <= n < |q.graph.arcs| && Joined(q, Last(r.path), n) && Within(q, r.path + [n]) ==>
                  Covered(q, queue, best, r.path + [n])
  }

  /** No way of completing the search ranks below `r`. */
  ghost predicate Undercut(q: Query, r: Ranking)
    requires q.Valid()
  {
    forall s :: Within(q, s) && Approach(q, s) ==> RankAtMost(r, Rank(q, s))
  }

  ghost predicate QueueOk(q: Query, queue: seq<QueueEntry>)
    requires q.Valid()
  {
    forall e :: e in queue ==> EntryOk(q, e)
  }

  ghost predicate BestOk(q: Query, best: map<State, Ranking>)
    requires q.Valid()
  {
    forall k :: k in best ==> SettledOk(q, k, best[k])
  }

  /** Settled rankings never exceed queued ones. */
  ghost predicate Monotone(queue: seq<QueueEntry>, best: map<State, Ranking>) {
    forall k, e :: k in best && e in queue ==> RankAtMost(best[k], e.Key())
  }

  ghost predicate NothingLost(q: Query, queue: seq<QueueEntry>, best: map<State, Ranking>)
    requires q.Valid() && BestOk(q, best)
  {
    && Covered(q, queue, best, [q.previous])
    && (forall k :: k in best ==> Expanded(q, queue, best, best[k]))
  }

  ghost predicate BestUndercut(q: Query, best: map<State, Ranking>)
    requires q.Valid()
  {
    forall k :: k in best ==> Undercut(q, best[k])
  }

  ghost predicate SearchInvariant(q: Query, queue: seq<QueueEntry>, best: map<State, Ranking>)
    requires q.Valid()
  {
    && QueueOk(q, queue) && BestOk(q, best) && Monotone(queue, best)
    && NothingLost(q, queue, best) && BestUndercut(q, best)
  }

  /** The walk `p` is settled, or a queued entry is ranked no higher. */
  ghost predicate Reached(q: Query, queue: seq<QueueEntry>, best: map<State, Ranking>, p: seq<nat>)
    requires q.Valid() && p != [] && InRange(q.graph, p)
  {
    (StateOf(q, Last(p)) in best && RankAtMost(best[StateOf(q, Last(p))], Rank(q, p))) ||
    exists e :: e in queue && RankAtMost(e.Key(), Rank(q, p))
  }

  lemma CoveredIsReached(q: Query, queue: seq<QueueEntry>, best: map<State, Ranking>, b: seq<nat>, p: seq<nat>)
    requires q.Valid() && b != [] && InRange(q.graph, b) && p != [] && InRange(q.graph, p)
    requires Covered(q, queue, best, b) && Last(b) == Last(p) && RankAtMost(Rank(q, b), Rank(q, p))
    ensures Reached(q, queue, best, p)
  {
    hide Blocked;
    hide PathLess;
    if Entry(q, b) in queue {
      assert Entry(q, b).Key() == Rank(q, b);
    } else {
      RankTransitive(best[StateOf(q, Last(p))], Rank(q, b), Rank(q, p));
    }
  }

  /** A settled walk's continuation is reached because it was queued when the walk was settled. */
  lemma SettledReaches(q: Query, queue: seq<QueueEntry>, best: map<State, Ranking>, b: seq<nat>, r: seq<nat>, n: nat)
    requires q.Valid() && Walk(q, b) && Walk(q, r) && Last(b) == Last(r) && RankAtMost(Rank(q, b), Rank(q, r))
    requires Expanded(q, queue, best, Rank(q, b))
    requires n < |q.graph.arcs| && Joined(q, Last(r), n) && Within(q, r + [n])
    ensures Reached(q, queue, best, r + [n])
  {
    hide Blocked;
    hide PathLess;
    SnocKeepsRank(q, b, r, n);
    WalkSnoc(q, b, n);
    assert Rank(q, b + [n]) == Ranking(Length(q, b) + q.graph.arcs[n].length, |b|, b + [n]);
    assert Within(q, b + [n]);
    CoveredIsReached(q, queue, best, b + [n], r + [n]);
  }

  /** Every walk within the budget is settled or has a queued entry ranked no higher. */
  lemma {:induction false} Frontier(q: Query, queue: seq<QueueEntry>, best: map<State, Ranking>, p: seq<nat>)
    requires q.Valid() && SearchInvariant(q, queue, best) && Within(q, p)
    ensures Reached(q, queue, best, p)
    decreases |p|
  {
    hide Blocked;
    hide PathLess;
    hide Undercut;
    hide Monotone;
    hide EntryOk;
    if |p| == 1 {
      assert p == [q.previous];
      CoveredIsReached(q, queue, best, p, p);
    } else {
      var r, n := p[..|p| - 1], Last(p);
      WalkPrefix(q, p);
      Frontier(q, queue, best, r);
      var k := StateOf(q, Last(r));
      if k in best && RankAtMost(best[k], Rank(q, r)) {
        assert SettledOk(q, k, best[k]);
        SettledReaches(q, queue, best, best[k].path, r, n);
      } else {
        var e :| e in queue && RankAtMost(e.Key(), Rank(q, r));
        RankTransitive(e.Key(), Rank(q, r), Rank(q, p));
      }
    }
  }

  ghost predicate Popped(queue: seq<QueueEntry>, item: QueueEntry, rest: seq<QueueEntry>) {
    && |rest| < |queue|
    && (forall e :: e in queue <==> e in rest || e == item)
    && (forall e :: e in queue ==> !EntryLess(e, item))
  }

  /** The queue's least entry is ranked no higher than any way of completing the search. */
  lemma LeastIsFirst(q: Query, queue: seq<QueueEntry>, best: map<State, Ranking>, item: QueueEntry)
    requires q.Valid() && SearchInvariant(q, queue, best) && item in queue
    requires forall e :: e in queue ==> !EntryLess(e, item)
    ensures forall e :: e in queue ==> RankAtMost(item.Key(), e.Key())
    ensures Undercut(q, item.Key())
  {
    hide Blocked;
    forall e | e in queue ensures RankAtMost(item.Key(), e.Key()) {
      RankTotal(item.Key(), e.Key());
    }
    forall s | Within(q, s) && Approach(q, s) ensures RankAtMost(item.Key(), Rank(q, s)) {
      Frontier(q, queue, best, s);
      var e :| e in queue && RankAtMost(e.Key(), Rank(q, s));
      RankTransitive(item.Key(), e.Key(), Rank(q, s));
    }
  }

  /** Any state that an explored walk reaches is settled once the least entry is. */
  lemma ExploredIsSettled(q: Query, queue: seq<QueueEntry>, best: map<State, Ranking>, item: QueueEntry, a: nat)
    requires q.Valid() && SearchInvariant(q, queue, best) && item in queue
    requires forall e :: e in queue ==> !EntryLess(e, item)
    requires Approach(q, item.path) && a < |q.graph.arcs| && Explored(q, a)
    ensures StateOf(q, a) in best || a == item.incoming
  {
    hide Blocked;
    var p :| Within(q, p) && Last(p) == a &&
             forall s :: Within(q, s) && Approach(q, s) ==> RankAtMost(Rank(q, p), Rank(q, s));
    Frontier(q, queue, best, p);
    if StateOf(q, a) !in best {
      var e :| e in queue && RankAtMost(e.Key(), Rank(q, p));
      LeastIsFirst(q, queue, best, item);
      RankTransitive(item.Key(), e.Key(), Rank(q, p));
      RankTotal(item.Key(), Rank(q, p));
    }
  }

  /** Arc `n` may follow the settled item within the distance budget. */
  ghost predicate Continues(q: Query, item: QueueEntry, n: nat)
    requires q.Valid() && EntryOk(q, item) && n < |q.graph.arcs|
  {
    Joined(q, item.incoming, n) && Within(q, item.path + [n])
  }

  ghost predicate IsContinuation(q: Query, item: QueueEntry, e: QueueEntry)
    requires q.Valid()
  {
    e.path != [] && e.path == item.path + [e.incoming] && Within(q, e.path) && e == Entry(q, e.path)
  }

  /** The queue after settling `item`: its legal continuations within the budget are added. */
  ghost predicate Grown(q: Query, item: QueueEntry, rest: seq<QueueEntry>, queue: seq<QueueEntry>)
    requires q.Valid() && EntryOk(q, item)
  {
    && (forall e :: e in rest ==> e in queue)
    && (forall n :: 0 <= n < |q.graph.arcs| && Continues(q, item, n) ==> Entry(q, item.path + [n]) in queue)
    && (forall e :: e in queue && e !in rest ==> IsContinuation(q, item, e))
  }

  /** Settling the popped entry loses no walk. */
  lemma SettleCovers(q: Query, queue: seq<QueueEntry>, best: map<State, Ranking>, item: QueueEntry,
                     rest: seq<QueueEntry>, grown: seq<QueueEntry>, p: seq<nat>)
    requires q.Valid() && p != [] && InRange(q.graph, p) && Covered(q, queue, best, p)
    requires forall e :: e in queue ==> e in rest || e == item
    requires forall e :: e in rest ==> e in grown
    requires (item.node, item.incoming) !in best
    ensures Covered(q, grown, best[(item.node, item.incoming) := item.Key()], p)
  {
  }

  lemma SettleExpands(q: Query, queue: seq<QueueEntry>, best: map<State, Ranking>, item: QueueEntry,
                      rest: seq<QueueEntry>, grown: seq<QueueEntry>, r: Ranking)
    requires q.Valid() && Popped(queue, item, rest) && EntryOk(q, item)
    requires (item.node, item.incoming) !in best && Grown(q, item, rest, grown)
    requires r.path != [] && InRange(q.graph, r.path)
    requires r == item.Key() || Expanded(q, queue, best, r)
    ensures Expanded(q, grown, best[(item.node, item.incoming) := item.Key()], r)
  {
    hide Blocked;
    hide EntryLess;
    forall n | 0 <= n < |q.graph.arcs| && Joined(q, Last(r.path), n) && Within(q, r.path + [n])
      ensures Covered(q, grown, best[(item.node, item.incoming) := item.Key()], r.path + [n])
    {
      if r == item.Key() {
        assert Continues(q, item, n);
      } else {
        SettleCovers(q, queue, best, item, rest, grown, r.path + [n]);
      }
    }
  }

  lemma SettleOrders(q: Query, queue: seq<QueueEntry>, best: map<State, Ranking>, item: QueueEntry,
                     rest: seq<QueueEntry>, grown: seq<QueueEntry>)
    requires q.Valid() && QueueOk(q, queue) && Monotone(queue, best) && Popped(queue, item, rest)
    requires forall e :: e in queue ==> RankAtMost(item.Key(), e.Key())
    requires EntryOk(q, item) && Grown(q, item, rest, grown)
    ensures QueueOk(q, grown) && Monotone(grown, best[(item.node, item.incoming) := item.Key()])
  {
    hide Blocked;
    hide EntryLess;
    var best' := best[(item.node, item.incoming) := item.Key()];
    forall e | e in grown ensures EntryOk(q, e) && RankAtMost(item.Key(), e.Key()) {
      if e !in rest {
        assert IsContinuation(q, item, e) && e.path[..|e.path| - 1] == item.path;
        WalkPrefix(q, e.path);
      }
    }
    forall k, e | k in best' && e in grown ensures RankAtMost(best'[k], e.Key()) {
      if best'[k] != item.Key() {
        assert k in best && item in queue;
        RankTransitive(best[k], item.Key(), e.Key());
      }
    }
  }

  lemma SettlePreserves(q: Query, queue: seq<QueueEntry>, best: map<State, Ranking>, item: QueueEntry,
                        rest: seq<QueueEntry>, grown: seq<QueueEntry>)
    requires q.Valid() && SearchInvariant(q, queue, best) && Popped(queue, item, rest)
    requires (item.node, item.incoming) !in best && EntryOk(q, item) && !Joined(q, item.incoming, q.current)
    requires Grown(q, item, rest, grown)
    ensures SearchInvariant(q, grown, best[(item.node, item.incoming) := item.Key()])
  {
    hide Blocked;
    hide EntryLess;
    hide Expanded;
    hide Undercut;
    var best' := best[(item.node, item.incoming) := item.Key()];
    LeastIsFirst(q, queue, best, item);
    SettleOrders(q, queue, best, item, rest, grown);
    SettleCovers(q, queue, best, item, rest, grown, [q.previous]);
    assert BestOk(q, best');
    forall k | k in best' ensures Expanded(q, grown, best', best'[k]) {
      SettleExpands(q, queue, best, item, rest, grown, best'[k]);
    }
  }

  lemma SkipPreserves(q: Query, queue: seq<QueueEntry>, best: map<State, Ranking>, item: QueueEntry,
                      rest: seq<QueueEntry>)
    requires q.Valid() && SearchInvariant(q, queue, best)
    requires forall e :: e in queue <==> e in rest || e == item
    requires (item.node, item.incoming) in best && RankAtMost(best[(item.node, item.incoming)], item.Key())
    ensures SearchInvariant(q, rest, best)
  {
    forall p | p != [] && InRange(q.graph, p) && Covered(q, queue, best, p) ensures Covered(q, rest, best, p) {
    }
    forall k | k in best ensures Expanded(q, rest, best, best[k]) {
      assert Expanded(q, queue, best, best[k]);
    }
  }

  method Expand(q: Query, outgoing: map<string, seq<nat>>, item: QueueEntry, rest: seq<QueueEntry>)
    returns (queue: seq<QueueEntry>)
    requires q.Valid() && EntryOk(q, item)
    requires ListsArcs(q.graph, outgoing)
    ensures Grown(q, item, rest, queue)
  {
    hide Blocked;
    hide RankLess;
    queue := rest;
    if item.node !in outgoing {
      return;
    }
    var list := outgoing[item.node];
    assert LeavesFrom(q.graph, item.node, list, |q.graph.arcs|);
    for i := 0 to |list|
      invariant forall j :: 0 <= j < |list| ==> list[j] in list
      invariant forall e :: e in rest ==> e in queue
      invariant forall j :: 0 <= j < i && Continues(q, item, list[j]) ==> Entry(q, item.path + [list[j]]) in queue
      invariant forall e :: e in queue && e !in rest ==> IsContinuation(q, item, e)
    {
      var next := list[i];
      var blocked := BlockedTransition(q.graph, q.graph.arcs[item.incoming].id, q.graph.arcs[next].id);
      if blocked.Some? {
        continue;
      }
      WalkSnoc(q, item.path, next);
      var nextDistance := item.distance + q.graph.arcs[next].length;
      if nextDistance > q.maxDistance {
        continue;
      }
      var entry := QueueEntry(nextDistance, item.turns + 1, item.path + [next], q.graph.arcs[next].to, next);
      assert entry == Entry(q, item.path + [next]);
      queue := queue + [entry];
    }
  }

  ghost function Below(n: nat): (r: set<nat>)
    ensures |r| == n && forall a: nat :: a in r <==> a < n
  {
    if n == 0 then {} else Below(n - 1) + {n - 1}
  }

  /** The arcs of the settled states. */
  ghost function SettledArcs(q: Query, best: map<State, Ranking>): set<nat>
    requires q.Valid()
  {
    set a: nat | a < |q.graph.arcs| && StateOf(q, a) in best
  }

  lemma SettledSize(q: Query, best: map<State, Ranking>)
    requires q.Valid()
    ensures |SettledArcs(q, best)| <= |q.graph.arcs|
  {
    SubsetSize(SettledArcs(q, best), Below(|q.graph.arcs|));
  }

  lemma SettledAreExplored(q: Query, queue: seq<QueueEntry>, best: map<State, Ranking>)
    requires q.Valid() && SearchInvariant(q, queue, best)
    ensures SettledArcs(q, best) <= ExploredStates(q)
  {
    hide Blocked;
    hide Expanded;
    hide EntryOk;
    forall a | a in SettledArcs(q, best) ensures Explored(q, a) {
      var p := best[StateOf(q, a)].path;
      assert Within(q, p) && Last(p) == a;
    }
  }

  ghost predicate RejectionsOk(q: Query, best: map<State, Ranking>, rejections: set<Rejection>)
    requires q.Valid()
  {
    && (forall r :: r in rejections ==> BlockedAtTarget(q, r))
    && (forall a :: a in SettledArcs(q, best) && q.graph.arcs[a].to == q.graph.arcs[q.current].from ==>
          var b := Blocked(q.graph, q.graph.arcs[a].id, q.graph.arcs[q.current].id);
          b.Some? && b.value in rejections)
  }

  lemma ExhaustedSettles(q: Query, best: map<State, Ranking>, p: seq<nat>)
    requires q.Valid() && SearchInvariant(q, [], best) && Within(q, p)
    ensures Last(p) in SettledArcs(q, best) && !Approach(q, p)
  {
    hide Blocked, Monotone, NothingLost, BestUndercut, RankLess;
    Frontier(q, [], best, p);
  }

  /** An exhausted queue has settled every walk within the budget. */
  lemma Exhausted(q: Query, best: map<State, Ranking>, rejections: set<Rejection>)
    requires q.Valid() && SearchInvariant(q, [], best) && RejectionsOk(q, best, rejections)
    ensures !Completable(q) && ExploredStates(q) == SettledArcs(q, best)
    ensures forall r :: r in rejections <==> BlockedAtTarget(q, r)
  {
    hide SearchInvariant, Blocked, Joined, Length;
    forall p | Within(q, p) ensures Last(p) in SettledArcs(q, best) && !Approach(q, p) {
      ExhaustedSettles(q, best, p);
    }
    SettledAreExplored(q, [], best);
    assert ExploredStates(q) <= SettledArcs(q, best);
  }

  /** The first approach that leaves the queue completes to the best journey. */
  lemma FirstApproachAnswers(q: Query, queue: seq<QueueEntry>, best: map<State, Ranking>, item: QueueEntry)
    requires q.Valid() && SearchInvariant(q, queue, best) && item in queue && Approach(q, item.path)
    requires forall e :: e in queue ==> !EntryLess(e, item)
    ensures BestJourney(q, item.path + [q.current]) && Completable(q)
    ensures JourneyDistance(q, item.path + [q.current]) == item.distance + q.currentOffset
    ensures ExploredStates(q) <= SettledArcs(q, best) + {item.incoming}
  {
    LeastIsFirst(q, queue, best, item);
    BestApproachIsBestJourney(q, item.path);
    ApproachCompletes(q, item.path);
    forall a | a in ExploredStates(q) ensures a in SettledArcs(q, best) + {item.incoming} {
      ExploredIsSettled(q, queue, best, item, a);
    }
  }

  /** Counting the settled states when `item` is settled. */
  lemma SettlingCounts(q: Query, queue: seq<QueueEntry>, best: map<State, Ranking>, item: QueueEntry)
    requires q.Valid() && SearchInvariant(q, queue, best) && item in queue
    requires forall e :: e in queue ==> !EntryLess(e, item)
    requires (item.node, item.incoming) !in best
    ensures var settled := SettledArcs(q, best[(item.node, item.incoming) := item.Key()]);
            && |settled| == |SettledArcs(q, best)| + 1 <= |q.graph.arcs|
            && |settled| <= |ExploredStates(q)|
            && (Approach(q, item.path) ==> |settled| == |ExploredStates(q)|)
  {
    hide Blocked;
    hide EntryLess;
    hide Expanded;
    hide Monotone;
    var best' := best[(item.node, item.incoming) := item.Key()];
    assert EntryOk(q, item);
    assert StateOf(q, item.incoming) == (item.node, item.incoming);
    assert item.incoming !in SettledArcs(q, best);
    assert SettledArcs(q, best') == SettledArcs(q, best) + {item.incoming};
    SettledSize(q, best');
    assert SettledArcs(q, best') <= ExploredStates(q) by {
      SettledAreExplored(q, queue, best);
      LeastIsFirst(q, queue, best, item);
      assert Within(q, item.path) && Last(item.path) == item.incoming;
    }
    SubsetSize(SettledArcs(q, best'), ExploredStates(q));
    if Approach(q, item.path) {
      FirstApproachAnswers(q, queue, best, item);
      SubsetSize(ExploredStates(q), SettledArcs(q, best'));
    }
  }

  /** A settled state never receives a better ranking later: every state is settled at most once. */
  lemma NeverResettled(q: Query, queue: seq<QueueEntry>, best: map<State, Ranking>, item: QueueEntry)
    requires q.Valid() && SearchInvariant(q, queue, best) && item in queue
    requires (item.node, item.incoming) in best ==> RankLess(item.Key(), best[(item.node, item.incoming)])
    ensures (item.node, item.incoming) !in best
  {
    if (item.node, item.incoming) in best {
      RankTotal(item.Key(), best[(item.node, item.incoming)]);
    }
  }

  lemma RejectionsPreserved(q: Query, best: map<State, Ranking>, item: QueueEntry,
                            before: set<Rejection>, after: set<Rejection>)
    requires q.Valid() && EntryOk(q, item) && RejectionsOk(q, best, before)
    requires before <= after
    requires forall r :: r in after - before ==>
               item.node == q.graph.arcs[q.current].from &&
               Blocked(q.graph, q.graph.arcs[item.incoming].id, q.graph.arcs[q.current].id) == Some(r)
    requires item.node == q.graph.arcs[q.current].from ==>
               var b := Blocked(q.graph, q.graph.arcs[item.incoming].id, q.graph.arcs[q.current].id);
               b.Some? && b.value in after
    ensures RejectionsOk(q, best[(item.node, item.incoming) := item.Key()], after)
  {
    forall r | r in after ensures BlockedAtTarget(q, r) {
      if r !in before {
        assert r in after - before;
        assert Within(q, item.path) && Last(item.path) == item.incoming;
      }
    }
    var best' := best[(item.node, item.incoming) := item.Key()];
    forall a | a in SettledArcs(q, best') && a != item.incoming ensures a in SettledArcs(q, best) {
    }
  }

  /** The result once an approach has been settled. */
  method Complete(q: Query, item: QueueEntry) returns (out: RouteOutcome)
    requires q.Valid() && EntryOk(q, item) && Approach(q, item.path)
    requires BestJourney(q, item.path + [q.current])
    requires JourneyDistance(q, item.path + [q.current]) == item.distance + q.currentOffset
    ensures Answers(q, item.path + [q.current], out)
  {
    var path := item.path;
    if Last(path) != q.current {
      path := path + [q.current];
    }
    var total := item.distance + q.currentOffset;
    assert (item.path + [q.current])[..|item.path|] == item.path;
    if total > q.maxDistance {
      return Rejected(GraphSearchBudget);
    }
    var uTurns := CountUTurns(q.graph, path);
    return Found(total, |path| - 1, uTurns, path);
  }

  /** The answer when no approach was found. */
  method Refuse(q: Query, ghost best: map<State, Ranking>, rejections: set<Rejection>) returns (out: RouteOutcome)
    requires q.Valid() && !SameArcForward(q) && q.InitialDistance() <= q.maxDistance
    requires SearchInvariant(q, [], best) && RejectionsOk(q, best, rejections)
    requires |SettledArcs(q, best)| <= q.maxStates
    ensures RouteSpec(q, out)
  {
    Exhausted(q, best, rejections);
    if ForbiddenTurn in rejections {
      return Rejected(ForbiddenTurn);
    }
    if UnknownRestriction in rejections {
      return Rejected(UnknownRestriction);
    }
    return Rejected(NoDirectedPath);
  }

  method Route(q: Query) returns (out: RouteOutcome)
    requires q.Valid()
    ensures RouteSpec(q, out)
  {
    if q.previous == q.current && q.currentOffset >= q.previousOffset {
      return Found(q.currentOffset - q.previousOffset, 0, 0, [q.previous]);
    }
    var outgoing := BuildOutgoing(q.graph);
    var initialDistance := q.graph.arcs[q.previous].length - q.previousOffset;
    if initialDistance > q.maxDistance {
      return Rejected(GraphSearchBudget);
    }
    out := Search(q, outgoing);
  }

  lemma EntryOfQueue(q: Query, queue: seq<QueueEntry>, item: QueueEntry)
    requires q.Valid() && QueueOk(q, queue) && item in queue
    ensures EntryOk(q, item)
  {
  }

  lemma TooManyStates(q: Query)
    requires q.Valid() && !SameArcForward(q) && |ExploredStates(q)| > q.maxStates
    ensures RouteSpec(q, Rejected(GraphSearchBudget))
  {
  }

  lemma AnswerMeetsSpec(q: Query, w: seq<nat>, out: RouteOutcome)
    requires q.Valid() && !SameArcForward(q) && q.InitialDistance() <= q.maxDistance
    requires |ExploredStates(q)| <= q.maxStates && Completable(q) && Answers(q, w, out)
    ensures RouteSpec(q, out)
  {
  }

  /** Settle a popped entry: answer the query, or grow the queue by the entry's legal continuations. */
  method Settle(q: Query, outgoing: map<string, seq<nat>>, ghost queue: seq<QueueEntry>,
                ghost best: map<State, Ranking>, item: QueueEntry, rest: seq<QueueEntry>,
                rejections: set<Rejection>, visited: nat)
    returns (answer: Option<RouteOutcome>, grown: seq<QueueEntry>, rejections': set<Rejection>)
    requires q.Valid() && !SameArcForward(q) && q.InitialDistance() <= q.maxDistance
    requires ListsArcs(q.graph, outgoing)
    requires SearchInvariant(q, queue, best) && Popped(queue, item, rest)
    requires RejectionsOk(q, best, rejections)
    requires (item.node, item.incoming) !in best
    requires visited == |SettledArcs(q, best)| + 1
    ensures answer.Some? ==> RouteSpec(q, answer.value)
    ensures answer.None? ==>
              var best' := best[(item.node, item.incoming) := item.Key()];
              && SearchInvariant(q, grown, best') && RejectionsOk(q, best', rejections')
              && visited <= q.maxStates
  {
    hide EntryLess;
    hide RouteSpec;
    hide BestJourney;
    hide Answers;
    hide RankLess;
    hide Grown;
    hide QueueOk;
    hide NothingLost;
    hide BestUndercut;
    hide Monotone;
    hide BestOk;
    grown, rejections' := rest, rejections;
    assert EntryOk(q, item) by { EntryOfQueue(q, queue, item); }
    SettlingCounts(q, queue, best, item);
    if visited > q.maxStates {
      TooManyStates(q);
      return Some(Rejected(GraphSearchBudget)), grown, rejections';
    }
    if item.node == q.graph.arcs[q.current].from {
      var blocked := BlockedTransition(q.graph, q.graph.arcs[item.incoming].id, q.graph.arcs[q.current].id);
      if blocked.None? {
        FirstApproachAnswers(q, queue, best, item);
        var out := Complete(q, item);
        AnswerMeetsSpec(q, item.path + [q.current], out);
        return Some(out), grown, rejections';
      }
      rejections' := rejections + {blocked.value};
    }
    RejectionsPreserved(q, best, item, rejections, rejections');
    grown := Expand(q, outgoing, item, rest);
    SettlePreserves(q, queue, best, item, rest, grown);
    answer := None;
  }

  lemma SearchStarts(q: Query)
    requires q.Valid() && q.InitialDistance() <= q.maxDistance
    ensures var root := QueueEntry(q.InitialDistance(), 0, [q.previous], q.graph.arcs[q.previous].to, q.previous);
            SearchInvariant(q, [root], map[]) && RejectionsOk(q, map[], {}) && SettledArcs(q, map[]) == {}
  {
    hide Blocked, EntryLess, RankLess;
    var root := QueueEntry(q.InitialDistance(), 0, [q.previous], q.graph.arcs[q.previous].to, q.previous);
    assert [root][0] == Entry(q, [q.previous]);
  }

  method Search(q: Query, outgoing: map<string, seq<nat>>) returns (out: RouteOutcome)
    requires q.Valid() && !SameArcForward(q) && q.InitialDistance() <= q.maxDistance
    requires ListsArcs(q.graph, outgoing)
    ensures RouteSpec(q, out)
  {
    hide Blocked, EntryLess, RankLess, RouteSpec, SearchInvariant, SettledArcs, RejectionsOk;
    var g := q.graph;
    var queue := [QueueEntry(q.InitialDistance(), 0, [q.previous], g.arcs[q.previous].to, q.previous)];
    var best: map<State, Ranking> := map[];
    var targetRejections: set<Rejection> := {};
    var visited := 0;
    SearchStarts(q);
    while queue != []
      invariant SearchInvariant(q, queue, best)
      invariant visited == |SettledArcs(q, best)| <= q.maxStates
      invariant visited <= |g.arcs|
      invariant RejectionsOk(q, best, targetRejections)
      decreases |g.arcs| - visited, |queue|
    {
      var item, rest := PopLeast(queue);
      assert Popped(queue, item, rest);
      var state := (item.node, item.incoming);
      var ranking := item.Key();
      if state in best && !RankLess(ranking, best[state]) {
        RankTotal(ranking, best[state]);
        SkipPreserves(q, queue, best, item, rest);
        queue := rest;
        continue;
      }
      NeverResettled(q, queue, best, item);
      SettlingCounts(q, queue, best, item);
      visited := visited + 1;
      var answer;
      answer, queue, targetRejections := Settle(q, outgoing, queue, best, item, rest, targetRejections, visited);
      if answer.Some? {
        return answer.value;
      }
      best := best[state := ranking];
    }
    out := Refuse(q, best, targetRejections);
  }
}
