/** Finished runs: one outcome per accepted unit; cancellation; progress after closing. */
module SchedulerOutcomes {
  import opened Wrappers
  import opened Sorting
  import opened Scheduler
  import opened SchedulerLedger
  import opened SchedulerInvariant
  import opened SchedulerRuns

  predicate EarlierOrder(x: Outcome, y: Outcome) { x.order < y.order }

  lemma EarlierOrderStrictWeak()
    ensures StrictWeak(EarlierOrder)
  {
  }

  lemma {:induction false} EndedConcat(kind: Kind, scope: Scope, a: seq<Outcome>, b: seq<Outcome>)
    ensures Ended(kind, scope, a + b) == Ended(kind, scope, a) + Ended(kind, scope, b)
  {
    if b == [] {
      assert a + b == a;
    } else {
      assert (a + b)[..|a + b| - 1] == a + b[..|b| - 1];
      EndedConcat(kind, scope, a, b[..|b| - 1]);
    }
  }

  /** Counting outcomes does not depend on their order. */
  lemma {:induction false} EndedPermutation(kind: Kind, scope: Scope, a: seq<Outcome>, b: seq<Outcome>)
    requires multiset(a) == multiset(b)
    ensures Ended(kind, scope, a) == Ended(kind, scope, b)
    decreases |a|
  {
    PermutationFacts(a, b);
    if a != [] {
      var x, front := a[|a| - 1], a[..|a| - 1];
      var j := RemoveOne(a, b);
      var left, right := b[..j], b[j + 1..];
      assert a == front + [x] && b == left + [x] + right;
      EndedPermutation(kind, scope, front, left + right);
      EndedConcat(kind, scope, left, right);
      EndedConcat(kind, scope, left + [x], right);
      EndedConcat(kind, scope, left, [x]);
      EndedConcat(kind, scope, front, [x]);
    }
  }

  lemma {:induction false} EndedMember(outcomes: seq<Outcome>, i: nat)
    requires i < |outcomes|
    ensures Ended(WithOrder(outcomes[i].order), All, outcomes) >= 1
  {
    if i < |outcomes| - 1 {
      EndedMember(outcomes[..|outcomes| - 1], i);
    }
  }

  lemma {:induction false} EndedWitness(outcomes: seq<Outcome>, k: nat)
    requires Ended(WithOrder(k), All, outcomes) >= 1
    ensures exists i :: 0 <= i < |outcomes| && outcomes[i].order == k
  {
    var n := |outcomes| - 1;
    if outcomes[n].order != k {
      EndedWitness(outcomes[..n], k);
      var i :| 0 <= i < n && outcomes[..n][i].order == k;
      assert outcomes[i].order == k;
    }
  }

  /** Sorted outcomes in which each order below `n` occurs once are numbered 0, 1, ..., n - 1. */
  lemma {:induction false} SortedOrders(outcomes: seq<Outcome>, n: nat)
    requires Sorted(EarlierOrder, outcomes)
    requires forall k: nat :: Ended(WithOrder(k), All, outcomes) == if k < n then 1 else 0
    ensures |outcomes| == n && forall i :: 0 <= i < n ==> outcomes[i].order == i
  {
    if n == 0 {
      if outcomes != [] {
        EndedMember(outcomes, 0);
      }
    } else {
      EndedWitness(outcomes, n - 1);
      var i :| 0 <= i < |outcomes| && outcomes[i].order == n - 1;
      var last := |outcomes| - 1;
      EndedMember(outcomes, last);
      assert i == last || !EarlierOrder(outcomes[last], outcomes[i]);
      assert outcomes[last].order == n - 1;
      SortedOrders(outcomes[..last], n - 1);
    }
  }

  /** No unit is queued or running: the condition `wait` waits for. */
  predicate Quiescent(s: State) {
    s.total.queueDepth == 0 && s.total.activeUnits == 0
  }

  lemma QuiescentIsEmpty(s: State)
    requires Inv(s) && Quiescent(s)
    ensures AllEmpty(s.queues) && forall w :: 0 <= w < |s.workers| ==> !s.workers[w].Running?
  {
    QueuedDepth(s.queues);
    ActiveCount(s.workers);
  }

  lemma OutcomesTraced(s: State, sorted: seq<Outcome>)
    requires Traced(s) && multiset(sorted) == multiset(s.outcomes)
    requires |sorted| == s.nextOrder && forall i :: 0 <= i < |sorted| ==> sorted[i].order == i
    ensures |sorted| == |s.accepted| && forall i :: 0 <= i < |sorted| ==> ReportsOn(sorted[i], s.accepted[i])
  {
    PermutationFacts(sorted, s.outcomes);
    forall i | 0 <= i < |sorted| ensures ReportsOn(sorted[i], s.accepted[i]) {
      assert sorted[i] in s.outcomes;
    }
  }

  /** What `wait` returns: one outcome per accepted unit, in order of submission, and nothing is resident. */
  lemma QuiescentOutcomes(s: State, sorted: seq<Outcome>)
    requires Inv(s) && Quiescent(s)
    requires Sorted(EarlierOrder, sorted) && multiset(sorted) == multiset(s.outcomes)
    ensures |sorted| == |s.accepted| && forall i :: 0 <= i < |sorted| ==> ReportsOn(sorted[i], s.accepted[i])
    ensures s.resident == 0
    ensures s.total.completed + s.total.failed + s.total.cancelled == |s.accepted|
  {
    hide Traced, UnitsOk, ModalityBooks;
    QuiescentIsEmpty(s);
    QueuedZero(Bytes, All, s.queues);
    ActiveZero(Bytes, All, s.workers);
    forall k: nat ensures Ended(WithOrder(k), All, sorted) == if k < s.nextOrder then 1 else 0 {
      QueuedZero(OrderIs(k), All, s.queues);
      ActiveZero(OrderIs(k), All, s.workers);
      EndedPermutation(WithOrder(k), All, sorted, s.outcomes);
      assert Occurrences(s, k) == if k < s.nextOrder then 1 else 0;
    }
    SortedOrders(sorted, s.nextOrder);
    EndedByState(s.outcomes);
    PermutationFacts(sorted, s.outcomes);
    OutcomesTraced(s, sorted);
  }

  // ----- cancellation -----

  lemma CancelledStep(s: State, e: Event)
    requires Inv(s) && Enabled(s, e) && s.cancelled
    ensures Step(s, e).cancelled && Step(s, e).accepted == s.accepted
    ensures Ended(WithState(Completed), All, Step(s, e).outcomes) == Ended(WithState(Completed), All, s.outcomes)
  {
    match e
    case FinishEvent(w, error) =>
      EndedSnoc(WithState(Completed), All, s.outcomes, FinalOutcome(s, s.workers[w].queued, error));
    case _ =>
  }

  /** After cancellation nothing more is accepted and no further unit is reported as completed. */
  lemma {:induction false} NothingCompletesAfterCancel(s: State, run: seq<Event>)
    requires Inv(s) && s.cancelled && Feasible(s, run)
    ensures After(s, run).cancelled && After(s, run).accepted == s.accepted
    ensures Ended(WithState(Completed), All, After(s, run).outcomes) == Ended(WithState(Completed), All, s.outcomes)
    decreases |run|
  {
    hide Inv;
    if run != [] {
      InvShape(s);
      StepInv(s, run[0]);
      CancelledStep(s, run[0]);
      NothingCompletesAfterCancel(Step(s, run[0]), run[1..]);
    }
  }

  // ----- progress -----

  /** Remaining work: two worker steps per queued unit and one per running unit. */
  ghost function Remaining(s: State): int {
    2 * s.total.queueDepth + s.total.activeUnits
  }

  predicate IsWorkStep(e: Event) { e.TakeEvent? || e.FinishEvent? }

  ghost function WorkSteps(run: seq<Event>): nat {
    if run == [] then 0 else (if IsWorkStep(run[0]) then 1 else 0) + WorkSteps(run[1..])
  }

  lemma {:induction false} SelectFinds(queues: seq<seq<QueuedUnit>>, next: nat, offset: nat, i: nat)
    requires |queues| == MODALITY_COUNT && next < MODALITY_COUNT && offset <= MODALITY_COUNT
    requires i < MODALITY_COUNT && queues[i] != [] && Distance(next, i) >= offset
    ensures Select(queues, next, offset).Some?
    ensures Distance(next, Select(queues, next, offset).value) <= Distance(next, i)
    decreases MODALITY_COUNT - offset
  {
    assert (next + Distance(next, i)) % MODALITY_COUNT == i;
    if offset < MODALITY_COUNT && queues[(next + offset) % MODALITY_COUNT] == [] {
      SelectFinds(queues, next, offset + 1, i);
    }
  }

  /** How many queues lie cyclically before `i` when the scan starts at `next`. */
  function Distance(next: nat, i: nat): nat
    requires next < MODALITY_COUNT && i < MODALITY_COUNT
  {
    if next <= i then i - next else i + MODALITY_COUNT - next
  }

  lemma SelectDefined(s: State)
    requires Shape(s) && HasQueued(s)
    ensures Select(s.queues, s.nextModality, 0).Some?
  {
    var i :| 0 <= i < |s.queues| && s.queues[i] != [];
    SelectFinds(s.queues, s.nextModality, 0, i);
  }

  lemma {:induction false} DropAllRemaining(s: State)
    ensures DropAll(s).total.queueDepth <= s.total.queueDepth && DropAll(s).total.activeUnits == s.total.activeUnits
    decreases QueuedLength(s.queues)
  {
    match FirstNonEmpty(s.queues, 0)
    case None =>
    case Some(index) =>
      QueuedLengthUpdate(s.queues, index, s.queues[index][1..]);
      DropAllRemaining(Drop(s, index));
  }

  lemma ProgressStep(s: State, e: Event)
    requires Inv(s) && Enabled(s, e) && !s.accepting
    ensures !Step(s, e).accepting
    ensures Remaining(Step(s, e)) <= Remaining(s) - if IsWorkStep(e) then 1 else 0
  {
    match e
    case TakeEvent(w) => SelectDefined(s);
    case CancelEvent =>
      if !s.cancelled {
        var s' := s.(cancelled := true, accepting := false);
        DropAllRemaining(s');
        DropAllKeepsClosed(s');
      }
    case _ =>
  }

  lemma {:induction false} DropAllKeepsClosed(s: State)
    ensures DropAll(s).accepting == s.accepting
    decreases QueuedLength(s.queues)
  {
    match FirstNonEmpty(s.queues, 0)
    case None =>
    case Some(index) =>
      QueuedLengthUpdate(s.queues, index, s.queues[index][1..]);
      DropAllKeepsClosed(Drop(s, index));
  }

  /** Once closed, a run can contain at most 2 * queue depth + active units worker steps. */
  lemma {:induction false} WorkIsBounded(s: State, run: seq<Event>)
    requires Inv(s) && !s.accepting && Feasible(s, run)
    ensures WorkSteps(run) + Remaining(After(s, run)) <= Remaining(s)
    decreases |run|
  {
    hide Inv;
    hide Remaining;
    if run != [] {
      InvShape(s);
      StepInv(s, run[0]);
      ProgressStep(s, run[0]);
      WorkIsBounded(Step(s, run[0]), run[1..]);
    }
  }

  /** While work remains after closing, some worker can take or finish a unit. */
  lemma WorkIsEnabled(s: State) returns (e: Event)
    requires Inv(s) && !s.accepting && Remaining(s) > 0
    ensures IsWorkStep(e) && Enabled(s, e)
  {
    QueuedDepth(s.queues);
    ActiveCount(s.workers);
    if w :| 0 <= w < |s.workers| && s.workers[w].Running? {
      e := FinishEvent(w, None);
    } else {
      assert HasQueued(s);
      assert s.workers[0].Idle?;
      e := TakeEvent(0);
    }
  }
}
