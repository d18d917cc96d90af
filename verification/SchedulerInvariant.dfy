/** The scheduler's books balance after every step. */
module SchedulerInvariant {
  import opened Wrappers
  import opened Scheduler
  import opened SchedulerLedger

  /** `c` is exactly what the queues, workers and outcomes of one scope add up to, and its byte peaks fit the budget. */
  ghost predicate Ledger(s: State, scope: Scope, c: Counters) {
    && c.queueDepth == Queued(Units, scope, s.queues) <= c.peakQueueDepth
    && c.queuedBytes == Queued(Bytes, scope, s.queues) <= c.peakQueuedBytes <= s.config.byteBudget
    && c.activeUnits == Active(Units, scope, s.workers)
    && c.activeBytes == Active(Bytes, scope, s.workers) <= c.peakActiveBytes <= s.config.byteBudget
    && c.completed == Ended(WithState(Completed), scope, s.outcomes)
    && c.failed == Ended(WithState(Failed), scope, s.outcomes)
    && c.cancelled == Ended(WithState(Cancelled), scope, s.outcomes)
  }

  ghost predicate Shape(s: State) {
    && s.config.workerCount > 0 && s.config.byteBudget > 0
    && |s.queues| == MODALITY_COUNT && |s.byModality| == MODALITY_COUNT && s.nextModality < MODALITY_COUNT
    && |s.workers| == (if s.config.deterministic then 1 else s.config.workerCount)
  }

  /** Admitted units fit the budget and their stage has counters. */
  ghost predicate UnitOk(s: State, q: QueuedUnit) {
    0 < q.unit.bytes <= s.config.byteBudget && q.unit.modality < MODALITY_COUNT && q.unit.stage in s.stages
  }

  ghost predicate UnitsOk(s: State) {
    && (forall i, j :: 0 <= i < |s.queues| && 0 <= j < |s.queues[i]| ==>
          UnitOk(s, s.queues[i][j]) && s.queues[i][j].unit.modality == i)
    && (forall w :: 0 <= w < |s.workers| && s.workers[w].Running? ==> UnitOk(s, s.workers[w].queued))
    && (forall i :: 0 <= i < |s.outcomes| ==> s.outcomes[i].stage in s.stages)
  }

  ghost predicate Books(s: State) {
    Ledger(s, All, s.total) && forall stage :: Ledger(s, Stage(stage), StageOf(s, stage))
  }

  /** Resident bytes are the queued and the active bytes, and never exceed the budget. */
  ghost predicate Residency(s: State) {
    s.resident == Queued(Bytes, All, s.queues) + Active(Bytes, All, s.workers) &&
    s.resident <= s.peakResident <= s.config.byteBudget
  }

  /** How often submission order `k` occurs in the queues, the workers and the outcomes together. */
  ghost function Occurrences(s: State, k: nat): nat {
    Queued(OrderIs(k), All, s.queues) + Active(OrderIs(k), All, s.workers) + Ended(WithOrder(k), All, s.outcomes)
  }

  /** Every accepted unit is in exactly one place, and nothing else is anywhere. */
  ghost predicate ExactlyOnce(s: State) {
    forall k: nat :: Occurrences(s, k) == if k < s.nextOrder then 1 else 0
  }

  /** `q` is the accepted unit with its submission order. */
  ghost predicate IsAccepted(s: State, q: QueuedUnit) {
    q.order < |s.accepted| && s.accepted[q.order] == q
  }

  /** `o` reports on `q`. */
  ghost predicate ReportsOn(o: Outcome, q: QueuedUnit) {
    o.order == q.order && o.unitId == q.unit.id && o.stage == q.unit.stage && o.modality == q.unit.modality
  }

  /** Accepted units are numbered in order; whatever is queued, running or reported is one of them. */
  ghost predicate Traced(s: State) {
    && |s.accepted| == s.nextOrder && (forall k :: 0 <= k < |s.accepted| ==> s.accepted[k].order == k)
    && (forall i, j :: 0 <= i < |s.queues| && 0 <= j < |s.queues[i]| ==> IsAccepted(s, s.queues[i][j]))
    && (forall w :: 0 <= w < |s.workers| && s.workers[w].Running? ==> IsAccepted(s, s.workers[w].queued))
    && (forall i :: 0 <= i < |s.outcomes| ==>
          s.outcomes[i].order < |s.accepted| && ReportsOn(s.outcomes[i], s.accepted[s.outcomes[i].order]))
  }

  ghost predicate ModalityBooks(s: State) {
    |s.byModality| == MODALITY_COUNT &&
    forall m :: 0 <= m < MODALITY_COUNT ==> s.byModality[m] == Ended(CompletedIn(m), All, s.outcomes)
  }

  ghost predicate AllEmpty(queues: seq<seq<QueuedUnit>>) {
    forall i :: 0 <= i < |queues| ==> queues[i] == []
  }

  /** After cancellation, and once any worker has left, no work is queued and none is accepted. */
  ghost predicate Stopped(s: State) {
    && (s.cancelled ==> !s.accepting && AllEmpty(s.queues))
    && (forall w :: 0 <= w < |s.workers| && s.workers[w].Exited? ==> !s.accepting && AllEmpty(s.queues))
  }

  ghost predicate Inv(s: State) {
    Shape(s) && UnitsOk(s) && Books(s) && Residency(s) && ExactlyOnce(s) && Traced(s) && ModalityBooks(s) && Stopped(s)
  }

  lemma NewSchedulerInv(config: Config)
    requires config.workerCount > 0 && config.byteBudget > 0
    ensures Inv(NewScheduler(config))
  {
    var s := NewScheduler(config);
    forall m: Measure, scope: Scope ensures Queued(m, scope, s.queues) == 0 && Active(m, scope, s.workers) == 0 {
      QueuedZero(m, scope, s.queues);
      ActiveZero(m, scope, s.workers);
    }
  }

  // ----- enqueue -----

  lemma EnqueueAmounts(s: State, u: WorkUnit, m: Measure, scope: Scope)
    requires |s.queues| == MODALITY_COUNT && u.modality < MODALITY_COUNT
    ensures Queued(m, scope, Enqueue(s, u).queues) ==
            Queued(m, scope, s.queues) + Weight(m, scope, QueuedUnit(s.nextOrder, u))
  {
    var q := QueuedUnit(s.nextOrder, u);
    QueuedUpdate(m, scope, s.queues, u.modality, s.queues[u.modality] + [q]);
    AmountSnoc(m, scope, s.queues[u.modality], q);
  }

  ghost predicate Admissible(s: State, u: WorkUnit) {
    EarlyRejection(s, u).None? && CanProceed(s, u) && s.accepting && !s.cancelled
  }

  lemma EnqueueLedger(s: State, u: WorkUnit, scope: Scope, c: Counters)
    requires Shape(s) && Residency(s) && Admissible(s, u) && Ledger(s, scope, c)
    ensures Ledger(Enqueue(s, u), scope, if InScope(scope, u.stage) then OnEnqueue(c, u.bytes) else c)
  {
    EnqueueAmounts(s, u, Units, scope);
    EnqueueAmounts(s, u, Bytes, scope);
    QueuedScope(Bytes, scope, s.queues);
  }

  lemma EnqueueUnits(s: State, u: WorkUnit)
    requires Shape(s) && UnitsOk(s) && Admissible(s, u)
    ensures UnitsOk(Enqueue(s, u)) && Shape(Enqueue(s, u))
  {
  }

  lemma EnqueueTraced(s: State, u: WorkUnit)
    requires Shape(s) && Traced(s) && u.modality < MODALITY_COUNT
    ensures Traced(Enqueue(s, u))
  {
    var s' := Enqueue(s, u);
    forall q | IsAccepted(s, q) ensures IsAccepted(s', q) {
    }
    assert IsAccepted(s', QueuedUnit(s.nextOrder, u));
  }

  lemma EnqueueInv(s: State, u: WorkUnit)
    requires Inv(s) && Admissible(s, u)
    ensures Inv(Enqueue(s, u))
  {
    hide Ledger;
    hide UnitsOk;
    hide Traced;
    var s' := Enqueue(s, u);
    EnqueueUnits(s, u);
    EnqueueTraced(s, u);
    EnqueueLedger(s, u, All, s.total);
    forall stage ensures Ledger(s', Stage(stage), StageOf(s', stage)) {
      EnqueueLedger(s, u, Stage(stage), StageOf(s, stage));
    }
    EnqueueAmounts(s, u, Bytes, All);
    forall k: nat ensures Occurrences(s', k) == if k < s'.nextOrder then 1 else 0 {
      EnqueueAmounts(s, u, OrderIs(k), All);
      assert Occurrences(s, k) == if k < s.nextOrder then 1 else 0;
    }
  }

  // ----- take -----

  lemma TakeAmounts(s: State, w: nat, index: nat, m: Measure, scope: Scope)
    requires |s.queues| == MODALITY_COUNT && w < |s.workers| && !s.workers[w].Running?
    requires Select(s.queues, s.nextModality, 0) == Some(index)
    ensures var q := s.queues[index][0];
            && Queued(m, scope, Take(s, w).queues) == Queued(m, scope, s.queues) - Weight(m, scope, q)
            && Active(m, scope, Take(s, w).workers) == Active(m, scope, s.workers) + Weight(m, scope, q)
  {
    QueuedUpdate(m, scope, s.queues, index, s.queues[index][1..]);
    AmountHead(m, scope, s.queues[index]);
    ActiveUpdate(m, scope, s.workers, w, Running(s.queues[index][0]));
  }

  lemma TakeLedger(s: State, w: nat, index: nat, scope: Scope, c: Counters)
    requires Shape(s) && Residency(s) && w < |s.workers| && !s.workers[w].Running? && Ledger(s, scope, c)
    requires Select(s.queues, s.nextModality, 0) == Some(index)
    ensures var q := s.queues[index][0];
            Ledger(Take(s, w), scope, if InScope(scope, q.unit.stage) then OnTake(c, q.unit.bytes) else c)
  {
    TakeAmounts(s, w, index, Units, scope);
    TakeAmounts(s, w, index, Bytes, scope);
    TakeAmounts(s, w, index, Bytes, All);
    QueuedScope(Bytes, scope, Take(s, w).queues);
    ActiveScope(Bytes, scope, Take(s, w).workers);
  }

  lemma TakeInv(s: State, w: nat)
    requires Inv(s) && TakeEnabled(s, w)
    ensures Inv(Take(s, w))
  {
    hide Ledger;
    hide Traced;
    var s' := Take(s, w);
    match Select(s.queues, s.nextModality, 0)
    case None =>
    case Some(index) =>
      var q := s.queues[index][0];
      assert UnitOk(s, q);
      TakeLedger(s, w, index, All, s.total);
      forall stage ensures Ledger(s', Stage(stage), StageOf(s', stage)) {
        TakeLedger(s, w, index, Stage(stage), StageOf(s, stage));
      }
      TakeAmounts(s, w, index, Bytes, All);
      forall k: nat ensures Occurrences(s', k) == if k < s'.nextOrder then 1 else 0 {
        TakeAmounts(s, w, index, OrderIs(k), All);
        assert Occurrences(s, k) == if k < s.nextOrder then 1 else 0;
      }
      TakeStops(s, w, index);
      TakeTraced(s, w, index);
  }

  lemma TakeTraced(s: State, w: nat, index: nat)
    requires Shape(s) && Traced(s) && w < |s.workers| && Select(s.queues, s.nextModality, 0) == Some(index)
    ensures Traced(Take(s, w))
  {
    hide Select;
    var s' := Take(s, w);
    forall q | IsAccepted(s, q) ensures IsAccepted(s', q) {
    }
    assert IsAccepted(s, s.queues[index][0]);
    forall i, j | 0 <= i < |s'.queues| && 0 <= j < |s'.queues[i]| ensures IsAccepted(s', s'.queues[i][j]) {
      assert i == index ==> s'.queues[i][j] == s.queues[i][j + 1];
    }
  }

  lemma TakeStops(s: State, w: nat, index: nat)
    requires Shape(s) && UnitsOk(s) && Stopped(s) && TakeEnabled(s, w)
    requires Select(s.queues, s.nextModality, 0) == Some(index)
    ensures UnitsOk(Take(s, w)) && Stopped(Take(s, w))
  {
    assert UnitOk(s, s.queues[index][0]);
  }

  // ----- finish -----

  lemma FinishAmounts(s: State, w: nat, error: Option<TaskError>, m: Measure, scope: Scope)
    requires FinishEnabled(s, w) && |s.byModality| == MODALITY_COUNT
    ensures Active(m, scope, Finish(s, w, error).workers) ==
            Active(m, scope, s.workers) - Weight(m, scope, s.workers[w].queued)
  {
    ActiveUpdate(m, scope, s.workers, w, Idle);
  }

  lemma FinishEnded(s: State, w: nat, error: Option<TaskError>, scope: Scope)
    requires FinishEnabled(s, w) && |s.byModality| == MODALITY_COUNT
    ensures forall state :: Ended(WithState(state), scope, Finish(s, w, error).outcomes) ==
              Ended(WithState(state), scope, s.outcomes) +
              if InScope(scope, s.workers[w].queued.unit.stage) && state == FinalState(s, error) then 1 else 0
  {
    forall state: WorkState {
      EndedSnoc(WithState(state), scope, s.outcomes, FinalOutcome(s, s.workers[w].queued, error));
    }
  }

  lemma FinishLedger(s: State, w: nat, error: Option<TaskError>, scope: Scope, c: Counters)
    requires Shape(s) && FinishEnabled(s, w) && Ledger(s, scope, c)
    ensures var q := s.workers[w].queued;
            Ledger(Finish(s, w, error), scope,
                   if InScope(scope, q.unit.stage) then OnFinish(c, q.unit.bytes, FinalState(s, error)) else c)
  {
    hide Queued, Active, Ended, FinalState, FinalOutcome;
    FinishAmounts(s, w, error, Units, scope);
    FinishAmounts(s, w, error, Bytes, scope);
    FinishEnded(s, w, error, scope);
  }

  lemma FinishTraced(s: State, w: nat, error: Option<TaskError>)
    requires Shape(s) && Traced(s) && FinishEnabled(s, w)
    ensures Traced(Finish(s, w, error))
  {
    hide FinalState;
    var s' := Finish(s, w, error);
    forall q | IsAccepted(s, q) ensures IsAccepted(s', q) {
    }
    assert IsAccepted(s, s.workers[w].queued);
  }

  lemma FinishBooks(s: State, w: nat, error: Option<TaskError>)
    requires Shape(s) && Books(s) && FinishEnabled(s, w)
    ensures Books(Finish(s, w, error))
  {
    hide Ledger, FinalState, FinalOutcome;
    var s' := Finish(s, w, error);
    FinishLedger(s, w, error, All, s.total);
    forall stage ensures Ledger(s', Stage(stage), StageOf(s', stage)) {
      FinishLedger(s, w, error, Stage(stage), StageOf(s, stage));
    }
  }

  lemma FinishCounts(s: State, w: nat, error: Option<TaskError>)
    requires Shape(s) && ExactlyOnce(s) && ModalityBooks(s) && FinishEnabled(s, w)
    ensures ExactlyOnce(Finish(s, w, error)) && ModalityBooks(Finish(s, w, error))
  {
    hide Queued, Active, Ended, FinalState;
    var s' := Finish(s, w, error);
    var q := s.workers[w].queued;
    forall k: nat ensures Occurrences(s', k) == if k < s'.nextOrder then 1 else 0 {
      FinishAmounts(s, w, error, OrderIs(k), All);
      EndedSnoc(WithOrder(k), All, s.outcomes, FinalOutcome(s, q, error));
      assert Occurrences(s, k) == if k < s.nextOrder then 1 else 0;
    }
    forall m | 0 <= m < MODALITY_COUNT ensures s'.byModality[m] == Ended(CompletedIn(m), All, s'.outcomes) {
      EndedSnoc(CompletedIn(m), All, s.outcomes, FinalOutcome(s, q, error));
    }
  }

  lemma FinishInv(s: State, w: nat, error: Option<TaskError>)
    requires Inv(s) && FinishEnabled(s, w)
    ensures Inv(Finish(s, w, error))
  {
    hide Books, ExactlyOnce, ModalityBooks, Traced, Queued, Active;
    assert UnitOk(s, s.workers[w].queued);
    FinishTraced(s, w, error);
    FinishBooks(s, w, error);
    FinishCounts(s, w, error);
    FinishAmounts(s, w, error, Bytes, All);
  }

  // ----- drop -----

  /** The invariant without the claim that a cancelled scheduler has empty queues. */
  ghost predicate Cancelling(s: State) {
    Shape(s) && UnitsOk(s) && Books(s) && Residency(s) && ExactlyOnce(s) && Traced(s) && ModalityBooks(s) &&
    !s.accepting &&
    forall w :: 0 <= w < |s.workers| && s.workers[w].Exited? ==> AllEmpty(s.queues)
  }

  lemma DropAmounts(s: State, index: nat, m: Measure, scope: Scope)
    requires index < |s.queues| && s.queues[index] != []
    ensures Queued(m, scope, Drop(s, index).queues) ==
            Queued(m, scope, s.queues) - Weight(m, scope, s.queues[index][0])
  {
    QueuedUpdate(m, scope, s.queues, index, s.queues[index][1..]);
    AmountHead(m, scope, s.queues[index]);
  }

  lemma DropLedger(s: State, index: nat, scope: Scope, c: Counters)
    requires index < |s.queues| && s.queues[index] != [] && Ledger(s, scope, c)
    ensures var q := s.queues[index][0];
            Ledger(Drop(s, index), scope, if InScope(scope, q.unit.stage) then OnDrop(c, q.unit.bytes) else c)
  {
    var s' := Drop(s, index);
    DropAmounts(s, index, Units, scope);
    DropAmounts(s, index, Bytes, scope);
    var o := s'.outcomes[|s.outcomes|];
    EndedSnoc(WithState(Completed), scope, s.outcomes, o);
    EndedSnoc(WithState(Failed), scope, s.outcomes, o);
    EndedSnoc(WithState(Cancelled), scope, s.outcomes, o);
  }

  lemma DropTraced(s: State, index: nat)
    requires Traced(s) && index < |s.queues| && s.queues[index] != []
    ensures Traced(Drop(s, index))
  {
    var s' := Drop(s, index);
    forall q | IsAccepted(s, q) ensures IsAccepted(s', q) {
    }
    assert IsAccepted(s, s.queues[index][0]);
    forall i, j | 0 <= i < |s'.queues| && 0 <= j < |s'.queues[i]| ensures IsAccepted(s', s'.queues[i][j]) {
      assert i == index ==> s'.queues[i][j] == s.queues[i][j + 1];
    }
  }

  lemma DropKeeps(s: State, index: nat)
    requires Cancelling(s) && index < |s.queues| && s.queues[index] != []
    ensures Cancelling(Drop(s, index))
  {
    hide Ledger;
    hide Traced;
    DropTraced(s, index);
    var s' := Drop(s, index);
    var q := s.queues[index][0];
    assert UnitOk(s, q);
    DropLedger(s, index, All, s.total);
    forall stage ensures Ledger(s', Stage(stage), StageOf(s', stage)) {
      DropLedger(s, index, Stage(stage), StageOf(s, stage));
    }
    DropAmounts(s, index, Bytes, All);
    var o := s'.outcomes[|s.outcomes|];
    forall k: nat ensures Occurrences(s', k) == if k < s'.nextOrder then 1 else 0 {
      DropAmounts(s, index, OrderIs(k), All);
      EndedSnoc(WithOrder(k), All, s.outcomes, o);
      assert Occurrences(s, k) == if k < s.nextOrder then 1 else 0;
    }
    forall m | 0 <= m < MODALITY_COUNT ensures s'.byModality[m] == Ended(CompletedIn(m), All, s'.outcomes) {
      EndedSnoc(CompletedIn(m), All, s.outcomes, o);
    }
  }

  lemma {:induction false} DropAllInv(s: State)
    requires Cancelling(s)
    ensures Inv(DropAll(s)) && AllEmpty(DropAll(s).queues)
    ensures DropAll(s).cancelled == s.cancelled && !DropAll(s).accepting && DropAll(s).workers == s.workers
    decreases QueuedLength(s.queues)
  {
    hide Books;
    hide Residency;
    hide ExactlyOnce;
    hide ModalityBooks;
    hide UnitsOk;
    hide Traced;
    match FirstNonEmpty(s.queues, 0)
    case None =>
    case Some(index) =>
      DropKeeps(s, index);
      QueuedLengthUpdate(s.queues, index, s.queues[index][1..]);
      DropAllInv(Drop(s, index));
  }

  lemma SameTraced(s: State, s': State)
    requires Traced(s) && s'.queues == s.queues && s'.workers == s.workers && s'.outcomes == s.outcomes
    requires s'.accepted == s.accepted && s'.nextOrder == s.nextOrder
    ensures Traced(s')
  {
    forall q | IsAccepted(s, q) ensures IsAccepted(s', q) {
    }
  }

  lemma CancelInv(s: State)
    requires Inv(s)
    ensures Inv(RequestCancel(s)) && RequestCancel(s).cancelled
  {
    hide Traced;
    if !s.cancelled {
      var s' := s.(cancelled := true, accepting := false);
      SameTraced(s, s');
      forall stage ensures Ledger(s', Stage(stage), StageOf(s', stage)) {
        assert Ledger(s, Stage(stage), StageOf(s, stage));
      }
      forall k: nat ensures Occurrences(s', k) == Occurrences(s, k) {
      }
      DropAllInv(s');
    }
  }
}
