/** The scheduler object; every method is one mutex-held section of `BoundedScheduler` (bounded_scheduler.cpp). */
module BoundedScheduling {
  import opened Wrappers
  import opened Numbers
  import opened Sorting
  import opened Scheduler
  import opened SchedulerLedger
  import opened SchedulerInvariant
  import opened SchedulerRuns
  import opened SchedulerOutcomes

  datatype Metrics = Metrics(total: Counters, byModality: seq<int>, peakResidentBytes: int)

  class BoundedScheduler {
    const config: Config
    var queues: seq<seq<QueuedUnit>>
    var metrics: Metrics
    var stages: map<string, Counters>
    var residentBytes: int
    var outcomes: seq<Outcome>
    var nextOrder: nat
    var nextModality: nat
    var accepting: bool
    var cancelRequested: bool

    /** What each worker thread holds, and the histories of accepted and taken units. */
    ghost var workers: seq<Worker>
    ghost var accepted: seq<QueuedUnit>
    ghost var taken: seq<QueuedUnit>

    ghost function View(): State
      reads this
    {
      State(config, queues, workers, metrics.total, stages, metrics.byModality, residentBytes,
            metrics.peakResidentBytes, outcomes,
            nextOrder, nextModality, accepting, cancelRequested, accepted, taken)
    }

    ghost predicate Valid()
      reads this
    {
      Inv(View())
    }

    constructor Initialize(config: Config)
      requires config.workerCount > 0 && config.byteBudget > 0
      ensures Valid() && View() == NewScheduler(config)
    {
      this.config := config;
      queues := seq(MODALITY_COUNT, _ => []);
      metrics := Metrics(ZERO, seq(MODALITY_COUNT, _ => 0), 0);
      stages := map[];
      residentBytes := 0;
      outcomes := [];
      nextOrder, nextModality := 0, 0;
      accepting, cancelRequested := true, false;
      workers := seq(if config.deterministic then 1 else config.workerCount, _ => Idle);
      accepted, taken := [], [];
      new;
      NewSchedulerInv(config);
    }

    /** A configuration without workers or without a byte budget is refused. */
    static method Create(config: Config) returns (r: Option<BoundedScheduler>)
      ensures r.Some? <==> config.workerCount > 0 && config.byteBudget > 0
      ensures r.Some? ==> fresh(r.value) && r.value.Valid() && r.value.View() == NewScheduler(config)
    {
      if config.workerCount == 0 || config.byteBudget == 0 {
        return None;
      }
      var s := new BoundedScheduler.Initialize(config);
      return Some(s);
    }

    method Submit(unit: WorkUnit) returns (r: SubmitResult)
      requires Valid() && SubmitEnabled(View(), unit)
      modifies this
      ensures Valid() && View() == Scheduler.Submit(old(View()), unit)
      ensures r == SubmitAnswer(old(View()), unit)
    {
      hide Inv;
      hide Enqueue;
      SubmitInv(View(), unit);
      InvShape(View());
      if unit.id == "" || unit.stage == "" || !unit.callable {
        return Rejected(WorkError(unit.id, unit.stage, TaskFailure, false));
      }
      if unit.bytes == 0 || unit.bytes > config.byteBudget {
        return Rejected(WorkError(unit.id, unit.stage, InvalidEstimatedBytes, false));
      }
      if unit.modality >= MODALITY_COUNT {
        return Rejected(WorkError(unit.id, unit.stage, TaskFailure, false));
      }
      if config.deterministic && accepting && !cancelRequested && residentBytes > config.byteBudget - unit.bytes {
        return Rejected(WorkError(unit.id, unit.stage, InvalidEstimatedBytes, false));
      }
      if cancelRequested || !accepting {
        stages := stages[unit.stage := if unit.stage in stages then stages[unit.stage] else ZERO];
        var code := if cancelRequested then CancelledWork else SchedulerClosed;
        return Rejected(WorkError(unit.id, unit.stage, code, false));
      }
      Admit(unit);
      return Accepted;
    }

    /** Append an admitted unit to its queue and charge it. */
    method Admit(unit: WorkUnit)
      requires |queues| == MODALITY_COUNT && unit.modality < MODALITY_COUNT
      modifies this
      ensures View() == Enqueue(old(View()), unit)
    {
      hide OnEnqueue;
      var queued := QueuedUnit(nextOrder, unit);
      nextOrder := nextOrder + 1;
      queues := queues[unit.modality := queues[unit.modality] + [queued]];
      residentBytes := residentBytes + unit.bytes;
      metrics := metrics.(total := OnEnqueue(metrics.total, unit.bytes),
                          peakResidentBytes := MaxInt(metrics.peakResidentBytes, residentBytes));
      var stage := if unit.stage in stages then stages[unit.stage] else ZERO;
      stages := stages[unit.stage := OnEnqueue(stage, unit.bytes)];
      accepted := accepted + [queued];
    }

    method Close()
      requires Valid()
      modifies this`accepting
      ensures Valid() && View() == Scheduler.Close(old(View()))
    {
      CloseInv(View());
      accepting := false;
    }

    /** Scan the queues round robin and remove the front of the first nonempty one. */
    method SelectNext() returns (selected: QueuedUnit)
      requires Valid() && HasQueued(View())
      modifies this`queues, this`nextModality
      ensures Select(old(queues), old(nextModality), 0).Some?
      ensures var index := Select(old(queues), old(nextModality), 0).value;
              && selected == old(queues)[index][0]
              && queues == old(queues)[index := old(queues)[index][1..]]
              && nextModality == (index + 1) % MODALITY_COUNT
    {
      hide Books;
      SelectDefined(View());
      var offset := 0;
      while queues[(nextModality + offset) % MODALITY_COUNT] == []
        invariant 0 <= offset < MODALITY_COUNT
        invariant Select(queues, nextModality, 0) == Select(queues, nextModality, offset)
        decreases MODALITY_COUNT - offset
      {
        offset := offset + 1;
      }
      var index := (nextModality + offset) % MODALITY_COUNT;
      selected := queues[index][0];
      queues := queues[index := queues[index][1..]];
      nextModality := (index + 1) % MODALITY_COUNT;
    }

    /** A worker takes the next unit. */
    method TakeNext(ghost w: nat) returns (queued: QueuedUnit)
      requires Valid() && TakeEnabled(View(), w)
      modifies this
      ensures Valid() && View() == Take(old(View()), w) && workers[w] == Running(queued)
    {
      hide Inv;
      hide OnTake;
      InvShape(View());
      TakeInv(View(), w);
      queued := SelectNext();
      metrics := metrics.(total := OnTake(metrics.total, queued.unit.bytes));
      var stage := if queued.unit.stage in stages then stages[queued.unit.stage] else ZERO;
      stages := stages[queued.unit.stage := OnTake(stage, queued.unit.bytes)];
      workers := workers[w := Running(queued)];
      taken := taken + [queued];
    }

    /** How the unit ended, and what is reported about it. */
    method ResultOf(queued: QueuedUnit, error: Option<TaskError>) returns (result: Outcome)
      ensures result == FinalOutcome(View(), queued, error) && result.state == FinalState(View(), error)
    {
      var unit := queued.unit;
      var state := Completed;
      var reported := None;
      if error.Some? {
        reported := Some(WorkError(unit.id, unit.stage, error.value.code, error.value.retryable));
      }
      if cancelRequested || (error.Some? && error.value.code == CancelledWork) {
        state := Cancelled;
        if error.None? {
          reported := Some(WorkError(unit.id, unit.stage, CancelledWork, true));
        }
      } else if error.Some? {
        state := Failed;
      }
      return Outcome(queued.order, unit.id, unit.stage, unit.modality, state, reported);
    }

    /** Record the result of the unit that worker `w` was running. */
    method Complete(ghost w: nat, queued: QueuedUnit, error: Option<TaskError>)
      requires Valid() && FinishEnabled(View(), w) && workers[w] == Running(queued)
      modifies this
      ensures Valid() && View() == Finish(old(View()), w, error)
    {
      hide Inv, Finish, FinalState, FinalOutcome;
      InvShape(View());
      FinishInv(View(), w, error);
      RunningModality(View(), w);
      var result := ResultOf(queued, error);
      Record(w, queued, result, error);
    }

    /** Release what the unit held, count it, and keep its result. */
    method Record(ghost w: nat, queued: QueuedUnit, result: Outcome, ghost error: Option<TaskError>)
      requires FinishEnabled(View(), w) && workers[w] == Running(queued) && |metrics.byModality| == MODALITY_COUNT
      requires queued.unit.modality < MODALITY_COUNT
      requires result == FinalOutcome(View(), queued, error) && result.state == FinalState(View(), error)
      modifies this
      ensures View() == Finish(old(View()), w, error)
    {
      hide OnFinish, FinalState, FinalOutcome;
      var unit := queued.unit;
      var completed := metrics.byModality;
      if result.state == Completed {
        completed := completed[unit.modality := completed[unit.modality] + 1];
      }
      var stage := if unit.stage in stages then stages[unit.stage] else ZERO;
      residentBytes := residentBytes - unit.bytes;
      metrics := metrics.(total := OnFinish(metrics.total, unit.bytes, result.state), byModality := completed);
      stages := stages[unit.stage := OnFinish(stage, unit.bytes, result.state)];
      outcomes := outcomes + [result];
      workers := workers[w := Idle];
    }

    method RequestCancel()
      requires Valid()
      modifies this
      ensures Valid() && View() == Scheduler.RequestCancel(old(View()))
    {
      CancelInv(View());
      if cancelRequested {
        return;
      }
      cancelRequested := true;
      accepting := false;
      CancelQueued();
    }

    /** Turn every queued unit into a cancelled outcome. */
    method CancelQueued()
      requires |queues| == MODALITY_COUNT
      modifies this
      ensures View() == DropAll(old(View()))
    {
      var i := 0;
      while i < |queues|
        invariant 0 <= i <= |queues| == MODALITY_COUNT
        invariant forall j :: 0 <= j < i ==> queues[j] == []
        invariant DropAll(View()) == DropAll(old(View()))
      {
        while queues[i] != []
          invariant |queues| == MODALITY_COUNT
          invariant forall j :: 0 <= j < i ==> queues[j] == []
          invariant DropAll(View()) == DropAll(old(View()))
          decreases |queues[i]|
        {
          FirstNonEmptyAt(queues, 0, i);
          DropOne(i);
        }
        i := i + 1;
      }
      NothingNonEmpty(queues, 0);
    }

    method DropOne(i: nat)
      requires i < |queues| && queues[i] != []
      modifies this
      ensures View() == Drop(old(View()), i)
    {
      hide OnDrop;
      var queued := queues[i][0];
      queues := queues[i := queues[i][1..]];
      var unit := queued.unit;
      metrics := metrics.(total := OnDrop(metrics.total, unit.bytes));
      residentBytes := residentBytes - unit.bytes;
      var stage := if unit.stage in stages then stages[unit.stage] else ZERO;
      stages := stages[unit.stage := OnDrop(stage, unit.bytes)];
      outcomes := outcomes + [Outcome(queued.order, unit.id, unit.stage, unit.modality, Cancelled,
                                      Some(WorkError(unit.id, unit.stage, CancelledWork, true)))];
    }

    /** The end of `wait`: close, and once nothing is queued or running return the outcomes in submission order. */
    method CollectOutcomes() returns (result: seq<Outcome>)
      requires Valid() && Quiescent(View())
      modifies this`accepting, this`outcomes
      ensures Valid() && View() == Scheduler.Close(old(View())).(outcomes := result)
      ensures multiset(result) == multiset(old(outcomes))
      ensures |result| == |accepted| && forall i :: 0 <= i < |result| ==> ReportsOn(result[i], accepted[i])
      ensures residentBytes == 0
      ensures metrics.total.completed + metrics.total.failed + metrics.total.cancelled == |accepted|
    {
      hide Inv, ReportsOn, EarlierOrder;
      CloseInv(View());
      accepting := false;
      EarlierOrderStrictWeak();
      result := Sort(EarlierOrder, outcomes);
      QuiescentOutcomes(View(), result);
      ReorderInv(View(), result);
      outcomes := result;
    }
  }

  lemma RunningModality(s: State, w: nat)
    requires Inv(s) && FinishEnabled(s, w)
    ensures s.workers[w].queued.unit.modality < MODALITY_COUNT
  {
    assert UnitOk(s, s.workers[w].queued);
  }

  lemma {:induction false} FirstNonEmptyAt(queues: seq<seq<QueuedUnit>>, from: nat, i: nat)
    requires from <= i < |queues| && queues[i] != [] && forall j :: from <= j < i ==> queues[j] == []
    ensures FirstNonEmpty(queues, from) == Some(i)
    decreases i - from
  {
    if from < i {
      FirstNonEmptyAt(queues, from + 1, i);
    }
  }

  lemma {:induction false} NothingNonEmpty(queues: seq<seq<QueuedUnit>>, from: nat)
    requires from <= |queues| && forall j :: from <= j < |queues| ==> queues[j] == []
    ensures FirstNonEmpty(queues, from) == None
    decreases |queues| - from
  {
    if from < |queues| {
      NothingNonEmpty(queues, from + 1);
    }
  }

  lemma ReorderLedger(s: State, outcomes: seq<Outcome>, scope: Scope, c: Counters)
    requires multiset(outcomes) == multiset(s.outcomes) && Ledger(s, scope, c)
    ensures Ledger(s.(outcomes := outcomes), scope, c)
  {
    EndedPermutation(WithState(Completed), scope, outcomes, s.outcomes);
    EndedPermutation(WithState(Failed), scope, outcomes, s.outcomes);
    EndedPermutation(WithState(Cancelled), scope, outcomes, s.outcomes);
  }

  lemma ReorderTraced(s: State, outcomes: seq<Outcome>)
    requires Traced(s) && multiset(outcomes) == multiset(s.outcomes)
    ensures Traced(s.(outcomes := outcomes))
  {
    var s' := s.(outcomes := outcomes);
    PermutationFacts(outcomes, s.outcomes);
    forall q | IsAccepted(s, q) ensures IsAccepted(s', q) {
    }
    forall i | 0 <= i < |outcomes|
      ensures outcomes[i].order < |s.accepted| && ReportsOn(outcomes[i], s.accepted[outcomes[i].order])
    {
      assert outcomes[i] in s.outcomes;
    }
  }

  /** Sorting the outcomes leaves the books balanced. */
  lemma ReorderInv(s: State, outcomes: seq<Outcome>)
    requires Inv(s) && multiset(outcomes) == multiset(s.outcomes)
    ensures Inv(s.(outcomes := outcomes))
  {
    hide Ledger;
    hide Traced;
    var s' := s.(outcomes := outcomes);
    ReorderTraced(s, outcomes);
    forall stage ensures Ledger(s', Stage(stage), StageOf(s', stage)) {
      ReorderLedger(s, outcomes, Stage(stage), StageOf(s, stage));
    }
    ReorderLedger(s, outcomes, All, s.total);
    forall k: nat ensures Occurrences(s', k) == Occurrences(s, k) {
      EndedPermutation(WithOrder(k), All, outcomes, s.outcomes);
    }
    forall m | 0 <= m < MODALITY_COUNT ensures s'.byModality[m] == Ended(CompletedIn(m), All, s'.outcomes) {
      EndedPermutation(CompletedIn(m), All, outcomes, s.outcomes);
    }
    PermutationFacts(outcomes, s.outcomes);
    forall i | 0 <= i < |outcomes| ensures outcomes[i].stage in s.stages {
      assert outcomes[i] in s.outcomes;
    }
  }
}
