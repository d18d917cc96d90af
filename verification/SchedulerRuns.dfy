/** Properties of every interleaving of submissions, workers, closing and cancellation. */
module SchedulerRuns {
  import opened Wrappers
  import opened Scheduler
  import opened SchedulerLedger
  import opened SchedulerInvariant

  datatype Event =
    | SubmitEvent(unit: WorkUnit)
    | CloseEvent
    | CancelEvent
    | TakeEvent(worker: nat)
    | FinishEvent(worker: nat, error: Option<TaskError>)
    | ExitEvent(worker: nat)

  ghost predicate Enabled(s: State, e: Event) {
    match e
    case SubmitEvent(u) => SubmitEnabled(s, u)
    case CloseEvent => true
    case CancelEvent => true
    case TakeEvent(w) => TakeEnabled(s, w)
    case FinishEvent(w, _) => FinishEnabled(s, w)
    case ExitEvent(w) => ExitEnabled(s, w)
  }

  ghost function Step(s: State, e: Event): State
    requires Shape(s) && Enabled(s, e)
  {
    match e
    case SubmitEvent(u) => Submit(s, u)
    case CloseEvent => Close(s)
    case CancelEvent => RequestCancel(s)
    case TakeEvent(w) => Take(s, w)
    case FinishEvent(w, error) => Finish(s, w, error)
    case ExitEvent(w) => Exit(s, w)
  }

  lemma SubmitInv(s: State, u: WorkUnit)
    requires Inv(s) && SubmitEnabled(s, u)
    ensures Inv(Submit(s, u))
  {
    hide Ledger;
    hide Traced;
    if Admissible(s, u) {
      EnqueueInv(s, u);
    } else {
      var s' := Submit(s, u);
      SameTraced(s, s');
      forall stage ensures Ledger(s', Stage(stage), StageOf(s', stage)) {
        RelabelLedger(s, s', Stage(stage), StageOf(s, stage));
      }
      RelabelLedger(s, s', All, s.total);
      forall k: nat ensures Occurrences(s', k) == Occurrences(s, k) {
      }
    }
  }

  /** A ledger depends only on the queues, workers, outcomes and budget. */
  lemma RelabelLedger(s: State, s': State, scope: Scope, c: Counters)
    requires s'.queues == s.queues && s'.workers == s.workers && s'.outcomes == s.outcomes && s'.config == s.config
    requires Ledger(s, scope, c)
    ensures Ledger(s', scope, c)
  {
  }

  lemma CloseInv(s: State)
    requires Inv(s)
    ensures Inv(Close(s))
  {
    hide Ledger;
    hide Traced;
    var s' := Close(s);
    SameTraced(s, s');
    forall stage ensures Ledger(s', Stage(stage), StageOf(s', stage)) {
      RelabelLedger(s, s', Stage(stage), StageOf(s, stage));
    }
    RelabelLedger(s, s', All, s.total);
    forall k: nat ensures Occurrences(s', k) == Occurrences(s, k) {
    }
  }

  lemma ExitAmounts(s: State, w: nat, m: Measure, scope: Scope)
    requires w < |s.workers| && s.workers[w].Idle?
    ensures Active(m, scope, Exit(s, w).workers) == Active(m, scope, s.workers)
  {
    ActiveUpdate(m, scope, s.workers, w, Exited);
  }

  lemma ExitLedger(s: State, w: nat, scope: Scope, c: Counters)
    requires w < |s.workers| && s.workers[w].Idle? && Ledger(s, scope, c)
    ensures Ledger(Exit(s, w), scope, c)
  {
    ExitAmounts(s, w, Units, scope);
    ExitAmounts(s, w, Bytes, scope);
  }

  lemma ExitTraced(s: State, w: nat)
    requires w < |s.workers| && Traced(s)
    ensures Traced(Exit(s, w))
  {
    forall q | IsAccepted(s, q) ensures IsAccepted(Exit(s, w), q) {
    }
  }

  lemma ExitInv(s: State, w: nat)
    requires Inv(s) && ExitEnabled(s, w)
    ensures Inv(Exit(s, w))
  {
    hide Ledger;
    hide Traced;
    var s' := Exit(s, w);
    ExitTraced(s, w);
    forall stage ensures Ledger(s', Stage(stage), StageOf(s', stage)) {
      ExitLedger(s, w, Stage(stage), StageOf(s, stage));
    }
    ExitLedger(s, w, All, s.total);
    ExitAmounts(s, w, Bytes, All);
    forall k: nat ensures Occurrences(s', k) == Occurrences(s, k) {
      ExitAmounts(s, w, OrderIs(k), All);
    }
  }

  lemma StepInv(s: State, e: Event)
    requires Inv(s) && Enabled(s, e)
    ensures Inv(Step(s, e))
  {
    hide Inv;
    assert Shape(s) by { InvShape(s); }
    match e
    case SubmitEvent(u) => SubmitInv(s, u);
    case CloseEvent => CloseInv(s);
    case CancelEvent => CancelInv(s);
    case TakeEvent(w) => TakeInv(s, w);
    case FinishEvent(w, error) => FinishInv(s, w, error);
    case ExitEvent(w) => ExitInv(s, w);
  }

  lemma InvShape(s: State)
    requires Inv(s)
    ensures Shape(s)
  {
  }

  // ----- runs -----

  /** Every event of the run is enabled when its turn comes. */
  ghost predicate Feasible(s: State, run: seq<Event>)
    requires Inv(s)
    decreases |run|
  {
    run == [] || (Enabled(s, run[0]) && (StepInv(s, run[0]); Feasible(Step(s, run[0]), run[1..])))
  }

  ghost function After(s: State, run: seq<Event>): (r: State)
    requires Inv(s) && Feasible(s, run)
    ensures Inv(r)
    decreases |run|
  {
    if run == [] then s else (StepInv(s, run[0]); After(Step(s, run[0]), run[1..]))
  }

  ghost function Start(config: Config): (s: State)
    requires config.workerCount > 0 && config.byteBudget > 0
    ensures Inv(s)
  {
    NewSchedulerInv(config);
    NewScheduler(config)
  }

  lemma {:induction false} DropAllKeepsHistory(s: State)
    ensures DropAll(s).taken == s.taken && DropAll(s).accepted == s.accepted
    ensures DropAll(s).nextOrder == s.nextOrder && DropAll(s).config == s.config && DropAll(s).cancelled == s.cancelled
    decreases QueuedLength(s.queues)
  {
    match FirstNonEmpty(s.queues, 0)
    case None =>
    case Some(index) =>
      QueuedLengthUpdate(s.queues, index, s.queues[index][1..]);
      DropAllKeepsHistory(Drop(s, index));
  }

  lemma StepKeepsConfig(s: State, e: Event)
    requires Shape(s) && Enabled(s, e)
    ensures Step(s, e).config == s.config
  {
    if e.CancelEvent? && !s.cancelled {
      DropAllKeepsHistory(s.(cancelled := true, accepting := false));
    }
  }

  lemma {:induction false} RunKeepsConfig(s: State, run: seq<Event>)
    requires Inv(s) && Feasible(s, run)
    ensures After(s, run).config == s.config
    decreases |run|
  {
    hide Inv;
    if run != [] {
      InvShape(s);
      StepInv(s, run[0]);
      StepKeepsConfig(s, run[0]);
      RunKeepsConfig(Step(s, run[0]), run[1..]);
    }
  }

  /** One scope's counters are not negative, and its bytes, peaks included, fit the budget. */
  ghost predicate WithinBudget(c: Counters, budget: nat) {
    c.queueDepth >= 0 && c.activeUnits >= 0 && c.completed >= 0 && c.failed >= 0 && c.cancelled >= 0 &&
    0 <= c.queuedBytes <= c.peakQueuedBytes <= budget && 0 <= c.activeBytes <= c.peakActiveBytes <= budget
  }

  /** Whatever the interleaving, the books balance, and the configured byte budget and worker count hold globally and
      for every stage. */
  lemma EveryRunIsSound(config: Config, run: seq<Event>)
    requires config.workerCount > 0 && config.byteBudget > 0 && Feasible(Start(config), run)
    ensures var s := After(Start(config), run);
            && s.config == config && |s.workers| == (if config.deterministic then 1 else config.workerCount)
            && s.total.queuedBytes + s.total.activeBytes == s.resident <= s.peakResident <= config.byteBudget
            && s.total.activeUnits <= |s.workers| && s.total.queueDepth == QueuedLength(s.queues)
            && s.total.completed + s.total.failed + s.total.cancelled == |s.outcomes|
            && WithinBudget(s.total, config.byteBudget)
            && (forall stage :: stage in s.stages ==> WithinBudget(s.stages[stage], config.byteBudget))
  {
    hide Feasible, UnitsOk, ExactlyOnce, Traced, ModalityBooks, Stopped;
    var s := After(Start(config), run);
    RunKeepsConfig(Start(config), run);
    ActiveCount(s.workers);
    DepthIsLength(s.queues);
    EndedByState(s.outcomes);
    forall stage | stage in s.stages ensures WithinBudget(s.stages[stage], config.byteBudget) {
      assert Ledger(s, Stage(stage), StageOf(s, stage));
    }
  }

  lemma {:induction false} DepthIsLength(queues: seq<seq<QueuedUnit>>)
    ensures Queued(Units, All, queues) == QueuedLength(queues)
  {
    if queues != [] {
      DepthIsLength(queues[..|queues| - 1]);
      AmountPositive(queues[|queues| - 1]);
    }
  }
}
