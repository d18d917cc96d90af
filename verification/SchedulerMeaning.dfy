/** The steps of the scheduler in plain terms: who is refused, who is served, and how units end. */
module SchedulerMeaning {
  import opened Wrappers
  import opened Scheduler
  import opened SchedulerLedger
  import opened SchedulerInvariant
  import opened SchedulerRuns
  import opened SchedulerOutcomes

  // ----- submitting -----

  predicate Named(u: WorkUnit) { u.id != "" && u.stage != "" && u.callable }

  predicate Sized(s: State, u: WorkUnit) { 0 < u.bytes <= s.config.byteBudget }

  predicate KnownModality(u: WorkUnit) { u.modality < 6 }

  predicate Open(s: State) { s.accepting && !s.cancelled }

  predicate Roomy(s: State, u: WorkUnit) { s.resident + u.bytes <= s.config.byteBudget }

  /** The answer `code` to a submission, whatever the order in which the checks are made. */
  ghost predicate RefusedFor(s: State, u: WorkUnit, code: ErrorCode) {
    match code
    case TaskFailure => !Named(u) || (Sized(s, u) && !KnownModality(u))
    case InvalidEstimatedBytes =>
      Named(u) && (!Sized(s, u) || (KnownModality(u) && s.config.deterministic && Open(s) && !Roomy(s, u)))
    case CancelledWork => Named(u) && Sized(s, u) && KnownModality(u) && s.cancelled
    case SchedulerClosed => Named(u) && Sized(s, u) && KnownModality(u) && !s.cancelled && !s.accepting
    case UnhandledException => false
  }

  /** A submission waits only for room, and only outside deterministic mode; it is accepted exactly when it is well
      formed, the scheduler is open and there is room; otherwise the code says why, and nothing is enqueued. */
  lemma SubmitMeaning(s: State, u: WorkUnit)
    requires Shape(s)
    ensures !SubmitEnabled(s, u) <==>
              Named(u) && Sized(s, u) && KnownModality(u) && Open(s) && !s.config.deterministic && !Roomy(s, u)
    ensures SubmitEnabled(s, u) ==>
              (SubmitAnswer(s, u).Accepted? <==>
                 Named(u) && Sized(s, u) && KnownModality(u) && Open(s) && Roomy(s, u))
    ensures SubmitEnabled(s, u) ==>
              forall code, retry ::
                SubmitAnswer(s, u) == Rejected(WorkError(u.id, u.stage, code, retry)) <==>
                RefusedFor(s, u, code) && !retry
    ensures SubmitAnswer(s, u).Rejected? ==>
              var s' := Submit(s, u);
              s'.queues == s.queues && s'.total == s.total && s'.resident == s.resident &&
              s'.outcomes == s.outcomes && s'.accepted == s.accepted
    ensures SubmitAnswer(s, u).Accepted? ==>
              var s' := Submit(s, u);
              && s'.accepted == s.accepted + [QueuedUnit(s.nextOrder, u)] && s'.nextOrder == s.nextOrder + 1
              && s'.queues == s.queues[u.modality := s.queues[u.modality] + [QueuedUnit(s.nextOrder, u)]]
              && s'.resident == s.resident + u.bytes
  {
  }

  // ----- workers -----

  /** An idle worker may take a unit whenever one is queued, except in a deterministic scheduler that is still open;
      it leaves only when nothing is queued and nothing more can come. */
  lemma IdleWorker(s: State, w: nat)
    requires Shape(s) && w < |s.workers| && s.workers[w].Idle?
    ensures TakeEnabled(s, w) <==>
              (exists m :: 0 <= m < 6 && s.queues[m] != []) && !(s.config.deterministic && Open(s))
    ensures ExitEnabled(s, w) <==> (forall m :: 0 <= m < 6 ==> s.queues[m] == []) && !Open(s)
  {
  }

  /** A worker takes the oldest unit of the nearest nonempty queue in cyclic order, and the turn passes behind it. */
  lemma TakeMeaning(s: State, w: nat) returns (m: nat)
    requires Shape(s) && TakeEnabled(s, w)
    ensures m < 6 && s.queues[m] != []
    ensures forall i :: 0 <= i < 6 && s.queues[i] != [] ==> Distance(s.nextModality, m) <= Distance(s.nextModality, i)
    ensures var s' := Take(s, w);
            && s'.workers == s.workers[w := Running(s.queues[m][0])]
            && s'.queues == s.queues[m := s.queues[m][1..]] && s'.nextModality == (m + 1) % 6
            && s'.resident == s.resident && s'.outcomes == s.outcomes
  {
    SelectDefined(s);
    m := Select(s.queues, s.nextModality, 0).value;
    forall i | 0 <= i < 6 && s.queues[i] != [] ensures Distance(s.nextModality, m) <= Distance(s.nextModality, i) {
      SelectFinds(s.queues, s.nextModality, 0, i);
    }
  }

  // ----- how units end -----

  /** How a unit ends whose work returned `code` while cancellation was requested or not. */
  function Ending(cancelled: bool, code: Option<ErrorCode>): WorkState {
    match (cancelled, code)
    case (true, _) => Cancelled
    case (false, None) => Completed
    case (false, Some(CancelledWork)) => Cancelled
    case (false, Some(_)) => Failed
  }

  function CodeOf(error: Option<TaskError>): Option<ErrorCode> {
    match error case None => None case Some(e) => Some(e.code)
  }

  /** What is reported with it: the unit's own error, or the cancellation; nothing with a completed unit. */
  function Remark(u: WorkUnit, cancelled: bool, error: Option<TaskError>): Option<WorkError> {
    match error
    case Some(e) => Some(WorkError(u.id, u.stage, e.code, e.retryable))
    case None => if cancelled then Some(WorkError(u.id, u.stage, CancelledWork, true)) else None
  }

  function EndOf(q: QueuedUnit, cancelled: bool, error: Option<TaskError>): Outcome {
    Outcome(q.order, q.unit.id, q.unit.stage, q.unit.modality, Ending(cancelled, CodeOf(error)),
            Remark(q.unit, cancelled, error))
  }

  function EndsOf(queue: seq<QueuedUnit>): seq<Outcome> {
    if queue == [] then [] else [EndOf(queue[0], true, None)] + EndsOf(queue[1..])
  }

  /** The cancelled units of all queues, queue by queue, oldest first. */
  function EndsOfAll(queues: seq<seq<QueuedUnit>>): seq<Outcome> {
    if queues == [] then [] else EndsOf(queues[0]) + EndsOfAll(queues[1..])
  }

  lemma FinishMeaning(s: State, w: nat, error: Option<TaskError>)
    requires Shape(s) && FinishEnabled(s, w)
    ensures var s' := Finish(s, w, error);
            && s'.outcomes == s.outcomes + [EndOf(s.workers[w].queued, s.cancelled, error)]
            && s'.workers == s.workers[w := Idle] && s'.queues == s.queues
            && s'.resident == s.resident - s.workers[w].queued.unit.bytes
  {
  }

  lemma {:induction false} EndsOfEmpty(queues: seq<seq<QueuedUnit>>)
    requires forall i :: 0 <= i < |queues| ==> queues[i] == []
    ensures EndsOfAll(queues) == []
  {
    if queues != [] {
      EndsOfEmpty(queues[1..]);
    }
  }

  lemma {:induction false} FirstEnds(queues: seq<seq<QueuedUnit>>, i: nat)
    requires i < |queues| && queues[i] != [] && forall j :: 0 <= j < i ==> queues[j] == []
    ensures EndsOfAll(queues) == [EndOf(queues[i][0], true, None)] + EndsOfAll(queues[i := queues[i][1..]])
  {
    if i == 0 {
      assert queues[0 := queues[0][1..]][1..] == queues[1..];
    } else {
      FirstEnds(queues[1..], i - 1);
      assert queues[i := queues[i][1..]][1..] == queues[1..][i - 1 := queues[i][1..]];
    }
  }

  lemma {:induction false} FirstNonEmptyIs(queues: seq<seq<QueuedUnit>>, from: nat)
    requires from <= |queues|
    ensures FirstNonEmpty(queues, from).Some? ==>
              forall j :: from <= j < FirstNonEmpty(queues, from).value ==> queues[j] == []
    decreases |queues| - from
  {
    if from < |queues| && queues[from] == [] {
      FirstNonEmptyIs(queues, from + 1);
    }
  }

  lemma DropMeaning(s: State, index: nat)
    requires index < |s.queues| && s.queues[index] != []
    ensures var s' := Drop(s, index);
            && s'.outcomes == s.outcomes + [EndOf(s.queues[index][0], true, None)]
            && s'.queues == s.queues[index := s.queues[index][1..]]
            && s'.workers == s.workers && s'.cancelled == s.cancelled
  {
  }

  lemma {:induction false} DropAllMeaning(s: State)
    ensures DropAll(s).outcomes == s.outcomes + EndsOfAll(s.queues)
    ensures DropAll(s).workers == s.workers && DropAll(s).cancelled == s.cancelled
    decreases QueuedLength(s.queues)
  {
    hide Drop, EndOf, EndsOfAll, FirstNonEmpty, QueuedLength;
    match FirstNonEmpty(s.queues, 0)
    case None => EndsOfEmpty(s.queues);
    case Some(index) =>
      QueuedLengthUpdate(s.queues, index, s.queues[index][1..]);
      FirstNonEmptyIs(s.queues, 0);
      FirstEnds(s.queues, index);
      DropMeaning(s, index);
      DropAllMeaning(Drop(s, index));
  }

  /** The outcomes that one event adds. */
  ghost function Adds(s: State, e: Event): seq<Outcome>
    requires Shape(s) && Enabled(s, e)
  {
    match e
    case FinishEvent(w, error) => [EndOf(s.workers[w].queued, s.cancelled, error)]
    case CancelEvent => if s.cancelled then [] else EndsOfAll(s.queues)
    case _ => []
  }

  lemma StepAdds(s: State, e: Event)
    requires Shape(s) && Enabled(s, e)
    ensures Step(s, e).outcomes == s.outcomes + Adds(s, e)
    ensures Step(s, e).cancelled <==> s.cancelled || e.CancelEvent?
  {
    match e
    case FinishEvent(w, error) => FinishMeaning(s, w, error);
    case CancelEvent =>
      if !s.cancelled {
        DropAllMeaning(s.(cancelled := true, accepting := false));
      }
    case _ =>
  }

  /** The outcomes that a run adds, event by event. */
  ghost function AddedBy(s: State, run: seq<Event>): seq<Outcome>
    requires Inv(s) && Feasible(s, run)
    decreases |run|
  {
    if run == [] then [] else (StepInv(s, run[0]); Adds(s, run[0]) + AddedBy(Step(s, run[0]), run[1..]))
  }

  /** The outcomes of a run are exactly the endings of its finish events and of the units that cancellation found
      queued, in that order. */
  lemma {:induction false} RunOutcomes(s: State, run: seq<Event>)
    requires Inv(s) && Feasible(s, run)
    ensures After(s, run).outcomes == s.outcomes + AddedBy(s, run)
    decreases |run|
  {
    hide Inv, EndOf, EndsOfAll;
    if run != [] {
      InvShape(s);
      StepInv(s, run[0]);
      StepAdds(s, run[0]);
      RunOutcomes(Step(s, run[0]), run[1..]);
    }
  }

  // ----- counting endings -----

  /** Finish events of a run that end a unit in this state. */
  ghost function Finishes(cancelled: bool, run: seq<Event>, state: WorkState): nat
    decreases |run|
  {
    if run == [] then 0
    else
      (if run[0].FinishEvent? && Ending(cancelled, CodeOf(run[0].error)) == state then 1 else 0) +
      Finishes(cancelled || run[0].CancelEvent?, run[1..], state)
  }

  lemma {:induction false} EndsAreCancelled(queue: seq<QueuedUnit>)
    ensures Ended(WithState(Completed), All, EndsOf(queue)) == 0 && Ended(WithState(Failed), All, EndsOf(queue)) == 0
  {
    if queue != [] {
      EndsAreCancelled(queue[1..]);
      EndedConcat(WithState(Completed), All, [EndOf(queue[0], true, None)], EndsOf(queue[1..]));
      EndedConcat(WithState(Failed), All, [EndOf(queue[0], true, None)], EndsOf(queue[1..]));
    }
  }

  lemma {:induction false} AllEndsAreCancelled(queues: seq<seq<QueuedUnit>>)
    ensures Ended(WithState(Completed), All, EndsOfAll(queues)) == 0
    ensures Ended(WithState(Failed), All, EndsOfAll(queues)) == 0
  {
    if queues != [] {
      AllEndsAreCancelled(queues[1..]);
      EndsAreCancelled(queues[0]);
      EndedConcat(WithState(Completed), All, EndsOf(queues[0]), EndsOfAll(queues[1..]));
      EndedConcat(WithState(Failed), All, EndsOf(queues[0]), EndsOfAll(queues[1..]));
    }
  }

  lemma {:induction false} RunCounts(s: State, run: seq<Event>, state: WorkState)
    requires Inv(s) && Feasible(s, run) && state != Cancelled
    ensures Ended(WithState(state), All, AddedBy(s, run)) == Finishes(s.cancelled, run, state)
    decreases |run|
  {
    hide Inv, EndsOfAll;
    if run != [] {
      InvShape(s);
      StepInv(s, run[0]);
      StepAdds(s, run[0]);
      AllEndsAreCancelled(s.queues);
      RunCounts(Step(s, run[0]), run[1..], state);
      EndedConcat(WithState(state), All, Adds(s, run[0]), AddedBy(Step(s, run[0]), run[1..]));
    }
  }

  /** Over every run, the completed units are those whose work returned without error before cancellation, the failed
      ones those that returned an error of their own before it, and all the others are cancelled. */
  lemma RunEndings(config: Config, run: seq<Event>)
    requires config.workerCount > 0 && config.byteBudget > 0 && Feasible(Start(config), run)
    ensures var s := After(Start(config), run);
            && s.total.completed == Finishes(false, run, Completed)
            && s.total.failed == Finishes(false, run, Failed)
            && s.total.cancelled == |s.outcomes| - Finishes(false, run, Completed) - Finishes(false, run, Failed)
  {
    hide Feasible, UnitsOk, ExactlyOnce, Traced, ModalityBooks, Stopped;
    var s := After(Start(config), run);
    RunOutcomes(Start(config), run);
    RunCounts(Start(config), run, Completed);
    RunCounts(Start(config), run, Failed);
    assert Start(config).outcomes + AddedBy(Start(config), run) == AddedBy(Start(config), run);
    EndedByState(s.outcomes);
  }
}
