/** Bounded scheduler as a state machine: each mutex-held section is one atomic step. */
module Scheduler {
  import opened Wrappers
  import opened Numbers

  const MODALITY_COUNT: nat := 6

  datatype WorkUnit = WorkUnit(id: string, stage: string, modality: nat, bytes: nat, callable: bool)

  datatype QueuedUnit = QueuedUnit(order: nat, unit: WorkUnit)

  datatype WorkState = Completed | Failed | Cancelled

  datatype ErrorCode = TaskFailure | UnhandledException | CancelledWork | SchedulerClosed | InvalidEstimatedBytes

  datatype WorkError = WorkError(unitId: string, stageId: string, code: ErrorCode, retryable: bool)

  datatype Outcome = Outcome(order: nat, unitId: string, stage: string, modality: nat, state: WorkState,
                             error: Option<WorkError>)

  /** The counters that the scheduler keeps globally and again for every stage. */
  datatype Counters = Counters(
    queueDepth: int, queuedBytes: int, activeUnits: int, activeBytes: int,
    peakQueueDepth: int, peakQueuedBytes: int, peakActiveBytes: int,
    completed: int, failed: int, cancelled: int)

  const ZERO: Counters := Counters(0, 0, 0, 0, 0, 0, 0, 0, 0, 0)

  datatype Config = Config(workerCount: nat, byteBudget: nat, deterministic: bool)

  datatype Worker = Idle | Running(queued: QueuedUnit) | Exited

  /** `accepted` and `taken` record the submissions accepted and the units handed to workers so far. */
  datatype State = State(
    config: Config, queues: seq<seq<QueuedUnit>>, workers: seq<Worker>,
    total: Counters, stages: map<string, Counters>, byModality: seq<int>,
    resident: int, peakResident: int, outcomes: seq<Outcome>,
    nextOrder: nat, nextModality: nat, accepting: bool, cancelled: bool,
    accepted: seq<QueuedUnit>, taken: seq<QueuedUnit>)

  datatype SubmitResult = Accepted | Rejected(error: WorkError)

  // ----- counter updates -----

  function OnEnqueue(c: Counters, bytes: nat): Counters {
    c.(queueDepth := c.queueDepth + 1, queuedBytes := c.queuedBytes + bytes,
       peakQueueDepth := MaxInt(c.peakQueueDepth, c.queueDepth + 1),
       peakQueuedBytes := MaxInt(c.peakQueuedBytes, c.queuedBytes + bytes))
  }

  function OnTake(c: Counters, bytes: nat): Counters {
    c.(queueDepth := c.queueDepth - 1, queuedBytes := c.queuedBytes - bytes,
       activeUnits := c.activeUnits + 1, activeBytes := c.activeBytes + bytes,
       peakActiveBytes := MaxInt(c.peakActiveBytes, c.activeBytes + bytes))
  }

  function OnFinish(c: Counters, bytes: nat, state: WorkState): Counters {
    var d := c.(activeUnits := c.activeUnits - 1, activeBytes := c.activeBytes - bytes);
    match state
    case Completed => d.(completed := d.completed + 1)
    case Failed => d.(failed := d.failed + 1)
    case Cancelled => d.(cancelled := d.cancelled + 1)
  }

  function OnDrop(c: Counters, bytes: nat): Counters {
    c.(queueDepth := c.queueDepth - 1, queuedBytes := c.queuedBytes - bytes, cancelled := c.cancelled + 1)
  }

  // ----- steps -----

  function NewScheduler(config: Config): State
    requires config.workerCount > 0 && config.byteBudget > 0
  {
    State(config, seq(MODALITY_COUNT, _ => []), seq(if config.deterministic then 1 else config.workerCount, _ => Idle),
          ZERO, map[], seq(MODALITY_COUNT, _ => 0), 0, 0, [], 0, 0, true, false, [], [])
  }

  /** Rejections that need no queue space: a malformed unit, or a deterministic batch that does not fit. */
  function EarlyRejection(s: State, u: WorkUnit): Option<ErrorCode> {
    if u.id == "" || u.stage == "" || !u.callable then Some(TaskFailure)
    else if u.bytes == 0 || u.bytes > s.config.byteBudget then Some(InvalidEstimatedBytes)
    else if u.modality >= MODALITY_COUNT then Some(TaskFailure)
    else if s.config.deterministic && s.accepting && !s.cancelled && s.resident > s.config.byteBudget - u.bytes then
      Some(InvalidEstimatedBytes)
    else None
  }

  /** The condition `submit` waits for. */
  predicate CanProceed(s: State, u: WorkUnit) {
    s.cancelled || !s.accepting || s.resident <= s.config.byteBudget - u.bytes
  }

  predicate SubmitEnabled(s: State, u: WorkUnit) {
    EarlyRejection(s, u).Some? || CanProceed(s, u)
  }

  function StageOf(s: State, stage: string): Counters {
    if stage in s.stages then s.stages[stage] else ZERO
  }

  function SubmitAnswer(s: State, u: WorkUnit): SubmitResult {
    match EarlyRejection(s, u)
    case Some(code) => Rejected(WorkError(u.id, u.stage, code, false))
    case None =>
      if s.cancelled then Rejected(WorkError(u.id, u.stage, CancelledWork, false))
      else if !s.accepting then Rejected(WorkError(u.id, u.stage, SchedulerClosed, false))
      else Accepted
  }

  function Enqueue(s: State, u: WorkUnit): State
    requires |s.queues| == MODALITY_COUNT && u.modality < MODALITY_COUNT
  {
    var q := QueuedUnit(s.nextOrder, u);
    s.(queues := s.queues[u.modality := s.queues[u.modality] + [q]],
       total := OnEnqueue(s.total, u.bytes),
       stages := s.stages[u.stage := OnEnqueue(StageOf(s, u.stage), u.bytes)],
       resident := s.resident + u.bytes, peakResident := MaxInt(s.peakResident, s.resident + u.bytes),
       nextOrder := s.nextOrder + 1, accepted := s.accepted + [q])
  }

  function Submit(s: State, u: WorkUnit): State
    requires |s.queues| == MODALITY_COUNT
  {
    if EarlyRejection(s, u).Some? then s
    else if s.cancelled || !s.accepting then s.(stages := s.stages[u.stage := StageOf(s, u.stage)])
    else Enqueue(s, u)
  }

  function Close(s: State): State { s.(accepting := false) }

  predicate HasQueued(s: State) {
    exists i :: 0 <= i < |s.queues| && s.queues[i] != []
  }

  /** First nonempty queue at or after `next` in cyclic order, `offset` queues having been inspected. */
  function Select(queues: seq<seq<QueuedUnit>>, next: nat, offset: nat): (r: Option<nat>)
    requires |queues| == MODALITY_COUNT && offset <= MODALITY_COUNT
    ensures r.Some? ==> r.value < MODALITY_COUNT && queues[r.value] != []
    decreases MODALITY_COUNT - offset
  {
    if offset == MODALITY_COUNT then None
    else if queues[(next + offset) % MODALITY_COUNT] != [] then Some((next + offset) % MODALITY_COUNT)
    else Select(queues, next, offset + 1)
  }

  predicate TakeEnabled(s: State, w: nat) {
    w < |s.workers| && s.workers[w].Idle? && HasQueued(s) &&
    (s.cancelled || !s.accepting || !s.config.deterministic)
  }

  function Take(s: State, w: nat): State
    requires |s.queues| == MODALITY_COUNT && w < |s.workers|
  {
    match Select(s.queues, s.nextModality, 0)
    case None => s
    case Some(index) =>
      var q := s.queues[index][0];
      s.(queues := s.queues[index := s.queues[index][1..]],
         nextModality := (index + 1) % MODALITY_COUNT,
         total := OnTake(s.total, q.unit.bytes),
         stages := s.stages[q.unit.stage := OnTake(StageOf(s, q.unit.stage), q.unit.bytes)],
         workers := s.workers[w := Running(q)], taken := s.taken + [q])
  }

  /** The result of a work function: None, or an error code with its retry flag. */
  datatype TaskError = TaskError(code: ErrorCode, retryable: bool)

  function FinalState(s: State, error: Option<TaskError>): WorkState {
    if s.cancelled || (error.Some? && error.value.code == CancelledWork) then Cancelled
    else if error.Some? then Failed
    else Completed
  }

  function FinalOutcome(s: State, q: QueuedUnit, error: Option<TaskError>): Outcome {
    var state := FinalState(s, error);
    var reported := if error.Some?
                    then Some(WorkError(q.unit.id, q.unit.stage, error.value.code, error.value.retryable))
                    else if state == Cancelled then Some(WorkError(q.unit.id, q.unit.stage, CancelledWork, true))
                    else None;
    Outcome(q.order, q.unit.id, q.unit.stage, q.unit.modality, state, reported)
  }

  predicate FinishEnabled(s: State, w: nat) { w < |s.workers| && s.workers[w].Running? }

  function Finish(s: State, w: nat, error: Option<TaskError>): State
    requires FinishEnabled(s, w) && |s.byModality| == MODALITY_COUNT
  {
    var q := s.workers[w].queued;
    var state := FinalState(s, error);
    s.(workers := s.workers[w := Idle],
       total := OnFinish(s.total, q.unit.bytes, state),
       stages := s.stages[q.unit.stage := OnFinish(StageOf(s, q.unit.stage), q.unit.bytes, state)],
       byModality := if state == Completed && q.unit.modality < MODALITY_COUNT
                     then s.byModality[q.unit.modality := s.byModality[q.unit.modality] + 1] else s.byModality,
       resident := s.resident - q.unit.bytes,
       outcomes := s.outcomes + [FinalOutcome(s, q, error)])
  }

  predicate ExitEnabled(s: State, w: nat) {
    w < |s.workers| && s.workers[w].Idle? && !HasQueued(s) && (!s.accepting || s.cancelled)
  }

  function Exit(s: State, w: nat): State
    requires w < |s.workers|
  {
    s.(workers := s.workers[w := Exited])
  }

  /** First nonempty queue in array order. */
  function FirstNonEmpty(queues: seq<seq<QueuedUnit>>, from: nat): (r: Option<nat>)
    requires from <= |queues|
    ensures r.Some? ==> from <= r.value < |queues| && queues[r.value] != []
    ensures r.None? ==> forall i :: from <= i < |queues| ==> queues[i] == []
    decreases |queues| - from
  {
    if from == |queues| then None
    else if queues[from] != [] then Some(from)
    else FirstNonEmpty(queues, from + 1)
  }

  /** Cancel the front unit of queue `index`. */
  function Drop(s: State, index: nat): State
    requires index < |s.queues| && s.queues[index] != []
  {
    var q := s.queues[index][0];
    s.(queues := s.queues[index := s.queues[index][1..]],
       total := OnDrop(s.total, q.unit.bytes),
       stages := s.stages[q.unit.stage := OnDrop(StageOf(s, q.unit.stage), q.unit.bytes)],
       resident := s.resident - q.unit.bytes,
       outcomes := s.outcomes + [Outcome(q.order, q.unit.id, q.unit.stage, q.unit.modality, Cancelled,
                                         Some(WorkError(q.unit.id, q.unit.stage, CancelledWork, true)))])
  }

  function QueuedLength(queues: seq<seq<QueuedUnit>>): nat {
    if queues == [] then 0 else QueuedLength(queues[..|queues| - 1]) + |queues[|queues| - 1]|
  }

  lemma {:induction false} QueuedLengthUpdate(queues: seq<seq<QueuedUnit>>, i: nat, queue: seq<QueuedUnit>)
    requires i < |queues|
    ensures QueuedLength(queues[i := queue]) == QueuedLength(queues) - |queues[i]| + |queue|
  {
    var n := |queues| - 1;
    if i == n {
      assert queues[i := queue][..n] == queues[..n];
    } else {
      QueuedLengthUpdate(queues[..n], i, queue);
      assert queues[i := queue][..n] == queues[..n][i := queue];
    }
  }

  /** Cancel everything queued, queue by queue, oldest first. */
  function DropAll(s: State): State
    decreases QueuedLength(s.queues)
  {
    match FirstNonEmpty(s.queues, 0)
    case None => s
    case Some(index) =>
      QueuedLengthUpdate(s.queues, index, s.queues[index][1..]);
      DropAll(Drop(s, index))
  }

  function RequestCancel(s: State): State {
    if s.cancelled then s else DropAll(s.(cancelled := true, accepting := false))
  }
}
