/** Amounts of work in the scheduler's queues, workers and outcomes, and how single updates change them. */
module SchedulerLedger {
  import opened Scheduler

  /** What is counted: units, their bytes, or the units with one submission order. */
  datatype Measure = Units | Bytes | OrderIs(order: nat)

  /** Whose work is counted: everybody's, one stage's, or that of several stages. */
  datatype Scope = All | Stage(id: string) | Among(ids: set<string>)

  predicate InScope(scope: Scope, stage: string) {
    match scope
    case All => true
    case Stage(id) => id == stage
    case Among(ids) => stage in ids
  }

  function Weight(m: Measure, scope: Scope, q: QueuedUnit): nat {
    if !InScope(scope, q.unit.stage) then 0
    else match m
      case Units => 1
      case Bytes => q.unit.bytes
      case OrderIs(k) => if q.order == k then 1 else 0
  }

  function Amount(m: Measure, scope: Scope, queue: seq<QueuedUnit>): nat {
    if queue == [] then 0
    else Amount(m, scope, queue[..|queue| - 1]) + Weight(m, scope, queue[|queue| - 1])
  }

  function Queued(m: Measure, scope: Scope, queues: seq<seq<QueuedUnit>>): nat {
    if queues == [] then 0
    else Queued(m, scope, queues[..|queues| - 1]) + Amount(m, scope, queues[|queues| - 1])
  }

  function WorkerWeight(m: Measure, scope: Scope, w: Worker): nat {
    if w.Running? then Weight(m, scope, w.queued) else 0
  }

  function Active(m: Measure, scope: Scope, workers: seq<Worker>): nat {
    if workers == [] then 0
    else Active(m, scope, workers[..|workers| - 1]) + WorkerWeight(m, scope, workers[|workers| - 1])
  }

  datatype Kind = WithState(state: WorkState) | WithOrder(order: nat) | CompletedIn(modality: nat)

  predicate IsKind(kind: Kind, o: Outcome) {
    match kind
    case WithState(state) => o.state == state
    case WithOrder(k) => o.order == k
    case CompletedIn(m) => o.state == Completed && o.modality == m
  }

  function Ended(kind: Kind, scope: Scope, outcomes: seq<Outcome>): nat {
    if outcomes == [] then 0
    else
      var last := outcomes[|outcomes| - 1];
      Ended(kind, scope, outcomes[..|outcomes| - 1]) +
      if InScope(scope, last.stage) && IsKind(kind, last) then 1 else 0
  }

  // ----- single updates -----

  lemma AmountSnoc(m: Measure, scope: Scope, queue: seq<QueuedUnit>, q: QueuedUnit)
    ensures Amount(m, scope, queue + [q]) == Amount(m, scope, queue) + Weight(m, scope, q)
  {
    assert (queue + [q])[..|queue|] == queue;
  }

  lemma {:induction false} AmountHead(m: Measure, scope: Scope, queue: seq<QueuedUnit>)
    requires queue != []
    ensures Amount(m, scope, queue) == Weight(m, scope, queue[0]) + Amount(m, scope, queue[1..])
  {
    if |queue| == 1 {
      assert queue[..0] == [] && queue[1..] == [];
    } else {
      AmountHead(m, scope, queue[..|queue| - 1]);
      assert queue[1..][..|queue| - 2] == queue[..|queue| - 1][1..];
    }
  }

  lemma {:induction false} QueuedUpdate(m: Measure, scope: Scope, queues: seq<seq<QueuedUnit>>, i: nat,
                                        queue: seq<QueuedUnit>)
    requires i < |queues|
    ensures Queued(m, scope, queues[i := queue]) ==
            Queued(m, scope, queues) - Amount(m, scope, queues[i]) + Amount(m, scope, queue)
  {
    var n := |queues| - 1;
    if i == n {
      assert queues[i := queue][..n] == queues[..n];
    } else {
      QueuedUpdate(m, scope, queues[..n], i, queue);
      assert queues[i := queue][..n] == queues[..n][i := queue];
    }
  }

  lemma {:induction false} ActiveUpdate(m: Measure, scope: Scope, workers: seq<Worker>, i: nat, w: Worker)
    requires i < |workers|
    ensures Active(m, scope, workers[i := w]) ==
            Active(m, scope, workers) - WorkerWeight(m, scope, workers[i]) + WorkerWeight(m, scope, w)
  {
    var n := |workers| - 1;
    if i == n {
      assert workers[i := w][..n] == workers[..n];
    } else {
      ActiveUpdate(m, scope, workers[..n], i, w);
      assert workers[i := w][..n] == workers[..n][i := w];
    }
  }

  lemma EndedSnoc(kind: Kind, scope: Scope, outcomes: seq<Outcome>, o: Outcome)
    ensures Ended(kind, scope, outcomes + [o]) ==
            Ended(kind, scope, outcomes) + if InScope(scope, o.stage) && IsKind(kind, o) then 1 else 0
  {
    assert (outcomes + [o])[..|outcomes|] == outcomes;
  }

  // ----- scopes -----

  lemma {:induction false} AmountScope(m: Measure, scope: Scope, queue: seq<QueuedUnit>)
    ensures Amount(m, scope, queue) <= Amount(m, All, queue)
  {
    if queue != [] {
      AmountScope(m, scope, queue[..|queue| - 1]);
    }
  }

  /** One stage never holds more than the whole scheduler. */
  lemma {:induction false} QueuedScope(m: Measure, scope: Scope, queues: seq<seq<QueuedUnit>>)
    ensures Queued(m, scope, queues) <= Queued(m, All, queues)
  {
    if queues != [] {
      QueuedScope(m, scope, queues[..|queues| - 1]);
      AmountScope(m, scope, queues[|queues| - 1]);
    }
  }

  lemma {:induction false} ActiveScope(m: Measure, scope: Scope, workers: seq<Worker>)
    ensures Active(m, scope, workers) <= Active(m, All, workers)
  {
    if workers != [] {
      ActiveScope(m, scope, workers[..|workers| - 1]);
    }
  }

  // ----- empty schedulers -----

  lemma {:induction false} AmountPositive(queue: seq<QueuedUnit>)
    ensures Amount(Units, All, queue) == |queue|
  {
    if queue != [] {
      AmountPositive(queue[..|queue| - 1]);
    }
  }

  lemma {:induction false} QueuedZero(m: Measure, scope: Scope, queues: seq<seq<QueuedUnit>>)
    requires forall i :: 0 <= i < |queues| ==> queues[i] == []
    ensures Queued(m, scope, queues) == 0
  {
    if queues != [] {
      QueuedZero(m, scope, queues[..|queues| - 1]);
    }
  }

  /** The queue depth is zero exactly when every queue is empty. */
  lemma {:induction false} QueuedDepth(queues: seq<seq<QueuedUnit>>)
    ensures Queued(Units, All, queues) == 0 <==> forall i :: 0 <= i < |queues| ==> queues[i] == []
  {
    if queues != [] {
      var n := |queues| - 1;
      QueuedDepth(queues[..n]);
      AmountPositive(queues[n]);
      forall i | 0 <= i < n ensures queues[..n][i] == queues[i] {
      }
    }
  }

  lemma {:induction false} ActiveZero(m: Measure, scope: Scope, workers: seq<Worker>)
    requires forall i :: 0 <= i < |workers| ==> !workers[i].Running?
    ensures Active(m, scope, workers) == 0
  {
    if workers != [] {
      ActiveZero(m, scope, workers[..|workers| - 1]);
    }
  }

  /** The number of active units is zero exactly when no worker runs one, and never exceeds the workers. */
  lemma {:induction false} ActiveCount(workers: seq<Worker>)
    ensures Active(Units, All, workers) <= |workers|
    ensures Active(Units, All, workers) == 0 <==> forall i :: 0 <= i < |workers| ==> !workers[i].Running?
  {
    if workers != [] {
      var n := |workers| - 1;
      ActiveCount(workers[..n]);
      forall i | 0 <= i < n ensures workers[..n][i] == workers[i] {
      }
    }
  }

  // ----- conservation over states -----

  lemma {:induction false} EndedByState(outcomes: seq<Outcome>)
    ensures Ended(WithState(Completed), All, outcomes) + Ended(WithState(Failed), All, outcomes) +
            Ended(WithState(Cancelled), All, outcomes) == |outcomes|
  {
    if outcomes != [] {
      EndedByState(outcomes[..|outcomes| - 1]);
    }
  }
}
