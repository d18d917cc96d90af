/** The counters of the stages add up to the global ones. */
module SchedulerConservation {
  import opened Scheduler
  import opened SchedulerLedger
  import opened SchedulerInvariant

  // ----- stages add up to the whole -----

  lemma {:induction false} AmountSplit(m: Measure, ids: set<string>, id: string, queue: seq<QueuedUnit>)
    requires id in ids
    ensures Amount(m, Among(ids), queue) == Amount(m, Stage(id), queue) + Amount(m, Among(ids - {id}), queue)
  {
    if queue != [] {
      AmountSplit(m, ids, id, queue[..|queue| - 1]);
    }
  }

  lemma {:induction false} QueuedSplit(m: Measure, ids: set<string>, id: string, queues: seq<seq<QueuedUnit>>)
    requires id in ids
    ensures Queued(m, Among(ids), queues) == Queued(m, Stage(id), queues) + Queued(m, Among(ids - {id}), queues)
  {
    if queues != [] {
      QueuedSplit(m, ids, id, queues[..|queues| - 1]);
      AmountSplit(m, ids, id, queues[|queues| - 1]);
    }
  }

  lemma {:induction false} ActiveSplit(m: Measure, ids: set<string>, id: string, workers: seq<Worker>)
    requires id in ids
    ensures Active(m, Among(ids), workers) == Active(m, Stage(id), workers) + Active(m, Among(ids - {id}), workers)
  {
    if workers != [] {
      ActiveSplit(m, ids, id, workers[..|workers| - 1]);
    }
  }

  lemma {:induction false} EndedSplit(kind: Kind, ids: set<string>, id: string, outcomes: seq<Outcome>)
    requires id in ids
    ensures Ended(kind, Among(ids), outcomes) ==
            Ended(kind, Stage(id), outcomes) + Ended(kind, Among(ids - {id}), outcomes)
  {
    if outcomes != [] {
      EndedSplit(kind, ids, id, outcomes[..|outcomes| - 1]);
    }
  }

  lemma {:induction false} QueuedNobody(m: Measure, queues: seq<seq<QueuedUnit>>)
    ensures Queued(m, Among({}), queues) == 0
  {
    if queues != [] {
      QueuedNobody(m, queues[..|queues| - 1]);
      AmountNobody(m, queues[|queues| - 1]);
    }
  }

  lemma {:induction false} AmountNobody(m: Measure, queue: seq<QueuedUnit>)
    ensures Amount(m, Among({}), queue) == 0
  {
    if queue != [] {
      AmountNobody(m, queue[..|queue| - 1]);
    }
  }

  lemma {:induction false} ActiveNobody(m: Measure, workers: seq<Worker>)
    ensures Active(m, Among({}), workers) == 0
  {
    if workers != [] {
      ActiveNobody(m, workers[..|workers| - 1]);
    }
  }

  lemma {:induction false} EndedNobody(kind: Kind, outcomes: seq<Outcome>)
    ensures Ended(kind, Among({}), outcomes) == 0
  {
    if outcomes != [] {
      EndedNobody(kind, outcomes[..|outcomes| - 1]);
    }
  }

  /** The counters that describe work in the scheduler and its outcomes. */
  datatype Field = Depth | QueuedBytes | ActiveUnits | ActiveBytes | CompletedUnits | FailedUnits | CancelledUnits

  function Get(c: Counters, f: Field): int {
    match f
    case Depth => c.queueDepth
    case QueuedBytes => c.queuedBytes
    case ActiveUnits => c.activeUnits
    case ActiveBytes => c.activeBytes
    case CompletedUnits => c.completed
    case FailedUnits => c.failed
    case CancelledUnits => c.cancelled
  }

  ghost function FieldAmount(s: State, f: Field, scope: Scope): int {
    match f
    case Depth => Queued(Units, scope, s.queues)
    case QueuedBytes => Queued(Bytes, scope, s.queues)
    case ActiveUnits => Active(Units, scope, s.workers)
    case ActiveBytes => Active(Bytes, scope, s.workers)
    case CompletedUnits => Ended(WithState(Completed), scope, s.outcomes)
    case FailedUnits => Ended(WithState(Failed), scope, s.outcomes)
    case CancelledUnits => Ended(WithState(Cancelled), scope, s.outcomes)
  }

  lemma LedgerField(s: State, f: Field, scope: Scope, c: Counters)
    requires Ledger(s, scope, c)
    ensures Get(c, f) == FieldAmount(s, f, scope)
  {
  }

  /** Sum of one counter over the stages `ids`. */
  ghost function StageSum(stages: map<string, Counters>, ids: set<string>, f: Field): int
    requires ids <= stages.Keys
  {
    if ids == {} then 0
    else
      var id :| id in ids;
      Get(stages[id], f) + StageSum(stages, ids - {id}, f)
  }

  lemma FieldSplit(s: State, f: Field, ids: set<string>, id: string)
    requires id in ids
    ensures FieldAmount(s, f, Among(ids)) == FieldAmount(s, f, Stage(id)) + FieldAmount(s, f, Among(ids - {id}))
  {
    match f
    case Depth => QueuedSplit(Units, ids, id, s.queues);
    case QueuedBytes => QueuedSplit(Bytes, ids, id, s.queues);
    case ActiveUnits => ActiveSplit(Units, ids, id, s.workers);
    case ActiveBytes => ActiveSplit(Bytes, ids, id, s.workers);
    case CompletedUnits => EndedSplit(WithState(Completed), ids, id, s.outcomes);
    case FailedUnits => EndedSplit(WithState(Failed), ids, id, s.outcomes);
    case CancelledUnits => EndedSplit(WithState(Cancelled), ids, id, s.outcomes);
  }

  lemma FieldNobody(s: State, f: Field)
    ensures FieldAmount(s, f, Among({})) == 0
  {
    QueuedNobody(Units, s.queues);
    QueuedNobody(Bytes, s.queues);
    ActiveNobody(Units, s.workers);
    ActiveNobody(Bytes, s.workers);
    EndedNobody(WithState(Completed), s.outcomes);
    EndedNobody(WithState(Failed), s.outcomes);
    EndedNobody(WithState(Cancelled), s.outcomes);
  }

  lemma {:induction false} StageSumIsAmount(s: State, ids: set<string>, f: Field)
    requires Books(s) && ids <= s.stages.Keys
    ensures StageSum(s.stages, ids, f) == FieldAmount(s, f, Among(ids))
  {
    hide FieldAmount;
    hide Get;
    if ids == {} {
      FieldNobody(s, f);
    } else {
      var id :| id in ids && StageSum(s.stages, ids, f) == Get(s.stages[id], f) + StageSum(s.stages, ids - {id}, f);
      StageSumIsAmount(s, ids - {id}, f);
      assert Ledger(s, Stage(id), StageOf(s, id));
      LedgerField(s, f, Stage(id), s.stages[id]);
      FieldSplit(s, f, ids, id);
    }
  }

  lemma {:induction false} AmountKnown(m: Measure, ids: set<string>, queue: seq<QueuedUnit>)
    requires forall j :: 0 <= j < |queue| ==> queue[j].unit.stage in ids
    ensures Amount(m, Among(ids), queue) == Amount(m, All, queue)
  {
    if queue != [] {
      AmountKnown(m, ids, queue[..|queue| - 1]);
    }
  }

  lemma {:induction false} QueuedKnown(m: Measure, ids: set<string>, queues: seq<seq<QueuedUnit>>)
    requires forall i, j :: 0 <= i < |queues| && 0 <= j < |queues[i]| ==> queues[i][j].unit.stage in ids
    ensures Queued(m, Among(ids), queues) == Queued(m, All, queues)
  {
    if queues != [] {
      QueuedKnown(m, ids, queues[..|queues| - 1]);
      AmountKnown(m, ids, queues[|queues| - 1]);
    }
  }

  lemma {:induction false} ActiveKnown(m: Measure, ids: set<string>, workers: seq<Worker>)
    requires forall w :: 0 <= w < |workers| && workers[w].Running? ==> workers[w].queued.unit.stage in ids
    ensures Active(m, Among(ids), workers) == Active(m, All, workers)
  {
    if workers != [] {
      ActiveKnown(m, ids, workers[..|workers| - 1]);
    }
  }

  lemma {:induction false} EndedKnown(kind: Kind, ids: set<string>, outcomes: seq<Outcome>)
    requires forall i :: 0 <= i < |outcomes| ==> outcomes[i].stage in ids
    ensures Ended(kind, Among(ids), outcomes) == Ended(kind, All, outcomes)
  {
    if outcomes != [] {
      EndedKnown(kind, ids, outcomes[..|outcomes| - 1]);
    }
  }

  /** Each per-stage counter, summed over all stages, equals the global counter. */
  lemma StagesSumToTotal(s: State, f: Field)
    requires Inv(s)
    ensures StageSum(s.stages, s.stages.Keys, f) == Get(s.total, f)
  {
    StageSumIsAmount(s, s.stages.Keys, f);
    LedgerField(s, f, All, s.total);
    forall i, j | 0 <= i < |s.queues| && 0 <= j < |s.queues[i]| ensures s.queues[i][j].unit.stage in s.stages {
      assert UnitOk(s, s.queues[i][j]);
    }
    QueuedKnown(Units, s.stages.Keys, s.queues);
    QueuedKnown(Bytes, s.stages.Keys, s.queues);
    ActiveKnown(Units, s.stages.Keys, s.workers);
    ActiveKnown(Bytes, s.stages.Keys, s.workers);
    EndedKnown(WithState(Completed), s.stages.Keys, s.outcomes);
    EndedKnown(WithState(Failed), s.stages.Keys, s.outcomes);
    EndedKnown(WithState(Cancelled), s.stages.Keys, s.outcomes);
  }
}
