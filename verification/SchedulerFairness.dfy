/** Round-robin selection is fair, first in first out per modality, and replayable. */
module SchedulerFairness {
  import opened Wrappers
  import opened Scheduler
  import opened SchedulerInvariant
  import opened SchedulerRuns
  import opened SchedulerOutcomes

  ghost function Takes(run: seq<Event>): nat {
    if run == [] then 0 else (if run[0].TakeEvent? then 1 else 0) + Takes(run[1..])
  }

  ghost predicate NoCancel(run: seq<Event>) {
    forall i :: 0 <= i < |run| ==> !run[i].CancelEvent?
  }

  /** Selections that must still happen, at most, before the unit at depth `k` of queue `m` is taken. */
  function Wait(next: nat, m: nat, k: nat): nat
    requires next < MODALITY_COUNT && m < MODALITY_COUNT
  {
    MODALITY_COUNT * k + Distance(next, m)
  }

  lemma NextDistance(next: nat, index: nat, m: nat)
    requires next < MODALITY_COUNT && index < MODALITY_COUNT && m < MODALITY_COUNT
    requires Distance(next, index) <= Distance(next, m)
    ensures Distance((index + 1) % MODALITY_COUNT, m) <
            if index == m then MODALITY_COUNT else Distance(next, m)
  {
    assert (index + 1) % MODALITY_COUNT == if index == MODALITY_COUNT - 1 then 0 else index + 1;
  }

  /** One selection takes the unit or brings it nearer. */
  lemma TakeMoves(s: State, w: nat, m: nat, k: nat)
    requires Shape(s) && TakeEnabled(s, w) && m < MODALITY_COUNT && k < |s.queues[m]|
    ensures var s' := Take(s, w);
            s'.nextModality < MODALITY_COUNT && |s'.queues| == MODALITY_COUNT &&
            if k == 0 && Select(s.queues, s.nextModality, 0) == Some(m) then
              s'.taken == s.taken + [s.queues[m][k]]
            else
              exists k' :: 0 <= k' < |s'.queues[m]| && s'.queues[m][k'] == s.queues[m][k] &&
                           Wait(s'.nextModality, m, k') < Wait(s.nextModality, m, k)
  {
    hide Distance;
    SelectFinds(s.queues, s.nextModality, 0, m);
    var index := Select(s.queues, s.nextModality, 0).value;
    hide Select;
    NextDistance(s.nextModality, index, m);
    var s' := Take(s, w);
    if index != m {
      assert s'.queues[m][k] == s.queues[m][k];
    } else if k > 0 {
      assert s'.queues[m][k - 1] == s.queues[m][k];
    }
  }

  lemma OtherEventKeepsPlace(s: State, e: Event, m: nat, k: nat)
    requires Shape(s) && Enabled(s, e) && !e.TakeEvent? && !e.CancelEvent?
    requires m < MODALITY_COUNT && k < |s.queues[m]|
    ensures var s' := Step(s, e);
            s'.nextModality == s.nextModality && |s'.queues| == MODALITY_COUNT &&
            k < |s'.queues[m]| && s'.queues[m][k] == s.queues[m][k] && s'.taken == s.taken
  {
  }

  lemma TakenStep(s: State, e: Event)
    requires Inv(s) && Enabled(s, e)
    ensures s.taken <= Step(s, e).taken
  {
    if e.CancelEvent? && !s.cancelled {
      DropAllKeepsHistory(s.(cancelled := true, accepting := false));
    }
  }

  lemma {:induction false} TakenGrows(s: State, run: seq<Event>)
    requires Inv(s) && Feasible(s, run)
    ensures s.taken <= After(s, run).taken
    decreases |run|
  {
    hide Inv;
    if run != [] {
      InvShape(s);
      StepInv(s, run[0]);
      TakenStep(s, run[0]);
      TakenGrows(Step(s, run[0]), run[1..]);
    }
  }

  /** The unit at depth `k` is taken after at most Wait further selections, whatever else happens. */
  lemma {:induction false} ServedInTurn(s: State, run: seq<Event>, m: nat, k: nat)
    requires Inv(s) && Feasible(s, run) && NoCancel(run)
    requires m < MODALITY_COUNT && k < |s.queues[m]| && Takes(run) > Wait(s.nextModality, m, k)
    ensures |s.taken| <= |After(s, run).taken| && s.queues[m][k] in After(s, run).taken[|s.taken|..]
    decreases |run|
  {
    hide Books;
    hide Residency;
    hide ExactlyOnce;
    hide ModalityBooks;
    hide UnitsOk;
    hide Stopped;
    var e, rest := run[0], run[1..];
    StepInv(s, e);
    var s' := Step(s, e);
    TakenStep(s, e);
    TakenGrows(s', rest);
    assert After(s, run) == After(s', rest);
    if e.TakeEvent? {
      TakeMoves(s, e.worker, m, k);
      if k == 0 && Select(s.queues, s.nextModality, 0) == Some(m) {
        assert s'.taken[|s.taken|] == s.queues[m][k];
      } else {
        var k' :| 0 <= k' < |s'.queues[m]| && s'.queues[m][k'] == s.queues[m][k] &&
                  Wait(s'.nextModality, m, k') < Wait(s.nextModality, m, k);
        ServedInTurn(s', rest, m, k');
      }
    } else {
      assert run[0] == e && !e.CancelEvent?;
      OtherEventKeepsPlace(s, e, m, k);
      ServedInTurn(s', rest, m, k);
    }
  }

  /** A unit with `k` units ahead of it in its queue is taken within 6 * (k + 1) selections. */
  lemma FairService(s: State, run: seq<Event>, m: nat, k: nat)
    requires Inv(s) && Feasible(s, run) && NoCancel(run)
    requires m < MODALITY_COUNT && k < |s.queues[m]| && Takes(run) >= 6 * (k + 1)
    ensures |s.taken| <= |After(s, run).taken| && s.queues[m][k] in After(s, run).taken[|s.taken|..]
  {
    ServedInTurn(s, run, m, k);
  }

  // ----- first in, first out -----

  /** The units of one modality, in order. */
  function OfModality(units: seq<QueuedUnit>, m: nat): seq<QueuedUnit> {
    if units == [] then []
    else OfModality(units[..|units| - 1], m) +
         if units[|units| - 1].unit.modality == m then [units[|units| - 1]] else []
  }

  lemma OfModalitySnoc(units: seq<QueuedUnit>, q: QueuedUnit, m: nat)
    ensures OfModality(units + [q], m) == OfModality(units, m) + if q.unit.modality == m then [q] else []
  {
    assert (units + [q])[..|units|] == units;
  }

  /** Accepted units are numbered in order and leave each queue in that order. */
  ghost predicate Fifo(s: State) {
    && |s.accepted| == s.nextOrder && (forall k :: 0 <= k < |s.accepted| ==> s.accepted[k].order == k)
    && |s.queues| == MODALITY_COUNT
    && forall m :: 0 <= m < MODALITY_COUNT ==>
         if s.cancelled then OfModality(s.taken, m) <= OfModality(s.accepted, m)
         else OfModality(s.accepted, m) == OfModality(s.taken, m) + s.queues[m]
  }

  lemma TakeFifo(s: State, w: nat)
    requires Inv(s) && Fifo(s) && TakeEnabled(s, w)
    ensures Fifo(Take(s, w))
  {
    hide Books;
    hide Residency;
    hide ExactlyOnce;
    hide ModalityBooks;
    hide OfModality;
    SelectDefined(s);
    var index := Select(s.queues, s.nextModality, 0).value;
    var q := s.queues[index][0];
    assert q.unit.modality == index;
    forall m | 0 <= m < MODALITY_COUNT
      ensures OfModality(s.accepted, m) == OfModality(s.taken + [q], m) + Take(s, w).queues[m]
    {
      OfModalitySnoc(s.taken, q, m);
    }
  }

  lemma CancelFifo(s: State)
    requires Inv(s) && Fifo(s)
    ensures Fifo(RequestCancel(s))
  {
    CancelInv(s);
    if !s.cancelled {
      DropAllKeepsHistory(s.(cancelled := true, accepting := false));
    }
  }

  lemma SubmitFifo(s: State, u: WorkUnit)
    requires Shape(s) && Fifo(s) && SubmitEnabled(s, u)
    ensures Fifo(Submit(s, u))
  {
    hide OfModality;
    if Admissible(s, u) {
      forall m {
        OfModalitySnoc(s.accepted, QueuedUnit(s.nextOrder, u), m);
      }
    }
  }

  lemma StepFifo(s: State, e: Event)
    requires Inv(s) && Fifo(s) && Enabled(s, e)
    ensures Fifo(Step(s, e))
  {
    hide UnitsOk, Books, Residency, ExactlyOnce, Traced, ModalityBooks, Stopped;
    match e
    case SubmitEvent(u) => SubmitFifo(s, u);
    case CancelEvent => CancelFifo(s);
    case TakeEvent(w) => TakeFifo(s, w);
    case _ =>
  }

  lemma {:induction false} RunFifo(s: State, run: seq<Event>)
    requires Inv(s) && Fifo(s) && Feasible(s, run)
    ensures Fifo(After(s, run))
    decreases |run|
  {
    hide Inv;
    hide Fifo;
    if run != [] {
      InvShape(s);
      StepInv(s, run[0]);
      StepFifo(s, run[0]);
      RunFifo(Step(s, run[0]), run[1..]);
    }
  }

  // ----- deterministic replay -----

  /** The order in which round robin empties the queues when nothing else is submitted. */
  function Drain(queues: seq<seq<QueuedUnit>>, next: nat): seq<QueuedUnit>
    requires |queues| == MODALITY_COUNT
    decreases QueuedLength(queues)
  {
    match Select(queues, next, 0)
    case None => []
    case Some(index) =>
      QueuedLengthUpdate(queues, index, queues[index][1..]);
      [queues[index][0]] + Drain(queues[index := queues[index][1..]], (index + 1) % MODALITY_COUNT)
  }

  /** The execution order as a function of the accepted submissions alone. */
  function ReplayOrder(accepted: seq<QueuedUnit>): seq<QueuedUnit> {
    Drain(seq(MODALITY_COUNT, m requires 0 <= m < MODALITY_COUNT => OfModality(accepted, m)), 0)
  }

  ghost predicate Replaying(s: State) {
    s.config.deterministic && |s.queues| == MODALITY_COUNT &&
    if s.cancelled then s.taken <= ReplayOrder(s.accepted)
    else if s.accepting then s.taken == [] && s.nextModality == 0
    else s.taken + Drain(s.queues, s.nextModality) == ReplayOrder(s.accepted)
  }

  lemma QueuesFollowAccepted(s: State)
    requires Fifo(s) && !s.cancelled && s.taken == []
    ensures s.queues == seq(MODALITY_COUNT, m requires 0 <= m < MODALITY_COUNT => OfModality(s.accepted, m))
  {
    forall m: nat | m < MODALITY_COUNT ensures s.queues[m] == OfModality(s.accepted, m) {
      assert OfModality(s.taken, m) + s.queues[m] == s.queues[m];
    }
  }

  lemma DrainStep(queues: seq<seq<QueuedUnit>>, next: nat, index: nat)
    requires |queues| == MODALITY_COUNT && Select(queues, next, 0) == Some(index)
    ensures Drain(queues, next) ==
            [queues[index][0]] + Drain(queues[index := queues[index][1..]], (index + 1) % MODALITY_COUNT)
  {
    hide Select;
  }

  lemma ReplayTake(s: State, w: nat)
    requires Inv(s) && Replaying(s) && TakeEnabled(s, w)
    ensures Replaying(Take(s, w))
  {
    hide UnitsOk, Books, Residency, ExactlyOnce, Traced, ModalityBooks, ReplayOrder, Select, Drain;
    SelectDefined(s);
    var index := Select(s.queues, s.nextModality, 0).value;
    DrainStep(s.queues, s.nextModality, index);
    var q := s.queues[index][0];
    var rest := Drain(s.queues[index := s.queues[index][1..]], (index + 1) % MODALITY_COUNT);
    assert s.taken + ([q] + rest) == (s.taken + [q]) + rest;
  }

  lemma ReplayStop(s: State, e: Event)
    requires Inv(s) && Fifo(s) && Replaying(s) && (e.CloseEvent? || e.CancelEvent?)
    ensures Replaying(Step(s, e))
  {
    hide Drain;
    hide Inv;
    InvShape(s);
    if !s.cancelled {
      if s.accepting {
        QueuesFollowAccepted(s);
      }
      if e.CancelEvent? {
        CancelInv(s);
        InvShape(RequestCancel(s));
        DropAllKeepsHistory(s.(cancelled := true, accepting := false));
      }
    }
  }

  lemma StepReplay(s: State, e: Event)
    requires Inv(s) && Fifo(s) && Replaying(s) && Enabled(s, e)
    ensures Replaying(Step(s, e))
  {
    match e
    case CloseEvent => ReplayStop(s, e);
    case CancelEvent => ReplayStop(s, e);
    case TakeEvent(w) => ReplayTake(s, w);
    case _ =>
  }

  lemma {:induction false} RunReplay(s: State, run: seq<Event>)
    requires Inv(s) && Fifo(s) && Replaying(s) && Feasible(s, run)
    ensures Replaying(After(s, run))
    decreases |run|
  {
    hide Inv;
    hide Fifo;
    hide Replaying;
    if run != [] {
      InvShape(s);
      StepInv(s, run[0]);
      StepFifo(s, run[0]);
      StepReplay(s, run[0]);
      RunReplay(Step(s, run[0]), run[1..]);
    }
  }

  /** In deterministic mode no submission ever waits, and every run executes a prefix of one order fixed by the accepted
      submissions, and all of it unless it is cancelled. */
  lemma DeterministicOrder(config: Config, run: seq<Event>)
    requires config.workerCount > 0 && config.byteBudget > 0 && config.deterministic
    requires Feasible(Start(config), run)
    ensures var s := After(Start(config), run);
            && (forall u :: SubmitEnabled(s, u))
            && s.taken <= ReplayOrder(s.accepted)
            && (Quiescent(s) && !s.accepting && !s.cancelled ==> s.taken == ReplayOrder(s.accepted))
  {
    hide Inv, Feasible, Fifo, Replaying;
    var s0 := Start(config);
    StartReplays(config);
    RunReplay(s0, run);
    ReplayFacts(After(s0, run));
  }

  lemma StartReplays(config: Config)
    requires config.workerCount > 0 && config.byteBudget > 0 && config.deterministic
    ensures Fifo(Start(config)) && Replaying(Start(config))
  {
    hide Inv;
  }

  lemma ReplayFacts(s: State)
    requires Inv(s) && Replaying(s)
    ensures forall u :: SubmitEnabled(s, u)
    ensures s.taken <= ReplayOrder(s.accepted)
    ensures Quiescent(s) && !s.accepting && !s.cancelled ==> s.taken == ReplayOrder(s.accepted)
  {
    hide UnitsOk, Books, Residency, ExactlyOnce, Traced, ModalityBooks, ReplayOrder, Select;
    if Quiescent(s) {
      QuiescentIsEmpty(s);
      SelectNothing(s.queues, s.nextModality, 0);
    }
  }

  lemma {:induction false} SelectNothing(queues: seq<seq<QueuedUnit>>, next: nat, offset: nat)
    requires |queues| == MODALITY_COUNT && offset <= MODALITY_COUNT && AllEmpty(queues)
    ensures Select(queues, next, offset).None?
    decreases MODALITY_COUNT - offset
  {
    if offset < MODALITY_COUNT {
      SelectNothing(queues, next, offset + 1);
    }
  }
}
