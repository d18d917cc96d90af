/** Recorded peaks are the maxima of what was observed during the run. */
module SchedulerPeaks {
  import opened Wrappers
  import opened Numbers
  import opened Scheduler
  import opened SchedulerLedger
  import opened SchedulerInvariant
  import opened SchedulerRuns

  /** A quantity with a recorded peak: of the whole scheduler, or of one stage. */
  datatype Gauge =
    | DepthGauge(stage: Option<string>)
    | QueuedGauge(stage: Option<string>)
    | ActiveGauge(stage: Option<string>)
    | ResidentGauge

  ghost function CountersOf(s: State, stage: Option<string>): Counters {
    match stage
    case None => s.total
    case Some(id) => StageOf(s, id)
  }

  ghost function Reading(s: State, g: Gauge): int {
    match g
    case DepthGauge(stage) => CountersOf(s, stage).queueDepth
    case QueuedGauge(stage) => CountersOf(s, stage).queuedBytes
    case ActiveGauge(stage) => CountersOf(s, stage).activeBytes
    case ResidentGauge => s.resident
  }

  ghost function Peak(s: State, g: Gauge): int {
    match g
    case DepthGauge(stage) => CountersOf(s, stage).peakQueueDepth
    case QueuedGauge(stage) => CountersOf(s, stage).peakQueuedBytes
    case ActiveGauge(stage) => CountersOf(s, stage).peakActiveBytes
    case ResidentGauge => s.peakResident
  }

  lemma ReadingBelowPeak(s: State, g: Gauge)
    requires Inv(s)
    ensures Reading(s, g) <= Peak(s, g)
  {
    hide UnitsOk, ExactlyOnce, Traced, ModalityBooks, Stopped;
    if !g.ResidentGauge? && g.stage.Some? {
      assert Ledger(s, Stage(g.stage.value), StageOf(s, g.stage.value));
    }
  }

  lemma {:induction false} DropAllPeaks(s: State, g: Gauge)
    ensures Peak(DropAll(s), g) == Peak(s, g) && Reading(DropAll(s), g) <= Reading(s, g)
    decreases QueuedLength(s.queues)
  {
    match FirstNonEmpty(s.queues, 0)
    case None =>
    case Some(index) =>
      QueuedLengthUpdate(s.queues, index, s.queues[index][1..]);
      DropAllPeaks(Drop(s, index), g);
  }

  lemma PeakStep(s: State, e: Event, g: Gauge)
    requires Inv(s) && Enabled(s, e)
    ensures Inv(Step(s, e)) && Peak(Step(s, e), g) == MaxInt(Peak(s, g), Reading(Step(s, e), g))
  {
    hide Books, Residency, UnitsOk, ExactlyOnce, Traced, ModalityBooks, Stopped;
    StepInv(s, e);
    ReadingBelowPeak(s, g);
    ReadingBelowPeak(Step(s, e), g);
    if e.CancelEvent? && !s.cancelled {
      DropAllPeaks(s.(cancelled := true, accepting := false), g);
    }
  }

  /** The highest reading in a run, its first state included. */
  ghost function Highest(s: State, run: seq<Event>, g: Gauge): int
    requires Inv(s) && Feasible(s, run)
    decreases |run|
  {
    if run == [] then Reading(s, g)
    else (StepInv(s, run[0]); MaxInt(Reading(s, g), Highest(Step(s, run[0]), run[1..], g)))
  }

  lemma {:induction false} PeakOverRun(s: State, run: seq<Event>, g: Gauge)
    requires Inv(s) && Feasible(s, run)
    ensures Peak(After(s, run), g) == MaxInt(Peak(s, g), Highest(s, run, g))
    decreases |run|
  {
    hide Inv, Reading, Peak;
    ReadingBelowPeak(s, g);
    if run != [] {
      InvShape(s);
      PeakStep(s, run[0], g);
      PeakOverRun(Step(s, run[0]), run[1..], g);
    }
  }

  /** Every recorded peak is reached in the run and never exceeded. */
  lemma PeaksAreMaxima(config: Config, run: seq<Event>, g: Gauge)
    requires config.workerCount > 0 && config.byteBudget > 0 && Feasible(Start(config), run)
    ensures Peak(After(Start(config), run), g) == Highest(Start(config), run, g)
  {
    hide Feasible, Inv;
    PeakOverRun(Start(config), run, g);
    HighestFirst(Start(config), run, g);
  }

  lemma HighestFirst(s: State, run: seq<Event>, g: Gauge)
    requires Inv(s) && Feasible(s, run)
    ensures Reading(s, g) <= Highest(s, run, g)
  {
    hide Inv, Reading;
  }
}
