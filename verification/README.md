# Cartosentry kernels

A Dafny model of the algorithm kernels of Cartosentry, with proofs of what they compute:

- **Road matching** (`cpp/src/road_matching.cpp`). Graph search with turn rules and budgets, transition scores, the
  beam decoder with its compressed lexicographic ranks, and the post-processing of the decoded path.
- **Bounded scheduler** (`cpp/src/bounded_scheduler.cpp`). Each mutex-held section is one atomic step of a state
  machine (`Scheduler*`); a class (`BoundedScheduler`) performs the same sections on its fields. Properties hold for
  every interleaving of the steps.
- **Road bins** (`cpp/src/road_bins.cpp`). Cutting matched segments at bin edges, numbering traversals, measuring
  unions of intervals and modality coverage, and aggregating all of it into bins.
- **Topology mining** (`cpp/src/topology_hypotheses.cpp`). Screening, arc-length resampling, first-fit complete-link
  clustering in canonical order, and comparison with the graph.
- **Time** (`cpp/src/time.cpp`). Decimal seconds to integer nanoseconds, and 64-bit arithmetic on time points.
- **Fault reports** (`python/cartosentry/faults.py`). The structural difference of two JSON documents and its pointers.
- **Lidar integrity** (`python/cartosentry/lidar_integrity.py`). The streaming histogram, the widest blank sector and
  the grouping of failures into events.
- **Voxel grid** (`cpp/src/observability.cpp`). Nearest neighbours through a grid of unit cells.

`dafny verify dfyconfig.toml` checks the project. Code that changes fields or variables step by step is modelled by
methods and classes, each tied to a specification function or predicate; the lemmas state what that specification means.

Four facts about the code are worth knowing before reading the table.

- Rounding merges scores (1.5 and 2.5 both round to 2), so per-terminal pruning can drop a sequence that would tie
  later: `TieBreakExample.TieBreakLost` gives an input on which the decoder returns the later of two equal paths. This
  cannot happen when emissions and transition totals have no more decimal places than the decoder keeps
  (`DecoderGuarantees.GridFromInput`; the shipped profiles use twelve places for all of them). Then the exact order
  (score, then ids) is kept; the best *score* is kept in any case, while width and delta cut nothing.
- The forward move along one arc (lines 434-437 of `road_matching.cpp`) is outside the distance budget. Statements
  about the search exclude it; `RouteMeaning.ForwardRoute` gives its answer.
- The grid does not agree with a linear scan up to three metres: `VoxelGrid.NeighbourMissed` gives the input,
  `VoxelGrid.GridExactIff` the exact condition, and `VoxelGrid.Reach` the radius up to which a query point is safe.
- The JSON difference uses Python's equality, under which `true`, `1` and `1.0` are equal. A change among these is not
  reported: `JsonReports.ReplacedFlagUnreported` gives the input, `JsonReports.EqualIffSameMeaning` the exact condition.

## Model

| member | source | states |
|---|---|---|
| RoadGraph.BlockedTransition | cpp/src/road_matching.cpp:356-371 | a forbidding rule wins over any other, an unknown rule comes next, no rule means free, wherever the rules stand in the list |
| RoadGraph.CountUTurns | cpp/src/road_matching.cpp:373-385 | the number of positions at which a path turns back along the reverse arc of the same way |
| Routing.RankTotal | cpp/src/road_matching.cpp:402-410 | the (distance, turns, path) ranking is a strict total order |
| Routing.SnocKeepsRank | cpp/src/road_matching.cpp:500-507 | appending one arc to two walks that meet keeps their order, the step on which label setting rests |
| Routing.BestApproachIsBestJourney | cpp/src/road_matching.cpp:469-486 | a least walk that can turn into the target arc gives the least complete journey |
| RouteSearch.PopLeast | cpp/src/road_matching.cpp:402-410 | the queue yields an entry that none precedes and keeps all others |
| RouteSearch.BuildOutgoing | cpp/src/road_matching.cpp:438-441 | every arc is listed under its start node, and only there |
| RouteSearch.Expand | cpp/src/road_matching.cpp:488-508 | the queue gains exactly the unblocked continuations inside the distance budget |
| RouteSearch.Frontier | cpp/src/road_matching.cpp:452-509 | every walk within the budget is settled by one no worse, or still has a queued walk no worse |
| RouteSearch.LeastIsFirst | cpp/src/road_matching.cpp:453-464 | the entry popped is no worse than any walk not yet settled |
| RouteSearch.NeverResettled | cpp/src/road_matching.cpp:455-465 | an entry that passes the test against its recorded ranking belongs to a state not settled before |
| RouteSearch.SettlingCounts | cpp/src/road_matching.cpp:464-468 | the counter of visited states equals the number of settled arcs, and never exceeds the states that must be explored |
| RouteSearch.Search | cpp/src/road_matching.cpp:442-518 | the priority-queue loop returns what the specification of a route demands |
| RouteSearch.Settle | cpp/src/road_matching.cpp:464-509 | one settled state either answers the query or keeps the search invariant and the recorded rejections |
| RouteSearch.Route | cpp/src/road_matching.cpp:418-518 | for every query: the least legal journey, or the exact reason why none is reported |
| RouteProperties.RouteSpecFunctional | cpp/src/road_matching.cpp:418-518 | the specification fixes one result for each query |
| RouteProperties.FoundIsBestJourney | cpp/src/road_matching.cpp:469-485 | a reported route is the least legal walk, of any length, under (distance, turns, path), and lies within the distance budget |
| RouteProperties.ReportedIsJourney | cpp/src/road_matching.cpp:474-477 | the reported path is the walk itself, but for the self-loop on the current arc, which is reported once |
| RouteProperties.FoundIffJourneyFits | cpp/src/road_matching.cpp:442-517 | with room for every arc in the state budget, a route is found if and only if some legal walk fits the distance budget |
| RouteProperties.JourneyFound | cpp/src/road_matching.cpp:442-517 | a fitting walk is found whenever the states nearer than the target fit the state budget |
| RouteProperties.StatesBounded | cpp/src/road_matching.cpp:465-468 | at most one state per arc is ever explored, so the state budget binds only below the number of arcs |
| RouteProperties.RejectionMeansNoJourney | cpp/src/road_matching.cpp:510-517 | a forbidden, unknown or no-path result means that every legal walk exceeds the distance budget |
| RouteProperties.RouteExists | cpp/src/road_matching.cpp:418-518 | every valid query has an answer: arcs have positive lengths, so finitely many walks fit the budget and one is least |
| RouteMeaning.JourneyDistanceMeaning | cpp/src/road_matching.cpp:442-480 | the distance of a journey is the lengths of all its arcs but the last, less the previous offset, plus the current one |
| RouteMeaning.FoundRoute | cpp/src/road_matching.cpp:402-486 | in terms of arcs, nodes, lengths and rules: a found route follows nodes, breaks no rule, reports its distance, turns and U-turns, fits the budget, and every other legal trip of any length is longer, has more turns, or the greater arc index at the first difference |
| RouteMeaning.ForwardRoute | cpp/src/road_matching.cpp:434-437 | moving forward along one arc costs the difference of the offsets, without turns |
| RouteMeaning.RefusedRoute | cpp/src/road_matching.cpp:487-517 | a refusal that is not about budgets: no legal trip fits; forbidden if some path within the budget stops at the current arc before a forbidding rule, else unknown if before an unknown one, else no path |
| RouteMeaning.BudgetRoute | cpp/src/road_matching.cpp:442-484 | a budget refusal with both budgets kept: every legal trip is too long |
| RouteMeaning.BudgetsKept | cpp/src/road_matching.cpp:442-468 | any other answer of a search: the rest of the previous arc and the states to settle were within their budgets |
| Rounding.RoundToIntegerMonotone | cpp/src/road_matching.cpp:29-48 | rounding with a growing tie tolerance never reverses two values |
| Rounding.RoundMonotone | cpp/src/road_matching.cpp:29-48 | decimal rounding is monotone at every number of places |
| Rounding.RoundIdempotent | cpp/src/road_matching.cpp:29-48 | rounding twice changes nothing more, and moves a value by at most three quarters of a last digit |
| Rounding.RoundMergesTies | cpp/src/road_matching.cpp:29-48 | 1.5 and 2.5 both round to 2 |
| Rounding.RoundNonPositive | cpp/src/road_matching.cpp:29-48 | a penalty stays a penalty |
| Rounding.RoundFixesGrid | cpp/src/road_matching.cpp:29-48 | a value with no more decimal places than asked for is not changed by rounding |
| Rounding.RoundToIntegerIs | cpp/src/road_matching.cpp:38-47 | the result is the integer nearer than a half by more than the tolerance, or the even one of a near tie, and no other |
| Rounding.RoundIs | cpp/src/road_matching.cpp:33-47 | rounding to decimal places rounds the number of units of the last place |
| Transition.ElapsedOverflowsExact | cpp/src/road_matching.cpp:764-771 | the two-sided guard fires exactly when the time difference does not fit 64 bits |
| Transition.RouteOfIs | cpp/src/road_matching.cpp:796-802 | a transition depends on the route only through its specification |
| Transition.PathScore | cpp/src/road_matching.cpp:817-820 | the penalty times the scale is the discrepancy of path length and displacement, and never a reward |
| Transition.SpeedCosts | cpp/src/road_matching.cpp:821-827 | free up to the supported speed plus the allowance; beyond that every further unit of speed costs exactly the penalty |
| Transition.TurnCosts | cpp/src/road_matching.cpp:828-832 | a route without turns is free, each turn costs its penalty and each U-turn its own |
| Transition.StepNeverRewarded | cpp/src/road_matching.cpp:780-849 | every possible transition scores at most zero |
| Transition.TransitionMeaning | cpp/src/road_matching.cpp:737-849 | case by case and without the scoring functions: invalid query, time overflow, no elapsed time, staying on, entering and leaving the map, the refusal of a route exactly when distance x 10^9 exceeds the greatest speed x nanoseconds, and otherwise the rounded sum of the three penalties, the speed penalty against the faster observation |
| Transition.ScoreTransition | cpp/src/road_matching.cpp:737-849 | the whole transition score, with the order of its rejections and errors |
| TrellisPaths.SnocKeepsScore | cpp/src/road_matching.cpp:970-981 | of two sequences that end alike, the better stays no worse after any common step, rounding included |
| TrellisPaths.SnocKeepsOrder | cpp/src/road_matching.cpp:970-981 | on the decimal grid a common step keeps even the order among equal scores: score first, then ids |
| TrellisPaths.ScoreIsSum | cpp/src/road_matching.cpp:970-981 | on the decimal grid the running score is the plain sum of emissions and steps |
| TrellisPaths.IdsInjective | cpp/src/road_matching.cpp:590-610 | distinct candidate sequences have distinct id sequences |
| TrellisPaths.BeforeSnoc | cpp/src/road_matching.cpp:590-610 | lexicographic order of id sequences is order of the prefixes, then of the last ids |
| Lexicographic.StringLessMeaning | cpp/src/road_matching.cpp:590-610 | ids compare by their first differing character, a proper prefix before its extensions |
| TrellisPaths.ExpansionCoversBest | cpp/src/road_matching.cpp:954-984 | if a beam dominates every sequence, so does its expansion |
| TrellisPaths.ExpansionCoversTwo | cpp/src/road_matching.cpp:954-984 | the same with two dominating sequences for each one missing |
| TrellisPaths.ExpansionCoversAll | cpp/src/road_matching.cpp:954-984 | a complete beam expands to a complete beam |
| TrellisPaths.PruningCoversBest | cpp/src/road_matching.cpp:991-1003 | pruning that leaves a dominating sequence for each one dropped loses no best score |
| TrellisPaths.PruningCoversTwo | cpp/src/road_matching.cpp:991-1003 | pruning that leaves two loses neither the best nor the second-best score |
| Beam.Reconstruct | cpp/src/road_matching.cpp:612-622 | following back-pointers and reversing gives the hypothesis's own candidate sequence |
| Beam.AssignRanks | cpp/src/road_matching.cpp:590-610 | ranks order the beam exactly by (predecessor's rank, candidate id), all else unchanged |
| Beam.KeysAreLexicographic | cpp/src/road_matching.cpp:590-610 | comparing (predecessor's rank, candidate id) is comparing the full id sequences lexicographically |
| BeamPruning.PruneTerminals | cpp/src/road_matching.cpp:991-1003 | counting per candidate id keeps the first K hypotheses of each terminal, in order |
| BeamPruning.FilterPaths | cpp/src/road_matching.cpp:991-1003 | pruning hypotheses per terminal is keeping the first K sequences of each terminal |
| BeamSearch.TallyBound | cpp/src/road_matching.cpp:991-1003 | no terminal keeps more than K sequences |
| BeamSearch.FilteredSize | cpp/src/road_matching.cpp:991-1003 | at most K times the batch size survive |
| BeamSearch.FilterDominates | cpp/src/road_matching.cpp:991-1003 | a dropped sequence leaves one at its terminal that is no worse, two of them when K is at least 2 |
| BeamPruning.PruneTail | cpp/src/road_matching.cpp:1004-1015 | a nonempty prefix no wider than the beam and within the delta, cut only at the width or where the score falls below the delta |
| BeamStep.ExpandedIsExpansion | cpp/src/road_matching.cpp:954-984 | expanded hypotheses are exactly the graph-valid one-candidate extensions of the beam, each once |
| BeamStep.Rank | cpp/src/road_matching.cpp:989-990 | after ranking, rank order on the beam is lexicographic order of full id sequences |
| BeamSearch.UncutStepIff | cpp/src/road_matching.cpp:1004-1015 | width and delta cut nothing at a step exactly when what the terminal filter leaves fits both |
| BeamSearch.RunUnique | cpp/src/road_matching.cpp:918-1020 | the sequences reached, filtered and kept at every observation are a function of the input |
| BeamSearch.UncutCovers | cpp/src/road_matching.cpp:942-1020 | while width and delta cut nothing, every sequence is kept or has a kept one on its last candidate that is no worse, two of them for K >= 2 |
| BeamSearch.RoomyIsUncut | cpp/src/road_matching.cpp:1004-1015 | a beam of K times the batch and a delta above all score differences never cut: one sufficient condition on the input |
| BeamAdvance.Prune | cpp/src/road_matching.cpp:985-1020 | ranking, sorting and pruning an expanded beam gives exactly the next level of the search |
| Decoder.ExpandFrom | cpp/src/road_matching.cpp:954-984 | all possible successors of one hypothesis, every other one counted as rejected; an error exactly for an elapsed time beyond 64 bits |
| Decoder.Expand | cpp/src/road_matching.cpp:954-984 | the exact expansion of the beam, and expanded + rejected = retained x generated |
| DecoderGuarantees.StepOfMeaning | cpp/src/road_matching.cpp:960-974 | the steps that the search adds up are the transitions between consecutive observations, in plain terms |
| Decoding.Start | cpp/src/road_matching.cpp:918-941 | the first beam is the first level of the search: all candidates in rank order, cut at the beam width |
| Decoding.Advance | cpp/src/road_matching.cpp:947-1020 | one more level of the search with its counts, or the error that stopped it: no continuation of anything kept, or an overflow |
| Decoding.Finish | cpp/src/road_matching.cpp:1022-1030 | the result reports the first two sequences of the last level, their scores and separation |
| Decoding.DecodeValid | cpp/src/road_matching.cpp:918-1030 | valid input: a report of the search through all observations, or an error at the first observation that nothing kept can reach in representable time |
| Decoding.Decode | cpp/src/road_matching.cpp:884-1030 | every input: invalid input refused, and each error only for its own cause |
| DecoderInput.ValidMeaning | cpp/src/road_matching.cpp:87-160 | the decoder accepts exactly the inputs in order: graph, ranges of all parameters, observations and batches |
| DecoderGuarantees.DecodedIsOptimal | cpp/src/road_matching.cpp:884-1030 | if width and delta cut nothing, the score is maximal over all complete sequences and for K >= 2 the runner-up is the second best; on the decimal grid both hold for the exact (score, ids) order, per-terminal pruning included |
| DecoderGuarantees.UnprunedIsExact | cpp/src/road_matching.cpp:1016-1030 | if nothing at all was pruned, best and runner-up are the first two in the exact order, off the grid too |
| DecoderGuarantees.DiagnosticsAccount | cpp/src/road_matching.cpp:1016-1020 | retained + pruned + rejected = previous retained x generated at every observation, the beam never empty nor too wide, and nothing pruned exactly when all pruned counts are zero |
| DecoderGuarantees.LevelShrinks | cpp/src/road_matching.cpp:985-1015 | the best sequence of every observation is kept |
| DecoderGuarantees.DecodesIffPossible | cpp/src/road_matching.cpp:985-988 | with an uncut search and representable times, decoding succeeds if and only if some complete sequence exists |
| DecoderGuarantees.GridFromInput | cpp/src/road_matching.cpp:836-849 | transition totals are rounded already: emissions on the grid and a decoder no coarser than the transitions put all scores on the grid |
| DecoderGuarantees.RoomySearch | cpp/src/road_matching.cpp:1004-1015 | the sufficient condition on the input makes the whole search uncut |
| TieBreakExample.TieBreakLost | cpp/src/road_matching.cpp:970-1003 | off the grid a decoder with nothing cut returns the later of two sequences with equal score, because the earlier one was dropped while it still scored less |
| DecoderTotality.AssembleBatch | cpp/src/road_matching.cpp:685-705 | the best on-road candidates up to the maximum, then always the off-map candidate |
| DecoderTotality.OffMapStepPossible | cpp/src/road_matching.cpp:780-795 | a step onto an off-map candidate is possible from anywhere while elapsed time is representable |
| DecoderTotality.OffMapMakesDecodingTotal | cpp/src/road_matching.cpp:898-905 | with an off-map candidate in every batch and representable times, decoding always succeeds |
| DecodedIntervals.RunDecides | cpp/src/road_matching.cpp:624-657 | every point of one maximal slow run gets the verdict of that run |
| DecodedIntervals.StationaryFlags | cpp/src/road_matching.cpp:624-657 | a point is flagged if and only if it lies in a maximal slow run, long enough, that stays near its first point |
| DecodedIntervals.BuildIntervals | cpp/src/road_matching.cpp:1047-1091 | the intervals tile the points, are constant inside and differ at each boundary, with the usable travel and the runner-up separation of each |
| DecodedIntervals.TravelMeaning | cpp/src/road_matching.cpp:1065-1075 | usable travel adds up over adjoining stretches, is at least the way from end to end, and exactly that where offsets never turn back |
| DecodedIntervals.Annotate | cpp/src/road_matching.cpp:1031-1091 | ambiguity from the separation, points ambiguous exactly where best and runner-up differ, stationary flags, and the intervals of constant state |
| DecodedIntervals.DecodedSelects | cpp/src/road_matching.cpp:1022-1091 | every decoded path can be annotated |
| DecodedIntervals.AmbiguousSeparated | cpp/src/road_matching.cpp:1065-1088 | an ambiguous interval carries a separation within the limit and no usable travel |
| SchedulerInvariant.EnqueueInv | cpp/src/bounded_scheduler.cpp:97-119 | an admitted submission keeps the invariant |
| SchedulerInvariant.TakeInv | cpp/src/bounded_scheduler.cpp:208-239 | taking a unit keeps the invariant |
| SchedulerInvariant.FinishInv | cpp/src/bounded_scheduler.cpp:270-318 | completing a unit with any result keeps the invariant |
| SchedulerInvariant.DropAllInv | cpp/src/bounded_scheduler.cpp:320-351 | cancelling the queues empties them and keeps every ledger balanced |
| SchedulerInvariant.CancelInv | cpp/src/bounded_scheduler.cpp:130-144 | a cancellation request keeps the invariant |
| SchedulerRuns.StepInv | cpp/src/bounded_scheduler.cpp:54-351 | every enabled step keeps the invariant |
| SchedulerRuns.EveryRunIsSound | cpp/src/bounded_scheduler.cpp:54-351 | over every interleaving, against the configuration given at the start: resident = queued + active bytes within the budget, queue depth is the total queue length, active units at most the workers, and for the scheduler and every stage no counter below zero and byte peaks within the budget |
| SchedulerPeaks.PeaksAreMaxima | cpp/src/bounded_scheduler.cpp:104-116 | over every interleaving, each recorded peak, global or of a stage, is the highest value that was reached |
| SchedulerConservation.StagesSumToTotal | cpp/src/bounded_scheduler.cpp:196-206 | the counters of all stages sum to the global ones, field by field |
| SchedulerMeaning.SubmitMeaning | cpp/src/bounded_scheduler.cpp:54-120 | a submission waits only for room outside deterministic mode, is accepted exactly when well formed, open and with room, and otherwise refused with the code of its cause, nothing enqueued |
| SchedulerMeaning.IdleWorker | cpp/src/bounded_scheduler.cpp:208-224 | an idle worker takes whenever something is queued unless the scheduler is deterministic and open, and leaves exactly when nothing is queued and nothing can come |
| SchedulerMeaning.TakeMeaning | cpp/src/bounded_scheduler.cpp:176-189 | the oldest unit of the nearest nonempty queue in cyclic order is taken, and the turn passes behind that queue |
| SchedulerMeaning.FinishMeaning | cpp/src/bounded_scheduler.cpp:270-318 | a finished unit is cancelled if cancellation was requested or its work says so, failed if its work returned another error, completed otherwise, with the error to report |
| SchedulerMeaning.RunOutcomes | cpp/src/bounded_scheduler.cpp:270-351 | over every run the outcomes are the endings of the finish events and of the units found queued by cancellation, in that order |
| SchedulerMeaning.RunEndings | cpp/src/bounded_scheduler.cpp:282-307 | over every run the completed count is the number of units whose work returned without error before cancellation, the failed count that of units with an error of their own before it |
| SchedulerOutcomes.SortedOrders | cpp/src/bounded_scheduler.cpp:151-174 | outcomes that hold each order below n once, sorted, carry orders 0 to n-1 |
| SchedulerOutcomes.QuiescentOutcomes | cpp/src/bounded_scheduler.cpp:151-174 | with nothing queued or running, the sorted outcomes are one per accepted unit, the i-th with id, stage and modality of the i-th accepted unit, and nothing is resident |
| SchedulerOutcomes.EndedPermutation | cpp/src/bounded_scheduler.cpp:151-174 | sorting the outcomes changes no tally |
| SchedulerOutcomes.NothingCompletesAfterCancel | cpp/src/bounded_scheduler.cpp:130-144 | in no run after a cancellation is another completion recorded or another unit accepted |
| SchedulerOutcomes.WorkIsBounded | cpp/src/bounded_scheduler.cpp:208-267 | after close, worker steps plus 2 x queue depth + active units never exceed their value at close |
| SchedulerOutcomes.WorkIsEnabled | cpp/src/bounded_scheduler.cpp:208-267 | while that quantity is positive some worker step is enabled |
| SchedulerOutcomes.SelectFinds | cpp/src/bounded_scheduler.cpp:176-189 | selection finds a nonempty queue no farther round than any given nonempty one |
| SchedulerFairness.TakeMoves | cpp/src/bounded_scheduler.cpp:176-189 | each selection serves a queued unit or brings it strictly nearer its turn |
| SchedulerFairness.ServedInTurn | cpp/src/bounded_scheduler.cpp:176-189 | without cancellation a unit is taken within its exact waiting time, whatever else happens |
| SchedulerFairness.FairService | cpp/src/bounded_scheduler.cpp:176-189 | the unit at depth k of any modality is taken within 6(k+1) selections |
| SchedulerFairness.RunFifo | cpp/src/bounded_scheduler.cpp:97-105 | within a modality units are taken in submission order, in every run |
| SchedulerFairness.DeterministicOrder | cpp/src/bounded_scheduler.cpp:71-81 | in deterministic mode submission never waits and the execution order is one function of the accepted list |
| BoundedScheduling.BoundedScheduler.Initialize | cpp/src/bounded_scheduler.cpp:31-45 | a new scheduler is the initial state of the machine |
| BoundedScheduling.BoundedScheduler.Create | cpp/src/bounded_scheduler.cpp:31-45 | refused exactly without workers or without a byte budget |
| BoundedScheduling.BoundedScheduler.Submit | cpp/src/bounded_scheduler.cpp:54-120 | the state and the answer are those of the machine's submit step, for every unit |
| BoundedScheduling.BoundedScheduler.Admit | cpp/src/bounded_scheduler.cpp:97-119 | all fields after an admission |
| BoundedScheduling.BoundedScheduler.Close | cpp/src/bounded_scheduler.cpp:122-128 | only the accepting flag changes |
| BoundedScheduling.BoundedScheduler.SelectNext | cpp/src/bounded_scheduler.cpp:176-189 | the scan takes the head of the queue that round robin names, and moves past it |
| BoundedScheduling.BoundedScheduler.TakeNext | cpp/src/bounded_scheduler.cpp:208-239 | the machine's take step |
| BoundedScheduling.BoundedScheduler.ResultOf | cpp/src/bounded_scheduler.cpp:282-317 | how a unit ended and what is reported about it |
| BoundedScheduling.BoundedScheduler.Complete | cpp/src/bounded_scheduler.cpp:270-318 | the machine's finish step, for success, failure and cancellation |
| BoundedScheduling.BoundedScheduler.RequestCancel | cpp/src/bounded_scheduler.cpp:130-144 | the machine's cancel step, once only |
| BoundedScheduling.BoundedScheduler.CancelQueued | cpp/src/bounded_scheduler.cpp:320-351 | the nested loops drop every queued unit into a cancelled outcome |
| BoundedScheduling.BoundedScheduler.CollectOutcomes | cpp/src/bounded_scheduler.cpp:151-174 | the sorted result is a permutation of the outcomes, the i-th of the i-th accepted unit |
| BinSplit.TimeAtOrder | cpp/src/road_bins.cpp:96-107 | interpolated times are monotone in the offset and exact at both ends |
| BinSplit.TimeAtNearest | cpp/src/road_bins.cpp:96-107 | an interpolated time is the nanosecond nearest to uniform motion, the later of two; every piece carries this for its start and end |
| BinSplit.BinHolds | cpp/src/road_bins.cpp:80-89 | the bin of an offset exists on its arc and contains the offset |
| BinSplit.Locate | cpp/src/road_bins.cpp:318-321 | the clamp to the last bin changes nothing |
| BinSplit.NextCut | cpp/src/road_bins.cpp:322-328 | each cut moves forward, ends in its bin and lands in the next one |
| BinSplit.KeptTilesTime | cpp/src/road_bins.cpp:329-374 | pieces kept after dropping empty durations still tile the time span and sum to it exactly |
| BinSplit.SplitSegment | cpp/src/road_bins.cpp:315-375 | at most one cut per bin, pieces inside their bins, offsets and time tiled, durations conserved; an error exactly for a span beyond 64 bits |
| PieceMaker.Deduplicate | cpp/src/road_bins.cpp:366-371 | identical pieces enter once, nothing else is added or lost |
| PieceMaker.SegmentMeaning | cpp/src/road_bins.cpp:295-314 | there is a segment exactly between two confident, moving points on one arc with growing offset, and it runs from the one to the other |
| PieceMaker.IdentityMeaning | cpp/src/road_bins.cpp:366-371 | pieces are merged exactly when sequence, arc, times and offsets agree |
| PieceMaker.MakePieces | cpp/src/road_bins.cpp:291-376 | every piece is cut from an eligible segment, every eligible segment is fully represented, no identity twice; an error exactly for an unrepresentable span |
| Traversals.AssignOrdinals | cpp/src/road_bins.cpp:382-403 | ordinals per (sequence, arc) run 0, 1, 2, ..., change only over gaps above the minimum, and always change there; an error exactly when a piece starts too long after the latest earlier end |
| Traversals.NumberTraversals | cpp/src/road_bins.cpp:377-403 | sorting and numbering change only ordinals; an error exactly when all earlier travel on an arc ended too long before some piece |
| Traversals.ChainSameOrdinal | cpp/src/road_bins.cpp:382-403 | pieces joined by gaps within the minimum share an ordinal |
| Traversals.SameOrdinalConnected | cpp/src/road_bins.cpp:382-403 | pieces that share an ordinal are joined by such a chain |
| Traversals.OrdinalsAreComponents | cpp/src/road_bins.cpp:382-403 | ordinals are exactly the gap components, whatever overlaps the pieces have |
| IntervalMeasure.MergedDuration | cpp/src/road_bins.cpp:121-143 | the number of nanoseconds in the union of the intervals, or overflow |
| IntervalMeasure.CoveredByMembers | cpp/src/road_bins.cpp:121-143 | the union depends neither on order nor on duplicates |
| IntervalMeasure.Overlaps | cpp/src/road_bins.cpp:145-153 | the overlaps of pieces with an interval cover exactly their shared nanoseconds |
| TraversalModality.AddEvidence | cpp/src/road_bins.cpp:472-510 | one evidence interval adds its shared nanoseconds, its share of points and its weighted overlap; an error exactly for a duration beyond 64 bits |
| TraversalModality.AddMeaning | cpp/src/road_bins.cpp:472-510 | points in proportion to the nanoseconds in which the evidence supports the traversal, and that time weighted by its overlap support |
| IntervalMeasure.UnionAtMostSum | cpp/src/road_bins.cpp:436-438 | a union is never longer than the summed pieces |
| TraversalModality.ModalityCoverage | cpp/src/road_bins.cpp:159-180 | durations, point support, mean overlap support and evidence ids of a modality, from the contributing evidence; the error characterised exactly |
| TraversalModality.TallyMeaning | cpp/src/road_bins.cpp:472-512 | valid and timestamp-supported nanoseconds are those that contributing evidence covers, and the ids are theirs |
| TraversalModality.ReportMeaning | cpp/src/road_bins.cpp:159-180 | durations and ids as they are, points and mean overlap support within half of the last decimal place |
| TraversalModality.CoverageMeaning | cpp/src/road_bins.cpp:159-180 | timestamp-supported <= valid <= usable time, mean overlap support between its extremes, point support at most all points |
| BinCoverage.SumModality | cpp/src/road_bins.cpp:631-682 | one modality summed over the traversals of a bin; an error exactly when a traversal or the sum overflows |
| BinCoverage.TotalSplits | cpp/src/road_bins.cpp:639-663 | totals add up over any division of the traversals of a bin |
| BinCoverage.TotalOfOne | cpp/src/road_bins.cpp:639-663 | one traversal counts with its own coverage, overlap support weighted by valid time |
| BinCoverage.BinReportMeaning | cpp/src/road_bins.cpp:664-682 | what a bin reports of its totals, to the last decimal place |
| BinCoverage.BinDuration | cpp/src/road_bins.cpp:581-588 | the traversals of a bin last, together, as long as its pieces |
| BinCoverage.BinMeaning | cpp/src/road_bins.cpp:631-682 | timestamp-supported <= valid <= the usable time of the bin, and its overlap support between those of its traversals |
| BinAggregate.GroupTraversals | cpp/src/road_bins.cpp:550-558 | each piece is in the group of its key, in order, and in no other |
| BinAggregate.GroupMeaning | cpp/src/road_bins.cpp:550-557 | a group holds the pieces of one sequence and ordinal in one bin of one arc |
| BinAggregate.TraversalCount | cpp/src/road_bins.cpp:581-590 | the traversals of a bin are the distinct pairs of sequence and ordinal among its pieces |
| BinAggregate.BinUsable | cpp/src/road_bins.cpp:581-588 | usable time of a bin is the exact total of all its pieces, over all traversals |
| BinAggregate.TouchesMeansSharedTime | cpp/src/road_bins.cpp:145-153 | a piece touches a finding if and only if they share a nanosecond |
| BinAggregate.FindingInBin | cpp/src/road_bins.cpp:519-537 | a bin lists a finding if and only if one of its pieces has the finding's sequence and overlaps it |
| BinAggregate.Localize | cpp/src/road_bins.cpp:691-701 | the bins reported for a finding are exactly those, in order |
| RoadBins.EnumerateBins | cpp/src/road_bins.cpp:561-579 | every bin of every arc, once |
| RoadBins.CoverBin | cpp/src/road_bins.cpp:581-682 | usable time is that of the pieces, the traversal count and every modality report are those of the bin's traversals, and an error is returned exactly when one of them overflows |
| RoadBins.BinsAccount | cpp/src/road_bins.cpp:581-588 | bins that contain every piece account for all of the time |
| RoadBins.MeasureBins | cpp/src/road_bins.cpp:549-686 | every piece lies in an enumerated bin, each bin has timestamp-supported <= valid <= usable time equal to that of its pieces, and the usable time of all bins sums to that of the numbered pieces; an error exactly when some bin overflows |
| RoadBins.Aggregate | cpp/src/road_bins.cpp:543-686 | the whole aggregation from the matched paths on: bins account for deduplicated pieces that represent every eligible segment, and an error is returned exactly when a segment, a gap between pieces or a bin leaves 64 bits |
| Clustering.FirstFitPartitions | cpp/src/topology_hypotheses.cpp:367-388 | every item is in exactly one cluster |
| Clustering.FirstFitLinked | cpp/src/topology_hypotheses.cpp:367-388 | any two members of a cluster are compatible |
| Clustering.FirstFitIs | cpp/src/topology_hypotheses.cpp:367-388 | the clusters partition the items in order of arrival, link completely, and each item was refused, when it came, by some member of every earlier cluster |
| Clustering.FirstFitUnique | cpp/src/topology_hypotheses.cpp:367-388 | distinct items have no other clustering with these properties |
| Clustering.FirstFitKeepsOrder | cpp/src/topology_hypotheses.cpp:393-397 | members are already in id order, so the second sort changes nothing |
| Clustering.BuildClusters | cpp/src/topology_hypotheses.cpp:367-388 | the nested loops are first fit, with at most n(n-1)/2 compatibility checks; an error exactly for too many clusters |
| Resampling.AtArcLengthUnique | cpp/src/topology_hypotheses.cpp:39-81 | an arc length names one point of a polyline |
| Resampling.AtArcLengthMeaning | cpp/src/topology_hypotheses.cpp:62-77 | a sample divides its segment in the proportion of the lengths before and after it |
| Resampling.TargetMeaning | cpp/src/topology_hypotheses.cpp:55-58 | samples stand at equal steps of the total length |
| Resampling.SampleExact | cpp/src/topology_hypotheses.cpp:62-77 | past the first sample the zero-length branch is dead and the clamp is the identity |
| Resampling.Resample | cpp/src/topology_hypotheses.cpp:39-81 | the two-pointer sweep places sample i at arc length exactly i/(n-1) of the total, with both ends exact |
| CorridorCompatibility.HeadingDifferenceShortest | cpp/src/topology_hypotheses.cpp:89-91 | the heading difference is the shortest way round, between 0 and pi |
| CorridorCompatibility.CompatibleSymmetric | cpp/src/topology_hypotheses.cpp:109-120 | compatibility of corridors is symmetric |
| CorridorCompatibility.CompatibleMeaning | cpp/src/topology_hypotheses.cpp:83-120 | compatible exactly when headings agree within the limit up to whole turns, both ends lie within the endpoint limit, and the distances of corresponding points sum to at most their number x the mean limit |
| CorridorCompatibility.AlikeItself | cpp/src/topology_hypotheses.cpp:109-120 | a corridor travelled twice is compatible with itself |
| TopologyInputs.PolylineLength | cpp/src/topology_hypotheses.cpp:28-37 | the running sum is the length of the polyline |
| TopologyInputs.Validate | cpp/src/topology_hypotheses.cpp:240-295 | intervals and graph are accepted exactly when counts, identities, qualities, point counts, lengths, point totals, arc ends and their distances from the nodes are in order |
| TopologyMining.Screen | cpp/src/topology_hypotheses.cpp:322-358 | each interval is selected with its resampled shape or counted under its first reason; the counters add up |
| TopologyProperties.ScreenedMeaning | cpp/src/topology_hypotheses.cpp:324-353 | selected exactly when nothing speaks against the interval; otherwise the reason under which it is counted |
| TopologyProperties.CandidatesMeaning | cpp/src/topology_hypotheses.cpp:322-356 | the items that are clustered are exactly the selected intervals with their resampled points |
| TopologyMining.PairwiseCount | cpp/src/topology_hypotheses.cpp:297-310 | n(n-1)/2, refused exactly when the product would wrap or the half exceeds the budget |
| TopologyMining.PairsMeaning | cpp/src/topology_hypotheses.cpp:297-310 | each further item makes a pair with every one before it |
| TopologyMining.Mine | cpp/src/topology_hypotheses.cpp:314-388 | the whole selection and clustering, each error for its own cause, with no more checks than budgeted |
| TopologyProperties.ParametersMeaning | cpp/src/topology_hypotheses.cpp:180-212 | mining refuses exactly the parameters out of range |
| TopologyProperties.MinedClusters | cpp/src/topology_hypotheses.cpp:359-397 | the clusters are the only first fit of the selected intervals in id order, pairwise compatible and in id order inside |
| TopologyProperties.ClusterMeaning | cpp/src/topology_hypotheses.cpp:359-397 | any two members of a cluster were selected and are alike in heading, ends and mean distance |
| TopologyProperties.RefusalMeaning | cpp/src/topology_hypotheses.cpp:372-378 | a member refuses an interval exactly when the two are not alike |
| TopologyProperties.CanonicalMeaning | cpp/src/topology_hypotheses.cpp:354-358 | intervals are clustered in strictly increasing order of their ids |
| TopologyProperties.MiningIgnoresOrder | cpp/src/topology_hypotheses.cpp:359-388 | clusters, or the error, do not depend on the order of the intervals |
| TopologyHypotheses.NearestNode | cpp/src/topology_hypotheses.cpp:163-178 | the nearest node within the radius, the smaller id among equals; none exactly when none is in reach |
| TopologyHypotheses.NearestMeaning | cpp/src/topology_hypotheses.cpp:163-178 | no node is nearer than the chosen one, and none as near has a smaller id |
| TopologyHypotheses.AcceptedArcs | cpp/src/topology_hypotheses.cpp:272-293 | every arc of an accepted graph can be resampled and meets its nodes within the tolerance |
| TopologyHypotheses.BestArc | cpp/src/topology_hypotheses.cpp:433-451 | the joining arc of least mean distance, the smaller id among equals |
| TopologyHypotheses.BestArcMeaning | cpp/src/topology_hypotheses.cpp:433-451 | no joining arc has a smaller mean distance than the chosen one, and none with the same a smaller id |
| TopologyHypotheses.Hypothesize | cpp/src/topology_hypotheses.cpp:423-468 | a missing connection if and only if no arc joins the ends; a disagreement if and only if arcs join them and all lie beyond the limit |
| DecimalTime.ReadingUnique | cpp/src/time.cpp:148-189 | a lexeme is read in one way only |
| DecimalTime.RoundHalfUpNearest | cpp/src/time.cpp:190-197 | the rounded magnitude is the one integer within half a unit, the larger at a tie |
| DecimalTime.MagnitudeByDigits | cpp/src/time.cpp:172-197 | nine fractional digits and the tenth decide the rounding of any longer fraction |
| TimeParsing.ParseUnsigned | cpp/src/time.cpp:12-21 | the value of a run of digits, refused exactly beyond 64 bits |
| TimeParsing.ScanFraction | cpp/src/time.cpp:170-182 | the run of fractional digits, its first nine as a number, and the rounding digit |
| TimeParsing.CheckedMagnitude | cpp/src/time.cpp:23-43 | overflow exactly outside int64, with no wrap on the way and the least value reachable |
| TimeParsing.ParseDecimalSeconds | cpp/src/time.cpp:148-208 | for every lexeme: success if and only if it is sign? digits+ (. digits+)? of at most 64 bytes whose value, rounded half away from zero, fits int64, and then that value |
| TimeParsing.ParsePrinted | cpp/src/time.cpp:148-208 | printing any int64 with nine fractional digits and parsing gives it back |
| TimePoints.CheckedAdd | cpp/src/time.cpp:216-228 | the guards refuse exactly the sums outside int64 and never overflow themselves |
| TimePoints.CheckedDifference | cpp/src/time.cpp:230-244 | the same for differences of comparable points |
| TimePoints.FrameInterval | cpp/src/time.cpp:246-254 | accepted exactly for a positive, representable duration between comparable points |
| TimePoints.AddThenDifference | cpp/src/time.cpp:216-244 | adding a duration reaches a point if and only if their difference is that duration |
| JsonPointer.UnescapeEscape | python/cartosentry/faults.py:805-806 | an escaped token reads back as in section 4 of RFC 6901 |
| JsonPointer.DecodeEncode | python/cartosentry/faults.py:805-806 | a written pointer reads back as the path it was written for, as in section 3 of RFC 6901 |
| JsonPointer.EncodeSnoc | python/cartosentry/faults.py:834-841 | extending the text of a pointer extends its path by one token |
| JsonPointer.IndexDecimal | python/cartosentry/faults.py:841-851 | list positions are written as valid array indices |
| JsonValues.PyEqReflexive | python/cartosentry/faults.py:846-858 | every document equals itself |
| JsonDiff.ListRemovals | python/cartosentry/faults.py:843-856 | the greedy index loop reports the items it passes over, and fails exactly when something is left to match |
| JsonDiff.SemanticChanges | python/cartosentry/faults.py:826-859 | the recursive comparison, its pointers built on the way, and its first error |
| JsonPatch.ChangesBelow | python/cartosentry/faults.py:826-859 | each change lies below the compared value, or replaces all of it |
| JsonPatch.ChangesApart | python/cartosentry/faults.py:826-859 | no change is at, above or below the place of another |
| JsonPatch.ChangesMinimal | python/cartosentry/faults.py:826-859 | a replacement is of unequal values, never of a whole dictionary or list by another: changes are as deep as they can be |
| JsonReplay.ReplayRestores | python/cartosentry/faults.py:826-859 | below any place, applying the changes found there gives the derivative's value |
| JsonReplay.PatchIsCorrect | python/cartosentry/faults.py:826-859 | the reported changes applied to the source give a document equal to the derivative |
| JsonIdentity.PatchIsIdentical | python/cartosentry/faults.py:826-859 | the changes applied give the derivative itself if and only if it keeps the order of fields and the kept list items, and differs from the source only where Python can tell |
| JsonReports.EmptyIffEqual | python/cartosentry/faults.py:826-859 | nothing is reported if and only if Python calls the documents equal |
| JsonReports.EqualIffSameMeaning | python/cartosentry/faults.py:857-859 | Python's equality is equality up to field order and the kind of numbers |
| JsonReports.ReplacedFlagUnreported | python/cartosentry/faults.py:857-859 | true replaced by 1, and 1 by 1.0, go unreported |
| JsonAcceptance.GreedyIsComplete | python/cartosentry/faults.py:843-856 | a shortened list is accepted if and only if it is a subsequence |
| JsonAcceptance.AcceptedIff | python/cartosentry/faults.py:826-859 | a comparison is refused exactly when fields changed or a list was not merely shortened somewhere below |
| JsonAcceptance.ChangeResolves | python/cartosentry/faults.py:813-823 | a change's path leads to the recorded value in the source |
| JsonAcceptance.PointersNameDisjointValues | python/cartosentry/faults.py:813-859 | pointers are unique, none extends another, and each evaluates in the source to the recorded value |
| FaultReport.ReportChanges | python/cartosentry/faults.py:922-924 | a fault is reported exactly when it is acceptable and changes what the document means |
| FaultReport.RecordSays | python/cartosentry/faults.py:809-823 | a recorded change says which value goes or which one takes its place, by its own pointer and values |
| Binning.BinMonotone | python/cartosentry/lidar_integrity.py:263-272 | larger values never fall into lower cells |
| Binning.BinMeaning | python/cartosentry/lidar_integrity.py:269-271 | a value in range lies between the edges of its cell, an inner edge belonging to the cell above |
| Binning.CentreNear | python/cartosentry/lidar_integrity.py:270-289 | a value in range is within half a cell of the centre of its cell |
| Binning.CellOfRank | python/cartosentry/lidar_integrity.py:280-287 | the running count reaches a rank exactly from the cell of the sample of that rank |
| Histogram.SelectedCell | python/cartosentry/lidar_integrity.py:280-289 | when every value has a cell, the reported quantile is the centre of the cell of the exact order statistic, of samples in or out of range |
| Histogram.OrderStatisticExists | python/cartosentry/lidar_integrity.py:280-280 | the rank max(1, ceil(p n)) exists for every p up to one |
| Histogram.RankMeaning | python/cartosentry/lidar_integrity.py:280-280 | the rank is the least positive integer no smaller than p n |
| Histogram.QuantileAccuracy | python/cartosentry/lidar_integrity.py:275-289 | for samples in range the quantile is within half a cell of the order statistic of that rank |
| Histogram.QuantileMonotone | python/cartosentry/lidar_integrity.py:275-289 | quantiles rise with the probability |
| Histogram.CellsSumToSamples | python/cartosentry/lidar_integrity.py:259-272 | the cell counts sum to the number of values that have a cell |
| Histogram.FixedHistogram.constructor | python/cartosentry/lidar_integrity.py:250-257 | an empty histogram, for any bounds and number of cells |
| Histogram.FixedHistogram.Add | python/cartosentry/lidar_integrity.py:259-272 | one finite value enters the counters and its cell; an error, after counting, exactly without cells or for a value at both bounds |
| Histogram.FixedHistogram.SelectCell | python/cartosentry/lidar_integrity.py:280-287 | the loop stops at the first cell that reaches the rank |
| Histogram.FixedHistogram.Quantiles | python/cartosentry/lidar_integrity.py:275-297 | one quantile per probability, none without values; an error exactly for values without cells |
| BlankSector.MaximumCircularBlank | python/cartosentry/lidar_integrity.py:366-378 | the longest run of empty cells around the ring, wrapping at its end |
| LidarEvents.GroupFailures | python/cartosentry/lidar_integrity.py:738-749 | one pass over the sorted failures splits them into unbroken runs of one rule, and splits nowhere else |
| LidarEvents.SameEventIffUnbroken | python/cartosentry/lidar_integrity.py:738-749 | two failures share an event if and only if their rule failed at every frame between them |
| LidarReports.RunFrames | python/cartosentry/lidar_integrity.py:756-776 | the distinct frames of a group are all the frames from its first to its last |
| LidarReports.EventOf | python/cartosentry/lidar_integrity.py:763-818 | the event of a group: its frame span, earliest start, latest end, greatest severity and measurements, and its least source offsets |
| LidarMeaning.Events | python/cartosentry/lidar_integrity.py:738-826 | in terms of the failures alone: each event spans a longest stretch of successive frames in which its rule failed, with the earliest start, latest end, greatest severity and measurements and least source offsets of the failures in it; every failure is in an event, of a coverage rule exactly when its stretch lasts long enough; strict order of start frame and rule; refused exactly beyond the budget |
| VoxelGrid.NearInBlock | cpp/src/observability.cpp:356-362 | a point within two metres is never outside the searched block of cells |
| VoxelGrid.GridBetween | cpp/src/observability.cpp:364-397 | the grid reports no less than the truth, at most the cap, and the truth up to two metres (squared) |
| VoxelGrid.GridDistance | cpp/src/observability.cpp:364-397 | the same for the distances themselves |
| VoxelGrid.GridExactIff | cpp/src/observability.cpp:364-397 | the grid is exact if and only if nothing is within the cap or a nearest point lies in the block |
| VoxelGrid.ExactWithinReach | cpp/src/observability.cpp:364-397 | for each query the grid is exact below two metres plus the distance to the nearest face of its own cell |
| VoxelGrid.MissedBeyondReach | cpp/src/observability.cpp:364-397 | at every distance between that reach and three metres there is a point that the grid misses |
| VoxelGrid.NeighbourMissed | cpp/src/observability.cpp:364-397 | 0.9 against 3.0 is missed |
| VoxelGrid.BuildGrid | cpp/src/observability.cpp:370-374 | every reference point is filed under its own cell and no other |
| VoxelGrid.ScanBlock | cpp/src/observability.cpp:376-393 | the nested loops compute a linear scan of the block |
| VoxelGrid.OneWayNearestMean | cpp/src/observability.cpp:364-397 | the mean over the query points, not a number for no points |
| VoxelGrid.SumMeaning | cpp/src/observability.cpp:376-396 | the summed distances are no less than the true ones, at most three metres each, and exact when all true distances are at most two metres |

## Left out

- Floating point: arithmetic is exact over `real`, so nonfinite values, rounding of sums and the `epsilon` of IEEE doubles appear only where a constant names them.
- Library mathematics: `hypot` keeps evenness, nonnegativity and its zero; `atan2`, `sqrt`, likelihoods and heading weights are parameters. Emission scores are given, not computed.
- `shared_ptr` hypotheses and their in-place ranks: hypotheses are values with the predecessor inside, so sharing of nodes between hypotheses is not captured.
- `std::priority_queue`, `std::sort`, `std::map` and `unordered_map`: modelled by their contracts, not by their layout; the counters of type `size_t` are unbounded except where a wrap is tested.
- Transition.ScoreTransition: elapsed time, displacement, implied speed and discrepancy, which a result repeats for reporting, and the path of a route refused for its speed.
- DecoderGuarantees.DecodedIsOptimal: optimality is stated only while width and delta cut nothing; with cuts only soundness, the counts and the retention of the best sequence of each observation hold.
- Threads, condition variables, wall-clock metrics, joining and the destructor of the scheduler: a blocked submission is a step that is not enabled, and tasks are assumed to return.
- BoundedScheduling.BoundedScheduler.CollectOutcomes: models the end of `wait`; the waiting itself is the precondition that nothing is queued or running.
- Rounding of bin distances, speeds and yaw: per-field sums without an invariant.
- PieceMaker.MakePieces: the budget on the number of generated bins is not modelled.
- RoadBins.Aggregate: a modality without contributing evidence is reported with zeros instead of being absent, and the order of traversals inside a bin is left open.
- PieceMaker.Deduplicate: only identical pieces are merged, as in the code, so overlapping windows of two paths still add up.
- Corridor fitting by medians and the traversal ids of a cluster: the corridor and the number of traversals are given to `Hypothesize`.
- Validation of inputs beyond what the kernels need, apart from the decoder and topology mining: long lists of independent checks.
- Hashes in fault reports and events: values stand in place of their hashes; the fault operators themselves, which write numbers into a document, are not modelled.
- JsonDiff.SemanticChanges: documents are parsed JSON with finite numbers; Python's recursion limit is not modelled.
- Histogram.QuantileAccuracy: holds for samples in range of a proper interval; the cell of the order statistic is exact for all.
- LidarMeaning.Events: event ids, which are hashes, the list of compatible causes of a rule and the budget on raw failures; rules and severities are represented by their priorities.
- Bindings, files, networks, command lines, databases, charters and manifests: no invariant of their own.
