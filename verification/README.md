# hprofiler: verified models

This project models, in Dafny, the parts of the hprofiler repository whose results rest on an argument rather than on
reading the code: a difference-constraint solver for clock offsets, the lock-free event transport, two optimisation
procedures, a sweep line, the generation of alternative worlds, blame and replay on the event graph, a hash table, a
reference-counted timing queue and three call trees. `dafny verify dfyconfig.toml` checks the whole project.

Code that works in place is modelled in place: classes with the source's fields, arrays, loops with invariants. Code
that computes values is modelled by functions. Concurrent code is a step system whose steps are the atomic loads,
stores and locked sections of the source, and the theorems are about every run of it.

## Modules

| source | modules |
|---|---|
| src/analysis/cp_clock.py | ClockGraph, ClockSearch (`_shortest`), ClockBounds (tight intervals), ClockRepair and ClockSolve (`solve`), ClockAnalyze (`analyze_clocks`), ClockShifts (what the shifts achieve) |
| src/analysis/edge_calibration.py | IsotonicCore, Isotonic, EdgeCalibration, CalibrationQuality (how good the probabilities are) |
| src/analysis/causal_compare.py | PhaseAlignment, PhaseAligner (`align_phases`), PhaseLaws, NodeMatching (`match_nodes`) |
| hooks/common/ringbuffer.h | RingLayout, ByteRing (the sequential ring), RingProtocol (both sides at once) |
| hooks/common/hp_transport.h | TransportModel (steps), TransportShape, TransportBalance, TransportOrder, TransportRuns, TransportCounts (what each counter counts), TransportModes (which way a record goes), TransportHistory (what a run did, and that none gets stuck), TransportPasses (what a pass achieves), TransportEmpties |
| src/analysis/activity_buckets.py | ExclusiveOwner (who owns an instant), ExclusiveSweep, ExclusiveTime, ExclusiveThread (a thread's total), ExclusiveNesting (what a span is due) |
| src/analysis/cp_alternatives.py | P2pMoves, P2pAlignment, LaunchLinks, LaunchForest, LaunchGroups |
| src/analysis/cp_attribution.py | EventGraph, Replay, LaneWalk, BlameJournal, BlameDue (who is charged), Blame, BlameWaits (the wait records) |
| hooks/rocm_hook/rocprof_trace.c | KernelProbe, KernelNames |
| hooks/nccl_hook/nccl_hook.c | NcclOwnership, NcclTiming |
| src/analysis/call_tree.py, src/analysis/cct.py | ForestLists, CallForest, CallParents, CallAggregate, CallKeys, CallSelfTimes, CallSelfFits, StackPaths, StackTrees, IntervalUnion (`_merge_intervals`) |

## Conventions

- Nanoseconds are integers; scores, weights, shares and replayed times are reals. With integer weights the half
  nanosecond of slack in `_shortest` is exactly a strict comparison, and infinity is a constructor.
- Inputs the code takes from elsewhere are parameters: span classification, `difflib` scores, what the CUDA driver
  answers, whether an allocation succeeds, what the sockets do.
- The transport assumes sequential consistency at the atomics and fences the code names. A record is *accepted* when it
  enters a ring or its own thread hands it to `hp_tx_deliver`. `hp_tx_deliver` succeeds or fails for a whole batch.
- Lists whose order the source leaves to a dictionary are in insertion order.

## Where the code and its description differ

- The description of `replay` says unchanged inputs reproduce the recording exactly
  (src/analysis/cp_attribution.py:29-30). Because a residual is cut at 0, that holds if and only if every enabled edge
  fits between its ends (`Replay.ReplayReproduces`); `Replay.ToleratedEdgeMovesEvents` is a graph where it fails.
- The description of the alternatives says none is generated whose source lies after its destination
  (src/analysis/cp_alternatives.py:38-39). Only moves to later sends are guarded. `P2pAlignment.LateMoveIsOffered` shows
  one that breaks the claim, and `P2pAlignment.OptionsCausalIffGuarded` says for every channel, on its recorded pairings,
  exactly when all that is offered meets it; causal recorded pairs are enough (`P2pAlignment.CausalPairsAreGuarded`).
- A formatted record of length 0 is counted as emitted and nowhere else (hooks/common/hp_transport.h:590-594). The
  counters account for every record exactly in the runs that emit none (`TransportEmpties.ClosesIffNoEmptyFormat`);
  `TransportEmpties.EmptyFormatIsNowhere` is a run in which they do not. The account of the other theorems carries such
  records as a term of its own.
- The time attributed to a thread is described as the union of its spans, never more than wall time
  (src/analysis/activity_buckets.py:184-187). That holds of its measured spans (`ExclusiveTime.MeasuredTotal`); samples
  come on top with their nominal weight. `ExclusiveThread.ThreadTotal` says exactly when the total is still that union and
  when it stays within wall time, and `ExclusiveThread.MoreThanWallTime` is a thread given 19 ns of 10.
- A clock domain without a bound is said to be shifted by the smallest amount that satisfies the dependencies
  (src/analysis/cp_clock.py:34-37). That holds of every shift by itself (`ClockShifts.ShiftIsSmallest`) but not of several
  at once (`ClockShifts.CrossedShiftsNotMet`): they satisfy them exactly when any two in opposite directions do
  (`ClockShifts.ShiftsMetIffOpposedMet`).
- The duration bonus of `align_phases` is said to decide only between otherwise equal placements
  (src/analysis/causal_compare.py:111-113). It can outweigh similarity (`PhaseAlignment.BonusOutweighsSimilarity`), by at
  most 0.01 per match (`PhaseAlignment.BonusDecides`), and does not when pairings are far enough apart
  (`PhaseAlignment.SimilarityDecides`).
- `total_exclusive_ns` means to leave out the tree's root and leaves out every node named "[root]"
  (src/analysis/cct.py:168-172). It is all the time there is exactly when samples of that name take none
  (`StackTrees.ExclusiveTotal`, `StackTrees.RootNameLosesTime`).
- `_merge_intervals` is described as the length of a union (src/analysis/cct.py:373); for inverted intervals that fails
  exactly as `IntervalUnion.MergeIntervals` says.
- Self times are floored at 0 in `_ct_aggregate`. `CallSelfFits.SelfTimesExactIffFits` says on the spans' forest exactly
  when that changes their sum, `CallSelfFits.FloorActs` is a thread where it does, and by `CallSelfFits.TemporalSelfTimes`
  it never does without explicit parents.

## Model

| member | source | states |
|---|---|---|
| ClockSearch.Shortest | src/analysis/cp_clock.py:118-145 | either distances that meet every reachable constraint, exact lightest-walk weights when a source is given, or a closed cycle of at most n edges whose weight is negative, which rules every assignment out; without a source distances come back if and only if the system is feasible |
| ClockSearch.Pass | src/analysis/cp_clock.py:127-135 | one round over the edges keeps the search state: time-stamped predecessors, and every finite distance the weight of a real walk; it reports -1 exactly when nothing improved in the round |
| ClockSearch.OnCycle | src/analysis/cp_clock.py:136-137 | n steps back along predecessors land on a cycle of at most n nodes, and neither the steps nor the cycle meet an unset entry |
| ClockSearch.StepBack | src/analysis/cp_clock.py:136-137 | the node reached is the n-th predecessor of the node improved last |
| ClockSearch.CollectCycle | src/analysis/cp_clock.py:138-144 | the edges listed are those from x back to its first return, so the length guard never ends the loop |
| ClockSearch.TightCycleNegative | src/analysis/cp_clock.py:129-133 | a cycle of last improvements weighs less than 0, because their time stamps cannot fall all the way round |
| ClockSearch.CycleFound | src/analysis/cp_clock.py:136-145 | the edges between x and the first return to it form a closed cycle of negative weight |
| ClockSearch.SolutionShortest | src/analysis/cp_clock.py:118-135 | from a source, settled distances are exactly the weights of the lightest walks |
| ClockSearch.SolutionFeasible | src/analysis/cp_clock.py:118-135 | from the virtual source, settled distances are an assignment meeting every constraint |
| ClockGraph.NegativeCycleInfeasible | src/analysis/cp_clock.py:118-121 | a negative cycle refutes every assignment |
| ClockBounds.UpperSound | src/analysis/cp_clock.py:203-211 | every feasible assignment with the reference at 0 stays below the distances |
| ClockBounds.UpperTight | src/analysis/cp_clock.py:203-211 | the distances are attained by one feasible assignment all at once, and a node at infinity can be placed above any floor |
| ClockBounds.ShortestExact | src/analysis/cp_clock.py:203-211 | distances from the reference and over the reversed edges are the exact ends of every offset, jointly attained at either end |
| ClockRepair.SystemMeans | src/analysis/cp_clock.py:171-178 | an assignment with the reference at 0 solves the edge system exactly when it meets every pair and bound |
| ClockRepair.FeasibleConsistent | src/analysis/cp_clock.py:171-183 | the edge system is feasible if and only if offsets consistent with needs and bounds exist |
| ClockRepair.CycleHasPair | src/analysis/cp_clock.py:186-189 | with non-negative bounds a negative cycle passes through a pair, and its deficit is positive |
| ClockRepair.AtMostIsSuffix | src/analysis/cp_clock.py:192-199 | of needs in descending order exactly a prefix is given up, namely those above what is allowed |
| ClockRepair.RelaxedShrinks | src/analysis/cp_clock.py:189-201 | relaxing below a pair's need leaves strictly fewer needs, which bounds the repair loop |
| ClockSolve.PickWeakest | src/analysis/cp_clock.py:190 | the pair relaxed is on the cycle, has the least strength there and among those the largest need, the first such on ties |
| ClockSolve.Relax | src/analysis/cp_clock.py:191-201 | the chosen pair keeps its needs up to the allowed one, the others go to the contradicted set, an emptied pair leaves the list, no other pair changes |
| ClockSolve.Round | src/analysis/cp_clock.py:185-201 | a repair round is a step of the specification: weakest pair on a negative cycle, cut by the deficit, strictly fewer needs left |
| ClockSolve.Repair | src/analysis/cp_clock.py:180-201 | the loop ends with a feasible system; what it dropped is exactly the contradicted set; the recording counts as feasible if and only if nothing had to be dropped; the whole sequence of rounds is a sequence of repair steps |
| ClockSolve.Intervals | src/analysis/cp_clock.py:202-211 | the two searches give the exact ends of the remaining system |
| ClockSolve.Shifts | src/analysis/cp_clock.py:212-215 | a shiftable domain gets the shift of least size into its interval, 0 if 0 lies in it; every other domain gets 0 |
| ClockSolve.RefIndex | src/analysis/cp_clock.py:166 | the first position of the reference domain, 0 without one |
| ClockSolve.Solve | src/analysis/cp_clock.py:160-216 | all of solve at once: feasibility flag, contradicted set, tightest intervals over the needs kept, least shifts, repair trace |
| ClockAnalyze.Group | src/analysis/cp_clock.py:222-231 | every dependency that crosses domains joins exactly its pair, whose strength is the least of its members' |
| ClockAnalyze.SortAll | src/analysis/cp_clock.py:232-233 | every pair's needs sorted in descending order, a permutation of what they were |
| ClockAnalyze.StrengthMeans | src/analysis/cp_clock.py:228-231 | a pair of domains is as strong as its weakest dependency and never stronger than 1 |
| ClockAnalyze.MeetsIffHonours | src/analysis/cp_clock.py:219-234 | offsets meet the pairs' remaining needs if and only if they put every dependency not given up in order |
| ClockAnalyze.AnalyzeClocks | src/analysis/cp_clock.py:219-234 | on the trace's own terms: only crossing dependencies are contradicted, none when the trace is feasible as recorded, and the intervals are the exact ranges of the offsets the kept dependencies and the bounds admit |
| ClockShifts.ShiftIsSmallest | src/analysis/cp_clock.py:34-37 | a shift by itself satisfies the kept dependencies with some offsets of the other domains within their bounds, and no offset of its domain that does is smaller |
| ClockShifts.ShiftsMetIffOpposedMet | src/analysis/cp_clock.py:212-215 | all shifts satisfy the kept dependencies together if and only if every shift forward does with every shift back, so always when all go one way |
| ClockShifts.MovedIffMet | src/analysis/cp_model.py:490-500 | that is, if and only if the trace with the shifts applied has admitted offsets that leave every shifted domain at 0 |
| ClockShifts.CrossedShiftsNotMet | src/analysis/cp_clock.py:34-37 | two devices, each shifted by the least amount, that a dependency between them needs further apart |
| ClockAnalyze.OffsetRangeCovers | src/analysis/cp_clock.py:104-106 | the interval of delta_a - delta_b covers the difference under every admitted assignment |
| ClockAnalyze.OffsetRangeExact | src/analysis/cp_clock.py:104-106 | that interval is exactly the differences of a value from each of the two intervals: no narrower one follows from them |
| EdgeCalibration.PoolPoints | src/analysis/edge_calibration.py:69-77 | ties in x pooled into one point with the summed weight |
| EdgeCalibration.PoolBlocks | src/analysis/edge_calibration.py:78-85 | blocks that tile the points, each with every prefix mean at least the block mean, means rising from block to block |
| IsotonicCore.MergeOk | src/analysis/edge_calibration.py:81-85 | pooling a block with a lower one after it keeps prefixes above the common mean, which lies between the two |
| IsotonicCore.TilesCross | src/analysis/edge_calibration.py:78-89 | the residuals of the fit make no acute angle with any non-decreasing function: the optimality condition |
| IsotonicCore.FitNonDecreasing | src/analysis/edge_calibration.py:86-90 | the values read off rising blocks are non-decreasing |
| EdgeCalibration.Pav | src/analysis/edge_calibration.py:63-90 | empty in, empty out; the distinct xs ascending, a non-decreasing value at each, and blocks witnessing the fit; samples of any order and with ties |
| EdgeCalibration.PavOptimal | src/analysis/edge_calibration.py:63-90 | the fit is a weighted least-squares minimiser among all non-decreasing functions, with the gap at least the squared distance to the competitor |
| EdgeCalibration.PavUnique | src/analysis/edge_calibration.py:63-90 | any non-decreasing function that does as well agrees with the fit at every sample |
| EdgeCalibration.PavTotal | src/analysis/edge_calibration.py:63-90 | the fit keeps the weighted total of the samples |
| EdgeCalibration.BisectRightMeans | src/analysis/edge_calibration.py:93-96 | bisect_right splits an ascending list into what is at most x and what is above |
| EdgeCalibration.CurveMonotone | src/analysis/edge_calibration.py:93-96 | the step curve of a fit is non-decreasing on all reals, below the first x included |
| EdgeCalibration.CurveAt | src/analysis/edge_calibration.py:93-96 | at a fitted x the curve takes the fitted value |
| EdgeCalibration.CurveBetween | src/analysis/edge_calibration.py:93-96 | between two fitted x the curve keeps the lower one's value, below the first and above the last it is level |
| EdgeCalibration.EvidenceScoreLexicographic | src/analysis/edge_calibration.py:44-46 | scores order candidates by status, then tier, then class, and tell every two apart |
| EdgeCalibration.GroupExamples | src/analysis/edge_calibration.py:168-170 | each stratum holds exactly its examples, in order |
| EdgeCalibration.FitStrata | src/analysis/edge_calibration.py:164-178 | exactly the strata with enough examples are calibrated, each by its own fit |
| EdgeCalibration.FittedRange | src/analysis/edge_calibration.py:173-177 | fitted probabilities lie in [0, 1] |
| EdgeCalibration.ProbabilityProperties | src/analysis/edge_calibration.py:139-143 | a probability exists exactly for strata with enough examples, lies in [0, 1] and does not fall as the score rises |
| CalibrationQuality.ProbabilityIsFrequency | src/analysis/edge_calibration.py:164-178 | among the examples of a stratum that are given one probability exactly that share holds, for every value |
| CalibrationQuality.BrierLeast | src/analysis/edge_calibration.py:101-102 | on the examples of a stratum its curve has the least Brier score of all non-decreasing functions of the evidence score, reached only by those that agree with it on every example |
| CalibrationQuality.PavLeastSquares | src/analysis/edge_calibration.py:63-90 | on any values, weighted or not, no non-decreasing function has a smaller weighted sum of squares |
| CalibrationQuality.StrataApart | src/analysis/edge_calibration.py:57-59 | kinds without a slash: two strata have one name exactly when kind and provenance agree |
| PhaseAlignment.JaccardRange | src/analysis/causal_compare.py:87-90 | in [0, 1], two empty sets included |
| PhaseAlignment.SimilarityRange | src/analysis/causal_compare.py:93-97 | in [0, 1] |
| PhaseAlignment.JaccardMeans | src/analysis/causal_compare.py:87-90 | symmetric; 1 exactly of equal sets, 0 exactly of disjoint ones that are not both empty |
| PhaseAlignment.SimilarityMeans | src/analysis/causal_compare.py:93-97 | symmetric; 1 exactly of phases of one kind, or of two loose kinds, with the same tokens and the same node paths, 0 exactly when both share nothing; kinds that do not go together halve it |
| PhaseAlignment.BestIsUpperBound | src/analysis/causal_compare.py:128-143 | no strictly monotone pairing of phases that meet MIN_PHASE_SIMILARITY is worth more than the table says |
| PhaseAlignment.TraceCovers | src/analysis/causal_compare.py:144-166 | the traceback mentions every phase of both runs exactly once, in order |
| PhaseAlignment.TraceAttains | src/analysis/causal_compare.py:144-166 | the traceback's matches are an admissible pairing worth exactly the table's corner |
| PhaseAligner.Classes | src/analysis/causal_compare.py:195-197 | two phases get one class number if and only if they have one shape |
| PhaseAligner.Similarity | src/analysis/causal_compare.py:119-126 | the value cached by class pair equals the direct similarity of the two phases |
| PhaseAligner.FillScore | src/analysis/causal_compare.py:128-143 | every cell of the table is the best worth of the two prefixes |
| PhaseAligner.TraceBack | src/analysis/causal_compare.py:144-166 | the loop over the table yields the specified trace, gaps first on ties |
| PhaseAligner.Rows | src/analysis/causal_compare.py:167-190 | each row's index, phases, similarity and ambiguity, with the weight and the explained weight of all rows |
| PhaseAligner.ExplainedRange | src/analysis/causal_compare.py:170-191 | what is explained never exceeds the total |
| PhaseAlignment.BonusDecides | src/analysis/causal_compare.py:111-113 | a pairing is more similar than the one worth most by at most what that one is ahead in bonus, so by at most 0.01 per match; of two equally similar ones the bonus decides |
| PhaseAlignment.SimilarityDecides | src/analysis/causal_compare.py:111-113 | when any two admissible pairings are equally similar or differ by more than all bonuses can make up, the traceback is as similar as any |
| PhaseAlignment.BonusOutweighsSimilarity | src/analysis/causal_compare.py:111-113 | one baseline phase matched with a candidate as long, although another is more similar |
| PhaseAligner.AlignPhases | src/analysis/causal_compare.py:110-192 | an optimal alignment covering both runs in order, at most 0.01 per match less similar than any admissible pairing, with a confidence in [0, 1] that is explained over total, or 1 or 0 when the total is 0 |
| PhaseLaws.DurationRatioMeans | src/analysis/causal_compare.py:133-141 | symmetric, 1 exactly for equal durations, and that part of the longer is the shorter |
| PhaseLaws.WeightConserved | src/analysis/causal_compare.py:170-189 | the weights of the rows add up to the durations of both runs: no time is left out or counted twice |
| PhaseLaws.ExplainedIff | src/analysis/causal_compare.py:169-191 | all the weight is explained, so the confidence is 1, exactly when every row that takes time is a match of full similarity or an extra phase whose shape is also matched |
| PhaseLaws.SelfAligned | src/analysis/causal_compare.py:110-192 | a run aligned with itself: every phase is matched with itself, in order, and all its time is explained |
| NodeMatching.KeyStage | src/analysis/causal_compare.py:251-260 | the first node with a key takes the last one of the other run that has it; the others are left |
| NodeMatching.FreeIffFirst | src/analysis/causal_compare.py:255-258 | a key's holder is still free exactly when no earlier node had the key |
| NodeMatching.BeforeTotal | src/analysis/causal_compare.py:284 | the ranking of candidates by score, self time and ids orders every two differently: it has no ties |
| NodeMatching.BeforeMeans | src/analysis/causal_compare.py:284 | a candidate ranks before another by the higher score, on ties the larger self time of its two nodes together, then the lower baseline id, then the lower id of the other run |
| NodeMatching.Candidates | src/analysis/causal_compare.py:262-284 | the ranked list holds exactly the pairs of nodes left over that share a leaf or a source and reach MIN_NODE_SCORE |
| NodeMatching.Greedy | src/analysis/causal_compare.py:285-291 | every candidate is matched or beaten by a matched one that shares a node with it and ranks before it |
| NodeMatching.MatchNodes | src/analysis/causal_compare.py:246-298 | every node of both runs occurs exactly once; every node that can match by key does, at score 1; every other match is a candidate at its score; no two nodes were left while better for each other than what they got |
| ByteRing.RoundUp | hooks/common/ringbuffer.h:115-125 | the least power of two that is at least the size asked for |
| ByteRing.ByteRing.constructor | hooks/common/ringbuffer.h:115-125 | an empty ring of that capacity |
| ByteRing.ByteRing.BytesIn | hooks/common/ringbuffer.h:127-132 | both copies together write the bytes from the position on, wrapping, and nothing else |
| ByteRing.ByteRing.BytesOut | hooks/common/ringbuffer.h:134-139 | both copies together read the window at the position, wrapping |
| ByteRing.ByteRing.Push | hooks/common/ringbuffer.h:151-160 | accepted if and only if the frame fits; then the queue has the record at its end, else nothing changes |
| ByteRing.ByteRing.PeekLen | hooks/common/ringbuffer.h:163-170 | the length of the oldest record, -1 if and only if there is none |
| ByteRing.ByteRing.Pop | hooks/common/ringbuffer.h:174-178 | hands out exactly the oldest record and frees its space |
| ByteRing.ByteRing.Empty | hooks/common/ringbuffer.h:180-183 | true exactly when no record is queued |
| RingLayout.LengthRoundTrip | hooks/common/ringbuffer.h:156-169 | a 32-bit length written as four bytes reads back |
| RingProtocol.CopiesDisjoint | hooks/common/ringbuffer.h:127-160 | the bytes a push is copying and the bytes a pop may be reading share no place |
| RingProtocol.StepRefines | hooks/common/ringbuffer.h:151-183 | every load, byte copy and publication of either side, with views of the other side arbitrarily old, is a step of a FIFO queue of records or none |
| RingProtocol.RunIsFifo | hooks/common/ringbuffer.h:151-183 | in every interleaving the records popped are, byte for byte and in order, a prefix of those pushed, and 0 <= tail - head <= cap |
| TransportShape.StepKeepsShape | hooks/common/hp_transport.h:324-414 | every step keeps the registry duplicate-free and live, one holder of drain_mu, a record held only where the code holds one, rings within capacity and the batch within HP_TX_BATCH |
| TransportBalance.BalancedIsNoGap | hooks/common/hp_transport.h:77-79 | the account stated per counter and the account stated per place are the same statement |
| TransportBalance.StepKeepsNoGap | hooks/common/hp_transport.h:222-246 | every step keeps: emitted = sent + lost + dropped + oversize + format errors + empty formats + queued + batched + held |
| TransportBalance.FreeKeepsTotals | hooks/common/hp_transport.h:390-403 | freeing an orphan drops no record and leaves every total as it was |
| TransportOrder.ViewStepOrderly | hooks/common/hp_transport.h:354-414 | whatever a step moves, the accepted records of a thread stay in place and in emission order; at most one joins, at the end |
| TransportRuns.StepView | hooks/common/hp_transport.h:468-547 | every step of the system is, for every thread, one of the allowed movements between hand, ring, batch and hp_tx_deliver |
| TransportRuns.NotStranded | hooks/common/hp_transport.h:535-543 | once the mode is sync no step strands a record: what a late push publishes its own thread drains |
| TransportRuns.BeginAllDrainedOk | hooks/common/hp_transport.h:619-652 | a pass begun in sync mode visits every ring that may hold a stranded record |
| TransportRuns.RunSound | hooks/common/hp_transport.h:354-652 | the whole invariant holds in every run |
| TransportRuns.RunBalanced | hooks/common/hp_transport.h:73-79 | in every run the counters of the global block and of all live rings account for every record |
| TransportCounts.SentAndLost | hooks/common/hp_transport.h:238-245 | in every run sent is the number of records in deliveries that succeeded and dropped_lost that in deliveries that failed; dropped_lost is 0 if and only if none failed |
| TransportCounts.DeliveryStep | hooks/common/hp_transport.h:213-245 | a delivery hands over a batch or one record, never nothing, and counts all of it as sent or all of it as lost |
| TransportCounts.CountersByCause | hooks/common/hp_transport.h:487-615 | in every run each producer-side counter is the number of steps with its cause: emitted; oversize for a record over HP_TX_MAX_RECORD or over half the ring with its length; format_errors for a format that fails or cannot be copied; dropped_full for want of a copy, of room without waiting, or of room after waiting |
| TransportModes.AllThroughRings | hooks/common/hp_transport.h:486-547 | in a run whose rings start, are granted to every thread and are not shut down, no thread ever delivers a record itself |
| TransportModes.AllDirect | hooks/common/hp_transport.h:486-547 | in a run whose rings never start no thread gets one, and no batch is ever delivered |
| TransportHistory.StatusMeans | hooks/common/hp_transport.h:448-465 | in every run the mode is Sync exactly after a shutdown or a failed start of the rings, Uninit exactly before any start, a failed exec undoing either; a completed final pass is one begun in sync mode |
| TransportHistory.HandedOverOnce | hooks/common/hp_transport.h:619-652 | once such a pass has ended and every thread has returned, every record accepted at any time was handed to hp_tx_deliver exactly once |
| TransportHistory.NeverStuck | hooks/common/hp_transport.h:354-547 | in every run a thread with a record in hand can take its next step or waits for drain_mu, and then whoever holds drain_mu can; an idle thread can always emit, and a shutdown is always possible |
| TransportHistory.ThreadAdvances | hooks/common/hp_transport.h:486-547 | every step of a thread brings it closer to returning and no other step takes it back, so an emission returns within ten steps of its thread |
| TransportHistory.PassAdvances | hooks/common/hp_transport.h:356-414 | every step of a pass lowers twice the queued records plus the rings to visit plus a pending batch |
| TransportPasses.PassHandsOver | hooks/common/hp_transport.h:377-403 | when a pass over all rings ends, in either mode, every record accepted before it began has been handed to hp_tx_deliver in order |
| TransportRuns.RunInOrder | hooks/common/hp_transport.h:354-414 | in every run hp_tx_deliver has been handed a prefix of each thread's accepted records, in emission order and none twice, across the switch to sync mode too |
| TransportRuns.RunBounded | hooks/common/hp_transport.h:356-372 | in every run no ring exceeds its capacity and the batch never outgrows its buffer |
| TransportRuns.AcceptedIsKept | hooks/common/hp_transport.h:486-547 | a record once accepted keeps its place for the rest of the run |
| TransportRuns.DrainedAtRest | hooks/common/hp_transport.h:619-652 | once a pass begun after shutdown has ended and every thread has returned, everything accepted was handed over and the account has no queued term |
| TransportRuns.DeliveredExactlyOnce | hooks/common/hp_transport.h:535-543 | every record accepted at any time before such a rest was handed to hp_tx_deliver exactly once |
| TransportEmpties.EmptiesCounted | hooks/common/hp_transport.h:590-594 | the uncounted records of a run are the formats of length 0 it emitted |
| TransportEmpties.ClosesIffNoEmptyFormat | hooks/common/hp_transport.h:583-594 | emitted = sent + lost + dropped + oversize + format errors + queued + batched + held, without a term for empty formats, holds after a run if and only if the run emitted no format of length 0 |
| TransportEmpties.EmptyFormatIsNowhere | hooks/common/hp_transport.h:590-594 | a run of one thread that formats one record to nothing: emitted is 1 and every other term 0 |
| ExclusiveOwner.OneOwner | src/analysis/activity_buckets.py:178-187 | at most one span owns an instant |
| ExclusiveOwner.SomeOwner | src/analysis/activity_buckets.py:178-187 | every covered instant has an owner: latest start, then earliest end, then position |
| ExclusiveOwner.OwnedIsUnion | src/analysis/activity_buckets.py:184-187 | what a thread's spans own together is the measure of the union of their extents |
| ExclusiveOwner.BusyAtMostWall | src/analysis/activity_buckets.py:184-187 | that union never exceeds wall time |
| ExclusiveSweep.Boundaries | src/analysis/activity_buckets.py:221-226 | each span's two boundaries once, by time, ends before starts, then by position |
| ExclusiveSweep.CoverBetween | src/analysis/activity_buckets.py:230-242 | between two consecutive boundaries a span covers an instant exactly when it has been opened and not closed |
| ExclusiveSweep.PopEnded | src/analysis/activity_buckets.py:232-233 | ended spans leave the top of the heap only; what remains is the heap minus ended spans, its top still running |
| ExclusiveSweep.TopOwns | src/analysis/activity_buckets.py:234-236 | the top of the lazily cleaned heap owns every instant up to the next boundary, and without a top nobody does |
| ExclusiveSweep.SweepBoundaries | src/analysis/activity_buckets.py:227-242 | every span is credited with exactly the instants it owns between the first and the last boundary |
| ExclusiveTime.SweepThread | src/analysis/activity_buckets.py:220-242 | the sweep of one thread credits each of its spans with the measure of what it owns, and no other span |
| ExclusiveTime.Group | src/analysis/activity_buckets.py:204-215 | host spans go to their thread in list order, samples apart; device, annotation and empty spans nowhere |
| ExclusiveTime.Merge | src/analysis/activity_buckets.py:253-262 | disjoint ascending intervals that cover the same instants |
| ExclusiveTime.Bisect | src/analysis/activity_buckets.py:266 | bisect_right on a sorted list |
| ExclusiveTime.IsCovered | src/analysis/activity_buckets.py:264-268 | one bisect decides whether a measured span of the thread covers the instant |
| ExclusiveTime.AddSamples | src/analysis/activity_buckets.py:263-269 | a sample keeps its nominal weight exactly when no measured span of its thread covers its start |
| ExclusiveTime.ExclusiveTime.constructor | src/analysis/activity_buckets.py:198-269 | afterwards the stored times are for every span exactly its due: owned instants, nominal sample weight, or nothing |
| ExclusiveTime.ExclusiveTime.Totals | src/analysis/activity_buckets.py:271-290 | per key the sum of the dues, device spans at full duration if asked for; only positive entries |
| ExclusiveTime.MeasuredTotal | src/analysis/activity_buckets.py:184-187 | the measured spans of a thread are given together the union of their extents, at most wall time |
| ExclusiveNesting.OwnsMeans | src/analysis/activity_buckets.py:178-187 | an instant belongs to the running span that started last, of those the shortest, of those the first |
| ExclusiveNesting.DueMeans | src/analysis/activity_buckets.py:178-187 | a measured span is due its duration less the time spans nested deeper in its process and thread run meanwhile; a sample its duration unless a measured span of its thread runs at its start; device-timed, annotation and empty spans nothing |
| ExclusiveThread.ThreadTotal | src/analysis/activity_buckets.py:184-187 | all that is attributed to a thread, samples included, is the union of its measured spans plus the nominal weight of the samples whose start none of them covers: that union if and only if there is no such sample, within wall time if and only if those weights fit into what the union leaves of it |
| ExclusiveThread.ThreadTotalOfAll | src/analysis/activity_buckets.py:184-187 | it is the union of all spans of the thread, samples among them, if and only if those weights are what samples cover outside every measured span |
| ExclusiveThread.MoreThanWallTime | src/analysis/activity_buckets.py:184-187 | a sample of 10 ns and a measured span of 9 ns from its second nanosecond on: 19 ns are attributed in 10 ns of wall time |
| P2pMoves.LaterNonOvertaking | src/analysis/cp_alternatives.py:212-219 | a suffix can move to the next sends in a strictly order-preserving injection if and only if there is a send after the run |
| P2pMoves.EarlierNonOvertaking | src/analysis/cp_alternatives.py:220-226 | a prefix can move back if and only if there is a send before the run |
| P2pMoves.DropNonOvertaking | src/analysis/cp_alternatives.py:227-231 | dropping a receive and moving the later ones of its run back keeps the order |
| P2pMoves.LaterCausality | src/analysis/cp_alternatives.py:213-216 | a suffix keeps each send's start at or before its receive's end exactly when the code's test holds of every receive it moves |
| P2pMoves.BackwardKeepsCausality | src/analysis/cp_alternatives.py:220-229 | a backward move keeps causality if the recorded pairs had it |
| P2pMoves.AllowedMoves | src/analysis/cp_alternatives.py:212-231 | which moves of a run obey the non-overtaking rule is decided by three tests: a send after, a send before, events lost |
| P2pAlignment.RunFrom | src/analysis/cp_alternatives.py:208-210 | a maximal run of consecutive sends |
| P2pAlignment.FrontOf | src/analysis/cp_alternatives.py:213-215 | the longest suffix whose receives all end after the next sends start |
| P2pAlignment.SuffixOptions | src/analysis/cp_alternatives.py:216-219 | the options stand for the moves of suffixes, shortest first |
| P2pAlignment.PrefixOptions | src/analysis/cp_alternatives.py:224-226 | the options stand for the moves of prefixes, shortest first |
| P2pAlignment.DropOptions | src/analysis/cp_alternatives.py:227-229 | the options stand for the drops; the placeholder -1 is in none of them |
| P2pAlignment.RunMovesAreOpen | src/analysis/cp_alternatives.py:211-231 | of the moves of a run the list holds exactly those open to it |
| P2pAlignment.RunOptions | src/analysis/cp_alternatives.py:211-231 | the options of one run denote exactly its open moves and touch no other run |
| P2pAlignment.ShiftRuns | src/analysis/cp_alternatives.py:205-234 | over a whole channel the options denote exactly the open moves of its runs, the recorded pairing first |
| P2pAlignment.ChannelOptions | src/analysis/cp_alternatives.py:191-236 | pairings ordered by send; options only when there are more sends than pairings or lost events, and no send is paired twice |
| P2pAlignment.OfferedMovesAreSound | src/analysis/cp_alternatives.py:174-236 | everything offered is a strictly order-preserving partial injection into the sends, and keeps causality if the recorded pairs did |
| P2pAlignment.OptionsCausalIffGuarded | src/analysis/cp_alternatives.py:205-234 | everything offered on a channel keeps each send's start at or before its receive's end if and only if every receive a backward move can take (any of a run with a send before it, any but the first of a run after lost events) ends no earlier than its previous send starts: the test the code leaves out, read off the recorded pairings |
| P2pAlignment.CausalPairsAreGuarded | src/analysis/cp_alternatives.py:220-229 | recorded pairs that are causal pass that test |
| P2pAlignment.LateMoveIsOffered | src/analysis/cp_alternatives.py:220-226 | a channel whose recorded pair was already late is offered an alternative whose send starts after its receive ends |
| P2pAlignment.Builder.Alt | src/analysis/cp_alternatives.py:169-171 | a new alternative, numbered after the candidates and earlier alternatives |
| LaunchGroups.Join | src/analysis/cp_alternatives.py:305-306 | one union joins exactly the classes of two submissions of one launch |
| LaunchForest.Forest.Find | src/analysis/cp_alternatives.py:299-303 | terminates, returns the representative and changes no class, path halving and insertion included |
| LaunchForest.Forest.Union | src/analysis/cp_alternatives.py:304-306 | the two classes become one, no other changes |
| LaunchForest.Halve | src/analysis/cp_alternatives.py:301 | skipping to the grandparent keeps every representative |
| LaunchForest.Hang | src/analysis/cp_alternatives.py:306 | hanging one root under another makes exactly their classes one |
| LaunchGroups.Classes | src/analysis/cp_alternatives.py:297-306 | every other submission of a launch ends in the class of its own, and submissions of one class are linked through launches |
| LaunchGroups.Group | src/analysis/cp_alternatives.py:296-309 | each launch in doubt is in exactly one group, no two groups share a submission, used or candidate, and within a group a chain of launches, neighbours sharing a submission, leads from each to each |
| LaunchGroups.GroupOptions | src/analysis/cp_alternatives.py:319-327 | exactly the recorded choice, the moves to unused candidates and the trades between two members |
| LaunchGroups.Units | src/analysis/cp_alternatives.py:296-331 | the groups and for each exactly the options offered |
| LaunchGroups.OptionUsesOnce | src/analysis/cp_alternatives.py:317-327 | if each submission launches at most one operation as recorded, so it does under any option |
| LaunchGroups.OptionReaches | src/analysis/cp_alternatives.py:320-327 | an option only uses submissions its launches can come from and leaves other groups alone |
| LaunchGroups.WorldUsesOnce | src/analysis/cp_alternatives.py:355-367 | any simultaneous choice of one option per group still uses each submission at most once |
| Replay.Residuals | src/analysis/cp_attribution.py:58-73 | what each event took after its latest enabled predecessor, never below 0, -1 without one |
| Replay.Run | src/analysis/cp_attribution.py:76-100 | each event at its latest predecessor's arrival plus its residual, and the latest of all as the end; what that means per event, edge and factor is Replay.EventTime |
| Replay.LatestRecordedMeans | src/analysis/cp_attribution.py:64-70 | the latest arrival is at most a time exactly when every enabled arrival is; there is none exactly without enabled edges |
| Replay.EventTime | src/analysis/cp_attribution.py:48-100 | in every replay an event with predecessors happens no earlier than any enabled edge lets it and exactly when one of them does, plus its residual: busy time times its span's factor, gaps and unknown time as recorded, anything else 0; an event with residual -1 keeps its time |
| Replay.EndMeans | src/analysis/cp_attribution.py:97-99 | the end is the latest event of the run, or 0 |
| Replay.ResidualMeans | src/analysis/cp_attribution.py:59-73 | a residual is -1 exactly without an enabled predecessor, else what is left over after the latest of them, 0 at least |
| Replay.ChainMoves | src/analysis/cp_attribution.py:76-100 | along busy edges that alone decide when their ends happen, two replays differ at every event by the busy time times the difference of the factors, added up, on top of what the start differs by |
| Replay.ReplayReproduces | src/analysis/cp_attribution.py:76-100 | with nothing scaled every event replays at its recorded time if and only if every enabled edge fits between its ends |
| Replay.ToleratedEdgeMovesEvents | src/analysis/cp_attribution.py:72 | two busy spans, the second depending on the first's end, which lies after its start: the unscaled replay differs from the recording |
| Replay.ReplayMonotone | src/analysis/cp_attribution.py:48-100 | pointwise smaller factors make no event and not the end of the run later |
| LaneWalk.LanePred | src/analysis/cp_attribution.py:135-142 | the first enabled lane edge of the row, none exactly when no edge of it qualifies |
| LaneWalk.GatesMean | src/analysis/cp_attribution.py:145-148 | the sources of a gated call are exactly the enabled dependencies in the row of its end |
| LaneWalk.SourcesMean | src/analysis/cp_attribution.py:145-148 | a call waits for exactly the enabled dependencies into its end |
| LaneWalk.JointMeans | src/analysis/cp_attribution.py:151-167 | the joint sources are those within joint_ns of the latest or whose order the clocks cannot tell; the latest is one of them |
| LaneWalk.LatestFirst | src/analysis/cp_attribution.py:155 | of several latest sources the first is taken, as max() does |
| LaneWalk.Joint | src/analysis/cp_attribution.py:151-167 | the loop returns exactly them, in order, and at least one |
| LaneWalk.Walk | src/analysis/cp_attribution.py:185-200 | the pieces of the lane in the window and whether the walk ran out of steps |
| LaneWalk.PiecesTile | src/analysis/cp_attribution.py:185-201 | on a lane that runs forward the pieces overlap the window in exactly the time from where the walk ended to the event |
| BlameJournal.WindowAddsUp | src/analysis/cp_attribution.py:177-238 | a share charged to a window is charged in full and no more, no part negative, through pieces, partial waits, joint releases and any depth of passing on |
| BlameJournal.PieceAddsUp | src/analysis/cp_attribution.py:205-238 | each piece's part is charged in full |
| BlameJournal.JointAddsUp | src/analysis/cp_attribution.py:229-232 | equal shares to joint sources make the whole |
| BlameJournal.BlameAddsUp | src/analysis/cp_attribution.py:240-257 | over all gated calls the charges are exactly all their waiting |
| BlameDue.InstantsOf | src/analysis/cp_attribution.py:205-238 | of a stretch of a lane the instants of busy time are its owner's, idle, unknown and untraced instants their cause's, and those of a gated call the call's from its release on: none before it, all when it was released no later than the stretch began |
| BlameDue.WindowDue | src/analysis/cp_attribution.py:177-238 | what the journal of a window charges to any one account is what its instants earn it at share over covered per nanosecond, and what comes back of the waiting passed on, to each source released together with the latest as much, for the time up to its own release |
| BlameDue.PieceDue | src/analysis/cp_attribution.py:205-238 | the same of one stretch |
| BlameDue.PendingIs | src/analysis/cp_attribution.py:246-250 | the instants of a call at which some source was still to come are its waiting time |
| BlameDue.JournalIsDue | src/analysis/cp_attribution.py:240-261 | over all gated calls every account is charged exactly its due |
| Blame.PostTotal | src/analysis/cp_attribution.py:171-175 | posting a journal raises the total of by_span and other by what the journal charges, and leaves no negative account |
| Blame.Blame.Charge | src/analysis/cp_attribution.py:177-204 | terminates, the accounts end up with exactly the journal of the window posted, and every account is raised by its due |
| Blame.Blame.ChargePieces | src/analysis/cp_attribution.py:205-209 | each piece gets the share in proportion to its overlap |
| Blame.Blame.ChargeWait | src/analysis/cp_attribution.py:210-232 | every account is raised by its due for the stretch, at so much per nanosecond: the call itself for the instants from its own release on, those that released it for the instants before |
| Blame.Blame.ChargeJoint | src/analysis/cp_attribution.py:231-232 | each joint source's lane gets an equal share, up to its own release |
| Blame.Blame.ChargeSpan | src/analysis/cp_attribution.py:241-257 | one more call settled: waiting, wait record, joint-release count and charges |
| Blame.Blame.Run | src/analysis/cp_attribution.py:240-261 | all calls settled; by_span plus other equals waiting_ns, nothing is negative, and every account, passed_on and truncated included, ends up with exactly its due |
| BlameWaits.WaitsMean | src/analysis/cp_attribution.py:240-255 | exactly the calls that waited have a record each, in span order: from their start, as long as some source had not come, until then, and the calls whose events released them |
| KernelProbe.SomeEmpty | hooks/rocm_hook/rocprof_trace.c:130 | a table with fewer names than slots has an empty slot |
| KernelProbe.Probe | hooks/rocm_hook/rocprof_trace.c:117-121 | terminates, at the first slot from the id's home that is empty or holds the id |
| KernelProbe.ProbeFinds | hooks/rocm_hook/rocprof_trace.c:117-121 | it ends at the id's entry if the table has one |
| KernelProbe.StoreReachable | hooks/rocm_hook/rocprof_trace.c:140-143 | storing where the probe ended keeps every entry reachable from its home |
| KernelNames.StoreSets | hooks/rocm_hook/rocprof_trace.c:140-143 | storing sets that id's name and nothing else |
| KernelNames.Store | hooks/rocm_hook/rocprof_trace.c:140-143 | the count rises exactly when the id was not there |
| KernelNames.Rehash | hooks/rocm_hook/rocprof_trace.c:131-138 | a larger table with the same names: no id lost, none twice |
| KernelNames.KernelTable.Put | hooks/rocm_hook/rocprof_trace.c:123-145 | the map gets the trimmed name, unless there is no name or an allocation failed, when it stays as it was; half the table stays empty |
| KernelNames.KernelTable.Get | hooks/rocm_hook/rocprof_trace.c:148-158 | the stored name, or kernel_ and the id in decimal, cut to the buffer |
| KernelNames.KernelTable.PutAll | hooks/rocm_hook/rocprof_trace.c:123-145 | any sequence of puts, some without a name and some failing to allocate, leaves exactly the names and the capacity of the fold over those that took effect |
| KernelNames.LastPutWins | hooks/rocm_hook/rocprof_trace.c:123-145 | in that fold an id has the name of the last put for it that took effect, without its .kd, and none if there was no such put |
| KernelNames.AnswerAfter | hooks/rocm_hook/rocprof_trace.c:123-158 | a lookup in the table after any sequence of puts answers that name, or kernel_ and the id if no put for it took effect |
| KernelNames.CapacityMeans | hooks/rocm_hook/rocprof_trace.c:130-139 | after any sequence of puts there are no slots exactly when there is no name; else a power of two times 1024 of them, at least twice the names, and beyond 1024 at most four times the names |
| KernelNames.TrimMeans | hooks/rocm_hook/rocprof_trace.c:126 | a name that is some base followed by .kd is stored as that base, every other name as it is |
| KernelNames.DecimalReads | hooks/rocm_hook/rocprof_trace.c:156 | the digits printed for an id denote it, without leading zeros |
| KernelNames.PrintedFits | hooks/rocm_hook/rocprof_trace.c:153-156 | what is printed is a prefix that leaves room for the terminator: all of it if it fits, else as much as does |
| NcclOwnership.ReleaseKeeps | hooks/nccl_hook/nccl_hook.c:221-227 | giving a pin back restores the account, and destroys the reference exactly when nothing pins it and it is not current |
| NcclOwnership.PopKeeps | hooks/nccl_hook/nccl_hook.c:258-281 | the oldest operation's two events exist, are distinct and are destroyed once; its pin is what is left to give back |
| NcclOwnership.PushKeeps | hooks/nccl_hook/nccl_hook.c:324-340 | a timing hands its events and its pin to the queue |
| NcclOwnership.BeginKeeps | hooks/nccl_hook/nccl_hook.c:304-313 | a timing starts by pinning the current reference |
| NcclOwnership.RenewKeeps | hooks/nccl_hook/nccl_hook.c:245-252 | a new reference takes a free slot and becomes current; the old one goes if nothing pins it |
| NcclOwnership.EndKeeps | hooks/nccl_hook/nccl_hook.c:373-379 | a timing that ends leaves exactly its pin to give back |
| NcclTiming.AsyncTiming.constructor | hooks/nccl_hook/nccl_hook.c:207-219 | no reference, no operation, nothing pinned |
| NcclTiming.AsyncTiming.RefRelease | hooks/nccl_hook/nccl_hook.c:221-227 | restores the account of pins and events |
| NcclTiming.AsyncTiming.RefCurrent | hooks/nccl_hook/nccl_hook.c:231-253 | renewed if and only if it is old or missing, a slot is free and the stream and event can be had: in the first free slot, with the midpoint time; else nothing changes |
| NcclTiming.AsyncTiming.AsyncPop | hooks/nccl_hook/nccl_hook.c:258-281 | the oldest leaves if and only if complete or waited for, and its span is emitted exactly if complete, timed and measured from a reference, else it counts as lost |
| NcclTiming.AsyncTiming.PopCompleted | hooks/nccl_hook/nccl_hook.c:308 | completed operations leave oldest first, up to the first that is not; a span is emitted for each with a reference and usable times, in order, and every other is counted lost |
| NcclTiming.AsyncTiming.DrainAll | hooks/nccl_hook/nccl_hook.c:283-287 | the queue is emptied; of the operations in it those complete, timed and with a reference are emitted in order, the others counted lost |
| NcclTiming.AsyncTiming.AsyncRefAcquire | hooks/nccl_hook/nccl_hook.c:304-313 | completed operations leave, their spans emitted or counted lost, then the reference renewed if it is due and can be is pinned |
| NcclTiming.AsyncTiming.AsyncPush | hooks/nccl_hook/nccl_hook.c:324-340 | the operation is queued last, the oldest making room when HP_NCCL_ASYNC_CAP are queued and its span emitted or counted lost; without memory the operation itself is given up and counted |
| NcclTiming.AsyncTiming.OpBegin | hooks/nccl_hook/nccl_hook.c:355-371 | which mode and events a timing gets, which reference it pins and what is emitted and lost meanwhile; grouped and synchronous calls pin nothing and change nothing else |
| NcclTiming.AsyncTiming.OpDestroy | hooks/nccl_hook/nccl_hook.c:373-379 | its events and its pin are given up exactly once |
| NcclTiming.AsyncTiming.OpEnd | hooks/nccl_hook/nccl_hook.c:381-415 | an asynchronous timing whose end was recorded goes to the queue, every other gives up what it holds and emits and loses no queued operation |
| NcclTiming.QueuedIsMeasurable | hooks/nccl_hook/nccl_hook.c:260-266 | the events and the reference of a queued operation exist |
| CallForest.ResolvedParent | src/analysis/span_links.py:59-74 | the span found carries the child's parent id in its process; among several it is of the child's family, or an annotation when no such span is |
| CallParents.ResolveMeans | src/analysis/span_links.py:59-74 | a span is found if and only if it is the only carrier of the id, or the only one of the child's family (with none of that family, the only annotation), or of several such the one that started last no later than the child, the first on ties |
| CallForest.TemporalContained | src/analysis/call_tree.py:66-80 | a child placed by time lies within its parent and after it |
| CallForest.TopIsLastRunning | src/analysis/call_tree.py:71-80 | with ended spans popped, the stack's top is the last span still running |
| CallForest.BuildRaw | src/analysis/call_tree.py:41-81 | the lists of children and roots are those of the parents specified; CallParents.ForestLinks and CallParents.ForestRoots say which those are |
| CallParents.ForestLinks | src/analysis/call_tree.py:41-81 | the children of a node are, in start order, the spans it is the parent of that come after it, then in start order those without such a parent of which it is the last running and lasts at least as long |
| CallParents.ForestRoots | src/analysis/call_tree.py:41-81 | the roots are, in start order, the spans with neither |
| CallForest.OneNodePerSpan | src/analysis/call_tree.py:44-52 | roots and child lists together hold every span exactly once |
| CallForest.LinksForward | src/analysis/call_tree.py:46-52 | a child comes after its parent in start order, so the result is a forest |
| CallAggregate.GroupedByKey | src/analysis/call_tree.py:86-88 | one group per name and category, of exactly the nodes that have it, in order |
| CallAggregate.SortedByTotal | src/analysis/call_tree.py:114-116 | siblings by falling total, none lost |
| CallAggregate.AggregateSum | src/analysis/call_tree.py:84-116 | terminates; counts and times of the tree below a list of nodes are those of the nodes and all below them |
| CallAggregate.TreeHoldsEverySpan | src/analysis/call_tree.py:41-116 | the aggregated tree of a thread counts every span once and holds exactly the spans' time |
| CallKeys.NodePerKey | src/analysis/call_tree.py:84-116 | at every level there is one node for each name and category that occurs and none else; it counts and times exactly the spans that have them, its own time is what its children leave of it, at least 0, and its children are the tree of all their children |
| CallSelfTimes.SelfTimesCoverRoots | src/analysis/call_tree.py:97-109 | self times add up to at least the time of the roots, and to exactly that if and only if no node of the tree has children that together outlast it |
| IntervalUnion.MergeIntervals | src/analysis/cct.py:372-386 | the total never exceeds the length of the union, and is that length if and only if every inverted interval starts inside, or at the end of, one that starts before it; so always when none is inverted |
| IntervalUnion.Merge | src/analysis/cct.py:376-386 | over sorted intervals the loop yields the length of the union less what unsheltered inverted intervals take away |
| IntervalUnion.CoveredIsLength | src/analysis/cct.py:373 | adding to each interval only what lies past all ends before it counts every instant of the union once |
| IntervalUnion.InvertedGoesWrong | src/analysis/cct.py:372-386 | the one interval [5, 3) holds nothing and has no shelter, so its total is not the length of the union |
| CallSelfFits.SelfTimesExactIffFits | src/analysis/call_tree.py:86-116 | they add up to exactly that if and only if, on the forest of spans before any tree is built, no group of one name and category has children that together outlast it |
| CallSelfFits.TemporalDisjoint | src/analysis/call_tree.py:69-80 | two children that one node has by time do not overlap |
| CallSelfFits.TemporalChildrenFit | src/analysis/call_tree.py:66-80 | so the children by time of a node never outlast it |
| CallSelfFits.TemporalSelfTimes | src/analysis/call_tree.py:97-109 | without explicit parents and with non-negative durations the self times are exactly the time of the roots |
| CallSelfFits.FloorActs | src/analysis/call_tree.py:97-109 | two concurrent tasks of 8 ns that name a run of 10 ns as their parent: the self times add up to more than the 10 ns of the root |
| StackPaths.TimeSplits | src/analysis/call_tree.py:163-177 | the time through a node is that of the samples ending there plus that through its children |
| StackTrees.StackTree.Add | src/analysis/call_tree.py:157-177 | one more sample, walked from the roots |
| StackTrees.StackTree.Build | src/analysis/call_tree.py:155-177 | every node's total is the time of the samples through its path, its count those that end there, its children each once |
| StackTrees.FloorNeverActs | src/analysis/call_tree.py:128-138 | with non-negative durations, a node's total less its children's totals is its own leaf time, so max(0, ...) never acts |
| StackTrees.ContextTree.Add | src/analysis/cct.py:118-144 | one more sample: path grown, leaf credited, ancestors climbed |
| StackTrees.ContextTree.Build | src/analysis/cct.py:106-146 | self times per path are those of the samples ending there, inclusive times those through the path |
| StackTrees.TotalsAreInclusive | src/analysis/cct.py:126-144 | both trees have the same nodes below the root, and a node's total in one is its inclusive time in the other |
| StackTrees.InclusiveIsSubtree | src/analysis/cct.py:139-144 | an inclusive time is the self time plus the children's inclusive times |
| StackTrees.SubtreeSelfTimes | src/analysis/cct.py:126-144 | an inclusive time is the sum of the self times of its subtree, in whatever order the nodes are visited |
| StackTrees.ExclusiveTotal | src/analysis/cct.py:168-172 | total_exclusive_ns is the time of the samples not named "[root]"; it is the root's inclusive time if and only if the samples of that name take 0 together |
| StackTrees.NoTimeNamedRoot | src/analysis/cct.py:168-172 | with non-negative durations, if and only if none of them takes any time |
| StackTrees.RootNameLosesTime | src/analysis/cct.py:168-172 | one sample of 5 ns named "[root]": the total is 0, the root's inclusive time 5 |

## Left out

- Floating point: sums, quotients and comparisons are exact; rounding in `replay`, `blame`, `pav` and the scores is not modelled.
- The rest of cp_clock.py: `domain_of`, `node_bounds_of`, report rows and labels; bounds are non-negative, as `domain_of` makes them, and there is at least one domain.
- log_loss, ece, evaluation and storage of calibrations: single sums and file formats. The Brier score is summed, not averaged.
- `node_score` and `_neighbourhood`: the score of two nodes is an input of NodeMatching, node ids are unique within a run.
- The order of rows in the result of `match_nodes` is not stated; its content is.
- Ring positions wrap at 2^64 in the source; here they are unbounded. `& mask` is the remainder by the power-of-two capacity.
- Weak memory: RingProtocol allows arbitrarily old views of the other index, but publication follows the copies, and the transport steps interleave.
- The wire: partial sends, reconnects and timeouts. A reconnect sends a whole buffer again, so nothing is claimed about what arrives at the collector.
- Real time: the bounded wait, the kick and the drain thread's sleep may end at any moment; status records, fork and the forked child's fresh state are not steps. A failed exec is.
- The transport assumes drain_mu is obtained and the batch buffer exists; a shutdown that gives up after two seconds is a run in which no such pass ends.
- A thread that emits again after its thread-local destructor ran is a new thread of the model.
- heapq in the sweep is a list sorted by the heap's own order: only its least element and its members are observable there.
- `bucket_of_span`, `is_device_timed` and `is_sampled`: their answers are fields of a span. Spans are identified by position instead of by object identity.
- `_last_arriver`, `generate` and the evaluation of worlds; `touches` sets and the memo of launch alternatives. Which sends and receives form a channel is an input, the sends sorted by start as the code sorts them.
- `_world_edges` itself: a world is stated as what each launch uses under a choice of options, not as a mask over candidates.
- EventGraph carries only what cp_attribution.py reads, with the index ranges it relies on; how cp_model.py builds it is not part of this model. `Replay.Run` takes a topological and complete order.
- `Blame.by_category`, `top` and the reports; the clocks' uncertainty between two domains is a table.
- Minima, maxima, category sets and call counts of the calling-context tree, and its queries other than sums.
- The trees of StackTrees are maps from paths to numbers updated in place; that nodes are linked objects, and could be aliased, is not captured. Categories and the sorting of `to_ctnode` are left out, samples are those with a stack.
- CallForest takes spans in start order (the stable sort is given) and numbers them; `_ct_build`'s grouping of threads is left out.
- NCCL: each locked section is one atomic step; span text, tags, thread ids and the group bookkeeping are left out. The clock of a reference is an input.
- The kernel table's mutex makes put and get atomic; memory is not freed in the model, so a name overwritten is forgotten rather than freed.
- `_attribute_to_origins`, explanations, dashboards, advice and rendering: they round or format.
- The API wrappers of the hooks, record decoding, unwinding, eBPF and file I/O: mostly foreign calls.
