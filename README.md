# Traffic signal control: comparison arithmetic and runtime bookkeeping

This project models, in Dafny, the two self-contained logical parts of a
traffic simulator that compares a reinforcement-learning signal controller
(the "ML agent") with a fixed-timing one (the "static controller").

* **The analysis arithmetic** (`Analysis/analyze_stats.py`, `Analysis/new.py`).
  Result tables are columns of optional reals; a missing entry (pandas
  `NaN`/`NA`) is `None`. The model covers:
  - per-metric statistics over the present values (mean, median, min, max);
  - the improvement percentage, with its sign flip for `TotalVehicles`;
  - the zero-guarded first-half variant;
  - the "which side is better" tally and the overall verdict;
  - the dashboard means and the in-place row normalisation of the heatmap matrix;
  - the safe-divide throughput ratio, its mean and the final improvement fraction.
* **The Unity bookkeeping**:
  - the per-intersection vehicle registry (`IntersectionDataCalculator`), a
    class whose leg maps and counters its methods update;
  - the exit trigger that overwrites the registry's cleared counter;
  - the static controller's logging schedule and episode counter;
  - the ML agent's cyclic next-phase index, clamped-interpolation green time,
    observation buffer size, interval logging and episode counter.

  The engine clock `Time.time` and engine readings are method parameters. The
  rows handed to the CSV loggers are kept as sequence fields.

Modules: `Wrappers` (Option), `ColumnStats`, `Tables`, `Comparison`
(analyze_stats.py), `ThroughputRatio` (new.py), `IntersectionData`,
`ExitTrigger`, `StaticSignal`, `MlAgent`.

Behaviours of the scripts worth noting:
- The first-half charts show an improvement of 0 when the static mean is 0 (`Comparison.HalfImprovement`); they do not show an undefined value.
- The statistical comparison has no zero guard. A zero static mean there makes pandas print an infinite or NaN improvement; the model gives no value there (`Comparison.Improvement`).
- `new.py` fails with a type error when the ML average is missing but the static one is usable (`ThroughputRatio.ThroughputImprovement`). It does not degrade gracefully.
- Swapping the two controllers does not negate the improvement, because the divisor changes (`Comparison.RoleSwapIsNotNegation`).

## Model

| member | source | states |
|---|---|---|
| ColumnStats.DropMissing | Analysis/analyze_stats.py:247-248 | `dropna` keeps exactly the present values, each as often as it occurs (multiset equality), and never lengthens the column |
| ColumnStats.DropMissingAppend | Analysis/analyze_stats.py:247-248 | dropping missing values commutes with concatenation, so the kept values stay in their original order |
| ColumnStats.DropMissingSingle | Analysis/analyze_stats.py:247-248 | a single present value is kept and a single missing one dropped |
| ColumnStats.DropMissingEmpty | Analysis/analyze_stats.py:247-248 | nothing is left after dropping missing values iff every entry was missing |
| ColumnStats.Min | Analysis/analyze_stats.py:255 | the minimum is one of the values and at most every value |
| ColumnStats.Max | Analysis/analyze_stats.py:256 | the maximum is one of the values and at least every value |
| ColumnStats.InsertPermutes | Analysis/analyze_stats.py:254 | inserting a value into the order statistics adds exactly that value |
| ColumnStats.InsertSorted | Analysis/analyze_stats.py:254 | inserting into sorted order statistics keeps them sorted |
| ColumnStats.SortAscending | Analysis/analyze_stats.py:254 | the order the median is read from is sorted and a permutation of the values |
| ColumnStats.MeanOf | Analysis/analyze_stats.py:252 | a column mean is absent (NaN) iff every entry is missing |
| ColumnStats.Describe | Analysis/analyze_stats.py:247-265 | the statistics exist iff some value is present; the count is the number of present values; the mean agrees with the column mean |
| ColumnStats.MeanBetweenMinAndMax | Analysis/analyze_stats.py:252-256 | for a non-empty column, min ≤ mean ≤ max |
| ColumnStats.Median | Analysis/analyze_stats.py:254 | the interpolated median lies between the minimum and the maximum, including the even-length average of the two middle values; for an odd count it is one of the values |
| ColumnStats.SummaryIsOrdered | Analysis/analyze_stats.py:251-265 | every computed summary has min ≤ median ≤ max and min ≤ mean ≤ max |
| Tables.FirstHalf | Analysis/analyze_stats.py:121-122 | the first-half window keeps every column and exactly the first `len // 2` rows of each |
| Comparison.RawImprovement | Analysis/analyze_stats.py:268 | the percentage exists iff both means exist and the static mean is non-zero, and then improvement × static = 100 × (static − ml) |
| Comparison.Improvement | Analysis/analyze_stats.py:268-272 | the same formula with the sign reversed for `TotalVehicles` and for no other metric |
| Comparison.RoleSwapIsNotNegation | Analysis/analyze_stats.py:268 | swapping the controllers' means gives 50 one way and −100 the other, so the improvement is not antisymmetric |
| Comparison.ImprovementLabelMeaning | Analysis/analyze_stats.py:268-286 | with a positive static mean, the "ML better" label is printed iff ml < static, or ml > static for `TotalVehicles` |
| Comparison.ImprovementLabel | Analysis/analyze_stats.py:286 | the printed "(ML better)" / "(Static better)" label of an improvement; what it means for the two means is stated by `Comparison.ImprovementLabelMeaning` |
| Comparison.SignFlippedOnlyForTotalVehicles | Analysis/analyze_stats.py:270-272 | every metric other than `TotalVehicles` gets the same percentage as `VehiclesWaiting`; `TotalVehicles` gets exactly its negation, and negating back recovers it |
| Comparison.CompareMetric | Analysis/analyze_stats.py:246-281 | one result row: its metric, the two statistics equal to `Describe` of the two columns (so absent exactly when a column has no value, and ordered by `SummaryIsOrdered`), and the improvement of the two means |
| Comparison.PresentMetrics | Analysis/analyze_stats.py:241-246 | a metric is compared iff it is listed and present in both tables |
| Comparison.PresentComparisonMetrics | Analysis/analyze_stats.py:241-246 | the compared metrics are `TotalVehicles` then `VehiclesWaiting`, each only if both tables have it |
| Comparison.SummaryRowsFollowMetrics | Analysis/analyze_stats.py:243-281 | one row per present metric in list order, absent metrics skipped rather than zero-filled |
| Comparison.StatisticalComparison | Analysis/analyze_stats.py:241-281 | the appending loop yields exactly the rows of the present metrics in order |
| Comparison.HalfImprovement | Analysis/analyze_stats.py:138-140 | a zero static mean gives 0; any other static mean gives the unguarded percentage |
| Comparison.FirstHalfComparison | Analysis/analyze_stats.py:117-140 | not drawn iff a table lacks the metric; a KeyError iff both have it but a table lacks `SimulationTime`; otherwise the box shows the means of the first halves and their guarded improvement |
| Comparison.Better | Analysis/analyze_stats.py:321-325 | equal means (and a missing mean) count for Static; ML needs both means present |
| Comparison.LabelAgreesWithTally | Analysis/analyze_stats.py:321-325 | with a positive static mean, the printed label and the tally name the same side |
| Comparison.TallyCoversPresentMetrics | Analysis/analyze_stats.py:316-330 | ML wins plus Static wins equals the number of metrics present in both tables |
| Comparison.OverallVerdict | Analysis/analyze_stats.py:336-341 | ML if its count is larger, Static if smaller, comparable iff equal |
| Comparison.PerformanceReport | Analysis/analyze_stats.py:311-341 | the counting loop yields the two tallies, their sum is the number of present metrics, and the verdict follows them |
| Comparison.DashboardMeans | Analysis/analyze_stats.py:373-374 | an absent column contributes 0; a present one contributes `MeanOf` that column, which is absent iff all of it is missing |
| Comparison.HeatmapRows | Analysis/analyze_stats.py:419-427 | one row `[ml mean, static mean]` per metric present in both tables |
| Comparison.PyMax | Analysis/analyze_stats.py:433 | Python's `max`: a leading NaN sticks; otherwise the result is a present entry at least every present entry |
| Comparison.NormalizedRow | Analysis/analyze_stats.py:433-435 | with a positive maximum every entry is divided by it; otherwise the row is unchanged |
| Comparison.NormalizedRowPeaksAtOne | Analysis/analyze_stats.py:432-435 | a row with a positive maximum ends with an entry exactly 1 and every entry at most 1 |
| Comparison.NormalizeRows | Analysis/analyze_stats.py:432-435 | the in-place loop leaves every row normalised and no row otherwise changed |
| ThroughputRatio.FirstPresentIndex | Analysis/new.py:15-19 | the first-match search returns the lowest index of a present column, none iff no candidate is present |
| ThroughputRatio.DenominatorColumn | Analysis/new.py:11-19 | `GreenLightTime` if present, otherwise `PhaseGreenTime` if present, otherwise none |
| ThroughputRatio.SafeDivide | Analysis/new.py:3-6 | a quotient exists iff both operands do and the divisor is non-zero, and then quotient × divisor = dividend |
| ThroughputRatio.RatioColumn | Analysis/new.py:3-6 | one entry per row, present iff both operands are present and the divisor is non-zero, and then entry × divisor = dividend |
| ThroughputRatio.ThroughputColumn | Analysis/new.py:20-23 | no ratio column iff no time column or no `VehiclesWaiting`; otherwise row i is `SafeDivide` of row i of `VehiclesWaiting` by row i of the chosen time column |
| ThroughputRatio.AverageThroughput | Analysis/new.py:20-26 | None iff the columns are missing; NaN iff every ratio is missing; otherwise the skip-missing mean (`MeanOf`) of the ratio column |
| ThroughputRatio.AverageWithinDefinedRatios | Analysis/new.py:23-24 | the average lies between the smallest and the largest defined ratio |
| ThroughputRatio.ExampleSkipsZeroDenominator | Analysis/new.py:23-24 | [10, 20, 30] over [5, 0, 10] averages 2.5 |
| ThroughputRatio.ExampleMean | Analysis/new.py:24 | the skip-missing mean of [2, missing, 3] is 2.5 |
| ThroughputRatio.ThroughputImprovement | Analysis/new.py:31 | N/A iff the static average is None or 0; a type error iff the static average is usable and the ML one is None; a number iff both averages are numbers and the static one is non-zero, and then improvement × static = static − ml; NaN iff an average is NaN and neither earlier outcome applies |
| ThroughputRatio.ThroughputImprovementSign | Analysis/new.py:31 | with a positive static average the improvement is positive iff ml < static, with no higher-is-better flip |
| ThroughputRatio.AgreesWithReportConvention | Analysis/new.py:31 | the fraction is the `VehiclesWaiting` percentage of the statistical comparison divided by 100, and the negated `TotalVehicles` one |
| IntersectionData.EntryCountAfterAdd | Assets/_Scripts/RuntimeData/IntersectionDataCalculator.cs:65-68 | adding a new vehicle to one leg adds one entry in total |
| IntersectionData.EntryCountAfterRemove | Assets/_Scripts/RuntimeData/IntersectionDataCalculator.cs:78-81 | removing a vehicle from one leg removes one entry in total |
| IntersectionData.FirstLegHolding | Assets/_Scripts/RuntimeData/IntersectionDataCalculator.cs:75-76 | the lowest-index leg holding the vehicle, none iff no leg holds it |
| IntersectionData.RoundToInt | Assets/_Scripts/RuntimeData/IntersectionDataCalculator.cs:79 | the nearest integer, a tie going to the even one |
| IntersectionData.AfterExitKeepsWaitingCount | Assets/_Scripts/RuntimeData/IntersectionDataCalculator.cs:75-91 | an exit keeps waiting = number of map entries, the number of legs and the total count |
| IntersectionData.AfterExit | Assets/_Scripts/RuntimeData/IntersectionDataCalculator.cs:74-92 | a vehicle in no leg changes nothing; otherwise the waiting count drops by one, and the number of legs and the total count stay the same |
| IntersectionData.AfterExitTouchesOneLeg | Assets/_Scripts/RuntimeData/IntersectionDataCalculator.cs:75-88 | an exit removes the vehicle from the first leg holding it and leaves every other leg alone |
| IntersectionData.IntersectionDataCalculator.Valid | Assets/_Scripts/RuntimeData/IntersectionDataCalculator.cs:17-18 | the kept invariant implies 0 ≤ waiting ≤ total |
| IntersectionData.IntersectionDataCalculator.EmptyLegsHaveNoEntries | Assets/_Scripts/RuntimeData/IntersectionDataCalculator.cs:39-41 | legs that are all empty hold no entries |
| IntersectionData.IntersectionDataCalculator.constructor | Assets/_Scripts/RuntimeData/IntersectionDataCalculator.cs:36-42 | `Awake` creates exactly `numberOfLegs` empty leg maps, all counters 0 |
| IntersectionData.IntersectionDataCalculator.VehicleEntered | Assets/_Scripts/RuntimeData/IntersectionDataCalculator.cs:59-72 | a new vehicle is mapped to its wait time and both counters grow by one; a bad leg index or a vehicle already there throws and changes nothing |
| IntersectionData.IntersectionDataCalculator.VehicleExited | Assets/_Scripts/RuntimeData/IntersectionDataCalculator.cs:74-92 | removes the vehicle from the first leg holding it, decrements waiting and increments cleared; a vehicle in no leg changes nothing |
| IntersectionData.IntersectionDataCalculator.GetVehiclesCleared | Assets/_Scripts/RuntimeData/IntersectionDataCalculator.cs:94-96 | returns the cleared counter |
| IntersectionData.IntersectionDataCalculator.SetVehiclesCleared | Assets/_Scripts/RuntimeData/IntersectionDataCalculator.cs:98-100 | sets the cleared counter and nothing else |
| ExitTrigger.OnVehicleExitTrigger.constructor | Assets/_Scripts/OnVehicleExitTrigger.cs:12-19 | the count starts at 0 and the trigger holds its registry |
| ExitTrigger.OnVehicleExitTrigger.OnTriggerExit | Assets/_Scripts/OnVehicleExitTrigger.cs:20-29 | an untagged collider changes nothing; a tagged one performs one exit, adds one to the count, and the cleared counter becomes the count even when no leg held the vehicle |
| StaticSignal.Throughput | Assets/_Scripts/SignalTimingAlgo/StaticSignalController.cs:161-164 | vehicles per elapsed second, 0 when no time has elapsed, never negative for a non-negative count |
| StaticSignal.StaticSignalController.CalculateThroughput | Assets/_Scripts/SignalTimingAlgo/StaticSignalController.cs:161-164 | the registry's total over the episode's elapsed time (throughput × elapsed = total), 0 when no episode time has elapsed |
| StaticSignal.EpisodeStepCount | Assets/_Scripts/SignalTimingAlgo/StaticSignalController.cs:84-96 | one step adds an episode exactly when the new step number is a multiple of 30 |
| StaticSignal.StaticSignalController.constructor | Assets/_Scripts/SignalTimingAlgo/StaticSignalController.cs:9-25 | the field initialisers: counter 0, last interval time 0, no loggers, no rows |
| StaticSignal.StaticSignalController.Start | Assets/_Scripts/SignalTimingAlgo/StaticSignalController.cs:27-42 | loggers and the logging loop exist iff logging is enabled; the first episode is number 1 |
| StaticSignal.StaticSignalController.StartEpisode | Assets/_Scripts/SignalTimingAlgo/StaticSignalController.cs:68-77 | the counter grows by one, the episode clock restarts and the last interval time returns to 0 |
| StaticSignal.StaticSignalController.LogMetricsStep | Assets/_Scripts/SignalTimingAlgo/StaticSignalController.cs:79-98 | the step counter grows by one; an interval row iff current ≥ last + interval, after which last = current; an episode row on each 30th step, then the next episode |
| StaticSignal.IntervalSchedule | Assets/_Scripts/SignalTimingAlgo/StaticSignalController.cs:87-92 | at most one interval row per clock reading, and the last-log time is the start value or one of the readings |
| StaticSignal.StaticSignalController.RunLogMetrics | Assets/_Scripts/SignalTimingAlgo/StaticSignalController.cs:79-98 | after n iterations, one episode row per multiple of 30 passed and exactly as many interval rows as `IntervalSchedule` finds due, earlier rows kept |
| StaticSignal.StaticSignalController.LogIntervalData | Assets/_Scripts/SignalTimingAlgo/StaticSignalController.cs:101-119 | appends the interval row when the logger exists |
| StaticSignal.StaticSignalController.LogEpisodeData | Assets/_Scripts/SignalTimingAlgo/StaticSignalController.cs:121-139 | logs the current episode number, then increments it and restarts the episode clock |
| StaticSignal.StaticSignalController.SetLoggingInterval | Assets/_Scripts/SignalTimingAlgo/StaticSignalController.cs:167-170 | changes the logging interval and nothing else |
| MlAgent.TruncatedRemainder | Assets/_Scripts/SignalTimingAlgo/TrafficSignalMlAgent.cs:145 | C#'s `%`: the remainder takes the dividend's sign |
| MlAgent.NextPhaseIndex | Assets/_Scripts/SignalTimingAlgo/TrafficSignalMlAgent.cs:145 | no index for an empty phase array; otherwise in [0, n) for a current index ≥ −1, the successor, wrapping from the last phase to 0 |
| MlAgent.ObservationSize | Assets/_Scripts/SignalTimingAlgo/TrafficSignalMlAgent.cs:60 | OFSET plus the product of the three per-leg factors: just OFSET when any factor is 0, and at least OFSET when none is negative |
| MlAgent.AdvancePhase | Assets/_Scripts/SignalTimingAlgo/TrafficSignalMlAgent.cs:145 | repeated steps stay within the phase array |
| MlAgent.AdvancePhaseIsModularShift | Assets/_Scripts/SignalTimingAlgo/TrafficSignalMlAgent.cs:145 | k steps from phase i lead to phase (i + k) mod n |
| MlAgent.ReachesPhase | Assets/_Scripts/SignalTimingAlgo/TrafficSignalMlAgent.cs:145 | every phase is reached from every other within one cycle |
| MlAgent.PhaseCycle | Assets/_Scripts/SignalTimingAlgo/TrafficSignalMlAgent.cs:145 | n steps return to the starting phase, and every phase is visited on the way |
| MlAgent.Clamp01 | Assets/_Scripts/SignalTimingAlgo/TrafficSignalMlAgent.cs:147 | `Mathf.Lerp`'s parameter lies in [0, 1] and is kept when already there |
| MlAgent.Lerp | Assets/_Scripts/SignalTimingAlgo/TrafficSignalMlAgent.cs:147 | the clamped interpolation stays between its ends and reaches each end at the extremes |
| MlAgent.LerpMonotone | Assets/_Scripts/SignalTimingAlgo/TrafficSignalMlAgent.cs:147 | it is non-decreasing in the parameter for increasing ends |
| MlAgent.GreenTime | Assets/_Scripts/SignalTimingAlgo/TrafficSignalMlAgent.cs:147 | action −1 gives floor(g − min offset); action 1 gives floor(g + max offset); with non-crossing offsets the value lies between the two |
| MlAgent.GreenTimeMonotone | Assets/_Scripts/SignalTimingAlgo/TrafficSignalMlAgent.cs:147 | with min offset + max offset ≥ 0 a larger action never gives a shorter green time |
| MlAgent.ChangeToNextPhaseWithTimeInterpolate | Assets/_Scripts/SignalTimingAlgo/TrafficSignalMlAgent.cs:144-148 | the green time of the next phase; it raises iff the phase array is empty or the truncated remainder is negative; any result is the green time of some phase |
| MlAgent.TrafficSignalMlAgent.constructor | Assets/_Scripts/SignalTimingAlgo/TrafficSignalMlAgent.cs:32-43 | the field initialisers: no loggers yet, counter 0, last log time 0, no rows |
| MlAgent.TrafficSignalMlAgent.Initialize | Assets/_Scripts/SignalTimingAlgo/TrafficSignalMlAgent.cs:54-86 | the observation buffer has length OFSET + legs × vehicles per leg × observations per vehicle; a negative length raises after the phases are taken and before the loggers exist, leaving everything else unchanged; otherwise the loggers exist, both clocks start now and last log time is 0 |
| MlAgent.TrafficSignalMlAgent.OnEpisodeBegin | Assets/_Scripts/SignalTimingAlgo/TrafficSignalMlAgent.cs:89-96 | the episode counter grows by exactly one and the episode clock restarts |
| MlAgent.TrafficSignalMlAgent.LogIntervalData | Assets/_Scripts/SignalTimingAlgo/TrafficSignalMlAgent.cs:99-123 | fires iff current ≥ last + interval; then last = current even when no row is written for want of intersection data; a row due before the loggers exist raises and changes nothing |
| MlAgent.TrafficSignalMlAgent.SetLoggingInterval | Assets/_Scripts/SignalTimingAlgo/TrafficSignalMlAgent.cs:132-135 | changes the logging interval and nothing else |
| MlAgent.TrafficSignalMlAgent.GenerateAction | Assets/_Scripts/SignalTimingAlgo/TrafficSignalMlAgent.cs:157-190 | raises with nothing changed when a row is due and no logger exists; otherwise logs the episode row when intersection data exists, begins the next episode, and returns (−1, new green time) and keeps it, or raises on a failing next-phase lookup |
| MlAgent.TrafficSignalMlAgent.OnActionReceived | Assets/_Scripts/SignalTimingAlgo/TrafficSignalMlAgent.cs:199-203 | keeps the first continuous action |

## Left out

- Standard deviation (`std`, ddof=1) and the `np.polyfit` reward trend: library floating-point numerics. The summary rows carry no standard deviation.
- Plotting, styling, chart files and console output: presentation only. This covers the chart-only `compare_episode_performance` and `compare_interval_data` and the printed report text. The printed labels and verdicts are modelled as values.
- CSV reading and writing: `load_data`, `read_csv`, `to_csv`, `CsvLogger.LogRow`/`SaveToFile`, `StoreData.Write*`. Tables are in-memory columns, and logged rows are sequence fields.
- IEEE float behaviour: numbers are exact reals. NaN, NA and ±inf appear only as missing values, and last-place rounding is not modelled.
- Comparison.Improvement: a zero static mean in the unguarded statistical comparison gives ±inf or NaN in pandas; the model gives no value.
- 32-bit integer overflow of the C# counters and of the observation-buffer size product (`MlAgent.ObservationSize`): integers are unbounded.
- The `Tick` throughput coroutine, `WaitForSeconds` and frame scheduling: engine plumbing. The static controller's loop is a method per iteration plus a method over a sequence of clock readings.
- ML-Agents calls: `AddReward`, `RequestDecision`, `Academy.EnvironmentStep`, `CollectObservations` and the sensors are foreign library calls. `EndEpisode` is modelled only by its call of `OnEpisodeBegin`. An action the library delivers during the environment step is modelled as a separate `OnActionReceived` call before `GenerateAction`.
- Fuel: the `GameManager` fuel total and the static controller's reset of a commented-out fuel field are not modelled.
- A missing (null) vehicle component or registry: vehicles are identities, and the registry of an exit trigger always exists.
- `Assets/_Scripts/UI/SimulationStatsUI.cs`: UI text and a frame throttle, not part of this model.
- StaticSignal.StaticSignalController.RunLogMetrics: the phase, its green time and the registry are fixed for the whole run, so the model gives the schedule of the rows, not readings that change between iterations.
- StaticSignal.StaticSignalController.LogMetricsStep: the phase index and green time are parameters because the traffic-light setup is not part of this model. A phase index outside the phase array, which raises there, is not modelled.
