# Benchmarkable, modelled in Dafny

Benchmarkable is a small C# micro-benchmarking library. A `Benchmark` collects callables, each
with a label (`Add`). `Run` measures them in registration order and returns a `BenchmarkResults`.

For each callable, `RunAction` does two things:

1. It calibrates a batch size (`CalculateBatchSize`): the callable is invoked, and a counter
   incremented, until a stopwatch reaches `InitialBatchTime`.
2. It times batch after batch. After every batch, `CalculateRunStatistics` takes a snapshot:
   - the mean and population variance of the last `BatchesToWorkAcross` batch timings;
   - a Student's-t critical value indexed by the window size;
   - the relative error of the mean, in percent;
   - operations per second.

   The loop stops when the time ceiling `MaxTime` has passed (that snapshot is flagged). It also
   stops when the error is at most `MinimumErrorToAccept` and at least three batches were timed.

`BenchmarkResults` is indexable. Its `Print` ranks every result against the fastest one.

This project is a model of that core:

- `faults.dfy`: the ways an operation can fail (the library's exceptions), `Outcome`/`Option`
  wrappers, and C#'s 32-bit `int` with the wrap-around of `++`.
- `settings.dfy`: `BenchmarkSettings`, with its defaults, its setters and the guarded
  `BatchesToWorkAcross` setter.
- `realfacts.dfy`: small facts about exact real arithmetic that the other proofs use.
- `statistics.dfy`: `CalculateRunStatistics` and the quantities it computes.
- `calibration.dfy`: `CalculateBatchSize`.
- `measurement.dfy`: the measuring loop of `RunAction`. It has two forms: a state machine over
  the batches (`Converge`) and the loop as the engine writes it (`MeasuringLoop`). The proofs
  show the two agree.
- `results.dfy`: `BenchmarkResults`, its indexer and `Length`, and the table `Print` builds.
- `registration.dfy`: `Add`, default labels, and `Run`.

Clocks are inputs. Calibration sees the stopwatch's elapsed-millisecond readings, one per test of
the loop guard. Each timed batch is an `Observation`: its stopwatch ticks and the wall-clock
milliseconds since the loop began. Running a callable is not modelled; only its timings are.

All arithmetic is exact. The engine compares `error = max(sqrt(variance) / sqrt(n) * t / mean *
100, 0)` with the threshold. The model compares the square of that error instead, so no square
root is needed. `RelativeErrorSquared` and `AcceptsIffErrorWithin` prove that this gives the
same decision.

## Model

| member | source | states |
|---|---|---|
| Int32.Wrap | Benchmarkable/Benchmark.cs:215 | the result of 32-bit `int` arithmetic (here the counter after `count++`) is the 32-bit value congruent to the true result, and equals it while it fits |
| Int32.WrapSucc | Benchmarkable/Benchmark.cs:215 | incrementing a wrapped counter and then wrapping gives the wrapped successor of the count, so the counter stays in step with the number of iterations |
| BenchmarkSettings.Default | Benchmarkable/BenchmarkSettings.cs:13-48 | a fresh configuration has a calibration budget of 500 ms, an accepted error of 1.0 percent, a window of 10 batches, a ceiling of 5000 ms and no progress output |
| BenchmarkSettings.SetInitialBatchTime | Benchmarkable/BenchmarkSettings.cs:13 | setting the calibration budget changes that property and leaves every other setting as it was |
| BenchmarkSettings.SetMinimumErrorToAccept | Benchmarkable/BenchmarkSettings.cs:18 | setting the accepted error changes only that property |
| BenchmarkSettings.SetMaxTime | Benchmarkable/BenchmarkSettings.cs:43 | setting the time ceiling changes only that property |
| BenchmarkSettings.SetVerbose | Benchmarkable/BenchmarkSettings.cs:48 | setting progress output changes only that property |
| BenchmarkSettings.SetBatchesToWorkAcross | Benchmarkable/BenchmarkSettings.cs:24-38 | the setter as written refuses a window exactly when it exceeds the t-table length, and otherwise changes only the window |
| BenchmarkSettings.SetBatchesToWorkAcrossChecked | Benchmarkable/BenchmarkSettings.cs:32-36 | the corrected setter accepts exactly the windows from 1 to one less than the table length, and every window it accepts fits the table |
| BenchmarkSettings.GuardAdmitsUnusableWindows | Benchmarkable/BenchmarkSettings.cs:32 | the guard as written lets through a window that does not fit the table exactly when it equals the table length or is below 1 |
| RunStatistics.Window | Benchmarkable/Benchmark.cs:177 | the window is a suffix of the history. `Count() - BatchesToWorkAcross` is 32-bit: when it does not overflow, the window is the last min(w, count) timings and empty when w is not positive; for a non-empty history it is empty exactly when w is not positive and the subtraction does not overflow; when it overflows (w near the int minimum) the skip wraps negative and the whole history is kept |
| RunStatistics.Mean | Benchmarkable/Benchmark.cs:181 | the mean of a non-empty window of positive timings is at least one tick |
| RunStatistics.MeanWithinRange | Benchmarkable/Benchmark.cs:181 | the mean lies between any lower and upper bound of the window's timings |
| RunStatistics.SumSquaredDeviationsZero | Benchmarkable/Benchmark.cs:182 | the squared deviations from m sum to zero exactly when every timing equals m |
| RunStatistics.Variance | Benchmarkable/Benchmark.cs:182 | the average squared deviation of a non-empty window from its mean is never negative |
| RunStatistics.VarianceZeroIffConstant | Benchmarkable/Benchmark.cs:182 | the population variance is never negative, and it is zero exactly when every timing in the window equals the mean |
| RunStatistics.Milliseconds | Benchmarkable/Benchmark.cs:185 | a batch of a positive number of ticks takes a positive number of milliseconds, and milliseconds times the tick frequency is the ticks times 1000 |
| RunStatistics.OperationsPerSecond | Benchmarkable/Benchmark.cs:185-187 | operations per second times the batch's milliseconds is the batch size times 1000; it is positive for a positive batch size, zero for an empty batch and negative for a negative one |
| RunStatistics.ErrorSquared | Benchmarkable/Benchmark.cs:190-191 | the squared relative error is never negative |
| RunStatistics.RelativeErrorSquared | Benchmarkable/Benchmark.cs:183-191 | for the true standard deviation and root of the window length, the clamped error max(sd / sqrt(n) * t / mean * 100, 0) is non-negative and squares to ErrorSquared |
| RunStatistics.AcceptsIffErrorWithin | Benchmarkable/Benchmark.cs:127 | testing the squared error against the squared threshold accepts exactly when the error itself is at most the threshold |
| RunStatistics.CalculateRunStatistics | Benchmarkable/Benchmark.cs:174-203 | fails exactly when the window is empty (w <= 0 and count - w does not overflow 32 bits, fault EmptyWindow) or the critical-value index min(w, count) is outside the t-table (fault CriticalValueOutOfRange); for a history shorter than 2^31 this is w <= 0 or min(w, count) >= table length. Otherwise the snapshot's ticks are the last batch's, its critical value is the table entry at min(w, count), its mean and variance are those of its window (the last min(w, count) timings when count - w does not overflow), its squared error is ErrorSquared of those, and its operations per second come from the last batch |
| RunStatistics.Snapshot | Benchmarkable/Benchmark.cs:181-202 | the snapshot of a window records its mean, variance, length, critical value and last ticks, unflagged; its squared error is ErrorSquared of its variance, length, critical value and mean, and its operations per second those of the batch |
| RunStatistics.OlderBatchesIgnored | Benchmarkable/Benchmark.cs:176-177 | once at least w >= 1 batches were timed (and fewer than 2^31, as a `List` holds), the statistics depend only on the last w timings |
| RunStatistics.FittingWindowSucceeds | Benchmarkable/Benchmark.cs:177-190 | with a window from 1 to one less than the table length, the statistics of every non-empty history succeed |
| RunStatistics.AdmittedWindowFails | Benchmarkable/BenchmarkSettings.cs:32-36 | the setter as written accepts a window equal to the table length, or below 1; for any history shorter than 2^31 (and, for the table length, at least that long) the statistics then fail: empty window when the value is below 1 and count - value does not overflow, otherwise critical value out of range |
| RunStatistics.AdmittedWindowFailsExample | Benchmarkable/BenchmarkSettings.cs:32 | a concrete case: a three-entry table, a window of 3 accepted by the setter, and three batches give a critical value out of range |
| RunStatistics.CheckedWindowNeverFails | Benchmarkable/Benchmark.cs:189-190 | under the corrected setter the statistics succeed for every non-empty history, with a window of min(w, count) whenever count - w does not overflow |
| BatchCalibration.Iterations | Benchmarkable/Benchmark.cs:212-216 | the loop body runs as many times as there are readings before the first one that reaches the budget; if no reading does, the loop never ends within the trace |
| BatchCalibration.Calibrate | Benchmarkable/Benchmark.cs:208-224 | calibration fails only when no reading reaches the budget. It always hands back the budget unchanged, and with a budget of 0 or less the first reading ends it with a batch size of 0 |
| BatchCalibration.CalculateBatchSize | Benchmarkable/Benchmark.cs:208-224 | the counting loop returns the wrapped count of readings below the budget that precede the first reading reaching it, which agrees with Calibrate |
| Measurement.Step | Benchmarkable/Benchmark.cs:141-152 | one batch appends its ticks and a snapshot of the new history. The time ceiling is checked first: past it, the snapshot is flagged and the loop times out. Otherwise the loop converges exactly when the error is accepted and at least three batches were timed |
| Measurement.Converge | Benchmarkable/Benchmark.cs:127-154 | the loop ends stopped or at the end of the trace, fails only with the statistics' faults, and never fails when the window fits the table |
| Measurement.ConvergeKeepsRecord | Benchmarkable/Benchmark.cs:127-154 | the state the loop reaches from a recorded state is recorded: ticks follow the trace, every snapshot is the statistics of its prefix, only the final batch stops the loop, and only a timed-out final snapshot is flagged |
| Measurement.RecordIsDetermined | Benchmarkable/Benchmark.cs:127-154 | two finished recorded states for the same trace are equal: the declarative description allows one outcome |
| Measurement.ConvergeReachesTheRecord | Benchmarkable/Benchmark.cs:127-154 | when the window fits the table, any finished recorded state is the one the loop reaches from the start |
| Measurement.Measure | Benchmarkable/Benchmark.cs:112-166 | a measurement keeps the callable's label and the budget as batch time, has between one run and one run per batch, and uses the calibrated batch size. Failed calibration gives TraceExhausted; with a fitting window that is the only fault. When calibration succeeded and a batch was timed, a window that is not positive fails the first batch: with an empty window, or, when 1 - w overflows, with the critical value out of range |
| Measurement.MeasureIsFaithful | Benchmarkable/Benchmark.cs:127-154 | run i of a measurement is the statistics of the first i + 1 batches; no batch before the last stopped the loop; the last is flagged exactly when it passed the ceiling, and otherwise its error was accepted |
| Measurement.MeasureRuns | Benchmarkable/Benchmark.cs:121-154 | the runs of a successful loop number between one and the batch count; with a fitting window the only failure is running out of trace; a window that is not positive fails the first batch with the fault of FirstBatchFault |
| Measurement.MeasureRunsAreFaithful | Benchmarkable/Benchmark.cs:141-154 | the runs a stopped loop reports are the snapshots of successive prefixes, and only the last one ends the loop |
| Measurement.EmptyWindowFailsFirstBatch | Benchmarkable/Benchmark.cs:177-190 | with a window of 0 or less the first batch already fails: it averages an empty window, or, for the two windows where 1 - w overflows 32 bits, it keeps its one timing and indexes the t-table at a negative position |
| Measurement.RunAction | Benchmarkable/Benchmark.cs:112-166 | calibration followed by the measuring loop gives exactly the measurement Measure describes |
| Measurement.MeasuringLoop | Benchmarkable/Benchmark.cs:121-154 | the loop as the engine writes it (time a batch, take its statistics, flag it and break past the ceiling, keep going while the error is too large or at most two batches were timed) computes exactly the runs, or the fault, of the state machine |
| BenchmarkResults.At | Benchmarkable/BenchmarkResults.cs:16-22 | the indexer succeeds exactly for indices from 0 to the number of results - 1 and returns the result registered at that position; any other index gives ResultIndexOutOfRange |
| BenchmarkResults.Length | Benchmarkable/BenchmarkResults.cs:24 | the length is exactly the number of indices the indexer accepts |
| BenchmarkResults.Fastest | Benchmarkable/BenchmarkResults.cs:29 | ordering by speed and taking the last picks a maximal speed, and among equal maxima the last one |
| BenchmarkResults.Rows | Benchmarkable/BenchmarkResults.cs:29-44 | there is one row per result, in result order, with its label, run count, final operations per second and error, and a slowdown equal to the fastest result's speed divided by its own |
| BenchmarkResults.LongestName | Benchmarkable/BenchmarkResults.cs:46 | the label width bounds every label and is 0 with no results |
| BenchmarkResults.LongestNameIsAttained | Benchmarkable/BenchmarkResults.cs:46 | the label width is the length of some label |
| BenchmarkResults.ZeroSlowdownRow | Benchmarkable/BenchmarkResults.cs:47 | the highlighted row as written is the last row whose slowdown is exactly zero, or row 0 when there is none |
| BenchmarkResults.Print | Benchmarkable/BenchmarkResults.cs:27-51 | the table fails exactly when there are no results. Its rows compare each result with the fastest, its label width is the longest label, and its highlighted row is computed as written |
| BenchmarkResults.HighlightIsAlwaysFirstRow | Benchmarkable/BenchmarkResults.cs:37-47 | with non-negative speeds no slowdown is zero, so the row highlighted as written is always row 0 |
| BenchmarkResults.HighlightMissesTheFastest | Benchmarkable/BenchmarkResults.cs:29-47 | with speeds 1 and 2 the highlight falls on row 0 while the fastest result is row 1 |
| BenchmarkResults.BaselineRowIsFastest | Benchmarkable/BenchmarkResults.cs:29-37 | the corrected highlight, the fastest row, has slowdown exactly 1. With positive speeds every slowdown is at least 1, and above 1 for a strictly slower result |
| BenchmarkResults.SlowdownAtLeastOne | Benchmarkable/BenchmarkResults.cs:37 | dividing the fastest speed by a positive speed no larger than it gives at least 1, and more than 1 when it is smaller |
| Registration.DecimalString | Benchmarkable/Benchmark.cs:109 | a count is rendered as decimal digits without leading zeros |
| Registration.DecimalRoundTrip | Benchmarkable/Benchmark.cs:109 | reading the rendered digits back gives the count |
| Registration.DefaultNameNumbers | Benchmarkable/Benchmark.cs:109 | a default label is "Test " followed by digits that denote the callable's position |
| Registration.Add | Benchmarkable/Benchmark.cs:105-110 | adding appends exactly one entry and keeps the earlier ones. The new entry holds the callable, with the given label or else "Test n", where n is its 1-based position |
| Registration.UnlabelledAreNumbered | Benchmarkable/Benchmark.cs:105-110 | callables added without labels to an empty benchmark are labelled "Test 1", "Test 2", and so on, in order |
| Registration.Outcomes | Benchmarkable/Benchmark.cs:50 | entry i is measured on its own trace, one outcome per entry in registration order |
| Registration.Collect | Benchmarkable/Benchmark.cs:50-51 | collecting in order yields one value per outcome when none fails |
| Registration.FailureIsFinal | Benchmarkable/Benchmark.cs:50-51 | once a measurement fails, later ones cannot change the outcome: the first failure aborts the run |
| Registration.CollectAt | Benchmarkable/Benchmark.cs:50-51 | a successful collection holds, at each position, that position's own value |
| Registration.CollectFailsAt | Benchmarkable/Benchmark.cs:50-51 | a failed collection failed at some position after a successful prefix, with that position's fault |
| Registration.Run | Benchmarkable/Benchmark.cs:43-52 | running with no callables fails. Otherwise the results, or the fault, are those of measuring every entry in order, and a successful run has one result per entry, each with at least one run |
| Registration.MeasuredAt | Benchmarkable/Benchmark.cs:50-51 | result i of a successful run is the measurement of entry i |
| Registration.MeasuredAreFinal | Benchmarkable/Benchmark.cs:50-51 | every result of a successful run holds at least one run and carries its entry's label |
| Registration.MeasuredFailsAt | Benchmarkable/Benchmark.cs:50-51 | a failed run failed at some entry: every earlier entry measured successfully, and that entry's measurement gave the fault |

## Left out

- Running the callable, garbage collection (`GC.Collect`) and the stopwatch are not modelled. Only their readings are, and they are given as inputs.
- `TraceExhausted` is not a fault of the library. The engine keeps reading its clocks for as long as it takes; the model has finite traces and reports running out of one.
- Floating point: `double` is exact `real` here. Rounding, infinities and NaN are not modelled. A batch always takes at least one tick, because zero ticks would divide by zero in `msSpentOnRun`. A slowdown against a speed of 0 is `NotFinite` instead of an IEEE infinity or NaN.
- Square roots are not taken. The model keeps the variance and the squared relative error (see RelativeErrorSquared).
- The contents of `TDistribution.Values` (the t-table) and `Stopwatch.Frequency` are parameters (`Platform`). `TDistribution` is not part of this model.
- The `Result` and `Run` classes are not part of this model. A result's operations per second and error are taken to be those of its last run.
- `Write`/`Verbose` console output, `PrintOutput`, `SencibleDouble` number formatting and console colours are not modelled. A `Row` keeps the values that are printed; `Table.fastestRow` is the row that would be coloured.
- The static, shared `Benchmark.Settings` instance and aliasing between benchmarks are not modelled: settings are immutable values passed to `Run`.
- `Benchmark.Just`, `This`, `These`, `ThisClause`, `JustClause` and `Examples/Program.cs` are thin conveniences over `Add` and `Run`, outside the core.
- A setter with no guard cannot fail in C#. The model's unguarded setters are plain record updates.
- BenchmarkResults.Print: requires every result to hold at least one run. Registration.Run guarantees this, and the engine never builds results any other way.
- Measurement.Measure: its contract states the shape of a measurement only. What each run contains is stated separately by MeasureIsFaithful.
- Measurement.Step: the engine tests the time ceiling before its loop guard, so a batch past the ceiling is flagged and ends the loop as timed out even when its error was acceptable.
- No fault guards a calibrated batch size of 0: such a batch gives 0 operations per second.
- BenchmarkResults.LongestName: the label width counts the characters of a label. `Label.Length` counts UTF-16 code units, so a label outside the Basic Multilingual Plane is one wider in C# than here.
- History lengths: `List<long>.Count` is a 32-bit `int`, so no history reaches 2^31 batches. RunStatistics.OlderBatchesIgnored and RunStatistics.AdmittedWindowFails take that bound as a precondition; the other contracts hold for any length.
- RunStatistics.Variance: its contract states only that it is never negative. That it divides by the window length, not one less, is seen in its definition and is not stated separately.

## Findings

| source | as written | input that shows it | evidently intended | confidence | as-written member | corrected member |
|---|---|---|---|---|---|---|
| Benchmarkable/BenchmarkResults.cs:47 | the highlighted row is the one whose slowdown `fastest / ops` is exactly 0.0 | two results with speeds 1 and 2: no slowdown is 0, so row 0 (the slower) is highlighted | highlight the fastest result, whose slowdown is 1 | not executed | BenchmarkResults.HighlightMissesTheFastest | BenchmarkResults.BaselineRowIsFastest |
| Benchmarkable/BenchmarkSettings.cs:32 | `BatchesToWorkAcross` is refused only when `value > TDistribution.Values.Length` | a table of 3 entries and value 3: accepted, then the third batch indexes the table at 3 (out of range); value 0 is accepted and the first batch averages an empty window | accept only 1 <= value < table length | not executed | RunStatistics.AdmittedWindowFailsExample | RunStatistics.CheckedWindowNeverFails |
