# Verification of the real-time ML platform's stateful cores

Dafny models of the parts of the platform that keep state, retry, poll, cache or slice data, with
proofs of what they promise over whole runs. Every model has the shape of its source: classes with
fields where the source updates objects, methods with loops where it loops, functions and datatypes
where it only computes. Each method is proved against a specification function, and the theorems
are about those functions over all inputs, runs and interleavings; for each operation some of them say,
without naming its specification function, what it computes.

| file | what it models |
|---|---|
| Series.dfy, Texts.dfy | sums, trailing windows, powers, square roots as non-negative roots; splitting texts at separators |
| Indicators.dfy, FeatureFunction.dfy | the stream operator: bounded windows per key against the full history |
| IndicatorMeaning.dfy, StreamOutputs.dfy | what each indicator is, and what every output of the operator holds after any run |
| SortedHistory.dfy, RedisSink.dfy | the online cache writer: latest value and trimmed sorted-set history |
| Tiling.dfy | the half-open window loop shared by the backfill job and the historical fetch |
| Frames.dfy, Transformers.dfy, Backfill.dfy, ChunkEquivalence.dfy, ChunkExactness.dfy, Trainer.dfy, ReadBack.dfy | the batch feature job, its chunked backfill, and the regression trainer's data preparation |
| FrameMeaning.dfy, JobColumns.dfy, JobRows.dfy | what each computed cell is of the raw rows, and which columns and rows the job writes |
| RestCursor.dfy, RestRecords.dfy, RestHistorical.dfy | the REST collector: cursor-filtered polling, historical fetch with retries, batched sends |
| Health.dfy, Producer.dfy | the WebSocket collector: delivery health and the batching Kafka producer |
| CacheKey.dfy, Cache.dfy, Gateway.dfy | the prediction gateway and its two-tier cache, as classes and as interleaved requests |
| Bloom.dfy, Validator.dfy | duplicate detection and the validation loop |
| Lakehouse.dfy | the branch, dbt, merge or delete protocol of the lakehouse DAG |
| Retraining.dfy, RetrainingChecks.dfy | the drift-triggered retraining job and its cooldown |
| Psi.dfy | the population stability index |

`dafny verify dfyconfig.toml` checks the whole project.

Conventions: doubles are ideal reals, except in cache keys where they are bit patterns; `sqrt` is any
function that gives a non-negative root, `ln` any strictly increasing function that is 0 at 1, and
other library functions are parameters. Times are integers (milliseconds or seconds as the source
has them). Environments (clocks, servers, failures) are step parameters, so a theorem over all step
lists holds for every behaviour of theirs.

## What the proofs show about the code

Where a promise holds only under a condition, the condition is proved exact or a concrete failing
input is given:

- Over a range longer than a chunk, a column comes out of the chunked backfill as out of one run
  exactly when it is trailing (`ChunkExactness.ChunkSafeExactly`), given windows that fit the seven-day
  look-back. Targets read later rows and `ewm` columns of a span above 1 all earlier ones. Row by row,
  `ChunkEquivalence.ChunkRowDiffersExactly` says when a chunk and one run differ. Chunk boundaries are
  inclusive on both sides, so a row on one is written twice; and since query bounds are cut to whole
  seconds, a start with a sub-second part loses rows just before each interior boundary
  (`ChunkEquivalence.ChunkedExactly`).
- The trainer's default exclusion list names no target column. A selected `target_*` column reads
  later rows (`Trainer.NoLookAheadExactly`), and the next-step target of the predicted value is the
  answer itself (`Trainer.LeakedAnswer`).
- `target_direction` compares a missing return with 0, so at the end of a frame it reads 0, not missing.
- The docstring of the backfill job says nothing of `chunk_days` being positive; the loop needs it
  (`Tiling.LoopEnds`), and the historical fetch needs a positive granularity.
- The REST cursor advances inside a response, so a newest-first response yields one record, and ids
  whose send failed are never sent again (`RestCursor.LostForGood`; nothing is lost exactly under the
  condition of `RestCursor.NothingLostExactly`), although the parser's comment promises only that
  re-polling makes no duplicates.
- With a slow period above the window size the trend triple is 0 after every event
  (`FeatureFunction.TrendIsMuteExactly`), since the operator compares the slow period with the trimmed list.
- A boundary row that chunked backfill copies becomes its own training answer
  (`ReadBack.BoundaryRowTargetsItself`).
- The first send attempt after an idle period longer than the staleness threshold makes the liveness
  probe fail at once.
- The stored history is the top 999 after every write exactly when no write re-scores a kept payload
  below one that was already cut (`RedisSink.HistoryIsTopK`).
- Records whose timestamps are not strings all get the key `symbol:0`, so only the first of a symbol
  is forwarded; a record out of bounds still marks its key as seen. If the JSON library's float
  reading does not read integers, integers escape the bounds (`Validator.WholeNumbersEscape`).
- A lost answer to the create-branch request makes every retry fail with a conflict, nothing hands
  the branch name on, and the rollback then deletes nothing: the branch stays for good. What a
  finished rollback leaves in general is `Lakehouse.RollbackExactly`.
- The retraining cooldown fails after a failed listing, with a TTL below the cooldown, and for symbols
  whose keys coincide; job names carry the creation second, which alone keeps jobs a second apart.

## Model

| member | source | states |
|---|---|---|
| `FeatureFunction.WindowsAreTails` | platform/services/processing/stream/src/main/java/pipeline/functions/FeatureFunction.java:119-133 | in every reachable state each stored list (primary, secondary, MACD line) is exactly the last windowSize accepted entries of its full history |
| `FeatureFunction.EmissionRefinesHistory` | platform/services/processing/stream/src/main/java/pipeline/functions/FeatureFunction.java:116-153 | after any run the emitted map has the keys of the full-history computation, equal values under every key but the exponential averages, and those differ by at most (1-k)^windowSize times the range of the history |
| `FeatureFunction.TrendRefinesHistory` | platform/services/processing/stream/src/main/java/pipeline/functions/FeatureFunction.java:173-194 | for every configuration with periods of at least 1, the emitted trend triple against the MACD line of the full, untruncated history: the convergence strays from its newest entry by at most the decayed ranges of the fast and slow averages (by the whole range once the slow period exceeds the window), the signal from its average by that and the decayed range of the line; the histogram is their difference |
| `FeatureFunction.TrendIsMuteExactly` | platform/services/processing/stream/src/main/java/pipeline/functions/FeatureFunction.java:177-193 | the emitted triple is zero after every run if and only if the slow period exceeds the window, the two periods are equal, or the window holds at most one value |
| `FeatureFunction.SignalTruncation` | platform/services/processing/stream/src/main/java/pipeline/functions/FeatureFunction.java:183-189 | against the line of convergences over stored windows the convergence is exact and the signal strays by at most the decayed range of that line |
| `FeatureFunction.ConvergenceTruncation` | platform/services/processing/stream/src/main/java/pipeline/functions/FeatureFunction.java:177-181 | one convergence over the stored window differs from the one over the full history by at most the decayed ranges of the fast and the slow average, or by the range once the slow period exceeds the window |
| `FeatureFunction.FeatureFunction.ProcessElement` | platform/services/processing/stream/src/main/java/pipeline/functions/FeatureFunction.java:94-162 | the in-place state update and the emission equal one step of the specification over which the run theorems are proved, including every early return |
| `FeatureFunction.FeatureFunction.ComputeTrend` | platform/services/processing/stream/src/main/java/pipeline/functions/FeatureFunction.java:173-194 | with fewer than two periods nothing changes; otherwise the MACD window is the trimmed tail with the new convergence and the triple is added |
| `FeatureFunction.Trim` | platform/services/processing/stream/src/main/java/pipeline/functions/FeatureFunction.java:211-216 | removing the excess from the front leaves exactly the trailing entries |
| `StreamOutputs.OutputExactly` | platform/services/processing/stream/src/main/java/pipeline/functions/FeatureFunction.java:94-162 | after any run an event gives an output if and only if it has a primary value, a symbol and a readable time; the output carries the event's time, and a refused event leaves the state alone |
| `StreamOutputs.OutputRefinesHistory` | platform/services/processing/stream/src/main/java/pipeline/functions/FeatureFunction.java:116-154 | the map of that output, after any run: the keys of the full-history map plus the trend triple when it is on, equal values under every key but the exponential averages, and those within the decayed range of the history that includes the event |
| `StreamOutputs.OutputTrendRefinesHistory` | platform/services/processing/stream/src/main/java/pipeline/functions/FeatureFunction.java:134-154 | the trend triple is in the output itself, within its slack of the untruncated MACD line and its average, the histogram being their difference |
| `StreamOutputs.OutputMeans` | platform/services/processing/stream/src/main/java/pipeline/functions/FeatureFunction.java:128-154 | which keys the output holds, and what each value is of the whole history: window sums, percent change, population deviation, bands two deviations apart, share of rises in all movement |
| `StreamOutputs.OutputAverages` | platform/services/processing/stream/src/main/java/pipeline/functions/FeatureFunction.java:128-154 | each exponential average in the output is the sum of the stored values under weights that decay by the smoothing factor, and the convergence the difference of two of them |
| `Indicators.EmaTruncation` | platform/services/processing/stream/src/main/java/pipeline/functions/Indicators.java:42-52 | the average over the stored window equals the full history's up to `window` events, and after that differs by at most (1-k)^window times (max - min) |
| `Indicators.EmaSplit` | platform/services/processing/stream/src/main/java/pipeline/functions/Indicators.java:42-52 | dropping a prefix moves the average by exactly (1-k)^kept times (average of the dropped part minus the new seed) |
| `Indicators.EmaWithin` | platform/services/processing/stream/src/main/java/pipeline/functions/Indicators.java:42-52 | an exponential average never leaves the range of its series |
| `Indicators.RollingMeanRefines` | platform/services/processing/stream/src/main/java/pipeline/functions/Indicators.java:26-35 | a mean read from the last `window` values equals the full history's on every history if and only if the period is at most `window` |
| `Indicators.MomentumRefines` | platform/services/processing/stream/src/main/java/pipeline/functions/Indicators.java:59-80 | the oscillator read from the stored window is the full history's on every history if and only if period + 1 values fit |
| `Indicators.BandsRefine` | platform/services/processing/stream/src/main/java/pipeline/functions/Indicators.java:88-101 | the bands read from the stored window are the full history's on every history if and only if the period fits |
| `Indicators.DispersionRefines` | platform/services/processing/stream/src/main/java/pipeline/functions/Indicators.java:108-120 | dispersion read from the stored window is the full history's on every history if and only if the period fits or is at most 1 |
| `Indicators.ValueChangeRefines` | platform/services/processing/stream/src/main/java/pipeline/functions/Indicators.java:127-137 | the percent change survives truncation on every history if and only if two values are stored |
| `Indicators.AllFeaturesRefine` | platform/services/processing/stream/src/main/java/pipeline/functions/Indicators.java:147-180 | the whole computed map over the stored windows against the full history: same keys, equal values, averages within the decayed range |
| `Indicators.BandsCoverThreeQuarters` | platform/services/processing/stream/src/main/java/pipeline/functions/Indicators.java:88-120 | Chebyshev: at most a quarter of the trailing window lies outside the bands, and their width is four times the dispersion at the same period |
| `Indicators.OutsidersCost` | platform/services/processing/stream/src/main/java/pipeline/functions/Indicators.java:92-100 | every value outside the bands contributes at least the squared half-width to the squared distances |
| `Indicators.MomentumRange` | platform/services/processing/stream/src/main/java/pipeline/functions/Indicators.java:59-80 | the oscillator stays in [0, 100] and, with enough values, is 100 exactly when no step fell |
| `Indicators.ComputeExpAvg` | platform/services/processing/stream/src/main/java/pipeline/functions/Indicators.java:42-52 | the seeded loop computes the recursive average of the specification |
| `Indicators.ComputeMomentum` | platform/services/processing/stream/src/main/java/pipeline/functions/Indicators.java:59-80 | the gain and loss loop computes the oscillator of the specification, with its neutral and all-gain cases and negative periods |
| `Indicators.ComputeDeviationBands` | platform/services/processing/stream/src/main/java/pipeline/functions/Indicators.java:88-101 | the two loops compute mean plus and minus two deviations, or the degenerate bands when values are too few |
| `Indicators.ComputeAll` | platform/services/processing/stream/src/main/java/pipeline/functions/Indicators.java:147-180 | the key-by-key filled map is the specified map: the last write under each key wins and no other key appears |
| `IndicatorMeaning.EmaIsWeighted` | platform/services/processing/stream/src/main/java/pipeline/functions/Indicators.java:42-52 | the recursive average is the sum of all values, value j of n weighted by k (1-k)^(n-1-j), the seed by (1-k)^(n-1) |
| `IndicatorMeaning.SmoothingIs` | platform/services/processing/stream/src/main/java/pipeline/functions/Indicators.java:46 | the smoothing factor times period + 1 is 2 |
| `IndicatorMeaning.MeanIs` | platform/services/processing/stream/src/main/java/pipeline/functions/Indicators.java:26-35 | a fitting mean times its period is the sum of the last values, any other is 0 |
| `IndicatorMeaning.DispersionIs` | platform/services/processing/stream/src/main/java/pipeline/functions/Indicators.java:108-120 | the squared dispersion times the period is the sum of squared distances from the mean, and it is zero if and only if the window is constant |
| `IndicatorMeaning.ValueChangeIs` | platform/services/processing/stream/src/main/java/pipeline/functions/Indicators.java:127-137 | the change times the earlier value is 100 times the difference, and 0 without an earlier non-zero value |
| `IndicatorMeaning.MomentumIs` | platform/services/processing/stream/src/main/java/pipeline/functions/Indicators.java:59-80 | the oscillator times all movement of the window is 100 times its rises; 100 when nothing fell, 50 with too few values |
| `IndicatorMeaning.GainsAndLosses` | platform/services/processing/stream/src/main/java/pipeline/functions/Indicators.java:63-72 | the gathered gains and losses are the sums of the rises and falls, and their difference is the whole move |
| `IndicatorMeaning.KeysAre` | platform/services/processing/stream/src/main/java/pipeline/functions/Indicators.java:147-180 | which keys the map of a non-empty series holds |
| `SortedHistory.IncrementalTopK` | platform/services/processing/stream/src/main/java/pipeline/sinks/RedisSink.java:118-122 | trimming, adding and trimming again gives the top k of everything, if and only if a kept member is not re-scored below one that was already cut |
| `SortedHistory.TrimIsTopK` | platform/services/processing/stream/src/main/java/pipeline/sinks/RedisSink.java:121 | removing ranks 0 to -(k+1) keeps exactly the k highest by (score, member) |
| `SortedHistory.StoredIsTopKExactly` | platform/services/processing/stream/src/main/java/pipeline/sinks/RedisSink.java:118-122 | over a whole run the store is the top k of everything written after every write if and only if no write re-scores a kept member below one that was already cut |
| `SortedHistory.StoredIsTopK` | platform/services/processing/stream/src/main/java/pipeline/sinks/RedisSink.java:118-122 | in particular after any series of writes in which no payload lowers its score |
| `SortedHistory.StoredBound` | platform/services/processing/stream/src/main/java/pipeline/sinks/RedisSink.java:118-122 | the store never holds more than k members, whatever was written |
| `SortedHistory.LoweringLosesAMember` | platform/services/processing/stream/src/main/java/pipeline/sinks/RedisSink.java:118-122 | a concrete re-scoring for which the trimmed store is not the top k |
| `RedisSink.RedisSinkWriter.Write` | platform/services/processing/stream/src/main/java/pipeline/sinks/RedisSink.java:89-127 | the new latest value and the new history of the record's symbol; a value that is no object or has no symbol changes nothing and is no error; only an unparseable one fails |
| `RedisSink.HistoryOfSymbol` | platform/services/processing/stream/src/main/java/pipeline/sinks/RedisSink.java:118-122 | each symbol's history is a function of that symbol's writes alone |
| `RedisSink.HistoryIsTopK` | platform/services/processing/stream/src/main/java/pipeline/sinks/RedisSink.java:118-122 | over any run every history has at most 999 members, and is the 999 highest of its symbol's writes after every write if and only if none re-scores a kept payload below one already cut |
| `SortedHistory.KeptOutscoresCut` | platform/services/processing/stream/src/main/java/pipeline/sinks/RedisSink.java:118-122 | every kept member scores higher than every cut one, or equally and comes later by name |
| `SortedHistory.WrittenIsLatest` | platform/services/processing/stream/src/main/java/pipeline/sinks/RedisSink.java:118-122 | a member stands at the score it was last written with |
| `RedisSink.PayloadIs` | platform/services/processing/stream/src/main/java/pipeline/sinks/RedisSink.java:107-116 | the stored map is the record without symbol and timestamp, every other field unchanged |
| `RedisSink.AddsAre` | platform/services/processing/stream/src/main/java/pipeline/sinks/RedisSink.java:118-122 | a history is fed exactly by its symbol's records with a numeric timestamp, each scored by it |
| `ChunkEquivalence.ChunkedEqualsWhole` | platform/services/processing/batch/jobs/backfill.py:52-68 | chunked backfill writes, as a multiset, the rows and values of one run over the range, a row on an interior chunk boundary twice and every other row once, nothing on an empty range, for trailing columns whose windows fit the look-back and a whole-second start |
| `ChunkEquivalence.ChunkedExactly` | platform/services/processing/batch/jobs/backfill.py:52-68 | the same for every start: a row in the sub-second gap before an interior boundary is lost, a row on a whole-second boundary is written twice, all others once |
| `ChunkEquivalence.CopiesExactly` | platform/services/processing/batch/jobs/backfill.py:57-68 | how many chunks hold an instant: none, one or two, with the exact condition |
| `ChunkEquivalence.BackfillCopies` | platform/services/processing/batch/jobs/backfill.py:57-68 | for any list of chunks inside a range, each row is written as often as chunks hold its time, times what one run over the range writes |
| `ChunkEquivalence.ChunkRowExactly` | platform/services/processing/batch/jobs/features.py:92-106 | with no condition on windows or targets: each cell of a row of the range is the whole table's when the loaded frame holds the rows it reads and missing otherwise, and the row is written if and only if the cells are then complete |
| `ChunkEquivalence.TrailingRowExactly` | platform/services/processing/batch/jobs/features.py:92-106 | for trailing columns: a chunk drops exactly the rows one of whose windows starts before the loaded frame, and writes the others as the whole table would have them |
| `ChunkEquivalence.ChunkRowDiffersExactly` | platform/services/processing/batch/jobs/backfill.py:52-68 | a chunk writes a row of its range as the one run does if and only if the one run drops it or the chunk's frame holds what every cell reads (cells that read as missing anyway aside); and when they differ, whether the chunk drops the row or writes a direction target of 0 |
| `ChunkEquivalence.TargetsEndWithTheChunk` | platform/services/processing/batch/jobs/features.py:161-166 | whatever else is written, ewm columns included: a row whose return or value target lies beyond the chunk's frame is dropped, and its direction target, if written, reads 0 |
| `ChunkExactness.ChunkSafeExactly` | platform/services/processing/batch/jobs/backfill.py:52-68 | over a range longer than a chunk, a column, lags of computed ones included, comes out of the chunked backfill as out of one run for every table whose windows fit the look-back if and only if it is trailing: no target ahead, no exponential weights of a span above 1, no lag that leaves either |
| `ChunkExactness.AgreesExactly` | platform/services/processing/batch/jobs/backfill.py:52-68 | for any set of fixed-window columns and any table without ties, the chunked backfill writes what one run does if and only if every chunk's frame holds what the run's rows in it read, cells that read as missing anyway aside |
| `ChunkExactness.TargetsDisagree` | platform/services/processing/batch/jobs/features.py:161-166 | for every column that reads ahead, lags of targets included, a table with a row that one run writes and no chunk does |
| `ChunkExactness.WeightsDisagree` | platform/services/processing/batch/transformers/technical.py:43-44 | for every span above 1 and every lag of it, a table with a row whose exponentially weighted cell no chunk computes |
| `Backfill.BackfillJob.Run` | platform/services/processing/batch/jobs/backfill.py:27-71 | the loop appends to the feature table the outputs of the tiling windows in order; a symbol that fails or a chunk that raises part-way stops no later one, and the chunks counted are those that did not raise |
| `Backfill.FeatureEngineeringJob.Run` | platform/services/processing/batch/jobs/features.py:62-86 | one pass over the symbols; a symbol that fails writes nothing and does not stop the others; an exception outside a symbol's handler ends the pass after the symbols already done |
| `Backfill.FeatureEngineeringJob.ProcessSymbol` | platform/services/processing/batch/jobs/features.py:88-112 | exactly the rows of the window whose written cells are all present are appended, computed on a frame loaded seven days earlier |
| `Backfill.FeatureEngineeringJob.LoadRawData` | platform/services/processing/batch/jobs/features.py:114-136 | the result is one contiguous cut of the symbol's rows, and holds exactly those between the bounds, both inclusive and cut to whole seconds |
| `Backfill.LoadedFrame` | platform/services/processing/batch/jobs/features.py:92-93 | for the look-back and the end of a window that cut is the frame over which the window's cells are computed |
| `Backfill.RowsToWrite` | platform/services/processing/batch/jobs/features.py:106-205 | the time filter and the missing-value filter restricted to the written columns |
| `Backfill.SelectIsSlice` | platform/services/processing/batch/jobs/features.py:121-128 | on a table sorted by time the range query is one contiguous cut |
| `JobRows.WrittenRowsAre` | platform/services/processing/batch/jobs/features.py:88-205 | a run writes exactly the raw rows of its window all of whose cells are present, each once and in order, every cell taken from the frame that starts seven days earlier, all bounds spelled out |
| `JobRows.SymbolsInOrder` | platform/services/processing/batch/jobs/features.py:82-86 | a run's output is the symbols' outputs one after the other, nothing for a symbol that fails |
| `JobRows.ChunksInOrder` | platform/services/processing/batch/jobs/backfill.py:52-71 | the backfill's output is its chunks' outputs one after the other, each over the symbols reached before the chunk raised |
| `JobColumns.ComputedColumnsAre` | platform/services/processing/batch/jobs/features.py:138-168 | which columns the finished frame holds, spelled out from the configuration: statistics per period, dispersion windows above 1, lags of columns present, returns, targets |
| `JobColumns.FrameHolds` | platform/services/processing/batch/jobs/features.py:138-168 | after the chain each of those holds its cells over the raw rows, and no other column is there |
| `JobColumns.WrittenColumnsAre` | platform/services/processing/batch/jobs/features.py:184-190 | a column is written if and only if the frame holds it and the destination declares it |
| `Tiling.WindowsTile` | platform/services/processing/batch/jobs/backfill.py:57-68 | the loop's windows start at the start, end at the end, follow each other without gap or overlap and are no longer than the step |
| `Tiling.EachInstantOnce` | platform/services/processing/batch/jobs/backfill.py:57-68 | every instant of the range lies in exactly one half-open window, any other in none |
| `Tiling.LoopEnds` | platform/services/processing/batch/jobs/backfill.py:57-68 | the loop reaches its end if and only if the step is positive or there was nothing to do |
| `Frames.NoLookAhead` | platform/services/processing/batch/transformers/temporal.py:79-150 | computed on any prefix of the rows a cell is the whole frame's as soon as the prefix holds the rows it reads ahead, none for every column but targets, and missing before |
| `Frames.CellOnCut` | platform/services/processing/batch/transformers/technical.py:38-126 | on any contiguous cut a finite-window cell equals the whole frame's when the cut holds the rows it reads and is missing otherwise |
| `Frames.TargetReadsTwoRows` | platform/services/processing/batch/transformers/temporal.py:118-150 | a target at row i is a function of the values at rows i and i + horizon alone |
| `Frames.EwmSurvivesExactly` | platform/services/processing/batch/transformers/technical.py:43-44 | exponentially weighted cells survive every cut of earlier rows, in every frame, if and only if the span is 1 |
| `Frames.EwmSurvivesCut` | platform/services/processing/batch/transformers/technical.py:43-44 | for one cut and one cell: it survives if and only if the span is 1 or the dropped rows' average happens to equal it |
| `Frames.EwmCut` | platform/services/processing/batch/transformers/technical.py:43-44 | cutting off leading rows removes exactly their decayed sums |
| `Transformers.ComputeTechnicalIndicators` | platform/services/processing/batch/transformers/technical.py:16-80 | the column loops give the frame with the specified columns, each a function of the raw rows |
| `Transformers.ComputeDispersionFeatures` | platform/services/processing/batch/transformers/technical.py:83-126 | likewise for the dispersion columns, with the fallback value column |
| `Transformers.ComputeLagFeatures` | platform/services/processing/batch/transformers/temporal.py:61-85 | lags of exactly the listed columns the frame holds, raw or computed, each read from the frame |
| `Transformers.ComputeReturnFeatures` | platform/services/processing/batch/transformers/temporal.py:88-115 | likewise for simple and log returns |
| `Transformers.ComputeTargetFeatures` | platform/services/processing/batch/transformers/temporal.py:118-150 | likewise for the three target columns of each horizon |
| `Transformers.ComputeAllFeatures` | platform/services/processing/batch/jobs/features.py:138-168 | the chain gives the raw frame with every configured column, lags of columns computed earlier included, each equal to that column computed from the raw rows directly |
| `FrameMeaning.RollingColumn` | platform/services/processing/batch/transformers/technical.py:38-57 | over w raw values rolling_min is one of them and at most each, rolling_max the dual; rolling_mean times w is their sum and lies between; rolling_std is the sample deviation (divisor w - 1), zero exactly when they are equal, missing for w = 1 |
| `FrameMeaning.RollingMissing` | platform/services/processing/batch/transformers/technical.py:38-78 | with fewer than w values every rolling statistic is missing |
| `FrameMeaning.RankColumn` | platform/services/processing/batch/transformers/technical.py:72-78 | pctrank times w is the number of values below the newest plus the average place among its ties, so it lies in (0, 1] and grows with the values below |
| `FrameMeaning.ZScoreColumn` | platform/services/processing/batch/transformers/technical.py:64-70 | the z-score times the sample deviation is value minus mean, with that sign; missing if and only if the window is constant |
| `FrameMeaning.RangeColumn` | platform/services/processing/batch/transformers/technical.py:119-124 | the range times the newest value is greatest minus least; on positive values non-negative and zero if and only if all are equal; missing at zero |
| `FrameMeaning.ReturnsStdColumn` | platform/services/processing/batch/transformers/technical.py:115-117 | dispersion is the sample deviation of the last w row-to-row changes |
| `FrameMeaning.EwmColumn` | platform/services/processing/batch/transformers/technical.py:43-44 | rolling_ema times the sum of the powers is the sum of all values so far, each times the power of how many rows back it is |
| `FrameMeaning.DecayIs` | platform/services/processing/batch/transformers/technical.py:43-44 | the base of those powers is 1 - 2 / (span + 1) |
| `FrameMeaning.ChangeColumn` | platform/services/processing/batch/transformers/temporal.py:106-113 | a simple change times the earlier value is the difference, a percent change 100 times that, a log return the logarithm of the quotient; what a zero or missing earlier value gives |
| `FrameMeaning.TargetColumn` | platform/services/processing/batch/transformers/temporal.py:136-148 | a target of row i is the later row's value, the change to it, and 1 exactly for a rise |
| `FrameMeaning.TargetMissing` | platform/services/processing/batch/transformers/temporal.py:136-148 | with nothing known ahead the value and the return are missing and the direction reads 0 |
| `FrameMeaning.LagColumn` | platform/services/processing/batch/transformers/temporal.py:79-83 | a lag is the cell of that many rows earlier, of a raw or a computed column |
| `Trainer.Trainer.PrepareRegressionData` | platform/services/trainer/src/trainer.py:74-92 | the split is the ordered split of the examples, in the feature columns of the settings |
| `Trainer.Trainer.CleanFeatures` | platform/services/trainer/src/trainer.py:66-72 | the fill, zero and infinity passes leave in every row the latest number of each chosen column up to that row, or 0 |
| `Trainer.SamplesPairNextRow` | platform/services/trainer/src/trainer.py:74-92 | example k pairs the cleaned features of one row i with the target value of row i + 1, and the rows strictly increase |
| `Trainer.ValidationFollowsTraining` | platform/services/trainer/src/trainer.py:87-92 | every validation row lies after every training row and the split loses no example |
| `Trainer.TrainingIgnoresTheFuture` | platform/services/trainer/src/trainer.py:66-92 | rows added to the table later change neither the cleaned features of an earlier row, down to the row itself, nor any earlier example |
| `Trainer.NoLookAheadEndToEnd` | platform/services/trainer/src/trainer.py:66-92 | every example's features are those of its row i computed from the raw rows up to i alone, and its target is the next row's cell, provided no selected feature reads ahead; other columns may |
| `Trainer.NoLookAheadExactly` | platform/services/trainer/src/trainer.py:44-72 | the features of every row, over all raw rows, are unchanged by later rows if and only if no selected column reads ahead |
| `Trainer.FeatureColumnsAre` | platform/services/trainer/src/trainer.py:44-64 | the features are the listed columns that exist, or every numeric column neither excluded nor the target |
| `Trainer.CleanIsLatest` | platform/services/trainer/src/trainer.py:66-72 | a cleaned cell is the latest one up to its row that is not missing, 0 when there is none or it is infinite |
| `Trainer.SplitIsAFifth` | platform/services/trainer/src/trainer.py:87-92 | the last fifth of the examples, rounded up, is for validation; one example or none is an error |
| `Trainer.LeakedAnswer` | platform/services/trainer/src/trainer.py:55-64 | a selected next-step target of the value to predict equals the answer in every example |
| `ReadBack.BoundaryRowTargetsItself` | platform/services/trainer/src/main.py:162-170 | after a chunked backfill every row of the run on an interior boundary has an example whose target is of the row's own instant, not the next: its own value when no other row shares the instant |
| `Trainer.EarlierExamplesStay` | platform/services/trainer/src/trainer.py:66-92 | the examples from the first n raw rows are a prefix of those from all of them |
| `RestCursor.HandedAreMaxima` | platform/services/ingestion/rest-collector/cmd/main.go:471-498 | over any run with fetch errors and failed sends the ids handed to the sender are exactly the strict left-to-right maxima of the concatenated responses, and the cursor is their highest |
| `RestCursor.SplitDoesNotMatter` | platform/services/ingestion/rest-collector/internal/collector/rest_source.go:386-408 | two runs that receive the same objects hand over the same ids, however responses split them |
| `RestCursor.HandedIncrease` | platform/services/ingestion/rest-collector/cmd/main.go:471-498 | the handed ids strictly increase, so none repeats |
| `RestCursor.NeverHandedAgain` | platform/services/ingestion/rest-collector/cmd/main.go:489-497 | once handed over, an id is never parsed out again, even when its send failed |
| `RestCursor.NothingLostExactly` | platform/services/ingestion/rest-collector/cmd/main.go:489-498 | everything handed over is delivered if and only if every response whose send failed held no object above the cursor |
| `RestCursor.LostForGood` | platform/services/ingestion/rest-collector/cmd/main.go:493-497 | a numbered id whose send failed is in no delivery of the run, before or after |
| `RestCursor.CompleteIffAscending` | platform/services/ingestion/rest-collector/internal/collector/rest_source.go:397-407 | a response is emitted in full above the cursor if and only if the ids above it come in strictly ascending order |
| `RestCursor.DescendingKeepsOne` | platform/services/ingestion/rest-collector/internal/collector/rest_source.go:397-407 | of a newest-first response at most the first record is emitted |
| `RestCursor.ParseKeeps` | platform/services/ingestion/rest-collector/internal/collector/rest_source.go:541-556 | one response emits the kept objects and leaves the cursor at the highest number |
| `RestCursor.KeptSplit` | platform/services/ingestion/rest-collector/internal/collector/rest_source.go:541-556 | splitting a stream anywhere changes neither what is kept nor the cursor |
| `RestCursor.ParseArrayOfObjectsResponse` | platform/services/ingestion/rest-collector/internal/collector/rest_source.go:386-408 | the parse loop with its threaded state is the recursive parse of the specification |
| `RestCursor.EndpointLoop.OnTick` | platform/services/ingestion/rest-collector/cmd/main.go:478-503 | one tick: an error changes nothing, otherwise the state advances before the send and whatever the send does |
| `RestRecords.HandedCarryObjects` | platform/services/ingestion/rest-collector/internal/collector/rest_source.go:386-408 | over any run each received object the cursor keeps, without a cursor every one, is handed over once and in order, with its id and values and its own timestamp or else its response's clock; the last time is the latest timestamp handed over |
| `RestRecords.NoCursorHandsAll` | platform/services/ingestion/rest-collector/internal/collector/rest_source.go:472-536 | without a cursor record k of a run carries received object k, for all of them |
| `RestHistorical.FetchHistorical` | platform/services/ingestion/rest-collector/internal/collector/rest_source.go:66-111 | the windows are fetched in order up to the first that fails for good, the result is their records in order, with at most four fetches a window |
| `RestHistorical.CollectedInOrder` | platform/services/ingestion/rest-collector/internal/collector/rest_source.go:81-110 | what is collected is window after window, for each the records of the first request that succeeded among at most four |
| `RestHistorical.StepIs` | platform/services/ingestion/rest-collector/internal/collector/rest_source.go:69-74 | a window spans the configured number of granules, 300 when none is configured |
| `RestHistorical.FetchChunkWithRetry` | platform/services/ingestion/rest-collector/internal/collector/rest_source.go:114-138 | the first successful of at most maxRetries + 1 fetches, and failure only when all failed |
| `RestHistorical.FetchedWindowsTile` | platform/services/ingestion/rest-collector/internal/collector/rest_source.go:81-103 | on success the windows tile [start, end); on failure those fetched tile a prefix |
| `RestHistorical.GranularityMustBePositive` | platform/services/ingestion/rest-collector/internal/collector/rest_source.go:73-103 | the window loop ends if and only if the granularity is positive or there is nothing to fetch |
| `RestHistorical.BatchesPartition` | platform/services/ingestion/rest-collector/cmd/main.go:300-314 | the batches concatenate to the records, none is empty or above 100, all but the last are full |
| `RestHistorical.SendInBatches` | platform/services/ingestion/rest-collector/cmd/main.go:300-314 | the indexed loop hands over those batches and delivers the ones whose send succeeded |
| `RestHistorical.BackfillSymbol` | platform/services/ingestion/rest-collector/cmd/main.go:252-314 | a failed fetch sends nothing, otherwise all batches from the gap start are handed over once |
| `RestHistorical.BackfillDeliversOnce` | platform/services/ingestion/rest-collector/cmd/main.go:290-314 | with succeeding sends, exactly the records of windows that tile the gap are delivered, once and in order |
| `RestHistorical.GapStartOverlaps` | platform/services/ingestion/rest-collector/cmd/main.go:252-265 | the start never lies before the configured one, and lies after the last stored record exactly when the configured one does |
| `Health.NoFalseAlarmExactly` | platform/services/ingestion/websocket-collector/src/health.rs:81-85 | over all runs with a monotone clock, attempts at most `gap` apart and each followed by a success within `delay`, no probe reports a wedge if and only if gap + delay is at most the staleness |
| `Health.NoFalseAlarm` | platform/services/ingestion/websocket-collector/src/health.rs:81-85 | the safe direction for one run, with any gap and delay |
| `Health.StaysWedged` | platform/services/ingestion/websocket-collector/src/health.rs:81-85 | once wedged, every later probe is wedged until the next recorded success |
| `Health.AttemptAfterIdleIsWedged` | platform/services/ingestion/websocket-collector/src/health.rs:81-85 | the first attempt after an idle time longer than the staleness is reported wedged at once |
| `Health.SuccessClears` | platform/services/ingestion/websocket-collector/src/health.rs:161-164 | a success recorded now clears the wedge |
| `Health.LogsAreApart` | platform/services/ingestion/websocket-collector/src/health.rs:174-183 | error lines are at least ten seconds apart for any clock readings |
| `Health.SilenceIsShort` | platform/services/ingestion/websocket-collector/src/health.rs:174-183 | every error that is not logged comes less than ten seconds after one that was |
| `Health.WedgedMeans` | platform/services/ingestion/websocket-collector/src/health.rs:81-85 | the probe fails if and only if some attempt is later than the start and every success, and those all lie further back than the staleness |
| `Health.DeliveryHealth.RecordSuccess` | platform/services/ingestion/websocket-collector/src/health.rs:161-164 | the atomics stay the function of the recorded trace over which the run theorems are stated |
| `Health.DeliveryHealth.Live` | platform/services/ingestion/websocket-collector/src/health.rs:98-109 | the probe is healthy exactly when the trace is not wedged |
| `Producer.Conservation` | platform/services/ingestion/websocket-collector/src/producer.rs:71-161 | in every reachable state the received records split, as multisets, into buffered, serialise-dropped, rejected, in flight, delivered, failed and cancelled, and the counters equal delivered and rejected + failed |
| `Producer.FifoPrefix` | platform/services/ingestion/websocket-collector/src/producer.rs:80-94 | what was drained is a prefix of what was received, the rest is the buffer, which is below max(batch_size, 1) |
| `Producer.KafkaProducer.Run` | platform/services/ingestion/websocket-collector/src/producer.rs:71-95 | over any inputs the loop keeps the accounting, receives every record in order and only ever appends to what was drained |
| `Producer.KafkaProducer.OnRecord` | platform/services/ingestion/websocket-collector/src/producer.rs:82-87 | a record is buffered, and at batch_size the whole buffer is drained in order |
| `Producer.KafkaProducer.OnTick` | platform/services/ingestion/websocket-collector/src/producer.rs:88-92 | the timer drains the whole buffer |
| `Producer.KafkaProducer.Flush` | platform/services/ingestion/websocket-collector/src/producer.rs:111-161 | every buffered record is drained once in order and the queued ones go to one detached delivery; attempt and rejections are recorded |
| `Producer.KafkaProducer.ResolveTask` | platform/services/ingestion/websocket-collector/src/producer.rs:141-158 | a resolved delivery batch's records end as delivered, failed or cancelled, each recorded once |
| `Producer.OutcomesPartition` | platform/services/ingestion/websocket-collector/src/producer.rs:116-139 | each drained record is dropped, rejected or queued |
| `Producer.EndingsPartition` | platform/services/ingestion/websocket-collector/src/producer.rs:141-158 | each resolved record ends in exactly one way |
| `Producer.DrainIs` | platform/services/ingestion/websocket-collector/src/producer.rs:116-139 | a flush drains every record once, in order, with the answer it got |
| `Producer.FlushEventsAre` | platform/services/ingestion/websocket-collector/src/producer.rs:116-139 | a flush records an attempt exactly for the records that serialise and a failure exactly for the rejected ones |
| `Producer.FlushCounts` | platform/services/ingestion/websocket-collector/src/producer.rs:116-139 | one attempt per serialised record, one failure per rejected one, no success |
| `Producer.WithIs` | platform/services/ingestion/websocket-collector/src/producer.rs:116-139 | the records queued, rejected or dropped are those that met that outcome, in order and complete |
| `Gateway.CacheIsTransparent` | platform/services/serving/gateway/src/server/http.rs:29-60 | under every interleaving of requests, expiries, evictions, promotions and Redis failures a finished request was answered as uncached inference would, except for the `cached` flag; a server error means inference itself failed |
| `Gateway.TransparentRun` | platform/services/serving/gateway/src/cache/mod.rs:32-50 | the invariant behind it: every entry of either tier and every value a request holds belongs to its key |
| `Gateway.StalenessExactly` | platform/services/serving/gateway/src/cache/mod.rs:32-45 | with both TTLs positive, the largest age of a returned value over all runs is exactly redis_ttl + memory_ttl + hold - 2 clock units, where hold bounds how long a get keeps a Redis value before promoting it |
| `Gateway.StalenessBound` | platform/services/serving/gateway/src/cache/mod.rs:32-45 | over every run each returned value was written less than redis_ttl + memory_ttl (+ that hold) earlier, for any TTLs |
| `Gateway.ReturnedIsRecent` | platform/services/serving/gateway/src/cache/mod.rs:32-45 | the same for one returned value, with the write it came from |
| `Gateway.CountersRun` | platform/services/serving/gateway/src/cache/mod.rs:52-59 | over every interleaved run memory hits + misses is the number of gets and Redis hits + misses is at most memory misses |
| `Gateway.AppState.Predict` | platform/services/serving/gateway/src/server/http.rs:29-60 | the answer, its `cached` flag and both tiers afterwards are those of the handler's specification, and the tiers stay true to their keys |
| `Gateway.HandledIsFaithful` | platform/services/serving/gateway/src/server/http.rs:29-60 | a whole request over tiers true to their keys leaves them so and answers as the uncached handler |
| `Gateway.UninterruptedIsHandled` | platform/services/serving/gateway/src/server/http.rs:29-60 | the interleaving model's steps of a request that nothing interrupts give the handler's answer and tiers |
| `Gateway.FinishedAnswers` | platform/services/serving/gateway/src/server/http.rs:29-60 | in every interleaving a finished answer has the request's symbol, the pair the model infers for it, and direction UP exactly for a positive prediction, DOWN otherwise; an error only when the model is down or infers nothing |
| `Gateway.CachedFlagIsTrue` | platform/services/serving/gateway/src/server/http.rs:29-60 | in every interleaving an answer is marked as cached exactly when it is a decoded value the cache layer handed back under its key |
| `Gateway.CachedExactly` | platform/services/serving/gateway/src/server/http.rs:29-60 | one whole request is marked as cached exactly when some tier held a decodable value, and then gives that value |
| `Gateway.RepeatIsCached` | platform/services/serving/gateway/src/server/http.rs:29-60 | a request repeated within the memory TTL is answered from the cache, whatever Redis and the model do |
| `CacheKey.KeyInjective` | platform/services/serving/gateway/src/server/http.rs:30 | different requests have different keys, even when symbols hold colons, because printed numbers hold none |
| `CacheKey.JoinInjective` | platform/services/serving/gateway/src/server/http.rs:30 | the printed vector determines the vector |
| `Cache.CacheLayer.Get` | platform/services/serving/gateway/src/cache/mod.rs:32-45 | memory first, then Redis with promotion restarting the memory TTL; exactly one of the memory counters moves, and a Redis counter only after a memory miss with an answer |
| `Cache.CacheLayer.Set` | platform/services/serving/gateway/src/cache/mod.rs:47-50 | memory is written first and stays written when Redis fails |
| `Cache.CacheLayer.Stats` | platform/services/serving/gateway/src/cache/mod.rs:52-59 | memory hits + misses equals the gets so far and Redis hits + misses is at most memory misses |
| `Cache.MemoryCache.Get` | platform/services/serving/gateway/src/cache/memory.rs:23-34 | an unexpired entry or nothing, and one counter moves |
| `Cache.RedisCache.Get` | platform/services/serving/gateway/src/cache/redis_cache.rs:22-43 | the stored value unless expired or the call failed, and how each outcome counts |
| `Bloom.BloomRefinesExact` | platform/services/quality/validator/src/validator/dedup.rs:19-27 | the filter answers "new" only for keys never seen, and misses a new key exactly on a false positive |
| `Bloom.NewAtMostOnce` | platform/services/quality/validator/src/validator/dedup.rs:19-27 | a key is reported new at most once over all callers |
| `Bloom.SeenKeepsBits` | platform/services/quality/validator/src/validator/dedup.rs:19-27 | every key ever checked keeps all its bits set |
| `Bloom.DedupFilter.Check` | platform/services/quality/validator/src/validator/dedup.rs:19-27 | check and set under one lock: true exactly when some bit of the key was clear, and afterwards all are set |
| `Validator.ForwardsExactly` | platform/services/quality/validator/src/validator/mod.rs:35-56 | a payload is forwarded if and only if the exact-set validator forwards it and its key is not a false positive then |
| `Validator.ForwardedIsSubsequence` | platform/services/quality/validator/src/main.rs:89-114 | over any stream the forwarded bytes are, in order, a subsequence of what an exact-set validator forwards |
| `Validator.ForwardedAtMostOnce` | platform/services/quality/validator/src/main.rs:89-114 | no key is forwarded twice |
| `Validator.ConsumeAndValidate` | platform/services/quality/validator/src/main.rs:55-117 | the loop counts every payload and every forwarded one and sends the original bytes of exactly the valid ones |
| `Validator.Validator.Validate` | platform/services/quality/validator/src/validator/mod.rs:35-56 | parse, schema, dedup, bounds in this order: a record out of bounds still marks its key |
| `Validator.CheckBounds` | platform/services/quality/validator/src/validator/bounds.rs:38-58 | passes exactly when every configured column that the library reads as a float is within its limits |
| `Validator.BoundsAre` | platform/services/quality/validator/src/validator/bounds.rs:38-58 | in bounds if and only if every number in a range column lies between both limits, included, and none in a non-negative column is below zero |
| `Validator.ForwardedAre` | platform/services/quality/validator/src/validator/mod.rs:35-56 | forwarded if and only if it parses, passes the schema and the bounds, its key is no false positive and no earlier schema-valid payload had that key |
| `Validator.KeyIs` | platform/services/quality/validator/src/validator/mod.rs:58-62 | the key is the symbol text, a colon and the timestamp text, with their defaults |
| `Validator.WholeNumbersEscape` | platform/services/quality/validator/src/validator/bounds.rs:41-50 | records with integers in the configured columns all pass if and only if the library does not read integers as floats, or nothing is configured |
| `Validator.KeyDeterminesFields` | platform/services/quality/validator/src/validator/mod.rs:58-62 | for colon-free symbols equal keys mean equal symbol and timestamp texts |
| `Validator.ColonsCollide` | platform/services/quality/validator/src/validator/mod.rs:58-62 | two symbols can share a key if and only if one followed by a colon begins with the other followed by a colon |
| `Validator.NumericTimestampsCollide` | platform/services/quality/validator/src/validator/mod.rs:58-62 | all records of a symbol whose timestamps are not strings share one key |
| `Lakehouse.PublishAllOrNothing` | use-case-crypto/dags/lakehouse.py:283-413 | in every run with retries, refused, lost and late requests and other writers, main holds none of what dbt wrote or all of it once and in order; none unless dbt succeeded; all once merge succeeded; a run that publishes never deletes its branch, one that rolled back never merges |
| `Lakehouse.MergePublishes` | use-case-crypto/dags/lakehouse.py:345-375 | the lake's answer to a merge publishes everything dbt wrote or, when it is there already, changes nothing |
| `Lakehouse.RollbackExactly` | use-case-crypto/dags/lakehouse.py:386-413 | whatever is refused, lost or late, a finished rollback leaves a branch if and only if one of that name was there before or a late create request landed, and no delete was served since; main holds nothing of the run |
| `Lakehouse.RollbackComplete` | use-case-crypto/dags/lakehouse.py:386-413 | when no create request is lost and no such branch was there, a finished rollback leaves no branch, however many requests are refused; when none is refused either, create does not run out of retries |
| `Lakehouse.RollbackStaysClean` | use-case-crypto/dags/lakehouse.py:386-413 | a finished rollback stays clean in every continuation if and only if the branch is gone and no create request is under way |
| `Lakehouse.RefusalsFailCreate` | use-case-crypto/dags/lakehouse.py:297-308 | three refused create requests use up the retries |
| `Lakehouse.LostCreateLeaks` | use-case-crypto/dags/lakehouse.py:297-308 | once the branch exists before create succeeded, create never succeeds, every later state keeps the branch unchanged, rollback included, and main gets nothing |
| `Lakehouse.LostAnswerReachesLeak` | use-case-crypto/dags/lakehouse.py:297-308 | one lost answer to the create request leads there |
| `Lakehouse.LateCreateResurrects` | use-case-crypto/dags/lakehouse.py:386-413 | a create request landing after a finished rollback brings the branch back |
| `Lakehouse.LeavesOthersAlone` | use-case-crypto/dags/lakehouse.py:682-692 | a run's own steps touch no branch but its own and only append to main |
| `Lakehouse.NamesCollideExactly` | use-case-crypto/dags/lakehouse.py:215-230 | two run ids share a branch if and only if they differ only where both characters show as underscores |
| `Lakehouse.BranchNameValid` | use-case-crypto/dags/lakehouse.py:215-230 | every run id gives a name of allowed characters that does not start with a dash |
| `Lakehouse.LakehouseTasks.CreateLakefsBranch` | use-case-crypto/dags/lakehouse.py:283-318 | what it changes in the lake and hands on, for a served, a refused and an unanswered request, and when it raises |
| `Lakehouse.LakehouseTasks.MergeLakefsBranch` | use-case-crypto/dags/lakehouse.py:321-383 | what it changes and whether it raises, for served, refused and unanswered requests, with other events between the diff and the merge |
| `Lakehouse.LakehouseTasks.DeleteLakefsBranch` | use-case-crypto/dags/lakehouse.py:386-413 | what it changes and whether it raises, for a served, a refused and an unanswered request; a missing name or branch is no error |
| `Lakehouse.CreateTaskIs` | use-case-crypto/dags/lakehouse.py:297-318 | creating raises if and only if it is not served or the branch is there; otherwise the branch starts as main, its name is handed on and nothing else changes |
| `Lakehouse.MergeTaskIs` | use-case-crypto/dags/lakehouse.py:321-383 | merging raises exactly when the diff is not served, the branch is missing, or there is something to publish and its request fails; on success main is extended by exactly what it lacked |
| `Lakehouse.DeleteTaskIs` | use-case-crypto/dags/lakehouse.py:386-413 | deleting raises if and only if there is a name and the request is not served: a branch that is already gone is no error |
| `Lakehouse.BranchNameIs` | use-case-crypto/dags/lakehouse.py:215-230 | the name is dbt-run- and the run id, each character that may not stand there shown as one underscore |
| `Retraining.CooldownExactly` | platform/services/automation/retraining/main.py:234-291 | with successful listings every run of the service keeps jobs of one key the cooldown apart if and only if no symbol is configured, or the TTL reaches the cooldown and either keys are distinct or the cooldown is at most a second |
| `Retraining.CooldownWithFailingListings` | platform/services/automation/retraining/main.py:234-291 | with listings that may fail, if and only if no symbol is configured, or the TTL reaches the cooldown and the cooldown is at most a second |
| `Retraining.CooldownHolds` | platform/services/automation/retraining/main.py:234-291 | the safe direction over every run, although finished jobs are removed after their TTL |
| `Retraining.LoopKeepsSpacing` | platform/services/automation/retraining/main.py:280-291 | the creation loop keeps the spacing from any consistent cluster, wherever a create call raises |
| `Retraining.FailedListingBreaksCooldown` | platform/services/automation/retraining/main.py:250-252 | a failed listing lets the next run create a second job a second later |
| `Retraining.ShortTtlBreaksCooldown` | platform/services/automation/retraining/main.py:202 | a TTL below the cooldown lets a second job start too early |
| `Retraining.RepeatedKeyBreaksCooldown` | platform/services/automation/retraining/main.py:281-291 | two symbols of one key get two jobs within one run |
| `Retraining.RetrainService.CheckAndRetrain` | platform/services/automation/retraining/main.py:255-293 | one pass: no drift event changes nothing, otherwise list, then create for each symbol outside the cooldown until a call raises |
| `RetrainingChecks.QuietBelowThreshold` | platform/services/automation/retraining/main.py:268-270 | a check whose values all lie below the threshold leaves the cluster as it was |
| `RetrainingChecks.DriftStartsJobs` | platform/services/automation/retraining/main.py:255-291 | a check with some value at or above the threshold, a successful listing and accepted creates starts exactly one job for each configured key without a listed job younger than the cooldown and none for any other |
| `RetrainingChecks.RaiseEndsTheCheck` | platform/services/automation/retraining/main.py:280-291 | a create call that raises ends the check: no later symbol gets a job |
| `RetrainingChecks.KeyOfConcat` | platform/services/automation/retraining/main.py:280-284 | keys are formed character by character |
| `RetrainingChecks.KeyOfLetter` | platform/services/automation/retraining/main.py:280-284 | a dash leaves nothing, a capital its small letter, anything else itself |
| `Retraining.RetrainService.CreateRetrainJob` | platform/services/automation/retraining/main.py:105-231 | one create call: the labelled job, refused when its name is taken |
| `Retraining.RetrainService.CheckExistingRetrainJobs` | platform/services/automation/retraining/main.py:234-252 | the keys of the listed jobs younger than the cooldown, none after a failed listing |
| `Psi.PsiSign` | platform/services/quality/drift/psi.py:21-45 | for all inputs the index is non-negative and, past the early returns, zero if and only if the clipped shares agree in every bin |
| `Psi.BinCounts` | platform/services/quality/drift/psi.py:31-33 | the reference counts sum to the reference length; the comparison counts sum to the comparison values inside the reference range, at most its length |
| `Psi.HistogramTotal` | platform/services/quality/drift/psi.py:31-33 | every value between the outermost edges is counted in exactly one bin and no other value in any |
| `Psi.BreakpointsSpan` | platform/services/quality/drift/psi.py:25-26 | the breakpoints strictly increase and enclose every reference value |
| `Psi.BreakpointsAreQuantiles` | platform/services/quality/drift/psi.py:25-26 | deduplication keeps exactly the quantile values |
| `Psi.DivergenceSign` | platform/services/quality/drift/psi.py:42-43 | a sum of terms over positive shares is non-negative, and zero if and only if the shares are equal |
| `Psi.NoDriftFromItself` | platform/services/quality/drift/psi.py:21-45 | a sample has index zero against itself |
| `Psi.QuantileIs` | platform/services/quality/drift/psi.py:25 | a quantile between two neighbouring reference values divides their distance in the ratio of its place |
| `Psi.CountIs` | platform/services/quality/drift/psi.py:32-33 | a bin counts the positions whose value is at least its lower edge and below its upper one, or at the upper edge of the last bin |
| `Psi.ShareIs` | platform/services/quality/drift/psi.py:35-40 | a share times the sample size is the count, but a share is never below a ten-billionth |
| `Psi.IndexIs` | platform/services/quality/drift/psi.py:21-45 | past the early exits, which give 0, the index is the sum over the bins of the share difference times the logarithm of the share ratio |
| `Psi.EmptiedBinDrifts` | platform/services/quality/drift/psi.py:21-45 | when all reference values lie in a bin that holds no comparison value the index is positive |

## Left out

- Floating-point rounding, infinities and NaN arithmetic in the stream indicators and in the index: ideal reals instead; in frames a missing cell is explicit.
- Indicators.ComputeExpAvg: requires a period other than -1, where the source divides by zero; Config.Valid asks for periods of at least 1 wherever laws need decaying weights. A negative window size is not modelled.
- Indicators.ComputeMomentum: requires a period other than 0, where the source divides zero by zero.
- FeatureFunction: the routing of records to keys (the model is one key), JSON reading and the layout of the bronze and cache records; events start from decoded fields.
- RedisSink: expiry of the latest value, symbols that start with `history:` and so share keys, and asynchronous command failures.
- Backfill.BackfillJob.Run: requires a positive `chunk_days` and a table sorted by time with ties in one fixed order; the query sorts by time but promises no order among equal timestamps, so a chunk and one run could differ on those; the loop without it does not end (`Tiling.LoopEnds`). Time zone stripping, default dates and `run_incremental` are not modelled.
- Backfill.FeatureEngineeringJob.ProcessSymbol: lost or partial inserts are not modelled, a failing symbol writes nothing; `computed_at`, symbol and time columns are carried outside the cells.
- ChunkEquivalence.ChunkedEqualsWhole: for error-free chunks; failing symbols and chunks that raise are part of `Backfill.BackfillJob.Run` only.
- ChunkExactness.ChunkSafeExactly: one column at a time; sets of columns are decided table by table by `ChunkExactness.AgreesExactly`, since whether any row of a set is ever complete depends on the library functions.
- Transformers.ComputeAllFeatures: the KeyError for a missing return or target column, value, return and target columns that are themselves computed (only lags may be of computed columns), and columns named by the use-case overlay.
- Trainer.NoLookAheadEndToEnd: takes every computed row once. The job drops incomplete rows, so the next stored row can be later than the next raw one, and chunked backfill copies boundary rows, which `ReadBack.BoundaryRowTargetsItself` shows; merges by which the store later removes copies are not modelled.
- Trainer: classification data, model search and experiment tracking.
- RestCursor: ids are integers exact in a double, so int64 truncation is not modelled; only `after_id` cursors over arrays of objects, not `after_timestamp`, single objects or arrays of arrays. The clock is read once per response.
- RestHistorical: duration overflow, rate-limit sleeps and the periodic refresh loop.
- RestHistorical.FetchHistorical: requires a positive granularity; `RestHistorical.GranularityMustBePositive` shows what happens without it.
- Health: atomics are updated one at a time; a probe between two stores of one call is not modelled.
- Producer: the clock is read once per record and step; deliveries lost at shutdown are ones that never resolve.
- Cache: the admission policy and capacity of the memory tier are arbitrary evictions; connection set-up is a call outcome.
- Gateway.CacheIsTransparent: inference is a deterministic function of the request, and an encoded response decodes to itself or not at all.
- Bloom: sizing and hash quality; the index functions are arbitrary but fixed.
- Validator: JSON parsing and schema evaluation are given by a decoded object and a predicate, and whether the library's float reading covers integers is a parameter; the commit of consumed offsets is not modelled.
- Lakehouse: a refused request leaves the lake unchanged, and its status is none of those a task tolerates (a refused merge is not "no changes", a refused delete is not 404); lineage events, repository provisioning beyond its success or failure, quality checks and the report after the merge, which have no effect on branches. dbt's writes end with its attempt, and other writers do not touch this run's branch.
- Retraining: parsing of drift messages (their values are given) and two runs at the same time; one clock serves the service and the cluster.
- Psi: zero bins, and the tie handling of quantiles in floating point.
- Clients of Kafka, Redis, ClickHouse and Kubernetes, dashboards, access control, configuration loaders, metrics, logging, manifests: environment or plumbing.
- Embeddings, vector search, model export and serving, Great Expectations and SQL checks: library behaviour or easy members.
