# Verified model of the Polarix data pipeline

Polarix turns CME reference trades and MT5 broker quotes into quality-checked feature tables. This
project models the parts of it that decide whether a table can be believed, and proves what they
promise for every input, every run or every reachable state.

| file | what it models |
|---|---|
| `TickFilter.dfy` | per-symbol duplicate suppression in the tick logger |
| `ParquetWriter.dfy` | the buffering writer: add, flush, partition, publish, requeue |
| `Compaction.dfy` | merging raw part files into sorted chunks and deleting the sources |
| `TimestampSemantics.dfy`, `BrokerClock.dfy` | inference of the broker clock's offset from live ticks, and the same read from the broker's stamps |
| `AsOfJoin.dfy` | the two as-of joins of trades to quotes |
| `AlignmentQuality.dfy` | the alignment report: reasons, hourly and per-tolerance counts, overlap short-circuit |
| `BarAggregation.dfy`, `BarReadings.dfy` | trade bars and quote bars over time buckets, and what they say about the raw events |
| `BarFeatures.dfy`, `FeatureReadings.dfy` | the joined frame, overlap clip, quality chains, lag and rolling features, and what a stored row says |
| `FeatureIdentities.dfy` | what the stored columns say together: shares, compounding returns, adding basis changes |
| `FeatureExport.dfy` | the model dataset: selection, order, identity and finiteness checks |
| `NoLookAhead.dfy`, `LookAheadBoundary.dfy` | the effect of later events on exported rows: where there is none, and exactly where |
| `Moments.dfy`, `MomentReadings.dfy`, `Percentiles.dfy` | z-scores, skewness and kurtosis, interpolated percentiles |
| `StageDependencies.dfy`, `DayOrchestrator.dfy` | artifact trust, the daily stage loop, stale-artifact search |
| `StageRunner.dfy` | the demo runner: ordered stages, hash checks, write-once records |
| `Sequences.dfy`, `Arithmetic.dfy`, `Units.dfy` | shared vocabulary: filters, stable sorting, sums, products of reals, time units |

Objects whose methods update fields (the tick filter, the writer, the clock, the compactor's file
store, the run directory) are classes; each method's `ensures` ties the new state to a function or
relation on the old one, and the lemmas are about those. Data frames are sequences, and frame
expressions are functions.

Readings. Beside the relations between functions of the model, each operation is also described from its
inputs alone, in the vocabulary of the events (half-open ranges, counts over filtered events, sums,
plain arithmetic): those members say what the numbers mean and name none of the functions that compute
them.

Conventions. Times, sizes and scaled prices are unbounded integers; prices and statistics are reals.
Square root and the data-frame library's sample quantile enter as parameters (`Library`), so the
results hold for any such functions, or for exact roots where a lemma says so. Failures (a hook,
`mkdir`, write or replace that raises, a locked file, an unreadable file) are inputs. File contents
are bytes under an abstract digest.

## What was found

* Look-ahead. The repository's README.md:114 promises that adding future events leaves earlier
  closed-bucket features unchanged. That is true when the two sources overlap, and
  `NoLookAhead.NoLookAhead` proves it for the whole pipeline. It is false when they do not: the clip
  is then switched off (bar_feature_builder.py:546-551), and one later event can switch it on and
  remove the bucket that an exported feature had looked back on. `LookAheadBoundary.ClipOffLooksAhead`
  gives an input; `LookAheadBoundary.ExportUnchangedIffGuarded` gives the exact condition for the
  export of a whole build: every partition of an exported size is settled or has no bucket ready for export.
* Compaction. Output names restart at index 000 on every run (compaction.py:184). A run that left
  a locked source behind is followed by a run that overwrites the first one's output after its
  sources were deleted: `Compaction.RerunAfterLockLosesRows`. A run loses no row exactly when the rows
  of the outputs it replaces are among its sources or in outputs it leaves alone
  (`Compaction.RunLosesNoRowIffCovered`), and copies stay exact only when it replaces none that holds
  rows (`Compaction.CopiesExactIffNothingReplaced`).
* Overlap short-circuit. The window test of the alignment report compares nanoseconds while the join
  truncates to milliseconds, so it can discard a match. `AlignmentQuality.ShortCircuitIsExact` says
  exactly which, and `AlignmentQuality.ShortCircuitLosesAMatch` gives one.
* Clock inference. The required number of fresh ticks does not suffice when the freshness window is
  wider than one second, because of the 1000 ms median limit.
  `TimestampSemantics.ExactIffGateWithinOneSecond` proves that limit exact.
* Changes of the broker clock. A tick that is fresh under any plausible offset refreshes the staleness
  timer, so a verified clock that keeps receiving ticks under a new offset stays join-safe with the old
  one: `TimestampSemantics.ShiftGoesUnnoticed`. `TimestampSemantics.VerifiedUntilGap` says exactly how
  long a verification lasts. After a gap or a reconnect the new offset is found and the shift reported
  once (`TimestampSemantics.ShiftReportedOnce`).
* Stale artifacts. A day that stops on its first stage does not warn about the artifacts below it
  (`DayOrchestrator.StoppedDayIsSilent`); a day that carries on does
  (`DayOrchestrator.WarningCoversDisk`).

## Model

| member | source | states |
|---|---|---|
| NoLookAhead.NoLookAhead | src/polarix/features/dataset.py:17-22 | Whatever trades and quotes arrive at or after the watermark, for every pair at once, the exported rows closed by the watermark stay identical in every feature and in order, and a non-empty export keeps its outcome. Needs positive quote times, and every partition of an exported size settled or without a bucket ready for export. |
| NoLookAhead.PartitionStable | src/polarix/features/bar_feature_builder.py:297-304 | Any two settled logs that agree before the watermark select the same closed eligible rows of a partition, although the overlap clip of each depends on its later events. |
| NoLookAhead.SettledPrefixesAgree | src/polarix/features/bar_feature_builder.py:542-551 | Up to a closed bucket with both sources, the clipped joins of two such logs keep the same buckets. |
| NoLookAhead.ClosedRowsAgree | src/polarix/features/bar_feature_builder.py:297-299 | The joined row of a closed bucket is a function of the events before the watermark, through sorting and grouping. |
| NoLookAhead.OpeningIsPinned | src/polarix/features/bar_feature_builder.py:542-550 | Once a closed bucket holds both sources, later events cannot move the lower clip bound. |
| LookAheadBoundary.ExportUnchangedIffGuarded | src/polarix/features/bar_feature_builder.py:546-551 | For a whole build with valid trades: no late events of any pair change the exported rows if and only if every partition of an exported size is settled (its sources overlap, or no bucket of its join ends by the time both have begun) or has no closed bucket with both sources that passes the two quality thresholds. |
| LookAheadBoundary.PartitionUnchangedIffGuarded | src/polarix/features/bar_feature_builder.py:546-551 | The same for the selected rows of one partition. |
| LookAheadBoundary.UnguardedPartitionChanges | src/polarix/features/bar_feature_builder.py:300-304 | In every partition outside that condition some exported row, which looked back, is no longer a row of the partition after some late events. |
| LookAheadBoundary.StableIffSettled | src/polarix/features/bar_feature_builder.py:546-551 | For the joined frame: its buckets up to a closed co-present one are the same under every extension by later events if and only if the log is settled. |
| LookAheadBoundary.ClipOffLooksAhead | src/polarix/features/bar_feature_builder.py:300-304 | A concrete log without overlap whose exported 15 s row loses its return when one trade arrives after the watermark. |
| LookAheadBoundary.ExampleIsUnsettled | src/polarix/features/bar_feature_builder.py:546-551 | That log meets every condition of the theorem except being settled. |
| FeatureExport.ExportIsExact | src/polarix/features/dataset.py:17-32 | A successful export is sorted by pair, size and timestamp, has unique identities and finite features, and holds exactly the eligible rows of size 15s or 60s that are closed by the watermark. |
| FeatureExport.IdentitiesAreUnique | src/polarix/features/dataset.py:25-26 | With distinct pairs and distinct bucket sizes the duplicate-identity error cannot occur. |
| FeatureExport.NonFiniteExactly | src/polarix/features/bar_feature_builder.py:390-471 | A row is non-finite exactly when it has quotes and the previous row of its frame closes on a mid of zero; every other division is guarded or has a positive divisor. |
| FeatureExport.ExportIsOrdered | src/polarix/features/dataset.py:27-31 | Each exported row stands before the next ones by pair in dictionary order, then bucket size, then timestamp. |
| FeatureExport.ExportFailsExactly | src/polarix/features/dataset.py:12-32 | With distinct pairs and sizes an export fails exactly when nothing was built, no built row is due, or a due row holds a non-finite return, and says which. |
| BarFeatures.FeaturesAreCausal | src/polarix/features/bar_feature_builder.py:389-488 | A feature row depends on nothing after its own row, through lags, 20-row windows and basis changes. |
| BarFeatures.ChainsAgree | src/polarix/features/bar_feature_builder.py:347-383 | In a built frame the two classification chains, which test price and ratio in different orders, correspond reason by reason (no reason exactly for OK or DIAGNOSTIC_ONLY), and zero volume, zero ticks and bad prices never occur. |
| BarFeatures.EligibleExactly | src/polarix/features/bar_feature_builder.py:318-388 | A row is eligible if and only if its size is not the diagnostic one, both sources have events in the bucket, and the join-safe share and widest spread pass the thresholds. |
| BarFeatures.FeatureScoresBounded | src/polarix/features/bar_feature_builder.py:472-488 | Every non-null z-score feature of every row satisfies z^2 <= 18.05. |
| FeatureReadings.ScoresAreTrailing | src/polarix/features/bar_feature_builder.py:157-160 | Each of the five scores of a stored row is the z-score of its own bar column over the min(i+1, 20) rows that end with it, rows indexed directly. |
| FeatureReadings.ColumnsMean | src/polarix/features/bar_feature_builder.py:390-470 | What every other column of a stored row says about its bars and the previous row's: returns lead from one price to the next, ranges and basis in basis points, shares of volume, counts per second, null and non-finite cases included. |
| FeatureReadings.RowsAreSharedBuckets | src/polarix/features/bar_feature_builder.py:542-551 | A table has a row for exactly the aligned buckets with a valid trade or a quote and, if the sources overlap in time at all, an instant at which both are running. |
| FeatureReadings.EligibleFromEvents | src/polarix/features/bar_feature_builder.py:318-388 | A row is eligible exactly when its size is not 5s, its half-open bucket holds a valid trade and a quote, enough quotes are join-safe and no spread is too wide. |
| FeatureReadings.ReasonFromEvents | src/polarix/features/bar_feature_builder.py:347-366 | The reject reason is the first obstacle among the bucket's events: no valid trade, no quote, too few join-safe quotes, too wide a spread. |
| FeatureReadings.FlagFromEvents | src/polarix/features/bar_feature_builder.py:367-383 | The quality flag names the same first obstacle, or usable, or diagnostic by the size. |
| FeatureIdentities.StatsMatchBar | src/polarix/features/bar_feature_builder.py:144-154 | The separately grouped size statistics and the bar of a bucket are present together, and the mean trade size is volume over count. |
| FeatureIdentities.BuiltRowsAreConsistent | src/polarix/features/bar_feature_builder.py:297-299 | Every joined row of a build carries trade columns that agree with one another. |
| FeatureIdentities.VolumeColumns | src/polarix/features/bar_feature_builder.py:408-428 | The three volume shares add up to one and differ by the signed ratio, and volume per trade is the separately grouped mean trade size. |
| FeatureIdentities.ReturnsCompound | src/polarix/features/bar_feature_builder.py:390-470 | In every stored table, over any run of rows whose returns are numbers, the trade returns compound from the first close to the last close and the quote returns from the first closing mid to the last. |
| FeatureIdentities.BasisChangesAddUp | src/polarix/features/bar_feature_builder.py:464-467 | In every stored table, over any run of rows whose basis changes are present, they add up to the difference between the last and the first basis. |
| BarAggregation.BarsRollUp | src/polarix/features/bar_aggregation.py:110-151 | For every m >= 1 each bar of size m*w is the merge of the size-w bars inside it, in counts, volumes by side, first, last, high, low, ratio and volume-weighted VWAP. |
| BarAggregation.BarOfAppend | src/polarix/features/bar_aggregation.py:122-136 | The bar of two concatenated spans is computable from their two bars alone. |
| BarAggregation.BarsConserveVolume | src/polarix/features/bar_aggregation.py:110-124 | Over all buckets the bars' volumes add up to the summed size of the valid trades. |
| BarAggregation.VwapWithinRange | src/polarix/features/bar_aggregation.py:131-146 | Every bar has a positive volume and a VWAP between its low and its high. |
| BarAggregation.BarSplitsExactly | src/polarix/features/bar_aggregation.py:119-130 | Buy, sell and unknown volumes and counts add up to the totals. |
| BarAggregation.CmeOpensAndCloses | src/polarix/features/bar_aggregation.py:110-135 | A trade bar opens with an earliest and closes with a latest valid trade of its bucket; high and low are attained and bound every price in it. |
| BarAggregation.TwapWithinRange | src/polarix/features/bar_aggregation.py:240-273 | The clipped TWAP weights telescope to bucket end minus first quote, which is positive, so the mean fallback is unreachable and the TWAP lies between the lowest and the highest mid. |
| BarAggregation.Mt5OpensAndCloses | src/polarix/features/bar_aggregation.py:237-248 | A quote bar opens with an earliest and closes with a latest quote of its bucket. |
| BarAggregation.Mt5Counts | src/polarix/features/bar_aggregation.py:244-277 | A quote bar counts the bucket's quotes, the join-safe ones and the latency outliers; the ratio is their share and lies in [0, 1]. |
| BarAggregation.CmeKeysExact | src/polarix/features/bar_aggregation.py:111-122 | A bucket start has a trade bar exactly when some valid trade floors to it, and is a multiple of the size. |
| BarAggregation.Mt5KeysExact | src/polarix/features/bar_aggregation.py:237-244 | The same for quote bars. |
| BarAggregation.BucketIsRange | src/polarix/features/bar_aggregation.py:113 | A time floors to an aligned start exactly when it lies in the half-open bucket. |
| BarReadings.TradeBarMeans | src/polarix/features/bar_aggregation.py:110-141 | Counts and volumes of a trade bar, in total and per aggressor side, are those of the valid trades with that side in the half-open bucket, and the net is buys minus sells. |
| BarReadings.TradeRatiosMean | src/polarix/features/bar_aggregation.py:131-146 | VWAP times volume is the traded value and the signed ratio times volume is buys minus sells; both are absent without volume. |
| BarReadings.TwapIsTimeAverage | src/polarix/features/bar_aggregation.py:240-273 | TWAP times the nanoseconds from the bucket's first quote to its end is the sum, over each of them, of the mid in force. |
| BarReadings.MidAtIsInForce | src/polarix/features/bar_aggregation.py:240-243 | The mid in force at a time is that of the last quote at or before it. |
| BarReadings.QuotesAreBucket | src/polarix/features/bar_aggregation.py:232-237 | The quotes behind a bar are those whose millisecond, in nanoseconds, lies in the half-open bucket, in time order. |
| BarReadings.QuoteMidsMean | src/polarix/features/bar_aggregation.py:244-251 | Number, lowest, highest and average mid of a quote bar over those quotes. |
| BarReadings.QuoteCountsMean | src/polarix/features/bar_aggregation.py:246-277 | Join-safe and outlier counts over those quotes, and their share. |
| BarReadings.QuoteSpreadsMean | src/polarix/features/bar_aggregation.py:254-266 | Spread extremes and averages and the largest residual over those quotes; quantiles are the library's over the same sample at 0.5 and 0.95. |
| BarReadings.SizeStatsMean | src/polarix/features/bar_feature_builder.py:144-154 | Largest and average size, the library's 99th percentile and the sample deviation of the bucket's trades. |
| BarReadings.ArrivalIsBucket | src/polarix/features/bar_feature_builder.py:139-143 | Those are the valid trades of the half-open bucket, in order of arrival. |
| Moments.ZScoreBounded | src/polarix/features/bar_feature_builder.py:157-160 | A non-null z-score over n present values of its window satisfies n z^2 <= (n-1)^2. |
| Moments.WindowZScoreBounded | src/polarix/features/bar_feature_builder.py:36 | With the 20-row window z^2 <= 18.05, for every pattern of missing values. |
| Moments.ZScoreBoundAttained | src/polarix/features/bar_feature_builder.py:157-160 | The bound is attained at every window size, so it cannot be improved. |
| Moments.KurtosisDominatesSkewness | src/polarix/features/feature_statistics.py:211-226 | When defined, excess kurtosis is at least squared skewness minus two, for every sample. |
| MomentReadings.ZScoreMeans | src/polarix/features/bar_feature_builder.py:157-160 | A z-score exists exactly when the last value is present, two values are, and the deviation is positive; times the deviation, plus the average, it is the last value. |
| MomentReadings.MomentsAreStandardised | src/polarix/features/feature_statistics.py:211-226 | Skewness and excess kurtosis exist exactly for a positive second moment and standardise the third and fourth central moments, three subtracted from the latter. |
| MomentReadings.FewValuesHaveNone | src/polarix/features/feature_statistics.py:215-216 | Fewer than four values have neither statistic. |
| MomentReadings.KurtosisBoundAttained | src/polarix/features/feature_statistics.py:211-226 | Every sample of two values attains the bound: excess kurtosis is squared skewness minus two, and skewness times the deviation is the sum of the two distances from the mean. |
| Percentiles.BetweenNeighbours | src/polarix/features/feature_statistics.py:203-208 | The interpolated value lies between the order statistics at the floor and ceiling of its rank. |
| Percentiles.PercentileIsLinear | src/polarix/features/feature_statistics.py:191-208 | The percentile lies on the straight line between the two order statistics next to rank (n-1)*pct, in proportion to the rank's fraction. |
| Percentiles.SplitsSampleAtRank | src/polarix/features/feature_statistics.py:191-208 | At least floor(k)+1 values lie at or below the percentile and at least n-ceil(k) at or above, stated without sorting. |
| Percentiles.InSampleRange | src/polarix/features/feature_statistics.py:191-208 | A percentile never leaves the range of the sample. |
| Percentiles.PercentileMonotone | src/polarix/normalization/timestamp_semantics.py:40-51 | A higher requested share never gives a lower percentile. |
| Percentiles.PercentileOfPermutation | src/polarix/features/feature_statistics.py:192-198 | The order in which values arrive is irrelevant. |
| Percentiles.PercentileInterpolates | src/polarix/features/feature_statistics.py:199-208 | The single-value shortcut agrees with the general formula. |
| Percentiles.SummaryIsOrdered | src/polarix/features/feature_statistics.py:297-304 | p01 <= p05 <= p25 <= p50 <= p75 <= p95 <= p99 and the inter-quartile range is not negative. |
| TimestampSemantics.TimestampSemantics.ResetForReconnect | src/polarix/normalization/timestamp_semantics.py:76-85 | The whole new state: evidence and verification cleared, a verified offset kept as hint. |
| TimestampSemantics.TimestampSemantics.MaybeVerify | src/polarix/normalization/timestamp_semantics.py:134-157 | The loop over candidates verifies the eligible one of least median distance and reports a shift against the hint. |
| TimestampSemantics.TimestampSemantics.Observe | src/polarix/normalization/timestamp_semantics.py:87-106 | One tick: exactly the candidates under whose offset its stamp lies within the gate of its arrival gain a count, a source time and a residual; then verification. |
| TimestampSemantics.TimestampSemantics.EvaluateStaleness | src/polarix/normalization/timestamp_semantics.py:108-132 | The staleness check: downgrade, marking unsafe, or nothing. |
| TimestampSemantics.BestIsFirstMinimum | src/polarix/normalization/timestamp_semantics.py:137-150 | A candidate is chosen exactly when one is eligible; nothing eligible beats it and ties go to the earlier one. |
| TimestampSemantics.InvariantAlways | src/polarix/normalization/timestamp_semantics.py:55-157 | After every sequence of ticks, checks and reconnects: verified status iff an offset is set, UTC-verified iff it is 0, the offset is plausible, and each candidate holds min(count, 1024) residuals, all inside the gate. |
| TimestampSemantics.CheckedJoinIsRecent | src/polarix/normalization/timestamp_semantics.py:108-121 | Right after a staleness check at time now, join-safe implies a fresh tick less than the downgrade limit ago. |
| TimestampSemantics.WithdrawalKeepsOnlyAHint | src/polarix/normalization/timestamp_semantics.py:76-121 | Losing verification keeps the offset as a hint only and clears all evidence. |
| TimestampSemantics.InferenceIsSound | src/polarix/normalization/timestamp_semantics.py:87-106 | When plausible offsets lie further apart than the freshness window: from any point at which no evidence is held, after any past and with any offset remembered, ticks live under the true offset never verify another one, give no other candidate any evidence, and leave remembered what was remembered or the true offset. |
| TimestampSemantics.ShiftReportedOnce | src/polarix/normalization/timestamp_semantics.py:152-157 | Over any such run the shift events are none, or exactly one: when an offset other than the true one was remembered and the clock was verified at some time. It is a DST shift exactly when the two differ by 60 minutes. |
| TimestampSemantics.TickKeepsOnlyTruth | src/polarix/normalization/timestamp_semantics.py:152-157 | Such a tick reports a shift exactly when it verifies the clock while an offset other than the true one is remembered. |
| TimestampSemantics.CleanPoints | src/polarix/normalization/timestamp_semantics.py:76-121 | A new clock, a reconnected one and a downgraded one are such points, whatever they saw or remember. |
| TimestampSemantics.InferenceIsComplete | src/polarix/normalization/timestamp_semantics.py:134-151 | From any such point, with a gate of at most one second, the clock is verified exactly while the true candidate holds enough evidence. |
| TimestampSemantics.VerifiedAfterRequiredTicks | src/polarix/normalization/timestamp_semantics.py:139-151 | From any such point live ticks verify the true offset exactly when the required count and two distinct source times have arrived, whatever offset the ticks before it were live under. |
| BrokerClock.LiveBrokerIsVerified | src/polarix/normalization/timestamp_semantics.py:87-106 | A broker whose clock runs a plausible number of minutes ahead, so that its stamps are UTC plus that offset, and whose ticks arrive within the gate, is verified with that offset exactly when the required count and two different stamps have arrived. |
| BrokerClock.VerifiedOnceReady | src/polarix/normalization/timestamp_semantics.py:134-151 | For every gate: live ticks verify the true offset exactly when at some moment they were enough, carried two stamps, and median and 95th percentile of the last 1024 delays were at most 1000 and 5000 ms. |
| BrokerClock.ChosenIsClosest | src/polarix/normalization/timestamp_semantics.py:149-150 | Of all eligible candidates the chosen one's median residual is closest to zero. |
| BrokerClock.ChecksAreExact | src/polarix/normalization/timestamp_semantics.py:108-132 | A check marks the clock unsafe, or withdraws its verification, exactly when nothing fresh has arrived for the limit in question since the last reconnect, counted from the first arrival if nothing ever was; otherwise it changes nothing. |
| BrokerClock.FreshTickRevives | src/polarix/normalization/timestamp_semantics.py:99-104 | An unsafe clock stops being unsafe at a tick exactly when some plausible offset reads it as fresh. |
| TimestampSemantics.LateStreamNeverVerifies | src/polarix/normalization/timestamp_semantics.py:143-146 | From any such point a stream of live ticks that are all more than a second old never verifies, however long. |
| TimestampSemantics.WideGateMissesEvidence | src/polarix/normalization/timestamp_semantics.py:143-146 | For every gate wider than one second and from any such point, a live stream that holds all the evidence asked for and stays unverified. |
| TimestampSemantics.ExactIffGateWithinOneSecond | src/polarix/normalization/timestamp_semantics.py:134-151 | From any such point, verification and enough evidence coincide on every live stream if and only if the gate admits no tick older than one second. |
| TimestampSemantics.VerifiedUntilGap | src/polarix/normalization/timestamp_semantics.py:99-132 | A verified clock stays join-safe exactly until a reconnect or a check that comes the downgrade limit or more after the last tick fresh under any plausible offset; until then its offset stays and nothing is reported. |
| TimestampSemantics.ShiftGoesUnnoticed | src/polarix/normalization/timestamp_semantics.py:99-121 | While ticks live under another plausible offset keep coming, with each check soon after a tick, a verified clock keeps its offset, stays join-safe and reports nothing, although it reads none of these ticks as fresh. |
| TickFilter.TickFilter.Consider | src/polarix/ingestion/tick_filter.py:65-132 | One tick: the entry of its symbol advances by the emission rule, the history invariant is kept, an emitted quote is the tick's own scaled to nearest, and a suppressed tick is within one step and the heartbeat gap of the symbol's last emitted one. |
| TickFilter.TickFilter.Judge | src/polarix/ingestion/tick_filter.py:83-130 | The field-by-field update of one symbol's entry follows the emission rule. |
| TickFilter.ScaledIsNearest | src/polarix/ingestion/tick_filter.py:9-12 | A price times the scale is rounded to the nearest whole step, halves to even, and a missing price counts as zero. |
| TickFilter.Lossless | src/polarix/ingestion/tick_filter.py:78-132 | In every reachable filter, a symbol's events with their suppressed counts, plus its pending count, decode to exactly the quotes seen for it, for every interleaving of symbols. |
| TickFilter.LosslessPerSymbol | src/polarix/ingestion/tick_filter.py:83-121 | The run-length decoding inverts the filter on every sequence of ticks. |
| TickFilter.EventsAreScaled | src/polarix/ingestion/tick_filter.py:75-121 | Every event carries its own tick's prices, each within half a step of the price times the scale, with its volume and flags. |
| TickFilter.MovesAreEmitted | src/polarix/ingestion/tick_filter.py:78-96 | A tick that moves bid, ask or last by more than one step from the last emitted one, or changes volume or flags, or comes a heartbeat gap later, is emitted. |
| TickFilter.RepeatsAreSuppressed | src/polarix/ingestion/tick_filter.py:78-102 | A tick that repeats the last emitted one inside the gap is suppressed. |
| TickFilter.EventsDifferOrBeat | src/polarix/ingestion/tick_filter.py:83-95 | Consecutive events of a symbol differ or are at least the heartbeat gap apart. |
| TickFilter.PendingIsTheTail | src/polarix/ingestion/tick_filter.py:96-102 | The suppressed run is the tail of the input and repeats the last emitted quote. |
| TickFilter.EventReportsSuppressedRun | src/polarix/ingestion/tick_filter.py:103-121 | An event reports exactly the ticks suppressed before it: how many, first and last arrival. |
| ParquetWriter.ParquetWriter.Add | src/polarix/ingestion/parquet_writer.py:121-132 | Adding keeps the whole invariant whatever the flush it may trigger does; a due flush has the effect and the report of a flush, and otherwise the event is buffered and nothing else changes. |
| ParquetWriter.ParquetWriter.Flush | src/polarix/ingestion/parquet_writer.py:134-178 | For every failure pattern: which partitions are published, what stays buffered, when it raises, the counters and the flush clock; the invariant is kept. |
| ParquetWriter.FaultlessFlushSucceeds | src/polarix/ingestion/parquet_writer.py:134-178 | Without a fault a flush succeeds, reports every waiting event and leaves none. |
| ParquetWriter.ParquetWriter.PartitionEvents | src/polarix/ingestion/parquet_writer.py:142-145 | Groups events by symbol and hour in first-seen order. |
| ParquetWriter.ParquetWriter.PublishPartitions | src/polarix/ingestion/parquet_writer.py:149-170 | The publishing loop writes exactly the partitions before the failing one and counts their rows. |
| ParquetWriter.ParquetWriter.Requeue | src/polarix/ingestion/parquet_writer.py:171-176 | The handler puts the unpublished events, in arrival order, in front of the buffer. |
| ParquetWriter.PublishingKeepsExactlyOnce | src/polarix/ingestion/parquet_writer.py:146-173 | Publishing any prefix of the partitions and keeping the rest preserves, for each symbol and hour, published rows followed by buffered events = events added. |
| ParquetWriter.FlushKeepsSound | src/polarix/ingestion/parquet_writer.py:134-178 | One flush preserves the whole invariant: exactly-once per key, one symbol and hour per file, unique sequence numbers, requeue order, row counters. |
| ParquetWriter.FilesHoldOneHour | src/polarix/ingestion/parquet_writer.py:142-150 | In every reachable writer the rows of a file share symbol and hour of receipt, and the file is labelled with both. |
| ParquetWriter.FlushSeparatesExactly | src/polarix/ingestion/parquet_writer.py:142-150 | Of the rows one flush publishes, two share a file exactly when they share symbol and hour. |
| ParquetWriter.FlushKeepsHoursWhole | src/polarix/ingestion/parquet_writer.py:171-173 | What a failed flush puts back shares no symbol and hour with what it published. |
| ParquetWriter.NothingLostOrDuplicated | src/polarix/ingestion/parquet_writer.py:106-178 | In every reachable writer, published rows plus buffered events are, as a multiset, the events added. |
| ParquetWriter.RowMetricIsExact | src/polarix/ingestion/parquet_writer.py:163-164 | rows_written equals the rows on disk, which is everything added except what still waits. |
| Compaction.Store.Compact | src/polarix/ingestion/compaction.py:99-217 | The complete effect of a run: report, outputs, deletions, and the state and report left by an unreadable source, a zero chunk size or a failing write; a run with a failing write never reports. |
| Compaction.Store.Survey | src/polarix/ingestion/compaction.py:124-166 | The first pass counts all rows and finds their true extremes, or stops at an unreadable file. |
| Compaction.GroupExtremes | src/polarix/ingestion/compaction.py:147-162 | Minimum and maximum of a row group, from statistics or from rows, are its true extremes. |
| Compaction.Store.WriteChunks | src/polarix/ingestion/compaction.py:167-190 | The second pass writes the sorted chunks in order, up to the one that fails. |
| Compaction.Store.DeleteSources | src/polarix/ingestion/compaction.py:199-204 | Deletes exactly the unlocked sources; deleted plus left is the number of sources. |
| Compaction.ChunksCoverTheList | src/polarix/ingestion/compaction.py:46-48 | Chunks are non-empty, no larger than the size, and concatenate to the list. |
| Compaction.OutputsArePermutation | src/polarix/ingestion/compaction.py:169-190 | Each output is a sorted permutation of its chunk's rows; together the outputs hold exactly the source rows. |
| Compaction.OutputsAreOrdered | src/polarix/ingestion/compaction.py:176-183 | In every output each row stands before the next ones by symbol in dictionary order, then receive time, then monotonic time. |
| Compaction.ValidationPassesAndGuardsDeletion | src/polarix/ingestion/compaction.py:191-204 | With a positive chunk size validation always passes; sources change only after a passed run, whose outputs hold all their rows. |
| Compaction.OverwriteBalance | src/polarix/ingestion/compaction.py:184-190 | Rows held after a run plus rows overwritten equal rows held before plus rows written. |
| Compaction.RunLosesNoRowIffCovered | src/polarix/ingestion/compaction.py:183-204 | A run that reports, whatever it deletes and whatever is locked, loses no row if and only if every row of an output it replaces is among its sources or in an output it leaves alone. |
| Compaction.CopiesExactIffNothingReplaced | src/polarix/ingestion/compaction.py:183-190 | Counting copies, the outputs hold what they held before plus each source row once if and only if the indices written held no row. |
| Compaction.RerunAfterLockLosesRows | src/polarix/ingestion/compaction.py:184 | Two runs in a row, the first with one source locked: both pass validation, and the row of the source deleted by the first, if it differs from the other one, is in no output after the second. |
| AsOfJoin.BestMatch | src/polarix/alignment/alignment_contract.py:56-75 | The brute-force reference: the result matches and is the greatest matching index, or nothing matches. |
| AsOfJoin.BisectRight | src/polarix/alignment/alignment_contract.py:58 | The number of quotes at or before the event's millisecond, by bisection. |
| AsOfJoin.MakeSlice | src/polarix/alignment/alignment_contract.py:29-39 | Construction succeeds exactly for equal lengths and non-decreasing times; unequal lengths are reported first. |
| AsOfJoin.AlignOne | src/polarix/alignment/alignment_contract.py:45-83 | Bisection plus the early-exit backward scan returns what brute force over all quotes returns, errors included. |
| AsOfJoin.AlignedQuoteIsLastUsable | src/polarix/alignment/alignment_contract.py:45-83 | An aligned event carries time, mid, spread and distance of the last quote that is safe, not later than the event's millisecond and at most the tolerance older; without such a quote it carries none. |
| AsOfJoin.AlignMany | src/polarix/alignment/alignment_contract.py:86-95 | One result per event in order, or the error of the first event that has one. |
| AsOfJoin.AlignOneEvent | src/polarix/alignment/alignment_quality.py:193-214 | The report's join returns the brute-force match, and otherwise the reason that holds of the quotes. |
| AsOfJoin.ReasonsPartitionFailures | src/polarix/alignment/alignment_quality.py:196-214 | The four reasons, stated over the quotes, exclude one another and cover exactly the events without a match. |
| AsOfJoin.ReasonsMean | src/polarix/alignment/alignment_quality.py:196-214 | Each reason in terms of the quotes' times and flags alone. |
| AsOfJoin.BothJoinsAgree | src/polarix/alignment/alignment_contract.py:45-83 | The two implementations select the same quote at the same distance. |
| AsOfJoin.FutureQuotesIgnored | src/polarix/alignment/alignment_contract.py:56-61 | Quotes later than the event's millisecond never change a match. |
| AsOfJoin.WideningKeepsMatches | src/polarix/alignment/alignment_contract.py:61-63 | Widening the tolerance keeps every match at the same index. |
| AlignmentQuality.TolerancesAreExact | src/polarix/alignment/alignment_quality.py:82-88 | The normalised tolerances are the positive ones and the required one, each once, ascending; a non-positive required one is refused. |
| AlignmentQuality.PerSymbolMetrics | src/polarix/alignment/alignment_quality.py:217-347 | Every counter, volume, hourly entry, matched index and sample of the report is exact over all trades. |
| AlignmentQuality.Diagnose | src/polarix/alignment/alignment_quality.py:314-339 | The per-tolerance counts and volumes are those of the join at each tolerance. |
| AlignmentQuality.Classify | src/polarix/alignment/alignment_quality.py:240-281 | The chain of checks on one trade yields its fate. |
| AlignmentQuality.EventWindow | src/polarix/alignment/alignment_quality.py:384-388 | The window is the true minimum and maximum, absent for no events. |
| AlignmentQuality.MetricsConserve | src/polarix/alignment/alignment_quality.py:310-311 | Aligned plus the sum over reasons equals the total, for trades and for volume. |
| AlignmentQuality.TotalsMean | src/polarix/alignment/alignment_quality.py:240-298 | Totals and aligned counts and volumes are those of all trades and of the valid ones with a usable quote, a missing size counting as zero. |
| AlignmentQuality.HoursMean | src/polarix/alignment/alignment_quality.py:257-298 | Each hourly entry counts the valid trades within that hour of some UTC day, and the used ones among them. |
| AlignmentQuality.LossesMean | src/polarix/alignment/alignment_quality.py:240-294 | Each reason's count and volume are those of the trades lost to it. |
| AlignmentQuality.UnknownsMean | src/polarix/alignment/alignment_quality.py:252-255 | Trades of unknown aggressor are the valid ones marked UNKNOWN, in count and volume. |
| AlignmentQuality.DiagnosticsMean | src/polarix/alignment/alignment_quality.py:314-339 | Each diagnostic entry counts the trades with a usable quote at its tolerance. |
| AlignmentQuality.HoursConserve | src/polarix/alignment/alignment_quality.py:257-298 | The hourly totals add up to the valid trades and the hourly matches to the aligned count. |
| AlignmentQuality.DiagnosticsMonotone | src/polarix/alignment/alignment_quality.py:314-339 | Diagnostic counts and volumes never fall as the tolerance grows, and the entry at the configured tolerance equals the main count. |
| AlignmentQuality.ShortCircuitIsExact | src/polarix/alignment/alignment_quality.py:410-419 | When the widened windows do not meet, an event still aligns exactly when its millisecond lies the tolerance after a join-safe last quote; so no whole-millisecond event does, and none at one millisecond less. |
| AlignmentQuality.ShortCircuitLosesAMatch | src/polarix/alignment/alignment_quality.py:410-419 | The bound is tight: a concrete event that the window test discards although it aligns. |
| StageDependencies.EvaluateStageTrust | src/polarix/orchestration/stage_dependencies.py:239-293 | Trust is exactly: present, raw data trusted, every real dependency trusted. |
| StageDependencies.FirstUpstreamFailed | src/polarix/orchestration/stage_dependencies.py:315-321 | Finds the first unsatisfied dependency, or none exactly when there is none. |
| StageDependencies.ClassifyDay | src/polarix/orchestration/stage_dependencies.py:296-312 | Failed iff a required stage is unsatisfied, partial iff only optional ones are, complete iff none; a missing status counts as unsatisfied. |
| StageDependencies.HasUpstream | src/polarix/orchestration/stage_dependencies.py:345-359 | The worklist ends on every finite graph, cyclic or not, and answers true exactly when a non-empty dependency path exists. |
| StageDependencies.ZombieArtifactRisk | src/polarix/orchestration/stage_dependencies.py:324-342 | True exactly when an unsatisfied stage has a present artifact downstream of it. |
| DayOrchestrator.DefaultGraphIsTopological | src/polarix/orchestration/stage_dependencies.py:39-103 | The built-in graph has unique names and lists every dependency before its dependants. |
| DayOrchestrator.DefaultGraphStandsOnDownload | src/polarix/orchestration/stage_dependencies.py:39-103 | In the built-in graph every later stage stands, directly or not, on the download of the trades. |
| DayOrchestrator.FoldTrust | src/polarix/orchestration/pipeline_orchestrator.py:424-441 | The trust fold gives every stage its verdict over the final verdicts. |
| DayOrchestrator.DecideStage | src/polarix/orchestration/pipeline_orchestrator.py:445-599 | The branches of the loop body yield the decision, the record and whether the runner was called. |
| DayOrchestrator.StageLoop | src/polarix/orchestration/pipeline_orchestrator.py:442-601 | The loop decides a prefix of the stages, records each, and stops early exactly behind a failure that is not tolerated. |
| DayOrchestrator.ProcessDay | src/polarix/orchestration/pipeline_orchestrator.py:424-613 | The day's verdicts, statuses, records, executed stages, final status and stale-artifact warning. |
| DayOrchestrator.UnblockedMeansAncestorsSatisfied | src/polarix/orchestration/pipeline_orchestrator.py:461-489 | A stage that was not blocked has every ancestor satisfied, by induction over dependency paths. |
| DayOrchestrator.ExecutionNeedsSatisfiedAncestors | src/polarix/orchestration/pipeline_orchestrator.py:461-566 | A stage executes only if all its ancestors are satisfied. |
| DayOrchestrator.FailurePropagates | src/polarix/orchestration/pipeline_orchestrator.py:461-489 | An unsatisfied stage leaves every descendant skipped as blocked or unreached. |
| DayOrchestrator.BlockedHasACause | src/polarix/orchestration/pipeline_orchestrator.py:461-476 | A stage is blocked only by an unsatisfied stage among its own dependencies. |
| DayOrchestrator.LineageIsExact | src/polarix/orchestration/stage_dependencies.py:266-293 | A trust chain is intact exactly when the raw data is trusted and the artifacts of the stage and of all its ancestors exist. |
| DayOrchestrator.StatusIsExact | src/polarix/orchestration/pipeline_orchestrator.py:461-600 | The status of every reached stage: blocked by a dependency that is not satisfied, planned in a dry run, reused or refused by lineage when its artifact exists and no rebuild is asked for, and otherwise what its runner answered. |
| DayOrchestrator.ExecutedStatusIsAnswer | src/polarix/orchestration/pipeline_orchestrator.py:566-567 | An executed stage is OK exactly when its runner succeeded and failed otherwise. |
| DayOrchestrator.EmptyDiskDay | src/polarix/orchestration/pipeline_orchestrator.py:442-607 | Outside a dry run and with nothing on disk, the day is complete exactly when every runner succeeds, and then all stages execute in graph order. |
| DayOrchestrator.FailedExactly | src/polarix/orchestration/pipeline_orchestrator.py:602-607 | The day is failed exactly when some required stage was not reached or is neither fresh nor reused. |
| DayOrchestrator.VerdictMeans | src/polarix/orchestration/stage_dependencies.py:239-293 | The recorded trust: absent without an artifact, the raw data's own along an intact lineage, untrusted otherwise. |
| DayOrchestrator.OverwritePassesForce | src/polarix/orchestration/pipeline_orchestrator.py:446-448 | A stage that executes over an existing artifact gets the force flag exactly when it knows one. |
| DayOrchestrator.ReusedMeansNothingUpstreamRan | src/polarix/orchestration/pipeline_orchestrator.py:515-538 | An artifact reused as trusted stands on reused artifacts only: no ancestor executed in this run. |
| DayOrchestrator.NoSilentOverwrite | src/polarix/orchestration/pipeline_orchestrator.py:515-566 | A stage whose artifact exists executes only when a rebuild was asked for. |
| DayOrchestrator.CompleteIffAllSatisfied | src/polarix/orchestration/pipeline_orchestrator.py:602-607 | The day is complete iff the loop reached every stage and each is OK or reused as trusted. |
| DayOrchestrator.WarningIsExact | src/polarix/orchestration/pipeline_orchestrator.py:608-613 | Outside a dry run the stale-artifact warning is raised exactly when a reached stage has an artifact on disk below a reached stage that is not satisfied. |
| DayOrchestrator.WarningCoversDisk | src/polarix/orchestration/pipeline_orchestrator.py:600-613 | With continuation after failures the warning is exact for the whole disk. |
| DayOrchestrator.StoppedDayIsSilent | src/polarix/orchestration/pipeline_orchestrator.py:600-613 | A day that stops on its first stage never warns, although every artifact below that stage is stale. |
| DayOrchestrator.StaleNeverComplete | src/polarix/orchestration/pipeline_orchestrator.py:605-613 | A stale-artifact warning and a complete day exclude each other. |
| DayOrchestrator.DryRunPlansEveryStage | src/polarix/orchestration/pipeline_orchestrator.py:490-514 | The outcome of a dry run, whatever is on disk: every stage is reached and recorded as planned, none is blocked or reused, the runner is called for nothing, and the day ends complete without a warning. |
| StageRunner.RunDirectory.ExecuteStages | src/polarix/orchestration/runner.py:30-70 | Order is validated first, then metadata outside the run directory is refused; the steps form a trace of the runner's rules; the result lists every stage, or stops at a record that already exists. |
| StageRunner.RunDirectory.CheckOrder | src/polarix/orchestration/runner.py:31-39 | Accepts exactly the orders with well-formed unique names whose dependencies come earlier. |
| StageRunner.NamesAreSpelled | src/polarix/orchestration/runner.py:33-34 | A well-formed name is one lower-case ASCII letter followed by such letters, digits and underscores. |
| StageRunner.RunDirectory.Attempt | src/polarix/orchestration/runner.py:57-65 | Verify, act, verify again, record: the outcome for an arbitrary action on the files. |
| StageRunner.RunDirectory.VerifyArtifacts | src/polarix/orchestration/artifacts.py:53-62 | Succeeds exactly when every recorded path leads to a file inside the run directory that matches size and digest; otherwise reports the first record that does not, as escaping, missing or changed. |
| StageRunner.RunDirectory.RecordOutputs | src/polarix/orchestration/artifacts.py:43-50 | Records sizes and digests of the outputs in order, or the first error. |
| StageRunner.RunDirectory.Publish | src/polarix/orchestration/artifacts.py:29-40 | Publication never replaces an existing file. |
| StageRunner.RunDirectory.RunStage | src/polarix/orchestration/runner.py:43-69 | One pass of the loop: blocked, failed or passed, and its record published. |
| StageRunner.SkippedExactlyWhenBlocked | src/polarix/orchestration/runner.py:53-55 | A stage is skipped iff some direct dependency did not pass. |
| StageRunner.PassNeedsAllAncestors | src/polarix/orchestration/runner.py:53-63 | A stage passes only if all its transitive dependencies passed. |
| StageRunner.OutcomeIsExact | src/polarix/orchestration/runner.py:53-65 | A stage passes exactly when its dependencies passed, its action returned with nothing recorded damaged before or after it, and every output is a file inside the run directory; it then records path, size and digest of each; otherwise it fails, or is skipped if blocked, and records nothing. |
| StageRunner.AtPassEverythingVerifies | src/polarix/orchestration/runner.py:58-63 | At a pass every artifact recorded so far, the stage's own included, verifies. |
| StageRunner.PassingStageChangesNoArtifact | src/polarix/orchestration/runner.py:58-60 | Under a collision-free digest, the action of a passing stage left every earlier artifact byte for byte as it was. |
| StageRunner.RecordedArtifactsSurvive | src/polarix/orchestration/runner.py:41-63 | What a stage recorded is unchanged at every later pass, whatever the stages between did. |
| StageRunner.MetadataSurvives | src/polarix/orchestration/runner.py:41-42 | The metadata a run starts with is, at every pass, byte for byte as it was at the start. |
| StageRunner.FreshRunCompletes | src/polarix/orchestration/runner.py:43-69 | Where no stage record exists at the start and no action touches one, nothing ends a run early. |
| StageRunner.TamperingIsCaught | src/polarix/orchestration/runner.py:60-65 | A stage whose action damages a recorded artifact fails. |
| StageRunner.TamperingEndsTheRun | src/polarix/orchestration/runner.py:53-65 | After such a stage no later one acts or passes. |
| StageRunner.DamageIsPermanent | src/polarix/orchestration/runner.py:41-65 | A recorded artifact that once fails its check fails it ever after and no stage acts or passes from then on, unless a stage record is published under the artifact's own path. |

## Left out

- Floating point: statistics are real numbers, so rounding, overflow and NaN inputs are not modelled. A float division by zero is the one non-finite case kept (`Cell.NonFinite`); the numeric-type check of the export is left out with it.
- Column typing of data frames: aggressor sides other than BUY, SELL and UNKNOWN, null mids and null quote columns do not occur in the model's records.
- Stable order of ties: the builder's sorts are taken to be stable. The data-frame library promises this only on request, so first and last prices at equal times are as the file order gives them.
- Moments.ZScoreBounded: assumes that the root parameter returns an exact root of the variance at hand.
- Library quantiles of bars (spread, residual and size percentiles): a parameter; nothing is proved about their values.
- Parquet, Arrow, Polars and DuckDB input and output, globbing, directory layout, temporary files, retries with back-off, file names with random suffixes, bytes_written and failure texts.
- Links in the run directory: a path is described by where it leads, to a file inside or to a place outside; how links are followed, and dangling links inside, are left out.
- Row and schema entries that `artifact_record` adds for Parquet files: an artifact record is path, size and digest.
- Stage actions in the runner are functions of the files, so an action that also depends on time or randomness is one such function per run; metrics, timings and error texts of a record are left out.
- SHA-256 and UUID internals: the digest is an injective parameter where a lemma needs it, and row identities are compared before hashing.
- Resource guards, disk and memory probes, command lines and report texts of the daily orchestrator; the runner's answer per stage is a parameter, and detection of artifacts and of raw-data trust are inputs.
- Summaries of the alignment report (rates, deltas, prices, sizes): quotients and percentiles of the exact counts and matched indices, which are proved.
- Asynchronous signal exceptions during a flush, and `safe_replace` raising after it has replaced the file.
- Bucket-size parsing, configuration, run selection, run metadata, contract column lists, downloader, cost gate, supervisor, market terminal access and clock queries: case tables, constants or foreign calls that would add only easy members.
