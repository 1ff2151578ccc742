# Gas-cap impact analysis, modelled in Dafny

This project models the arithmetic core of a set of scripts that measure how a
per-transaction gas cap of 2^24 (16,777,216) would affect Ethereum mainnet
transactions. The scripts find the transactions above the cap. They count
them per sender and per recipient, and estimate what splitting those
transactions into pieces below the cap would cost.

The main pipeline analyses six months of blocks (`analyze_gas_cap_6months_partitioned.py`).
The gas-limit CDF generator (`generate_gas_limit_cdf.py`) works the same way.
Both split the block range into fixed-size batches and widen each batch to
whole 1000-block table partitions. They store one checkpoint record per batch
that succeeded and skip batches already stored. They then fold all stored
records into per-address accumulators or histogram buckets and derive the
report figures. The older scripts under `archive/` are modelled as well:
- the weekly-chunk runner;
- the single-run 30-day and extended scripts;
- the first version in `old.py`;
- the three concentration (Gini, top-N share) calculators.

Each module follows one part of the program:

| module | part of the program |
|---|---|
| `Base` | options, query replies, the shared constants, ceiling division, percentages, sums, first-appearance key order |
| `Folds`, `Tables`, `Sorting` | left folds in Python loop order, dict `setdefault`-and-merge, the descending sorts |
| `Planner` | partition alignment, batch plans, weekly chunks, day ranges |
| `Checkpoints` | the skip-if-stored / write-on-success runner |
| `Accumulators` | summary counters, per-address accumulators, split cost, efficiency statistics |
| `Partitioned` | `process_partition_batch` and `aggregate_results` of the six-month pipeline |
| `Cdf` | the bucket ladder, `aggregate_distributions`, `calculate_cdf` and its interpolation at the cap |
| `Weekly` | the weekly-chunk version of the six-month analysis |
| `Recipients` | the recipient-concentration fold, ranking and report, and the recipient sample |
| `Concentration` | the two Gini formulas, cumulative shares, top-N shares, user categories |
| `TxAnalysis` | the window loop, affected filter and per-sender tables of the 30-day and extended scripts, and `old.py` |

Averages are exact rationals (`real`): a batch's average times its count is
summed, so the merged mean is the true mean. Block numbers are `int`. For a
positive divisor Dafny's `/` and `%` agree with Python's `//` and `%`.

## Model

| member | source | states |
|---|---|---|
| `Planner.AlignDown` | analyze_gas_cap_6months_partitioned.py:59 | the aligned start is a multiple of the partition size, at most the block and more than one partition below it |
| `Planner.AlignUp` | analyze_gas_cap_6months_partitioned.py:60 | the aligned end is a multiple of the partition size, at least the end and less than one partition above it |
| `Planner.Align` | generate_gas_limit_cdf.py:60-61 | the widened window consists of whole partitions, contains the requested window and overshoots by less than one partition on each side |
| `Planner.AlignIsMinimal` | analyze_gas_cap_6months_partitioned.py:59-60 | every partition-aligned window containing the request contains the widened one, so the widening is the smallest possible |
| `Planner.AlignExamples` | archive/tests/test_calculations.py:21-34 | the five widenings the alignment tests expect, e.g. (5001, 5999) to (5000, 6000) and (0, 1) to (0, 1000) |
| `Planner.NumBatches` | analyze_gas_cap_6months_partitioned.py:810 | the batch count is the ceiling of total blocks over batch size: n-1 batches fall short, n suffice |
| `Planner.Plan` | analyze_gas_cap_6months_partitioned.py:809-817 | the plan has one window per batch, window k being `[start + k*size, min(start + (k+1)*size, latest))` |
| `Planner.PlanIsContiguous` | analyze_gas_cap_6months_partitioned.py:802-817 | the windows are non-empty, at most one batch long, start at `latest - total`, end at `latest`, and each starts where the previous ends |
| `Planner.PlanTiles` | generate_gas_limit_cdf.py:277-285 | a block lies in window k exactly when it lies in `[latest - total, latest)` and k is its offset divided by the batch size, so every block of the range is in exactly one window |
| `Planner.AlignedNeighboursOverlap` | analyze_gas_cap_6months_partitioned.py:59-60 | after widening, neighbouring windows overlap exactly when the start block is not a multiple of the partition size, and then by exactly one partition |
| `Planner.AlignedPlanDisjoint` | analyze_gas_cap_6months_partitioned.py:802-817 | when the start block is partition-aligned, the widened windows are pairwise disjoint |
| `Planner.BatchCounts` | generate_gas_limit_cdf.py:277-281 | 180 days in batches of 10 partitions make 130 batches; the CDF's range in batches of 20 partitions makes 66 |
| `Planner.ChunksAreAPlan` | archive/scripts/analyze_gas_cap_6months.py:318-322 | 180 // 7 = 25 weekly chunks of 50,400 blocks each, tiling `[latest - 180 days, latest - 5 days)`, so the newest five days are never analysed |
| `Planner.DaysRange` | archive/scripts/analyze_gas_cap_impact_extended.py:48-73 | the range ends at the latest block, or at 22,678,052 when the lookup failed, and spans `days * 7200` blocks |
| `Planner.ThirtyDayRange` | archive/scripts/analyze_gas_cap_30days.py:31-65 | the 30-day query covers both endpoints: 216,001 blocks, from `latest - 216000` to `latest` inclusive |
| `Checkpoints.RunFrom` | analyze_gas_cap_6months_partitioned.py:819-826 | every batch the runner processes is in range, was not stored, and batches are processed in increasing order, each once |
| `Checkpoints.RunStore` | analyze_gas_cap_6months_partitioned.py:819-826 | stored records are never changed; a new record is exactly what its batch wrote; every batch that wrote is stored |
| `Checkpoints.RunStopsOnRaise` | archive/scripts/analyze_gas_cap_6months.py:318-331 | a raised exception ends the run: nothing after the first aborted batch is processed |
| `Checkpoints.RunCoversMissing` | analyze_gas_cap_6months_partitioned.py:819-826 | a run that is not aborted processes every missing batch |
| `Checkpoints.ResumeProcessesOnlyMissing` | analyze_gas_cap_6months_partitioned.py:819-823 | on a second run a batch is processed only if it was missing and not written by the first run; over two clean runs a missing batch is processed once if the first run wrote it, else twice |
| `Partitioned.ProcessBatch` | analyze_gas_cap_6months_partitioned.py:55-213 | a batch is written exactly when the summary query returned a row; the record holds the aligned window, the summary, the sender and recipient rows or `[]` when their query failed, and the efficiency row or nothing |
| `Partitioned.SixMonthRunRecords` | analyze_gas_cap_6months_partitioned.py:802-826 | every record a run adds has an id below 130, its own id, the aligned window of its batch and a summary |
| `Partitioned.AccumulateOrderIndependent` | analyze_gas_cap_6months_partitioned.py:220-302 | the merged totals depend only on which records were loaded, not on their file order |
| `Partitioned.AccumulateSummary` | analyze_gas_cap_6months_partitioned.py:249-252 | each summary total is the sum over all records, a record without summary contributing 0 |
| `Partitioned.SenderTableKeys` | analyze_gas_cap_6months_partitioned.py:255-274 | the sender table has an entry exactly for the addresses some record lists |
| `Partitioned.RecipientTableKeys` | analyze_gas_cap_6months_partitioned.py:277-290 | the recipient table has an entry exactly for the addresses some record lists |
| `Partitioned.AccumulatedSendersAffected` | analyze_gas_cap_6months_partitioned.py:268-274 | if every stored sender row has a count, an average above the cap and a maximum at least the average, every merged sender does too |
| `Partitioned.AccumulatedEfficiencyConsistent` | analyze_gas_cap_6months_partitioned.py:293-302 | only rows with something counted contribute; the merged counts stay equal, unnecessary stays at most total, and the minimum exists exactly when something was counted |
| `Partitioned.FinalEfficiency` | analyze_gas_cap_6months_partitioned.py:345-356 | the efficiency figures exist exactly when something was counted; averages times the count give the sums; the unnecessary share is the unnecessary count as a percentage of the total (0 for a zero total) and within 0..100; the efficiency times the summed limit gives the summed usage (0 when no limit was summed) |
| `Partitioned.AggregateResults` | analyze_gas_cap_6months_partitioned.py:220-378 | both lists are sorted busiest first, the top lists are their first 50, the three totals are the sums over the records, the percentage is the affected share of a positive total and 0 for an empty one, the efficiency section is the final statistics of the merged efficiency rows, and the extra gas and ether totals sum `count` times each line's extra gas and cost |
| `Partitioned.AggregateTiesKeepFirstAppearance` | analyze_gas_cap_6months_partitioned.py:340-342 | the sort is stable: lines with the same count keep the order in which the records first list their addresses, for senders and recipients |
| `Partitioned.AggregateSenderLines` | analyze_gas_cap_6months_partitioned.py:305-326 | the sender list holds one line per merged sender, no address twice, each line the report of that sender's accumulator |
| `Partitioned.AggregateRecipientLines` | analyze_gas_cap_6months_partitioned.py:329-338 | the recipient list holds one line per merged recipient, no address twice, each line the report of that recipient's accumulator |
| `Partitioned.TopSendersAreLargest` | analyze_gas_cap_6months_partitioned.py:341-364 | no address of the merged sender table that the top 50 leave out, listed further down or not, has more transactions than one in it |
| `Partitioned.AggregateAffectedSenders` | analyze_gas_cap_6months_partitioned.py:305-369 | for affected rows, every listed sender averages above the cap and needs at least two transactions, and the total additional gas is at least 21,000 per listed transaction |
| `Partitioned.TotalAdditionalGasBound` | analyze_gas_cap_6months_partitioned.py:366-369 | when every line costs at least 21,000 gas per transaction, the total is at least 21,000 times the transaction count |
| `Accumulators.AffectedPercentage` | analyze_gas_cap_6months_partitioned.py:362 | the percentage is 0 for an empty total, else the affected share of the total times 100, within 0..100 |
| `Accumulators.GasOf` | analyze_gas_cap_6months_partitioned.py:268-271 | a row's weighted sum divided by its count gives back its average |
| `Accumulators.RowIsAffected` | analyze_gas_cap_6months_partitioned.py:268-274 | a row with a count, an average above the cap and a maximum at least the average is an affected accumulator |
| `Accumulators.PlusKeepsAffected` | analyze_gas_cap_6months_partitioned.py:268-274 | merging two affected accumulators gives an affected accumulator |
| `Accumulators.AffectedMean` | analyze_gas_cap_6months_partitioned.py:307 | an affected accumulator's mean is above the cap and at most its maximum |
| `Accumulators.GasMergeLaws` | analyze_gas_cap_6months_partitioned.py:287-290 | the gas merge is commutative and associative with the empty accumulator as identity |
| `Accumulators.SenderMergeLaws` | analyze_gas_cap_6months_partitioned.py:268-274 | the sender merge is commutative and associative with the empty accumulator as identity |
| `Accumulators.EffMergeLaws` | analyze_gas_cap_6months_partitioned.py:295-302 | the efficiency merge is commutative and associative with the initial statistics as identity |
| `Accumulators.MergeExample` | archive/tests/test_gas_cap_analysis.py:211-235 | 5 transactions at 20,000,000 and 3 at 22,000,000 merge to 8 at mean 20,750,000, maximum 26,000,000 and excess 31,800,000; recipients 8 + 5 = 13; efficiency 25 counted, 7 unnecessary (28%), minimum 12,000,000, maximum 20,000,000 |
| `Accumulators.Splits` | analyze_gas_cap_6months_partitioned.py:313 | the split count is the ceiling of average over cap: n-1 transactions at the cap hold less than the average, n hold it |
| `Accumulators.SplitsAboveCap` | analyze_gas_cap_6months_partitioned.py:313-314 | an average above the cap needs at least two transactions and at least 21,000 extra gas; an average at most the cap needs one and none |
| `Accumulators.SplitsExamples` | archive/tests/test_gas_cap_analysis.py:449-482 | the cap itself needs 1 transaction, cap+1 needs 2, 2·cap needs 2, 2·cap+1 needs 3, 3·cap+1 needs 4 |
| `Accumulators.SenderReportOf` | analyze_gas_cap_6months_partitioned.py:305-326 | the final line keeps count, maximum and excess; average gas and price times the count give the sums; splits is the ceiling of average over cap and extra gas is 21,000 per extra transaction |
| `Accumulators.AffectedReport` | analyze_gas_cap_6months_partitioned.py:305-326 | an affected sender's line averages above the cap, below its maximum, and needs at least two transactions |
| `Accumulators.RecipientReportOf` | analyze_gas_cap_6months_partitioned.py:329-338 | the final recipient line keeps count and maximum, and its average times the count gives the sum |
| `Accumulators.MinOpt` | analyze_gas_cap_6months_partitioned.py:300 | the minimum of two optional values (None standing for infinity) is one of them and at most each |
| `Accumulators.EffConsistentMerge` | analyze_gas_cap_6months_partitioned.py:295-302 | merging a counted efficiency row keeps the statistics consistent and makes them non-empty |
| `Cdf.BucketIsLeastBoundary` | generate_gas_limit_cdf.py:68-82 | a gas limit up to 30,000,000 goes to the smallest ladder boundary at least as large; above it goes to 30,000,001 |
| `Cdf.BucketMonotone` | generate_gas_limit_cdf.py:68-82 | a larger gas limit never goes to a smaller bucket |
| `Cdf.BucketSeparatesCap` | generate_gas_limit_cdf.py:78 | a gas limit's bucket is at most the cap exactly when the gas limit is; the cap is its own bucket |
| `Cdf.ProcessDistributionBatch` | generate_gas_limit_cdf.py:58-124 | a batch is written exactly when its query returned rows, with the aligned window and those rows; a failure never aborts the run |
| `Cdf.CdfRunRecords` | generate_gas_limit_cdf.py:277-294 | a run never aborts; a batch with no rows stays missing; every added record has an id below 66, the rows of its query and its aligned window |
| `Cdf.BucketMergeLaws` | generate_gas_limit_cdf.py:141-154 | the bucket merge (counts add, sums add, min of minima, max of maxima) is commutative and associative with identity |
| `Cdf.BucketVal` | generate_gas_limit_cdf.py:146-154 | a row's weighted sum divided by its count gives back its average; count, minimum and maximum are kept |
| `Cdf.BucketsOrderIndependent` | generate_gas_limit_cdf.py:126-154 | the merged buckets do not depend on the order of the checkpoint files |
| `Cdf.BucketTableKeys` | generate_gas_limit_cdf.py:141-154 | there is a bucket exactly for the boundaries some record reports, each with a minimum |
| `Cdf.LineOf` | generate_gas_limit_cdf.py:156-165 | an output row keeps the bucket's count, minimum and maximum; its average times the count is the sum, and 0 for an empty bucket |
| `Cdf.DistributionIsTable` | generate_gas_limit_cdf.py:156-167 | the distribution has one row per merged bucket, each the line of that bucket, in strictly increasing boundary order |
| `Cdf.FirstReaching` | generate_gas_limit_cdf.py:193-195 | the index found is the first row whose boundary reaches the cap: all earlier rows are below it |
| `Cdf.CapPercentage` | generate_gas_limit_cdf.py:191-208 | the cap share is absent exactly when no boundary reaches the cap; it is row 0's share when row 0 reaches it; otherwise it lies between the shares of the rows around the cap, on the straight line through those two rows (its rise over the previous share, times the boundaries' gap, equals the cap's distance from the previous boundary times the shares' gap), and equals the upper share when that boundary is the cap |
| `Cdf.CalculateCdf` | generate_gas_limit_cdf.py:169-210 | the rows are the input lines sorted by boundary with running counts and shares; the total is the summed count; there is no result only for a non-empty input of zero total |
| `Cdf.CdfIsCumulative` | generate_gas_limit_cdf.py:172-189 | cumulative counts and shares never decrease, shares stay within 0..100, and the last row holds the total and 100% |
| `Cdf.CapPercentageExample` | generate_gas_limit_cdf.py:201-205 | rows at 10,000,000 (70%) and 20,000,000 (90%) interpolate to 83.554432% at the cap |
| `Weekly.ProcessChunk` | archive/scripts/analyze_gas_cap_6months.py:58-115 | a failing summary query, or a failing address query after a non-empty summary, aborts the run; an empty summary writes nothing; otherwise the chunk is written with its window, summary and rows |
| `Weekly.WeeklyRunRecords` | archive/scripts/analyze_gas_cap_6months.py:318-331 | every added chunk has an id below 25, its own window and its query's rows; an empty summary leaves the chunk missing; an aborted run met an aborting chunk |
| `Weekly.ChunksOrderIndependent` | archive/scripts/analyze_gas_cap_6months.py:140-170 | the merged totals do not depend on the order of the chunk files |
| `Weekly.ChunksAccumulateLikeBatches` | archive/scripts/analyze_gas_cap_6months.py:140-170 | merging chunks gives the same summary and sender table as merging them as six-month batch records |
| `Weekly.WeeklyLinesAgree` | archive/scripts/analyze_gas_cap_6months.py:172-191 | the final lines exist exactly when no merged address has a zero count, and then equal the six-month pipeline's lines |
| `Weekly.WeeklyAggregate` | archive/scripts/analyze_gas_cap_6months.py:172-203 | the total is the sum of the chunk summaries, the percentage is 0 for an empty total, and the top list is sorted busiest first, holds `min(50, addresses)` lines, and no merged address left out of it has more transactions than one in it |
| `Weekly.WeeklyAggregateDefined` | archive/scripts/analyze_gas_cap_6months.py:175-176 | the aggregate is defined exactly when no merged address has a zero count |
| `Weekly.WeeklyAggregateOnQueryRows` | archive/scripts/analyze_gas_cap_6months.py:140-176 | rows with positive counts, as the grouped query returns, always give a defined aggregate |
| `Weekly.WeeklyAgreesWithPartitioned` | archive/scripts/analyze_gas_cap_6months.py:172-203 | the weekly totals, percentage, address count, top 50 and ether total equal those of the six-month pipeline on the same records |
| `Recipients.OverCap` | archive/scripts/analyze_recipient_concentration.py:39-43 | only transactions above the cap are kept, in their order |
| `Recipients.StatsMergeLaws` | archive/scripts/analyze_recipient_concentration.py:45-63 | the per-recipient merge is commutative and associative with identity |
| `Recipients.ConsistentMerge` | archive/scripts/analyze_recipient_concentration.py:56-63 | merging keeps excess equal to total gas minus cap times count, total above cap times count, total at most count times max, and 1..count senders |
| `Recipients.LoadIsOneFold` | archive/scripts/analyze_recipient_concentration.py:35-65 | loading batch by batch equals one fold over all transactions above the cap, with their number as the total |
| `Recipients.LoadedConsistent` | archive/scripts/analyze_recipient_concentration.py:56-63 | every loaded recipient's statistics are consistent |
| `Recipients.LoadedTotals` | archive/scripts/analyze_recipient_concentration.py:65 | the table has an entry exactly for the recipients seen, and the total equals the sum of their counts |
| `Recipients.CostEthOf` | archive/scripts/analyze_recipient_concentration.py:84 | the cost in ether times 10^18 is the excess times 21,000 |
| `Recipients.LineFacts` | archive/scripts/analyze_recipient_concentration.py:76-85 | a recipient's line averages above the cap and at most its maximum, has 1..count senders, a positive excess equal to total minus cap times count, and a positive cost |
| `Recipients.RankFacts` | archive/scripts/analyze_recipient_concentration.py:88-89 | ranking reorders the lines without losing any, uses ranks 1..n once each, and a better rank never has fewer transactions |
| `Recipients.TableCounts` | archive/scripts/analyze_recipient_concentration.py:65-89 | the ranked counts add up to the loaded total and are all positive |
| `Recipients.RecipientReport` | archive/scripts/analyze_recipient_concentration.py:93-108 | there is a report exactly when some transaction is above the cap |
| `Recipients.RankedCountsSorted` | archive/scripts/analyze_recipient_concentration.py:88 | the ranked counts are the counts sorted in descending order |
| `Recipients.ReportFigures` | archive/scripts/analyze_recipient_concentration.py:97-126 | the report's total is the loaded total; top-10 ≤ top-50 ≤ top-100 shares within 0..100; the coefficient is the Gini of the ascending counts, within 0..(n-1)/n |
| `Recipients.SampleRanks` | archive/scripts/analyze_recipient_sample.py:63-64 | sample lines keep the query's order, are ranked 1..n in that order, and cost excess times 21,000 / 10^18 ether |
| `Recipients.SampleShares` | archive/scripts/analyze_recipient_sample.py:85-89 | the top shares are 0 when the separate total is 0, otherwise top-10 ≤ top-50, within 0..100 when the rows do not exceed the total |
| `Recipients.SampleCoefficient` | archive/scripts/analyze_recipient_sample.py:91-101 | the coefficient is 0 for no rows or zero counts, otherwise the ascending Gini of the counts |
| `Concentration.GiniInOrder` | archive/scripts/generate_affected_party_analysis.py:130-132 | the formula is defined exactly for a non-empty sequence with a positive sum, as the rank-weighted balance over n times the sum |
| `Concentration.RecipientGini` | archive/scripts/analyze_recipient_concentration.py:105-108 | the recipient formula is defined exactly for a non-empty sequence with a positive sum |
| `Concentration.GiniFormsAgree` | archive/scripts/analyze_recipient_concentration.py:105-108 | the recipient formula and the affected-party formula give the same value on the same sequence |
| `Concentration.ReversalNegates` | archive/scripts/generate_affected_party_analysis.py:74-132 | reversing the sequence negates the formula's value |
| `Concentration.AscendingGiniBounds` | archive/scripts/analyze_recipient_concentration.py:105-108 | on ascending counts the coefficient lies within 0..(n-1)/n |
| `Concentration.GiniOfEqualCounts` | archive/tests/test_edge_cases.py:192-217 | equal counts have coefficient 0 |
| `Concentration.GiniOfOneHolder` | archive/tests/test_edge_cases.py:192-217 | all mass on the last of n holders gives (n-1)/n |
| `Concentration.ReverseOfDescendingSort` | archive/scripts/generate_affected_party_analysis.py:74 | the descending sort reversed is the ascending sort |
| `Concentration.AscendingGini` | archive/scripts/analyze_recipient_concentration.py:105-108 | the coefficient of the counts sorted ascending exists exactly for a non-empty positive total and lies within 0..(n-1)/n |
| `Concentration.AffectedPartyGiniIsNegated` | archive/scripts/generate_affected_party_analysis.py:74-132 | the figure the affected-party report computes on its descending sort is the negated Gini, so never positive |
| `Concentration.AffectedPartyGiniExample` | archive/scripts/generate_affected_party_analysis.py:130-132 | counts 1 and 3 are reported as -0.25 where the Gini is 0.25 |
| `Concentration.RecipientReportGiniIsGini` | archive/scripts/analyze_recipient_concentration.py:105-108 | the recipient report's coefficient equals the ascending Gini and lies within 0..(n-1)/n |
| `Concentration.SampleGiniIsGuarded` | archive/scripts/analyze_recipient_sample.py:91-101 | the guarded coefficient is 0 for empty or zero input, otherwise the ascending Gini, always within 0..1 |
| `Concentration.CumulativePct` | archive/scripts/generate_affected_party_analysis.py:77-79 | the running shares exist unless the total is 0 for a non-empty input, one per row, each the prefix sum over the total times 100 |
| `Concentration.LorenzCurve` | archive/scripts/generate_affected_party_analysis.py:74-79 | on the descending sort the running shares never decrease, stay within 0..100 and end at 100 |
| `Concentration.TopShare` | archive/scripts/generate_affected_party_analysis.py:300-307 | the top-k share exists for a positive total and is the sum of the k largest counts over the total times 100 |
| `Concentration.TopSharesOrdered` | archive/scripts/generate_affected_party_analysis.py:300-307 | a smaller top group never has a larger share, and shares lie within 0..100 |
| `Concentration.CategoriesAgree` | archive/scripts/generate_affected_party_analysis.py:27-31 | each count lies in exactly one of light, medium, heavy, and the binning agrees with it for every count ≥ 1 and leaves 0 unbinned |
| `Concentration.CategoriesPartition` | archive/scripts/generate_affected_party_analysis.py:321-324 | heavy, medium and light users add up to all addresses |
| `TxAnalysis.Filter` | archive/old/old.py:136 | the selection keeps exactly the rows satisfying the predicate, never more rows than the input |
| `TxAnalysis.FilterTwice` | archive/scripts/analyze_gas_cap_impact_extended.py:115 | filtering by a weaker predicate first does not change a stronger filter's result |
| `TxAnalysis.WindowQuery` | archive/scripts/analyze_gas_cap_impact_extended.py:98-116 | a window's query returns exactly the chain's transactions in that window above 1,000,000 gas |
| `TxAnalysis.WindowsTile` | archive/scripts/analyze_gas_cap_impact_extended.py:94-131 | the loop's windows are none for an empty range, otherwise non-empty, at most one batch long, contiguous from start to end, and ceil(length / batch) many |
| `TxAnalysis.WindowsCover` | archive/scripts/analyze_gas_cap_impact_extended.py:94-131 | a block lies in some window exactly when it lies in `[start, end)` |
| `TxAnalysis.GatherMembers` | archive/scripts/analyze_gas_cap_impact_extended.py:123-131 | the gathered rows are exactly the high-gas transactions of windows whose query did not raise |
| `TxAnalysis.FetchTransactions` | archive/scripts/analyze_gas_cap_impact_extended.py:94-131 | the loop visits the planned windows and concatenates their replies, a failing window contributing nothing |
| `TxAnalysis.FetchedRows` | archive/scripts/analyze_gas_cap_impact_extended.py:94-131 | every fetched row is a high-gas transaction of the range |
| `TxAnalysis.FetchedEverything` | archive/scripts/analyze_gas_cap_impact_extended.py:94-131 | when no query fails, the fetched rows are exactly the high-gas transactions of the range |
| `TxAnalysis.Percentage` | archive/scripts/analyze_gas_cap_impact_extended.py:166-171 | the percentage exists exactly for a positive total, is the affected share times 100, and lies within 0..100 when the affected count is at most the total (the total comes from a separate query or a fixed fallback, so the scripts do not guarantee that) |
| `TxAnalysis.ImpactFacts` | archive/scripts/analyze_gas_cap_30days.py:100-116 | the high-gas count is the number of rows; nothing is affected exactly when no row is above the cap; a missing summary means 21,600,000 transactions |
| `TxAnalysis.PrefilterKeepsAffected` | archive/scripts/analyze_gas_cap_impact_extended.py:115 | the 1,000,000-gas prefilter loses no transaction above the cap |
| `TxAnalysis.AffectedOfRange` | archive/scripts/analyze_gas_cap_impact_extended.py:166-171 | when no query fails, the affected rows are exactly the range's transactions above the cap |
| `TxAnalysis.GroupMatches` | archive/scripts/analyze_gas_cap_30days.py:125-130 | a sender has a group exactly when it sent an affected transaction; the group holds its count, gas sum, maximum and price sum |
| `TxAnalysis.AffectedGroupSound` | archive/scripts/analyze_gas_cap_30days.py:125-142 | a group of transactions above the cap has gas sum above cap times count and at most count times maximum |
| `TxAnalysis.RoundHalfEven` | archive/scripts/analyze_gas_cap_30days.py:130 | `round(0)` gives an integer within one half of the value, and the even one on a tie |
| `TxAnalysis.RoundToNearest` | archive/scripts/analyze_gas_cap_30days.py:130 | a value strictly within one half of an integer rounds to it |
| `TxAnalysis.SendersComplete` | archive/scripts/analyze_gas_cap_30days.py:125-130 | the table's senders are exactly those of the affected transactions |
| `TxAnalysis.SenderImpactFacts` | archive/scripts/analyze_gas_cap_30days.py:136-152 | a sender's excess is its gas above count times the cap and positive; its mean is above the cap and at most its maximum; it needs ceil(mean / cap) ≥ 2 transactions and at least one extra transaction's cost |
| `TxAnalysis.SenderTableSenders` | archive/scripts/analyze_gas_cap_30days.py:125-154 | the table lists each sender of an affected transaction exactly once, busiest first |
| `TxAnalysis.SenderTableRows` | archive/scripts/analyze_gas_cap_impact_extended.py:187-216 | every table row describes its sender's affected transactions: count, gas sum, excess, splits and a non-negative cost |
| `TxAnalysis.TopFiftyBusiest` | archive/scripts/analyze_gas_cap_30days.py:154-156 | the top list is the first min(50, n) rows, none busier outside it |
| `TxAnalysis.SplitCostFacts` | archive/old/old.py:189-194 | ceil(gas limit / cap) transactions are needed, at least two exactly for an affected transaction, which then has a positive excess and an extra fee of the extra base cost times its price |
| `TxAnalysis.SplittingCostsFacts` | archive/old/old.py:170-210 | the table has one row per affected transaction, in descending fee order, each the split cost of an affected transaction |
| `TxAnalysis.AddressTable` | archive/old/old.py:125-168 | the address table has one row per distinct affected sender |
| `TxAnalysis.AddressTableRows` | archive/old/old.py:142-166 | each row's count, gas sum and positive excess describe its sender, and its estimate ceil(excess / cap) is between 1 and the per-transaction extra count |
| `TxAnalysis.EstimateAtMostSplits` | archive/old/old.py:155-161 | the per-address estimate never exceeds the summed per-transaction extra transactions |
| `TxAnalysis.EstimateUndercountsExample` | archive/old/old.py:161 | two transactions of cap+1 gas need one extra transaction each but the address estimate is 1 |
| `TxAnalysis.MaxGasOf` | archive/old/old.py:236 | the maximum is at least every gas limit and reached by one (0 for none) |
| `TxAnalysis.CapImpactZero` | archive/old/old.py:223-262 | nothing is affected exactly when no row is above the cap, and then every figure is 0; the percentage exists exactly when there are rows |
| `TxAnalysis.CapImpactExcess` | archive/old/old.py:228-253 | the excess is the affected gas above cap times the count, positive, and the mean excess is the mean gas minus the cap |
| `TxAnalysis.CapImpactSpread` | archive/old/old.py:233-253 | the mean gas lies above the cap and at most the maximum; 1..affected distinct senders |
| `TxAnalysis.CapImpactFees` | archive/old/old.py:250-253 | the fee total is the sum of the per-transaction split fees, and is at least 21,000 gas at each affected transaction's own price summed over them |

## Left out

- The remote queries (COUNT, AVG, MAX, GROUP BY, the gas-used ratio) run on the database server. A batch's or window's reply is a parameter of the model, and a failure is a `Raised` reply.
- The latest-block lookup is a parameter. The weekly script looks it up again for every chunk; the model fixes one value.
- The `LIMIT 500000` of the 30-day query and the `LIMIT 1000` of the recipient sample are not modelled; the reply is whatever rows the server returned.
- File and JSON I/O: the checkpoint directory is a map from batch id to record. The code writes straight to the final file (`analyze_gas_cap_6months_partitioned.py:211-213`), so no crash-atomicity is claimed.
- The order in which checkpoint files are listed (`sorted(os.listdir(...))` sorts `chunk_10` before `chunk_2`) is not modelled. The merges are proved independent of record order instead.
- Report rendering, markdown and CSV output, and every chart.
- Daily and weekday breakdowns, transaction-type counts, the sample transaction hash, medians, percentiles, IQR and skewness.
- The `np.trapz` Lorenz-area Gini of the notebook checks.
- The outputs computed from the `gas_used` and `value` columns, which the model carries no field for: `original_gas_cost_wei`, `original_gas_cost_eth` and `cost_increase_percentage` (`archive/old/old.py:197-203`), the `gas_used` mean and sum columns of the per-sender tables (`archive/scripts/analyze_gas_cap_30days.py:127`, `archive/scripts/analyze_gas_cap_impact_extended.py:189`, `archive/old/old.py:144`), old.py's `value` sum (`archive/old/old.py:146`), and `avg_gas_efficiency` (`archive/scripts/analyze_gas_cap_30days.py:163-165`, `archive/scripts/analyze_gas_cap_impact_extended.py:223-225`). Nothing the model covers depends on them.
- Floating-point rounding: every average, share and ether amount the model computes is an exact rational.
- `Recipients.LoadCachedBatches`: each batch file is taken to hold per-transaction rows with `gas_limit`, `address_to` and `address_from` columns, as the loader reads them (`archive/scripts/analyze_recipient_concentration.py:32-62`). The directory it reads, `gas_cap_cache_6m`, is written by the six-month pipeline (`analyze_gas_cap_6months_partitioned.py:200-213`) with one aggregated record per batch and no such columns. On those files the column lookup raises, uncaught. That failure is not modelled; the model describes the loader on files of the shape it expects.
- `TxAnalysis.CapImpactFees`: the fees are kept in wei; old.py's `/1e18` conversion to ether is left out.
- `TxAnalysis.SenderTableSenders`, `TxAnalysis.SplittingCostsFacts`, `TxAnalysis.AddressTableRows`, `Recipients.RankFacts`: the order among rows with equal sort keys is not stated, because pandas' default `sort_values` is not stable.
- `TxAnalysis.SenderTableRows`: the mean price column is rounded half to even like the other columns; the rounding of the count, gas and excess columns is the identity on integers and is not restated.
- `TxAnalysis.ImpactFacts`: the extended script's summary row comes from a separate query; its value is a parameter.
- The cap is fixed at 2^24, the value every script passes; other caps in old.py's list are not modelled.
- Address-label scripts, network scraping, argument parsing and the test scripts themselves; the tests serve only as sources of expected values.
- Widening to whole partitions makes neighbouring windows overlap by one partition whenever the start block is not a multiple of 1000, and it widens the last window's end past the latest block (`Planner.AlignedNeighboursOverlap`). The model keeps that behaviour; no claim of disjoint windows is made except for an aligned start.

## Findings

| source | as written | input that shows it | evidently intended | confidence | as-written member | corrected member |
|---|---|---|---|---|---|---|
| archive/scripts/generate_affected_party_analysis.py:74-132 | the Gini formula, which assumes ascending order, is applied to counts sorted in descending order, so the reported coefficient is the negated Gini (never positive) | address counts 1 and 3 give -0.25 | the Gini of the counts, 0.25 for that input and within 0..(n-1)/n in general, as the recipient script computes it | not executed | `Concentration.AffectedPartyGini` (`Concentration.AffectedPartyGiniIsNegated`, `Concentration.AffectedPartyGiniExample`) | `Concentration.AscendingGini` |
