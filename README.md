# perf_stats_analyzer, modelled in Dafny

perf_stats_analyzer watches performance-test results for regressions. Each
build of the performance suite stores one median per metric. The analyzer
does the following:

- turns the stored documents into `StatRecord`s (a normalised branch, a metric
  name, a timestamp and the median), ordered by timestamp;
- drops metrics known to be unstable;
- groups the records by branch and then by metric name;
- smooths every group that is long enough with a second-order Holt-Winters
  exponentially weighted moving average;
- runs two checks on each smoothed series:
  - the *instant* check: the relative change of the last two values is at
    most 3%;
  - the *long* check: over the trailing run of rising steps, the final value
    is at most 15% above the minimum of the last `window` values.

A merger folds the per-class XML reports into one report. Two notifier
scripts then decide whether to file a TargetProcess bug or post to Slack, and
whether Slack accepted the post.

The model works on values that are already parsed:

- source documents are `SourceRecord`s;
- reports are `TestSuite`s with integer counters;
- HTTP responses are a status code and a body.

Numbers are exact `real`s rather than IEEE doubles. Strings compare code point
by code point, as Python 2 compares them. The metaclass that synthesises
unittest classes becomes a function from smoothed series to named verdicts
(test class, test name, outcome).

Modules:

- `Seqs`: concatenation of sequences and of sequences of blocks.
- `Strings`: Python's string order and the string predicates.
- `Records`: the record types, and selecting the records with a given key.
- `Sorting`: `sorted` as a stable insertion sort, and `groupby` as maximal
  runs.
- `StatsData`: `get_branch`, `get_name`, the map-and-sort of
  `get_stats_data`, and `filter_excluded`.
- `Smoothing`: `holt_winters_second_order_ewma` and `trend`.
- `MovingAverages`: `get_moving_averages`.
- `Verdicts`: the instant and long checks and the named verdicts.
- `MergeResults`: the counter and case fold of `merge_test_results`.
- `NotifyTp` and `NotifySlack`: the notification gates.

`get_moving_averages` and `merge_test_results` each have two loops, and
`holt_winters_second_order_ewma` has one. These are methods with loop
invariants. Each method is proved equal to a specification function, and
lemmas state what those functions mean. Everything else in the core is a pure
function.

The checks run on the smoothed series, not on the medians. The Holt-Winters
slope can carry the level below zero even when every median is non-negative:
with window 2, the medians `100, 0, 0, 0, 0` are smoothed to levels ending in
`-164/27` and `-3388/405` (`Verdicts.OvershootFailsInstantCheck`). `trend`
divides by the earlier point, so the checks then behave differently:

- Against a negative earlier value, the instant check fails a series that
  keeps falling. It passes only when the last value is at least 1.03 times
  the earlier one. The overshoot above fails it by about 38%.
- When the window minimum is at or below zero, the long check always passes
  (`Verdicts.LongCheckNonPositiveMin`).

## Model

| member | source | states |
|---|---|---|
| StatsData.GetBranch | run_perf_time_analysis.py:73-74 | a branch that differs from the build is returned verbatim; the result is never longer than the branch |
| StatsData.StripPerf | run_perf_time_analysis.py:74 | `re.sub('_perf\d+', '', branch)` as a left-to-right scan, never longer than its input; its meaning is stated by `StatsData.StripPerfDeletes` and `StatsData.NoMatchUnchanged` |
| StatsData.StripPerfDeletes | run_perf_time_analysis.py:74 | when the branch equals the build, each `_perf` followed by one or more digits is deleted wherever it occurs: the greedy digit run goes with it, the prefix before it is kept, and the scan resumes after it |
| StatsData.NoMatchUnchanged | run_perf_time_analysis.py:74 | a branch with no `_perf<digit>` in it is left unchanged by the substitution |
| StatsData.GetBranchExamples | run_perf_time_analysis.py:73-74 | `release_perf12` built from itself becomes `release`; built from another build it stays `release_perf12` |
| StatsData.GetName | run_perf_time_analysis.py:76-77 | HTTP metrics are named by `name_with_test`, all others by `name` |
| StatsData.MapToStat | run_perf_time_analysis.py:79-82 | one `StatRecord` per hit, in hit order, built from the normalised branch, the chosen name, the datetime and the median |
| StatsData.GetStatsData | run_perf_time_analysis.py:79-83 | the records are ordered by timestamp and are a permutation of the mapped hits; records with equal timestamps keep their original order (stable sort) |
| StatsData.KeptIff | run_perf_time_analysis.py:38-41 | a metric is kept iff its name is not the tree-view load metric and does not start with `notifications` |
| StatsData.Kept | run_perf_time_analysis.py:38-45 | the `all(not exclude(m) …)` test over the exclusion list, spelled out by `StatsData.KeptIff` |
| StatsData.FilterExcluded | run_perf_time_analysis.py:44-45 | the output is an order-preserving subsequence of the input; every kept record occurs in it exactly as often as in the input, and no excluded record occurs |
| StatsData.GroupsInTimestampOrder | run_perf_time_analysis.py:79-89 | after the timestamp sort and the filter, every (branch, name) group's records are in timestamp order |
| StatsData.FilterExcludedConcat | run_perf_time_analysis.py:44-45 | filtering works record by record, so it distributes over concatenation |
| Sorting.SortBy | run_perf_time_analysis.py:79-83 | `sorted` keeps the length and the multiset of records |
| Sorting.SortBySorted | run_perf_time_analysis.py:87-88 | `sorted` orders the records by the key |
| Sorting.InsertSorted | run_perf_time_analysis.py:87-88 | inserting into a sorted sequence keeps it sorted |
| Sorting.InsertSelect | run_perf_time_analysis.py:87-88 | inserting a record puts it in front of the equal-keyed records and leaves every other key's records as they were |
| Sorting.SortByStable | run_perf_time_analysis.py:87-88 | for every key, the records with that key keep their relative order (stability) |
| Sorting.SortByStableAll | run_perf_time_analysis.py:79-83 | stability for all keys at once |
| Sorting.GroupBy | run_perf_time_analysis.py:87-88 | `groupby` gives no runs exactly for empty input; the first run has the first record's key; no run is empty |
| Sorting.GroupByUniform | run_perf_time_analysis.py:87-88 | every record in a run has that run's key |
| Sorting.GroupByMaximal | run_perf_time_analysis.py:87-88 | adjacent runs have different keys, so the runs are maximal |
| Sorting.GroupByFlatten | run_perf_time_analysis.py:87-88 | for every input, the runs laid end to end give back the input |
| Sorting.GroupBySorted | run_perf_time_analysis.py:87-88 | grouping sorted records gives one run per distinct key, in strictly ascending key order, each holding exactly that key's records in input order |
| Sorting.SortedRunsGroup | run_perf_time_analysis.py:87-88 | `groupby(sorted(s))` yields exactly the groups of `s`, ascending, each in the order of `s` |
| Records.SelectIsSubsequence | run_perf_time_analysis.py:88-89 | a group is an order-preserving subsequence of the records it came from |
| Records.SelectKeepsSorted | run_perf_time_analysis.py:79-83 | records selected from timestamp-ordered data stay timestamp-ordered |
| Records.Values | run_perf_time_analysis.py:89 | `map(lambda r: r.value, …)` keeps length and order |
| Smoothing.Alpha | run_perf_time_analysis.py:189 | `alpha = 2/(1+span)`, in (0, 2] |
| Smoothing.HoltWinters | run_perf_time_analysis.py:191-192 | level and slope series have the input's length; `s[0] = x[0]`, `b[0] = 0` |
| Smoothing.HoltWintersAt | run_perf_time_analysis.py:193-195 | for every `i >= 1`: `s[i] = alpha*x[i] + (1-alpha)*(s[i-1]+b[i-1])` and `b[i] = beta*(s[i]-s[i-1]) + (1-beta)*b[i-1]` |
| Smoothing.Levels | run_perf_time_analysis.py:196 | the smoothed series has the same length as the group |
| Smoothing.HoltWintersSecondOrderEwma | run_perf_time_analysis.py:187-196 | the array-filling loop returns exactly the level series of the recurrence |
| Smoothing.ConstantStateAt | run_perf_time_analysis.py:193-195 | on a constant input every level is that constant and every slope is 0 |
| Smoothing.ConstantLevels | run_perf_time_analysis.py:187-196 | a constant input is smoothed to the same constant at every index |
| Smoothing.Trend | run_perf_time_analysis.py:199-206 | `trend`: the change from the last-but-one point to the last, relative to the former, or 0 against a zero baseline; its meaning is stated by `Smoothing.TrendSign` and the `Verdicts.TrendPercentAtMost…` lemmas |
| Smoothing.TrendOfLastTwo | run_perf_time_analysis.py:199-201 | `trend` depends only on the last two points |
| Smoothing.TrendSign | run_perf_time_analysis.py:199-206 | against a zero baseline the trend is 0; otherwise `y1*(1+trend) = y2`, and against a positive baseline the trend is positive or zero exactly when the last point rose or stayed level |
| MovingAverages.BranchMovingAverages | run_perf_time_analysis.py:88-96 | the inner loop over one branch's name groups skips the groups shorter than `2*window` and smooths the others, giving exactly the branch's block of records |
| MovingAverages.MovingAverages | run_perf_time_analysis.py:86-96 | the records the generator yields, branch block after branch block; described fully by `MovingAverages.MovingAveragesSpec` |
| MovingAverages.GetMovingAverages | run_perf_time_analysis.py:86-96 | the generator's output is exactly `MovingAverages(stats, window)` |
| MovingAverages.MovingAveragesSpec | run_perf_time_analysis.py:86-96 | the output is strictly ascending by (branch, name), so there is at most one record per pair; each record is the smoothing of its (branch, name) group, taken in input order, and that group has at least `2*window` values; every group with at least `2*window` values has a record |
| MovingAverages.MovingAveragesOrder | run_perf_time_analysis.py:87-88 | records come in ascending branch order, then ascending name order |
| MovingAverages.MovingAveragesDistinct | run_perf_time_analysis.py:87-88 | no (branch, name) pair is emitted twice |
| MovingAverages.MovingAveragesSmooth | run_perf_time_analysis.py:89-94 | each emitted value is the Holt-Winters smoothing (span = window, beta = 0.3) of the group's values, and the group has at least `2*window` values |
| MovingAverages.MovingAveragesComplete | run_perf_time_analysis.py:91-96 | every non-empty group with at least `2*window` values is emitted |
| MovingAverages.GroupEmitted | run_perf_time_analysis.py:91-96 | a single long-enough group has a record in the output |
| MovingAverages.EmitBranchSmooths | run_perf_time_analysis.py:88-96 | within a branch, each emitted record carries the branch and the smoothing of its name's records |
| MovingAverages.EmitBranchEmits | run_perf_time_analysis.py:91-96 | within a branch, every name run of at least `2*window` values is emitted |
| MovingAverages.EmitBranchNames | run_perf_time_analysis.py:88 | within a branch, names strictly ascend and each comes from a name run |
| MovingAverages.ConcatOrder | run_perf_time_analysis.py:87-88 | branch blocks with ascending branch keys and ascending names inside concatenate to a strictly ascending output |
| Verdicts.Deltas | run_perf_time_analysis.py:118 | `zip(v, v[1:])`: one pair per step, pair `i` being `(v[i], v[i+1])` |
| Verdicts.TakeRising | run_perf_time_analysis.py:119 | `takewhile` gives the longest prefix of rising pairs: a prefix, all rising, with the next pair not rising |
| Verdicts.TrailingRisingSpec | run_perf_time_analysis.py:119 | `reversed(takewhile(…, reversed(d)))` is a suffix of `d` in original order, all rising, preceded by a non-rising pair if any |
| Verdicts.RaisingRun | run_perf_time_analysis.py:118-119 | `reversed(takewhile(rising, reversed(deltas)))`; described fully by `Verdicts.RaisingRunSpec` |
| Verdicts.RaisingRunSpec | run_perf_time_analysis.py:118-119 | the raising run is the longest trailing stretch of rising steps, in original order; when non-empty its last pair ends at the series' final value |
| Verdicts.RaisingRunIff | run_perf_time_analysis.py:118-120 | there is a raising run exactly when the series rose at its last step |
| Verdicts.RaisingRunLength | run_perf_time_analysis.py:118-119 | the run has exactly `k` pairs when the last `k` steps rise and the one before does not |
| Verdicts.Min | run_perf_time_analysis.py:122 | `min` is an element of the window and at most every element |
| Verdicts.LastWindow | run_perf_time_analysis.py:122 | `v[-window:]` is the last `window` values, or all values when `window` is 0 or at least the length |
| Verdicts.AssertLessEqual | run_perf_time_analysis.py:110-125 | `assertLessEqual` passes iff the percentage is at most the threshold, and otherwise fails reporting both |
| Verdicts.InstantCheck | run_perf_time_analysis.py:106-112 | the instant test errors exactly when the series has fewer than two values |
| Verdicts.TrendPercentAtMost | run_perf_time_analysis.py:199-206 | against a positive baseline, a trend of at most `limit` percent means the last point is at most `1 + limit/100` times the baseline |
| Verdicts.TrendPercentAtMostNegative | run_perf_time_analysis.py:199-206 | against a negative baseline the direction flips: a trend of at most `limit` percent means the last point is at least `1 + limit/100` times the baseline |
| Verdicts.InstantCheckIff | run_perf_time_analysis.py:106-110 | the instant test passes iff `trend*100 <= 3`; by the sign of the last-but-one value that is: positive, the last value is at most 1.03 times it; negative, the last value is at least 1.03 times it; zero, always; a failure reports `trend*100` against 3 |
| Verdicts.FallingNegativeSeriesFails | run_perf_time_analysis.py:106-110 | the series `-1, -2` falls and still fails the instant test, with 100% against 3 |
| Verdicts.OvershootFailsInstantCheck | run_perf_time_analysis.py:94 | with window 2 and beta 0.3, the medians `100, 0, 0, 0, 0` are smoothed to levels ending in `-164/27` and `-3388/405`, and that series fails the instant test |
| Verdicts.LongPercent | run_perf_time_analysis.py:122 | `trend([min(v[-window:]), raising_trend[-1][1]])*100`; restated in terms of `v` by `Verdicts.LongPercentIs` |
| Verdicts.LongCheck | run_perf_time_analysis.py:117-125 | no raising run: nothing is asserted and the test passes; otherwise `assertLessEqual(long percentage, 15)`; described by `Verdicts.LongCheckIff` |
| Verdicts.LongPercentIs | run_perf_time_analysis.py:122 | the long percentage is `trend([min(last window), final value])*100` |
| Verdicts.LongPercentNonNegative | run_perf_time_analysis.py:122 | against a positive window minimum, the long percentage is never negative |
| Verdicts.LongCheckIff | run_perf_time_analysis.py:117-125 | the long test passes when the series did not rise at its last step; with a raising run it passes iff the long percentage is at most 15, which for a positive window minimum means the final value is at most 1.15 times that minimum; it never errors, and a failure reports its percentage against 15 |
| Verdicts.LongCheckPositiveMin | run_perf_time_analysis.py:117-125 | with a raising run and a positive window minimum, the long test passes iff the final value is at most 1.15 times the minimum |
| Verdicts.LongCheckNonPositiveMin | run_perf_time_analysis.py:117-125 | when the window minimum is at or below zero the long test always passes |
| Verdicts.ConstantSeriesPasses | run_perf_time_analysis.py:105-125 | a flat series has no raising run and passes both tests |
| Verdicts.ConstantMetricPasses | run_perf_time_analysis.py:94-125 | a metric whose samples never change passes both tests after smoothing |
| Verdicts.ReplaceDots | run_perf_time_analysis.py:131-133 | `replace('.', '_')` changes each dot to an underscore and nothing else |
| Verdicts.ReplaceDotsSpec | run_perf_time_analysis.py:131-133 | no dot is left, and a name without dots is unchanged |
| Verdicts.Verdicts | run_perf_time_analysis.py:130-134 | the tests generated for every series, each series' two tests together, in series order; described by `Verdicts.VerdictsAt` |
| Verdicts.VerdictsAt | run_perf_time_analysis.py:130-136 | two tests per series, in series order: `test_instant_<name>` and then `test_long_<name>`, both in class `Test_<branch>` |
| MergeResults.Combine | run_perf_time_analysis.py:164-170 | adding one report sums the four counters and appends its cases |
| MergeResults.Merged | run_perf_time_analysis.py:157-178 | the merged report, built by adding one report at a time as the loop does; described by `MergeResults.MergedSums` |
| MergeResults.MergeTestResults | run_perf_time_analysis.py:157-178 | the accumulating loop and the case-appending loop give exactly the merged report `Merged(suites)` |
| MergeResults.MergedSums | run_perf_time_analysis.py:158-178 | the merged `tests`, `failures`, `errors` and `time` are the sums over the input reports, and its cases are all their cases in report order |
| MergeResults.MergedSplit | run_perf_time_analysis.py:163-170 | merging distributes over splitting the reports into two batches |
| MergeResults.MergeOfMerged | run_perf_time_analysis.py:157-178 | merging two merged reports equals merging all the originals at once |
| MergeResults.MergedSingle | run_perf_time_analysis.py:157-178 | merging one report gives it back unchanged |
| NotifyTp.TestsFailed | notify_tp.py:24-25 | `tests > 0 and failures + errors > 0`; described by the three `NotifyTp` lemmas below |
| NotifyTp.NoTestsNoNotice | notify_tp.py:24-25 | with no tests `tests_failed` is false, whatever the failures and errors |
| NotifyTp.NoFailuresNoNotice | notify_tp.py:25 | when failures plus errors is at most 0, `tests_failed` is false |
| NotifyTp.FailuresNotice | notify_tp.py:25 | with some tests and non-negative counters, `tests_failed` holds iff there is a failure or an error |
| NotifyTp.TimeIrrelevant | notify_tp.py:14-25 | the `time` attribute never changes the decision |
| NotifySlack.SlackGate | src/notify_slack.py:25-26 | the Slack gate is the same expression: zero tests never notify; failures or errors among some tests do |
| NotifySlack.Upper | src/notify_slack.py:30 | `upper()` keeps the length and upper-cases each letter `a`-`z` |
| NotifySlack.NotifySuccess | src/notify_slack.py:29-30 | a 2xx status and a body that upper-cases to `OK`; described by `NotifySlack.NonSuccessStatus` and `NotifySlack.SuccessIff` |
| NotifySlack.NonSuccessStatus | src/notify_slack.py:29-30 | any status outside `[200, 300)` is a failed delivery, whatever the body |
| NotifySlack.SuccessIff | src/notify_slack.py:30 | for a 2xx status the delivery succeeded iff the body is `OK`, `Ok`, `oK` or `ok` |
| NotifySlack.RejectedBodies | src/notify_slack.py:30 | for a 2xx status the bodies `""` and `"OKAY"` are failed deliveries |

## Left out

- The Elasticsearch query (run_perf_time_analysis.py:50-71). The model starts from the list of hits, as `SourceRecord`s.
- argparse, the `__main__` launchers, and the wiring between the stages in them.
- Synthesising unittest classes with a metaclass, loading them, and running them through `xmlrunner` (run_perf_time_analysis.py:101-154). These are replaced by the verdict list.
  - The grouping of that list into classes (line 143) shows only as each verdict's `testClass` field.
  - Two test names in one class can collide, for example `a.b` and `a_b`. The dict then keeps only the later test. The model keeps both.
  - unittest's alphabetical test order is not modelled.
- The failure messages and their `%3.2f` formatting. A failure carries only its percentage and threshold.
- XML parsing and writing, `os.listdir` and file removal in `merge_test_results`. The reports come in as already-parsed `TestSuite`s, in listing order. Cases are opaque strings.
- The `'%s'` rendering of the merged counters. The model keeps them as numbers.
- The HTTP requests to TargetProcess and Slack, `datetime.now`, `urljoin`, `sys.exit` and the XML reading in both notifiers.
- `int()` parsing of the counters. The counters are given as integers.
- NotifyTp.FailuresNotice: also requires both counters to be non-negative. `int()` accepts negative numbers, and a negative count could cancel a failure.
- NotifySlack.SlackGate: its second clause requires non-negative counters too, for the same reason.
- IEEE floating point. All arithmetic is exact `real`, so rounding effects and NaN are not captured.
- NumPy array allocation, and the integer-to-float conversion of the medians.
- A general regular-expression engine. Only the `_perf\d+` deletion is modelled, as a left-to-right scan.
- Negative windows. `window` is a natural number. With `-1` the source divides by zero in `2/(1+span)`, and other negative windows change the length test and the slice.
- Timestamps are strings compared lexicographically, which is how an ISO datetime from the store sorts.
- Unicode case mapping. `NotifySlack.Upper` upper-cases only `a`-`z`. No other character upper-cases to `O` or `K`, so `NotifySlack.SuccessIff` holds for Unicode bodies too.
- The inner loop of `get_moving_averages` is written as its own method, `MovingAverages.BranchMovingAverages`, which the outer loop calls. The generator's laziness is not modelled: all records are produced at once.
