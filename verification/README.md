# YCookies: verified models

This project models the parts of YCookies that hold the most logic and proves properties of them in Dafny.
Imperative code stays imperative: tables and stores that the program updates are classes whose methods are
proved against specification functions, loops are methods with invariants, and what the program promises is
proved about those functions as lemmas. `dafny verify dfyconfig.toml` verifies everything.

| file | models |
|---|---|
| `PageSets.dfy` | the page-set table: picking the next set, splitting an oversized set |
| `Scheduler.dfy` | discoveries, scans, aborted scans and edits as steps; the invariant of every run |
| `Coverage.dfy` | what a run of scheduled scans covers, over any number of cycles |
| `Discovery.dfy` | priority pages, set size and page sets of a discovery |
| `PageSetStore.dfy` | the scan job and the discovery job as methods on the two tables |
| `Histogram.dfy` | latency histograms, merging, percentiles |
| `Alerts.dfy` | the alert table under analysis cycles and operator actions |
| `Observability.dfy` | the analysis of one traffic window, from metric rows to the alert table |
| `Cidr.dfy` | the IPv4 and IPv6 prefix tests and the walk over the blocked ranges |
| `SmartSample.dfy` | sampling a long URL list by path pattern |
| `Categorize.dfy` | sorting script URLs into protected, suggested and unknown |
| `RouteFingerprint.dfy` | path fingerprints |
| `TranslationMerge.dfy` | saved translations merged over defaults |
| `ConfigVersion.dfy` | config-version bumps by interleaved workers |
| `ConsentReload.dfy` | opt-out queue and page reload in the browser |
| `ScriptUnblock.dfy` | the order in which blocked scripts are activated |
| `Bits.dfy` | the bitwise operations of the prefix tests |
| `Sequences.dfy` | general facts about sequences |
| `Php.dfy` | the PHP array and string functions the above are written with |

A table is a sequence of rows in insertion order, so a row's position stands for its identity, and `first()`
on rows that tie in `set_index` is the earliest row. Job runs and discoveries are atomic steps; a scan may
abort before or after the split. What the program asks of the outside (a page fetch, the path or host PHP
parses out of a URL, a case-insensitive containment test, PHP's own IP filter, whether a proxy config can be
built) is a function or boolean parameter, so every result holds whatever the answer is.

## Where the code differs from what is written about it

- `percentileFromHistogram` returns the midpoint of a bin; its docblock announces linear interpolation. The
  model follows the code, and `Histogram.PercentileRefinesSorted` says what the midpoint stands for.
- The comments in `processAlerts` announce a cool-down for repeated alerts. `isSuppressed` requires the state
  `suppressed`, which only a snooze sets, so an open alert has no cool-down: `Alerts.NoAutomaticCooldown`.
- A snooze does not outlast a recovery: an evaluated cycle that does not fire the type resolves the snoozed row, and
  when the type fires again within the snoozed minutes it is dispatched (`Alerts.SnoozeHolds`, both directions).
- `rebalancePageSet` keeps the index order of pages only while no later row shares the split index.
  `PageSets.RebalanceConserves` gives the exact condition, `PageSets.SharedIndexReorders` an input where it
  fails, and `Scheduler.RunConsistent` shows that no run reaches such a table.
- Reloading exactly once after opt-outs fails when an empty opt-out queue is left over from an earlier save;
  `ConsentReload.ReloadsOnceIff` gives the exact condition. For the page to live on with such a queue the earlier
  save has to complete after its opt-outs while reloads are paused, since otherwise that completion requests the
  reload (`ConsentReload.CompletionLastLeavesQueue`). `ConsentReload.EarlyReloadReached` runs from the constructor
  through such a save to the early reload of the next one, and `ConsentReload.EarlyReloadExample` is an instance.
- Concurrent config bumps can end with both caches holding an older revision
  (`ConfigVersion.LateWriterLeavesStaleCaches`). `ConfigVersion.CachesAgreeIff` says for every schedule whether the
  caches end absent or current: the last writers of the two caches must agree on whether there is a config and, if
  there is one, both must have read the version back after the last increment.
- `normalize` sends the bare path "0" to "/" because PHP takes "0" for false; the lemmas that say what is
  ignored carry that as their exact condition.
- The docblock of `calculateSetSize` speaks of about 50 sets and sizes up to 200; the code's defaults aim at
  100 sets and cap sizes at 50. The docblock of `smartSample` speaks of two pages from each group; the code takes one
  to three (`SmartSample.BudgetLargest`, `SmartSample.FewPatterns`). `SmartSampleTest` speaks of 50 pages where the constant is 25.
- A metric row exactly five minutes old, and no other, counts in the window and in the baseline:
  `Observability.CountedTwiceIff`.

## Model

| member | source | states |
|---|---|---|
| PageSets.NextPageSet | app/Models/Domain.php:265-272 | the result is the earliest of the unscanned rows of the domain's cycle with the least index, and there is none only when every row of the cycle has been scanned |
| PageSets.Remaining | app/Jobs/ScanDomainCookies.php:232-235 | the count is 0 exactly when every row of the domain's cycle has been scanned |
| PageSets.Pieces | app/Services/ScriptScannerService.php:110-115 | the pieces of a set concatenate to it, none is larger than the limit, and their number is the rounded-up quotient |
| PageSets.SplitRowByRow | app/Services/ScriptScannerService.php:117-139 | a split row by row: the split row keeps its place with the first pages, unscanned; later rows of its domain and cycle move up by the number of new rows; the new rows take the indices after it, unscanned; all others stay |
| PageSets.PagesAtSplitRow | app/Services/ScriptScannerService.php:117-139 | on any table, what stands at each index after a split: rows below unchanged, the first chunk in place, one chunk at each following index, rows above moved by the number of extra chunks |
| PageSets.SplitOrder | app/Services/ScriptScannerService.php:117-139 | the index-ordered page list after a split, on any table |
| PageSets.RebalanceConserves | app/Services/ScriptScannerService.php:105-142 | the number of extra sets, and that the index-ordered pages are conserved if and only if the later rows sharing the split index commute with the pages pushed out |
| PageSets.RebalanceKeepsIndices | app/Services/ScriptScannerService.php:105-142 | on any table and for any row, the indices of its domain and cycle are distinct after rebalancing if and only if they were before, and exactly 0..n+extra-1 if and only if they were exactly 0..n-1 |
| PageSets.SharedIndexReorders | app/Services/ScriptScannerService.php:117-139 | a table with a shared index on which the order is not conserved |
| PageSets.RebalanceFrame | app/Services/ScriptScannerService.php:118-121 | no row of another domain or cycle changes |
| Scheduler.NextAtCursor | app/Models/Domain.php:265-272 | the query returns the row the stored cursor points at, and nothing only when there are no sets |
| Scheduler.ListsSplit | app/Services/ScriptScannerService.php:117-139 | a table that holds one row per index still does after a split, with the chunks in place of the set |
| Scheduler.ScanFailRepresents | app/Jobs/ScanDomainCookies.php:100-106 | a scan that aborts after the split leaves cursor and cycle alone and the table consistent |
| Scheduler.AdvanceRepresents | app/Jobs/ScanDomainCookies.php:225-265 | marking a set moves the cursor by one, or rolls the whole table into the next cycle exactly when it was the last set |
| Scheduler.ScanOkRepresents | app/Jobs/ScanDomainCookies.php:100-270 | a completed scan takes the first piece of the set at the cursor and keeps table, cursor and cycle consistent |
| Scheduler.ScanRecords | app/Jobs/ScanDomainCookies.php:225-265 | a completed scan records its time on the domain and, unless the cycle ends with it, its time and result on the set it took |
| Scheduler.DiscoverRepresents | app/Services/ScriptScannerService.php:1156-1176 | a discovery replaces the domain's rows by the new sets, unscanned, in the current cycle, cursor at 0; it stores the automatic priority pages, the page count and the time, and keeps the manual priority pages |
| Scheduler.EditSetRows | app/Filament/Pages/ScriptScanner.php:400-418 | an edit rewrites the pages of the row at an index and no other row |
| Scheduler.EditRepresents | app/Filament/Pages/ScriptScanner.php:400-418 | an edit keeps the table consistent and replaces exactly the edited set |
| Scheduler.StepFrame | app/Jobs/ScanDomainCookies.php:225-270 | a step of one domain changes neither the row nor the sets of any other domain |
| Scheduler.StepConsistent | app/Jobs/ScanDomainCookies.php:100-270 | every kind of step keeps its domain consistent |
| Scheduler.RunConsistent | app/Jobs/ScanDomainCookies.php:100-270 | in any order of discoveries, completed scans, aborted scans and edits of any domains, every domain stays consistent |
| Scheduler.FreshDomainConsistent | app/Models/Domain.php:265-272 | a domain before its first discovery is consistent |
| Scheduler.ConsistentMeans | app/Jobs/ScanDomainCookies.php:225-265 | consistency spelled out: all sets in the current cycle, indices exactly 0..n-1, scanned sets an index prefix that is not everything, the cursor equal to the number of scanned sets and to the index of the next set |
| Coverage.AgendaMeasures | app/Services/ScriptScannerService.php:105-142 | the chunks of a cycle are as many as the set sizes require and concatenate to the pages of the sets |
| Coverage.AgendaOfSplit | app/Services/ScriptScannerService.php:117-139 | splitting a set leaves the list of chunks still to take unchanged, although the number of sets grows |
| Coverage.CompletedMoves | app/Jobs/ScanDomainCookies.php:100-265 | a completed scan takes the chunk at the current position and moves the position by one, wrapping with the cycle number |
| Coverage.RoundRobin | app/Jobs/ScanDomainCookies.php:100-265 | over any run of completed and aborted scans and any number of cycles, the i-th completed scan takes the i-th chunk, going round, and the cycle number counts the rounds |
| Coverage.PagesConserved | app/Jobs/ScanDomainCookies.php:100-265 | over any run of actions on any domains, with a chunk size that may change from scan to scan: the pages taken of a domain, followed by what its cycle has left, are what was left at the start followed by the pages of all its sets once per cycle begun since |
| Coverage.CycleCoverage | app/Jobs/ScanDomainCookies.php:100-265 | a fresh cycle ends with exactly the required number of completed scans and not before, having taken exactly the pages of its sets in order |
| Discovery.OrganizedSets | app/Services/ScriptScannerService.php:1508-1541 | chunking never throws, the sets hold the non-priority pages in discovery order, every set has 1 to the maximal size, and there are at most the target number of sets whenever target times maximum can hold the site |
| Discovery.SetSizeLeast | app/Services/ScriptScannerService.php:1508-1518 | above the maximal size, the size chosen is the least within the limits that keeps the site within the target number of sets, if any does |
| Discovery.SmallSiteOneSet | app/Services/ScriptScannerService.php:1508-1541 | a site of at most the maximal set size gets one set at most |
| Discovery.SettingsClamped | app/Services/ScriptScannerService.php:62-92 | the settings are used as configured within their literal bounds |
| Discovery.DiscoveryPartition | app/Services/ScriptScannerService.php:1145-1168 | each discovered page equals a priority page up to trailing slashes and stands in no set, or stands in exactly one set exactly once; the sets list their pages in discovery order |
| Discovery.DetectPriorityPages | app/Services/ScriptScannerService.php:1467-1496 | the loops compute the priority list of the specification |
| Discovery.AppendSinglePages | app/Services/ScriptScannerService.php:1472-1480 | the loop appends exactly the single-segment pages, in discovery order |
| Discovery.AppendCommonPages | app/Services/ScriptScannerService.php:1483-1492 | the nested loop appends the first discovered page for each common path |
| Discovery.PriorityPagesMean | app/Services/ScriptScannerService.php:1467-1496 | homepage first, no duplicates, at most 30, only discovered pages besides it; unless the list is full every single-segment page and every common page is covered |
| Discovery.SingleSegmentIff | app/Services/ScriptScannerService.php:1472-1480 | which paths count as single-segment pages: exactly one non-empty segment between any numbers of slashes, the bare "0" excepted |
| Discovery.EarlierKept | app/Services/ScriptScannerService.php:1467-1496 | what a full list leaves out: common pages are listed only when every single-segment page is, and a single-segment page only when every earlier one is |
| PageSetStore.Store.RebalancePageSet | app/Services/ScriptScannerService.php:105-142 | the method turns the table into the specified one and returns the number of extra sets |
| PageSetStore.Store.DiscoverAndOrganize | app/Services/ScriptScannerService.php:1145-1176 | the method takes exactly the discovery step on both tables |
| PageSetStore.Store.Handle | app/Jobs/ScanDomainCookies.php:95-270 | the job takes exactly the completed or aborted step on both tables and reports the pages, the log and the script URLs found, those of the optional deep scan included |
| PageSetStore.Store.MarkAndAdvance | app/Jobs/ScanDomainCookies.php:225-265 | marking and roll-over are the specified step |
| PageSetStore.ScanPages | app/Jobs/ScanDomainCookies.php:156-180 | one log line per page, failed fetches included, and the script URLs of the pages that answered, without duplicates |
| PageSetStore.ScanVisits | app/Models/Domain.php:277-283 | a completed scan visits every automatic and every manual priority page and every page of the set it takes, or of the fallback when there is no set, each once, and nothing else; only when there is nothing to visit the base URL stands in |
| PageSetStore.ScanReports | app/Jobs/ScanDomainCookies.php:108-180 | one log line per visited page, in order, with its number of scripts or none when the fetch threw, and exactly the script URLs of the pages that answered and of the deep scan, each once |
| PageSetStore.DiscoveredPagesCovered | app/Services/ScriptScannerService.php:1145-1176 | after a discovery, by the end of the cycle the scans have taken every discovered page that is not a priority page, in discovery order |
| PageSetStore.EveryPageVisited | app/Jobs/ScanDomainCookies.php:94-180 | end to end: from the state the discovery job leaves, once the required scans have completed, every discovered page has been visited up to trailing slashes |
| Histogram.MergeHistograms | app/Models/TrafficMetric.php:118-125 | the loop sums bin by bin, missing bins counting 0 |
| Histogram.MergeExact | app/Models/TrafficMetric.php:118-125 | merging adds bin by bin, and a bin missing on a side adds nothing |
| Histogram.PercentileFromHistogram | app/Models/TrafficMetric.php:135-151 | the cumulative loop returns the midpoint of the first bin that reaches the threshold, which counts entries under unknown keys too |
| Histogram.OtherKeysRaise | app/Models/TrafficMetric.php:137-150 | entries under unknown keys never lower a percentile |
| Histogram.MergeWindow | app/Services/ObservabilityService.php:71-77 | folding over the rows of a window merges them all |
| Histogram.HistogramOfMultiset | app/Models/TrafficMetric.php:102-112 | the histogram depends on the multiset of latencies only |
| Histogram.MergeIsClassification | app/Models/TrafficMetric.php:118-125 | however requests are split into rows and in whatever order rows are merged, the result classifies all of them |
| Histogram.PercentileBinOfSorted | app/Models/TrafficMetric.php:135-151 | on sorted data the bin found is the bin of the nearest-rank percentile |
| Histogram.PercentileRefinesSorted | app/Models/TrafficMetric.php:135-151 | for 0 < pct <= 100 the value is the midpoint of the bin that holds the nearest-rank percentile of the sorted multiset |
| Histogram.BinsOrdered | app/Models/TrafficMetric.php:37-112 | every midpoint lies in its own bin, and larger latencies never fall in lower bins |
| Histogram.BinIff | app/Models/TrafficMetric.php:23-112 | a bin holds exactly the latencies from its lower edge, included, to its upper edge, excluded |
| Histogram.MidpointExact | app/Models/TrafficMetric.php:37-46 | a bin is read as the middle between its edges, the last one as 7500 ms |
| Histogram.PercentileMonotone | app/Models/TrafficMetric.php:135-151 | on every histogram a higher percentile is never read lower |
| Histogram.MergeBetween | app/Models/TrafficMetric.php:118-151 | the percentile of a merge of two non-empty histograms lies between their percentiles |
| Histogram.HighLatencyIff | app/Services/ObservabilityService.php:70-101 | p95 exceeds 3000 exactly when strictly more than 5% of the requests took at least 2000 ms |
| Alerts.AlertTable.ProcessAlerts | app/Services/ObservabilityService.php:202-290 | the loop leaves the specified table and hands the specified alerts to dispatch |
| Alerts.AlertTable.ProcessAlert | app/Services/ObservabilityService.php:209-290 | one alert: the specified row change, sent exactly when its row was not snoozed into the future |
| Alerts.AlertTable.CheckRecovery | app/Services/ObservabilityService.php:322-346 | active rows of the domain whose type did not fire are resolved now, all other rows stay |
| Alerts.AlertTable.Act | app/Models/TrafficAlertState.php:109-168 | an operator action turns the table into the specified one |
| Alerts.ActionFrame | app/Models/TrafficAlertState.php:109-168 | an operator action touches no other row, and on its own row neither key, hit count, value, severity nor firing times; acknowledging and noting change nothing |
| Alerts.SnoozeHolds | app/Models/TrafficAlertState.php:116-130 | after a snooze of any row of any run, with nobody else acting on it: a cycle in which its alert fires dispatches the alert if and only if the snoozed minutes are over or an evaluated cycle of the domain in between did not fire the type |
| Alerts.ResolveHolds | app/Models/TrafficAlertState.php:132-146 | a row resolved by hand stays resolved as of that moment, with nothing else changed, until its type fires again |
| Alerts.ReopenHolds | app/Models/TrafficAlertState.php:148-160 | a row reopened by hand is open without a resolution time, with nothing else changed, until its domain is next evaluated |
| Alerts.FiresAgain | app/Services/ObservabilityService.php:235-289 | when the type of a row that is not snoozed fires, the alert is dispatched; a resolved row starts over, an open one counts on |
| Alerts.ActiveAreFired | app/Services/ObservabilityService.php:186-192 | after an evaluated cycle the domain's active types are exactly the types that fired, at most one row per domain and type, other domains untouched |
| Alerts.WithheldIffSnoozed | app/Services/ObservabilityService.php:259-289 | the alerts dispatched are, in order, exactly the fired ones whose row was not snoozed strictly into the future before the cycle |
| Alerts.ActiveRowsAreFresh | app/Services/ObservabilityService.php:259-287 | after a cycle every active row carries this cycle's value, severity and time, and is either snoozed into the future or open with a window of 600, 1200 or 1800 seconds by severity |
| Alerts.AlertSafety | app/Services/ObservabilityService.php:209-346 | over every run of cycles and operator actions with a clock that does not go back: one row per domain and type, positive hit counts, ordered firing times, a resolved row's resolution time set and not before its last firing |
| Alerts.NoAutomaticCooldown | app/Models/TrafficAlertState.php:89-94 | without a snooze every fired alert is dispatched in every evaluated cycle |
| Alerts.HitCountIsStreak | app/Services/ObservabilityService.php:237-267 | when operators only acknowledge, note and snooze active rows, an active row's hit count is the length of the unbroken streak of evaluated cycles in which it fired, and a type is active exactly during a streak |
| Alerts.TimesAreStreak | app/Services/ObservabilityService.php:225-346 | in the same runs an active row carries the time at which its streak began and no resolution time, and a resolved row the time at which its last streak ended |
| Observability.AnalyseDomain | app/Services/ObservabilityService.php:55-192 | the analysis leaves the specified alert table and dispatches the specified alerts |
| Observability.EvaluatedIff | app/Services/ObservabilityService.php:60-68 | a cycle is evaluated exactly when the rows of the last 300 seconds count a request |
| Observability.CountedTwiceIff | app/Services/ObservabilityService.php:60-128 | the rows counted both in the window and in its baseline are exactly those five minutes old |
| Observability.CheckRules | app/Services/ObservabilityService.php:70-160 | from window and baseline rows to the specified alerts |
| Observability.RulesMean | app/Services/ObservabilityService.php:91-160 | each type fires exactly on its condition, and no type fires twice |
| Observability.ActiveIffAlarm | app/Services/ObservabilityService.php:186-192 | after an evaluated cycle a type is active exactly when its rule fired |
| Observability.HighLatencyAlert | app/Services/ObservabilityService.php:55-101 | from the raw latencies of all rows to the alert table: the high-latency alert is active after an evaluated cycle exactly when strictly more than 5% of the requests of the last 300 seconds took at least 2000 ms |
| Observability.ErrorRateAlert | app/Services/ObservabilityService.php:83-111 | the 5xx alert is active after an evaluated cycle exactly when strictly more than 5% of the requests of the last 300 seconds ended in a 5xx status |
| Observability.InjectionFailureAlert | app/Services/ObservabilityService.php:87-121 | the injection alert is active after an evaluated cycle exactly when there were injection attempts in the last 300 seconds and strictly more than 2% of them failed |
| Observability.LatencyDegradationAlert | app/Services/ObservabilityService.php:123-148 | the latency degradation alert is active exactly when there were requests from 1200 to 300 seconds ago and the bin midpoint of the recent nearest-rank 95th percentile is more than twice the earlier one |
| Observability.ErrorRateDegradationAlert | app/Services/ObservabilityService.php:123-158 | the error degradation alert is active exactly when there were errors from 1200 to 300 seconds ago and the recent share of errors is more than twice the share then, compared without dividing |
| Observability.AlarmsCarry | app/Services/ObservabilityService.php:91-121 | a fired alert is critical exactly for a 5xx rate above 15%, and carries its own rate as counted |
| Observability.LatenciesCarried | app/Services/ObservabilityService.php:94-148 | the latency alerts carry the recent 95th percentile, and its ratio to the earlier one |
| Observability.ErrorsCarried | app/Services/ObservabilityService.php:150-158 | the error degradation alert carries the recent share of errors over the earlier one |
| Observability.QuietWindowKeepsAlerts | app/Services/ObservabilityService.php:65-68 | a window without requests neither fires nor resolves anything |
| Bits.AndBit | app/Services/UrlValidator.php:313-316 | the model's `&` is bitwise: a result bit is 1 exactly when both operand bits are |
| Bits.ShrIsQuotient | app/Services/UrlValidator.php:313-316 | dropping k bits is dividing by the k-th power of two |
| Cidr.IpInCidrIsPrefix | app/Services/UrlValidator.php:303-317 | the shift-and-mask test holds exactly when both addresses agree on their leading bits (section 3.1 of RFC 4632) |
| Cidr.BlockIsInterval | app/Services/UrlValidator.php:28-45 | a prefix of an aligned base is an interval of addresses |
| Cidr.IsBlocked4 | app/Services/UrlValidator.php:258-272 | blocked exactly when PHP's filter says so or some range of the table contains the address |
| Cidr.BlockedIntervals | app/Services/UrlValidator.php:28-45 | the IPv4 table is the union of fourteen address intervals |
| Cidr.BytesPrefix | app/Services/UrlValidator.php:331-337 | masking bytes and comparing them is comparing the leading bits of the big-endian values |
| Cidr.Ipv6InCidr | app/Services/UrlValidator.php:322-338 | for every prefix length from 0 to 128 the byte-built mask decides agreement on the leading bits (section 2.3 of RFC 4291) |
| Cidr.IsBlocked6 | app/Services/UrlValidator.php:275-293 | blocked exactly when loopback, unspecified, equal to a listed address or inside a listed prefix |
| Cidr.BlockedIpv6Means | app/Services/UrlValidator.php:50-56 | the IPv6 table by leading bits |
| SmartSample.SamePatternIff | app/Services/ScriptScannerService.php:447-466 | two paths have the same pattern exactly when the same parts are kept of both |
| SmartSample.PatternExact | app/Services/ScriptScannerService.php:447-466 | the pattern of a path with one segment, with two and with more, whatever slashes surround them |
| SmartSample.PathShape | app/Services/ScriptScannerService.php:447-466 | every path is such a path or only slashes |
| SmartSample.GroupUrls | app/Services/ScriptScannerService.php:391-396 | the loop groups the URLs by pattern |
| SmartSample.PicksMean | app/Services/ScriptScannerService.php:417-434 | a group contributes at most its budget, only its own pages and never the homepage, something whenever it has another page, and on distinct URLs nothing twice |
| SmartSample.TakeSample | app/Services/ScriptScannerService.php:385-438 | the loop with its early stop computes the specified sample; a list of at most 25 URLs is returned as it is |
| SmartSample.GroupedMeans | app/Services/ScriptScannerService.php:391-396 | each group holds exactly the URLs of its pattern in input order, no pattern repeats, every URL has a group |
| SmartSample.GroupsInOrder | app/Services/ScriptScannerService.php:391-396 | groups open in the order in which their patterns first occur |
| SmartSample.BySizeMeans | app/Services/ScriptScannerService.php:399-399 | groups are ordered by descending size and the sort is stable |
| SmartSample.SampleShape | app/Services/ScriptScannerService.php:401-437 | on more than 25 URLs: homepage first, no duplicates, at most 25, only input URLs and the homepage |
| SmartSample.NothingDropped | app/Services/ScriptScannerService.php:437-437 | on distinct URLs the final unique and slice drop nothing |
| SmartSample.PatternsCoveredIff | app/Services/ScriptScannerService.php:407-435 | every pattern with a page besides the homepage is represented by such a page if and only if there are at most 24 such patterns |
| SmartSample.BudgetLargest | app/Services/ScriptScannerService.php:407-412 | the pages allowed for a group are the largest number from 1 to 3 that 24 pages suffice for, and 1 when they never do |
| SmartSample.FewPatterns | app/Services/ScriptScannerService.php:385-438 | when at most 24 patterns have a page besides the homepage, the sample holds exactly the homepage and, of each pattern's other pages, the first, the middle one of at least three if two pages for each fit into 24, and the last of at least six if three do |
| SmartSample.ManyPatterns | app/Services/ScriptScannerService.php:385-438 | when there are more, the sample is exactly the homepage and the first other page of each of the first 24 of them, in the order of the groups |
| Categorize.PutMeans | app/Services/ScriptScannerService.php:924-926 | writing a phrase keeps all places, changes that phrase's value only, and appends it exactly when it is new |
| Categorize.PhrasesDistinct | app/Services/ScriptScannerService.php:914-949 | however blockers and templates share phrases, a phrase stands in each map at most once |
| Categorize.FirstHitMeans | app/Services/ScriptScannerService.php:962-978 | the hit is the value of the first phrase in map order that the URL contains; there is none only when no phrase occurs |
| Categorize.BuildInstalled | app/Services/ScriptScannerService.php:930-949 | the nested loops build the specified installed phrase map |
| Categorize.BuildTemplates | app/Services/ScriptScannerService.php:914-927 | the nested loops build the specified template phrase map |
| Categorize.InstalledMeans | app/Services/ScriptScannerService.php:929-949 | the installed map holds exactly the blockers' phrases, each with the key, name and kind of the last blocker that lists it |
| Categorize.InstalledInOrder | app/Services/ScriptScannerService.php:929-949 | its phrases stand in the order in which the blockers first mention them |
| Categorize.TemplatesMean | app/Services/ScriptScannerService.php:914-927 | the template map holds exactly the templates' phrases, each with the key of the last template that lists it |
| Categorize.TemplatesInOrder | app/Services/ScriptScannerService.php:914-927 | its phrases stand in the order in which the templates first mention them |
| Categorize.AddUrl | app/Services/ScriptScannerService.php:957-1012 | one more URL extends the list of its class exactly when the class is new, and the seen-maps mark exactly the classes met |
| Categorize.SortUrls | app/Services/ScriptScannerService.php:951-1012 | each list holds one entry per first URL of a class, in input order |
| Categorize.CategorizeScripts | app/Services/ScriptScannerService.php:907-1020 | the same from blockers and templates |
| Categorize.EveryUrlRepresented | app/Services/ScriptScannerService.php:957-1012 | every URL, repeated ones included, has exactly one entry in the list of its class: the only one with its blocker key, template key or host, carrying the first input URL of that class |
| Categorize.ListOfUrl | app/Services/ScriptScannerService.php:907-1020 | about the lists of the whole operation: a URL is represented in the protected list exactly when some installed blocker lists a phrase it contains, by the blocker that lists the first such phrase last; otherwise in the suggested list exactly when some template does; otherwise in the unknown list by its host |
| Categorize.ProtectedByBlocker | app/Services/ScriptScannerService.php:961-979 | a protected entry is an input URL with its host, contains a phrase of an installed blocker, and names the blocker that decides |
| Categorize.SuggestedByTemplate | app/Services/ScriptScannerService.php:981-1002 | a suggested entry contains no phrase of any installed blocker and a phrase of the template it names |
| Categorize.UnknownToAll | app/Services/ScriptScannerService.php:1004-1011 | an unknown entry contains no phrase of any installed blocker or template |
| Categorize.ProtectedMeans | app/Services/ScriptScannerService.php:961-979 | a protected entry is the first input URL of its blocker key, and keys are unique |
| Categorize.SuggestedMeans | app/Services/ScriptScannerService.php:981-1002 | the same by template key, and no suggested URL contains an installed phrase |
| Categorize.UnknownMeans | app/Services/ScriptScannerService.php:1004-1011 | the same by host, and no unknown URL contains an installed or a template phrase |
| Categorize.NoLongerThanInput | app/Services/ScriptScannerService.php:957-1019 | the three lists together are no longer than the input |
| RouteFingerprint.ClassifyIdempotent | app/Support/RouteFingerprint.php:73-94 | a label classifies as itself |
| RouteFingerprint.CharClasses | app/Support/RouteFingerprint.php:22-32 | the character classes of the patterns, written out |
| RouteFingerprint.ClassifyExact | app/Support/RouteFingerprint.php:22-94 | which segments get which label: groups of 8, 4, 4, 4 and 12 hexadecimal digits; digits; at least 16 hexadecimal digits; at least 16 token characters with both cases; each with or without one final newline; every other segment without newlines is kept |
| RouteFingerprint.ClassifyOther | app/Support/RouteFingerprint.php:22-94 | a segment with a newline anywhere else is kept |
| RouteFingerprint.NormalizeBySegments | app/Support/RouteFingerprint.php:38-68 | collapsing, trimming and splitting amount to: take the non-empty segments before the query, cap, classify, join |
| RouteFingerprint.NormalizeIdempotent | app/Support/RouteFingerprint.php:38-68 | normalising twice is normalising once, for every path and for null |
| RouteFingerprint.NormalizedShape | app/Support/RouteFingerprint.php:38-68 | the output is "/" or its segments joined after a slash; at most 9 of them, none empty, and no query |
| RouteFingerprint.NormalizedExact | app/Support/RouteFingerprint.php:38-68 | the segments of the output are the classified input segments in order if there are at most 8, else the first 8 of them and a star |
| RouteFingerprint.QueryIgnored | app/Support/RouteFingerprint.php:44-45 | adding a query changes nothing if and only if the path is not the bare "0" |
| RouteFingerprint.TrailingSlashIgnored | app/Support/RouteFingerprint.php:47-49 | a trailing slash changes nothing if and only if the path is not the bare "0" |
| RouteFingerprint.RepeatedSlashIgnored | app/Support/RouteFingerprint.php:47-49 | repeating a slash anywhere before the query changes nothing |
| RouteFingerprint.NumbersInterchangeable | app/Support/RouteFingerprint.php:65-81 | replacing one digit-only segment by another, anywhere in the path, changes nothing unless exactly one of the two paths is the bare "0" |
| Php.SplitOfJoin | app/Support/RouteFingerprint.php:55-67 | splitting undoes joining for parts without the separator |
| TranslationMerge.DeepMerge | app/Models/CookieBar.php:137-163 | the loop over the saved keys, with its recursion, computes the specified merge |
| TranslationMerge.OverlayValue | app/Models/CookieBar.php:145-159 | the branches at a key both sides know |
| TranslationMerge.MergeSnoc | app/Models/CookieBar.php:141-160 | one more saved entry changes one place: the entry of its key, or the end |
| TranslationMerge.OverlayStable | app/Models/CookieBar.php:145-159 | overlaying a default with an overlay of it changes nothing |
| TranslationMerge.MergeStable | app/Models/CookieBar.php:137-163 | merging again changes nothing, at every depth, key order included |
| TranslationMerge.DefaultPathsSurvive | app/Models/CookieBar.php:151-154 | every path of the defaults still exists, and where the default is an array the result is one |
| TranslationMerge.UnknownKeysSurvive | app/Models/CookieBar.php:142-144 | a saved key the defaults do not know survives with everything below it, at any depth |
| TranslationMerge.ScalarsOverlaid | app/Models/CookieBar.php:155-159 | at every path to a scalar default the saved value wins unless it is missing, null or empty |
| TranslationMerge.ReadAfterWrite | app/Models/CookieBar.php:115-127 | reading translations and writing them back changes nothing on the next read |
| TranslationMerge.ReadScalar | app/Models/CookieBar.php:115-163 | what reading shows where the default is no array: the saved value if there is one other than null and the empty string, else the default |
| TranslationMerge.ReadArray | app/Models/CookieBar.php:115-163 | what it shows where the default is an array: the default when nothing, no array or an empty array is saved there, else both merged |
| TranslationMerge.ReadUnknown | app/Models/CookieBar.php:115-163 | what it shows at a key the defaults do not know: what is saved |
| ConfigVersion.InterleavingsKeep | app/Observers/DomainObserver.php:144-201 | over every interleaving of any number of workers: version equals start plus increments, no cache or message is ahead of it, increments get versions of their own, read-backs are at least the worker's own version |
| ConfigVersion.NewestAnnounced | app/Observers/DomainObserver.php:187-196 | once all workers are done, the newest version has been published |
| ConfigVersion.SerialBumpsAgree | app/Observers/DomainObserver.php:144-196 | serialised bumps: one version and one message each, in order, and both caches absent or both current |
| ConfigVersion.CachesAgreeIff | app/Observers/DomainObserver.php:144-196 | at every point of every interleaving at which some worker has written both caches: both are absent or current if and only if their last writers agree on whether there is a config and, if there is one, both read the version back after the last increment, all read off the schedule |
| ConfigVersion.ConfigStore.BumpConfigVersion | app/Observers/DomainObserver.php:144-196 | one uninterrupted bump is the six steps in a row |
| ConfigVersion.LateWriterLeavesStaleCaches | app/Observers/DomainObserver.php:147-179 | an interleaving that ends with both caches behind the version |
| ConsentReload.ConsentManager.SaveConsents | public/consents.js:3 | what a save stores, queues and flags |
| ConsentReload.ConsentManager.QueueAsynchronous | public/consents.js:3 | of the withdrawn services exactly the asynchronous ones are queued, in order |
| ConsentReload.QueueAllMeans | public/consents.js:3 | queueing opens the queue, with the save awaited, exactly when there is none, appends in order and touches nothing else |
| ConsentReload.SaveMeans | public/consents.js:3 | a save stores the given consents, is triggered exactly when some service was given in a group before and is not any more, and queues exactly the asynchronous ones of those |
| ConsentReload.ConsentManager.SetPauseReload | public/consents.js:3 | pausing and resuming reloads changes nothing else |
| ConsentReload.ConsentManager.Done | public/consents.js:3 | what the end of an opt-out does, unknown services and missing queues included |
| ConsentReload.ConsentManager.SaveCompleted | public/consents.js:3 | what the completion of the backend save does |
| ConsentReload.ReloadsExactlyOnce | public/consents.js:3 | in every interleaving of save completion, opt-out ends (unknown or repeated ones included) and pauses, the reloads requested are exactly the reloads due |
| ConsentReload.DueMeans | public/consents.js:3 | at most one reload is due, none before the save has completed and every queued opt-out is done, and without pausing exactly one from then on |
| ConsentReload.OptInReloads | public/consents.js:3 | after a save that withdraws nothing, or any save when reloading after opt-outs is off: in every order of events the only reload is the one on completion, requested exactly when reloading after opt-ins is on and reloads are not paused at that event |
| ConsentReload.ReloadsOnceIff | public/consents.js:3 | with no opt-out pending before the save, the reloads requested are the reloads due in all interleavings if and only if no empty queue is left over or nothing is queued now |
| ConsentReload.CompletionLastLeavesQueue | public/consents.js:3 | a save that completes after its last opt-out leaves an empty queue behind, and requests the reload that discards it unless reloads are paused at that moment |
| ConsentReload.LeftoverQueueReloadsEarly | public/consents.js:3 | with an empty queue left over and reloads resumed, the next save's opt-outs reload before that save has completed |
| ConsentReload.EarlyReloadReached | public/consents.js:3 | from the constructor, through a save that completes while reloads are paused, to the early reload of the next save |
| ConsentReload.EarlyReloadExample | public/consents.js:3 | such a history with two services of one group |
| ScriptUnblock.Unblocker.Start | public/consents.js:3 | an unblock call sets the counter to the number of matching nodes and starts the chain |
| ScriptUnblock.UnblockKeeps | public/consents.js:3 | the chain keeps order and counter, runs no external script, and stops only at an external script or at the end |
| ScriptUnblock.Unblocker.OnLoad | public/consents.js:3 | a load event lowers the counter and resumes the chain |
| ScriptUnblock.UnblocksInOrder | public/consents.js:3 | at every callback point: document order, at most one load outstanding, the counter equal to blocked nodes plus that load, and 0 exactly when every script has run |
| ScriptUnblock.MissingLoadBlocks | public/consents.js:3 | a load event that never comes leaves every later script blocked and the counter above 0 |

## Left out

- Crawling, HTTP fetching, HTML and sitemap parsing, headless Chrome, DNS and the AI client: outside services.
- Authorisation, UI, mail and notification text, migrations, template libraries and report HTML: data or presentation.
- The manifest compiler and publisher, plan limits, health-check aggregation and consent-log flags: unseen or easy.
- Crashes inside one job run, for example between raising `current_cycle` and resetting the sets, and two scan jobs of one domain at once: a run is one atomic step.
- Database ids, timestamps kept by the framework, the scan-result row and the refresh of `discovered_pages_count` after an edit.
- The normalisation of manually listed pages and the crawl fallback of the scan job: one list parameter, `fallback`.
- Loose comparison by `in_array` and numeric-looking array keys and phrases, which PHP turns into integers: strings are compared as strings.
- Rounding of floating-point rates and thresholds: rates are exact fractions, thresholds exact reals.
- Alert messages, evidence payloads, action logs and notifications: what is handed to dispatch is kept.
- Cache lifetimes and the exception branches of a config bump.
- Overlapping saves in the browser, calling one unblock selector again while a load is pending, and nodes that start to match the selector while its chain runs.
- DOM attributes, Vue mounting, TCF and the backend payload in the browser bundle.
- JSON encoding: the identity on trees.
