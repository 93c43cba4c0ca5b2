# A verified model of gghstats

gghstats collects GitHub traffic into SQLite by repeated, partly failing syncs, and keeps several
fast or incremental forms that must agree with a slow and simple one. This project models those
forms in Dafny and proves the agreement, for every input, every run and every interleaving.

`dafny verify dfyconfig.toml` checks everything. The modules follow the program:

- **Star history** (`StarHistory`, `Stargazers`, `StarSync`, `StarCycles`, `StarRuns`). The store's
  methods with their loops, one cycle from any state at all, and runs of growths and syncs in which
  any fetch, read or cursor write may fail.
- **Deltas** (`Deltas`). SQL's LAG over a short window against LAG over the whole table.
- **Traffic** (`DayRows`, `Traffic`, `Freshness`, `TrafficRuns`). What replies and failures leave in
  the tables, and the two readers: freshness report and chart.
- **Reports** (`Reports`, `FleetStale`, `Names`). The report filter every report must respect, and
  the fleet-wide stale signal.
- **Alerts** (`AlertKeys`, `AlertRules`, `Alerts`, `AlertRuns`, `AlertGuarantees`, `AlertDelivery`).
  The debounce table shared by all rules, one evaluation as methods, guarantees over whole runs with
  arbitrary delivery outcomes, and what is tried in every mode.
- **Concurrency** (`Catalog`, `WorkerPool`, `Coordinator`). Step relations whose runs are all
  interleavings; the mutex-guarded objects are classes whose methods are the steps' effects.
- **Head-to-head** (`Momentum`, `H2HChart`, `Score`). The rolling series against the direct ratio,
  the chart's data, and the score.
- **Text** (`Calendar`, `Printing`, `SortedInts`). Dates, grouped numbers and escaping.

SQL tables are maps keyed by their primary keys, a transaction is one atomic step, and a date is its
day number; `Calendar.TextOrderIsDayOrder` justifies the number, since the program compares
`YYYY-MM-DD` texts (the `full-date` of section 5.6 of RFC 3339). GitHub's replies, the outcomes of
deliveries and the scheduler are arbitrary inputs of each step.

## Where code and documents differ

- The design document has a full fetch of stars rewrite the daily totals. The code only writes
  through a MAX upsert, so after an unstar old totals stay. `StarHistory.FullWriteIsRebuildIff` says
  exactly when a full write is a rebuild, and `StarHistory.UnstarLeavesOldTotal` shows an input for
  which it is not. The run theorems are therefore about a list of stars that only grows, each
  growth strictly newer than the newest star before it, with the reported count the list's length.
- The design document describes the daily debounce as one notice per day and rule. For an
  `upstream_stale` rule that asks for it (which the document advises against, for another reason),
  an evaluation that is not stuck deletes the stamp, so the rule can fire twice on one date.
  `AlertGuarantees.DailyHoldsUnlessCleared` gives the exact condition and
  `AlertGuarantees.StuckCalmStuck` the run.
- "Once" always means one fan-out in which every sink succeeded. A fan-out in which one of several
  sinks fails counts as a failure and is repeated, so a sink that succeeded then may be told again.
- At most one sync body is in flight, but the callback after a sync runs outside the lock, so two
  callbacks can overlap (`Coordinator.CallbacksCanOverlap`). The alert guarantees are about
  evaluations that follow one another.

## Model

| member | source | states |
|---|---|---|
| `StarRuns.StoredHistoryIsRebuild` | internal/sync/sync.go:252-384 | after every run of growths and star syncs, with any fetch, read or cursor write failing, the stored history is what one full rebuild of a prefix of the star list would store; the prefix is the counted stars when every cursor write succeeded, and never shorter |
| `StarRuns.CycleKeeps` | internal/sync/sync.go:252-332 | one cycle, whichever of skip, incremental and full it takes, keeps the history a rebuild of a prefix; a cycle whose fetch and cursor write succeed makes it the whole list |
| `StarRuns.OneGoodCycleCatchesUp` | internal/sync/sync.go:252-332 | after any run, one cycle whose fetch succeeds makes the history the rebuild of the whole list, whatever failed before |
| `StarRuns.IncrementalReadsTheTail` | internal/sync/sync.go:311-332 | a successful incremental fetch returns exactly the stars past the cursor, in some order, and at least one |
| `StarRuns.NeverBehind` | internal/sync/sync.go:288-291 | along such a run the stored history never lags the cursor, so healing is never needed |
| `StarRuns.FullHealSettles` | internal/sync/sync.go:265-309 | from any flagged state at all, one full fetch as long as the count is what the cycle chooses, and it makes the next cycle skip |
| `StarRuns.ShortIncrementalIsFlagged` | internal/sync/sync.go:280-332 | an incremental that stores fewer stars than asked for, over a history whose maximum is the cursor, is flagged by the next cycle at that count |
| `StarRuns.IncrementalAsksForStars` | internal/sync/sync.go:271-283 | the incremental fetch is only reached with a positive limit, and a skip only when count, cursor and history agree |
| `StarCycles.RefetchCycle` | internal/sync/sync.go:272-309 | from any state, if stars were lost, none was ever read, or the stored rows lag the cursor or the count, the whole list is written over the old rows, day by day the greater of old total and stars given by then, and the cursor becomes the count and the newest star; a failed fetch changes nothing |
| `StarCycles.UnstarFollowsTheCount` | internal/sync/sync.go:279-282 | after stars were taken back the cursor follows the count down to the newest listed star, every listed day holds at least its stars, and no old row sinks |
| `StarCycles.GrowthCycle` | internal/sync/sync.go:283-332 | otherwise, for a count above the cursor, only the newest stars past it are read and written on top of the counted ones; a failed or empty answer changes nothing |
| `StarCycles.SkipCycle` | internal/sync/sync.go:274-277 | with count, cursor and stored rows in agreement nothing changes, whatever GitHub would answer |
| `StarCycles.UnreadCycle` | internal/sync/sync.go:258-271 | a failed read of the cursor or the stored maximum changes nothing |
| `StarCycles.TotalOnlyCycle` | internal/sync/sync.go:253-256 | without star history only the row of today changes, to the greater of its total and the count |
| `StarHistory.DayHolds` | internal/sync/sync.go:345-359 | a day is a UTC day of twenty-four hours |
| `StarHistory.RebuildMeaning` | internal/sync/sync.go:345-359 | a rebuilt history has a row for exactly the days with a star, holding the number of stars given by then |
| `StarHistory.StoreIsPointwiseMax` | internal/sync/sync.go:345-374 | writing sorted stars through the MAX upsert leaves the pointwise maximum of the old history and the rebuild |
| `StarHistory.TailWriteCompletes` | internal/sync/sync.go:362-374 | rewriting any tail that starts at or below what is stored gives the rebuild of the whole list |
| `StarHistory.FullWriteIsRebuildIff` | internal/sync/sync.go:345-359 | a full write equals a rebuild if and only if no stored row lies outside it or above it |
| `StarHistory.UnstarLeavesOldTotal` | internal/store/store.go:486-494 | a list of stars from which one was taken back leaves an old total behind |
| `StarHistory.SortRecovers` | internal/sync/sync.go:345-349 | sorting a listing in any order gives back the timeline |
| `StarSync.StarStore.SyncRepoStars` | internal/sync/sync.go:252-284 | the whole new history and cursor of the repository, branch by branch and fault by fault; other repositories unchanged |
| `StarSync.StarStore.SyncStarsFull` | internal/sync/sync.go:293-309 | history and cursor after a full fetch, or nothing changed when it fails |
| `StarSync.StarStore.SyncStarsIncremental` | internal/sync/sync.go:311-332 | history and cursor after an incremental fetch; an empty reply changes nothing |
| `StarSync.StarStore.StoreSorted` | internal/sync/sync.go:345-374 | the upsert loop computes the same history as a fold over the sorted stars |
| `StarSync.StarStore.NewestStarredAt` | internal/sync/sync.go:376-384 | the latest time in the list |
| `StarSync.StarStore.MaxStarTotal` | internal/store/store.go:817-827 | the largest stored total, zero if there is none |
| `StarSync.StarStore.UpsertStar` | internal/store/store.go:486-494 | one MAX upsert of one repository |
| `StarSync.StarStore.SetStarSyncCursor` | internal/store/store.go:528-538 | an UPDATE: nothing happens for a repository without a row |
| `Stargazers.StargazersRecent` | internal/github/client.go:136-182 | the page loop returns what a scan of the replies up to the stop returns, or fails |
| `Stargazers.RecentMeaning` | internal/github/client.go:136-182 | however GitHub pages its listing, the result is its longest prefix within the limit and newer than the stop time |
| `Stargazers.RecentTakesAllNew` | internal/github/client.go:136-182 | asked for m stars when the newest m are past the stop time, it returns exactly those |
| `Stargazers.RecentFailsIff` | internal/github/client.go:136-182 | a read fails if and only if some reply fails before the limit or the stop time was reached |
| `Deltas.WindowedCallAgreesIff` | internal/store/store.go:552-608 | over up-to-date earlier rows, one windowed call equals a full recomputation if and only if each updated row has its predecessor inside the window, has none, or has one that makes no difference; earlier rows and the key set are untouched |
| `Deltas.RunsAreDayOverDay` | internal/store/store.go:540-608 | after any run of passes, several a day allowed, every row compares itself with the row of the day before or with zero |
| `Deltas.RunEqualsFullIff` | internal/store/store.go:540-608 | a run equals a full recomputation if and only if every row satisfies the window condition on its own day |
| `Deltas.RunWithoutGapsEqualsFull` | internal/store/store.go:540-608 | if no series skips a calendar day, every run leaves what a full recomputation would |
| `Deltas.UpdatedRowGrowth` | internal/store/store.go:575-608 | each column's delta added to the predecessor's value gives the row's value, or is zero when the value fell; title, count and uniques stay |
| `Deltas.FirstRowGrowth` | internal/store/store.go:575-608 | a row with no earlier row in sight grew from nothing |
| `Deltas.RunGrowth` | internal/store/store.go:540-608 | after any run each row's deltas are its growth over the row of the day before, or over nothing |
| `Deltas.UpsertKeepsTheGreater` | internal/store/store.go:450-474 | within a day each column keeps the greater of old and new; deltas and other rows stay |
| `Deltas.DeltaStore.UpdateDeltasSince` | internal/store/store.go:548-608 | both tables recomputed over the window; rows before since keep their values |
| `Deltas.DeltaStore.UpdateDeltas` | internal/store/store.go:541-543 | both tables recomputed with the whole table as window |
| `Deltas.DeltaStore.UpsertReferrer` | internal/store/store.go:450-460 | counts only grow within a day; deltas are left to the recomputation |
| `Deltas.DeltaStore.UpsertPath` | internal/store/store.go:463-474 | the same for paths, with the latest title |
| `Deltas.Lag` | internal/store/store.go:560-600 | the greatest earlier day of the same series inside the window |
| `TrafficRuns.ChartMeaning` | internal/server/traffic_freshness.go:83-140 | after any sequence of replies and failures, a day inside the latest reply's span shows that reply's value or null, and any other day the last reported value or null |
| `TrafficRuns.MissingMeaning` | internal/server/traffic_freshness.go:40-58 | the missing list holds, in order, exactly the days of the latest reply's span up to yesterday that it did not name; it is empty after a failed fetch |
| `TrafficRuns.StatusMeaning` | internal/server/traffic_freshness.go:21-66 | never fetched, failed, missing and fresh each hold if and only if the log of fetches says so; the remaining status is delayed |
| `TrafficRuns.FreshCoversYesterday` | internal/server/traffic_freshness.go:58-66 | fresh means every day from the reply's first through yesterday was reported |
| `TrafficRuns.MissingIffNull` | internal/server/traffic_freshness.go:21-140 | the two readers tell one story: inside the latest reply's span a past day is missing if and only if its chart point is null |
| `TrafficRuns.MissingIsNull` | internal/server/traffic_freshness.go:83-140 | a missing day is always null in the chart |
| `TrafficRuns.OnlyOwnEntriesMatter` | internal/store/store.go:329-384 | entries about other repositories or the sibling metric change nothing |
| `TrafficRuns.StoredMeaning` | internal/store/store.go:329-384 | rows, coverage and state after any sequence, in terms of the latest reply, the latest fetch and the last reported values |
| `TrafficRuns.Replay` | internal/store/store.go:329-384 | the store's methods, run over a log, leave each metric what its own entries left it |
| `Traffic.TrafficStore.RecordTrafficMetricSuccess` | internal/store/store.go:329-370 | rows, coverage stamps and state of the one metric; an unknown metric is an error; every other metric unchanged |
| `Traffic.TrafficStore.RecordTrafficMetricFailure` | internal/store/store.go:374-384 | only status and error change, so the last good dates survive |
| `Traffic.TrafficCoverageBounds` | internal/store/store.go:437-447 | the first and last day of the reply |
| `Traffic.BoundsAreTight` | internal/store/store.go:437-447 | both bounds are days of the reply and no day lies outside them |
| `Freshness.TrafficFreshnessFor` | internal/server/traffic_freshness.go:21-66 | the day-by-day loop classifies as the specification read by the run lemmas |
| `Freshness.DenseTrafficChart` | internal/server/traffic_freshness.go:83-107 | one point per day of the range, in order, null where there is no row |
| `Freshness.TrafficRowsWithLatestCoverage` | internal/server/traffic_freshness.go:123-140 | rows inside the latest span are kept only if the latest reply named their day |
| `Freshness.TrafficChart` | internal/server/traffic_freshness.go:111-117 | query, filter and densifying together: one point per day, each what the run lemmas describe |
| `AlertGuarantees.MilestoneDeliveredOnce` | internal/alert/evaluate_milestones.go:26-54 | over every run with arbitrary delivery failures, each repository and threshold has at most one successful fan-out, and its stamp says whether it had one |
| `AlertGuarantees.CrossedIsDelivered` | internal/alert/evaluate_milestones.go:26-54 | after any run, an evaluation of a successful sync tries a crossed threshold if and only if it is undelivered, and delivers it when the sinks accept |
| `AlertGuarantees.CrossedStaysCrossed` | internal/alert/evaluate_milestones.go:62-77 | a crossed threshold stays due while the repository may be reported, because stored stars never decrease |
| `AlertGuarantees.StaleFiresOncePerEpisode` | internal/alert/evaluate_ops.go:47-95 | between two successful fan-outs of a stale rule there is an evaluation that was not stuck |
| `AlertGuarantees.StaleIsTriedUntilDelivered` | internal/alert/evaluate_ops.go:47-95 | a stuck evaluation is tried if and only if its episode has no success yet, so the rule fires again after any evaluation that was not stuck |
| `AlertGuarantees.StaleModeIff` | internal/alert/evaluate_ops.go:97-111 | a stale rule is once per episode by default, or when once is asked for |
| `AlertDelivery.EverySyncIsAlwaysTried` | internal/alert/evaluate.go:70-98 | an every-sync ops rule that meets its comparison is tried in that evaluation whatever the table holds, and leaves the key's stamp as it was |
| `AlertDelivery.OpsModeIff` | internal/alert/evaluate_ops.go:97-111 | which ops rules fire at every sync and which once, by what they say and, if nothing, by event and level |
| `AlertDelivery.TrafficModeIff` | internal/alert/rules.go:145-159 | the same for traffic rules; ladders are once and what is unknown is daily |
| `AlertDelivery.OpsIsTried` | internal/alert/evaluate_ops.go:53-82 | after any run an ops rule that meets its comparison is tried always, until delivered, or until its date has a success, by its mode |
| `AlertDelivery.TrafficIsTried` | internal/alert/evaluate.go:37-67 | the same for a traffic rule and each scope it fires for |
| `AlertDelivery.DailyIsTriedIff` | internal/alert/evaluate.go:80-98 | a daily key asked for is tried if and only if the evaluation's date has no success |
| `AlertDelivery.OnceIsTriedIff` | internal/alert/evaluate.go:74-98 | a once key asked for is tried if and only if it never succeeded |
| `AlertDelivery.TrafficAsksIff` | internal/alert/evaluate.go:37-50 | plain traffic rules ask for each scope they fire for, and for nothing else |
| `AlertDelivery.TriedIsAsked` | internal/alert/evaluate_ops.go:229-236 | each fan-out was asked for by a rule; after a failed sync only by ops rules |
| `AlertDelivery.QuietIff` | internal/alert/evaluate_ops.go:33-35 | without sinks or rules an evaluation changes nothing; otherwise the counter is stored |
| `AlertGuarantees.DailyHoldsUnlessCleared` | internal/alert/evaluate.go:70-98 | a daily ops rule has at most one success per date in every run if and only if no stale rule that can fire shares its key |
| `AlertGuarantees.StuckCalmStuck` | internal/alert/evaluate_ops.go:85-95 | the run that breaks the promise otherwise: stuck, not stuck, stuck on one date |
| `AlertGuarantees.TrafficFiresOncePerDate` | internal/alert/evaluate.go:37-98 | a daily traffic rule always keeps it while the clock's date never goes back |
| `AlertGuarantees.CounterIsFailingSuffix` | internal/alert/evaluate_ops.go:113-130 | after every run the stored counter is the length of the longest failing suffix of the evaluated snapshots |
| `AlertGuarantees.RulesSeeTheStreak` | internal/alert/evaluate_ops.go:113-130 | the number a consecutive-failure rule compares is that length, this run included |
| `AlertGuarantees.FailingSuffixMeaning` | internal/alert/evaluate_ops.go:113-130 | the suffix is all failures and the snapshot before it a success |
| `AlertKeys.RuleKeysAreApart` | internal/alert/rules.go:161-169 | rule keys, milestone keys and the counter key never coincide, whatever the fields hold |
| `AlertKeys.MilestoneKeyInjective` | internal/alert/rules.go:167-169 | a milestone key determines its repository and threshold, even for names with bars |
| `AlertKeys.RuleKeyInjective` | internal/alert/rules.go:161-164 | rules without bars in their fields share a key only if they agree on kind, scope, metric, window, operator, value and mode |
| `AlertKeys.SameKeySameEvent` | internal/alert/rules.go:161-164 | ops rules with one key are about one event |
| `AlertKeys.AtoiOfItoa` | internal/alert/evaluate_ops.go:121-126 | the counter survives being stored as text |
| `AlertRuns.KeyThroughLoop` | internal/alert/evaluate.go:49-66 | through a whole rule loop a blocked key is not tried, and an open one succeeds at most once and is then stamped |
| `Alerts.AlertRunner.RunAllRules` | internal/alert/evaluate_ops.go:229-236 | the debounce table and the list of fan-outs after one evaluation |
| `Alerts.AlertRunner.RunOpsRules` | internal/alert/evaluate_ops.go:32-83 | counter first, then clearing unless stuck, then the rules in order |
| `Alerts.AlertRunner.RunTrafficRules` | internal/alert/evaluate.go:27-68 | the same for traffic rules, skipping ops and milestone rules |
| `Alerts.AlertRunner.RunMilestoneRules` | internal/alert/evaluate_milestones.go:16-55 | the same for milestones; a repository that may not be reported is passed over |
| `Alerts.AlertRunner.Fire` | internal/alert/evaluate.go:49-66 | tried unless blocked, stamped only after a fan-out in which every sink succeeded |
| `Alerts.AlertRunner.UpdateConsecutiveFailures` | internal/alert/evaluate_ops.go:113-130 | zero after a success, else one more than the stored number |
| `Alerts.AlertRunner.ClearUpstreamStaleDebounce` | internal/alert/evaluate_ops.go:85-95 | exactly the stale rules' keys are removed |
| `Alerts.CrossedMilestones` | internal/alert/evaluate_milestones.go:62-77 | the thresholds reached by a reportable repository, in order |
| `Alerts.FanOut` | internal/alert/sender.go:136-147 | succeeds if and only if there is a sink and all of them do |
| `Alerts.AtLeastOneFiresIff` | internal/alert/evaluate_ops.go:132-216 | an at-least-one ops rule fires exactly when its trouble has happened |
| `Alerts.OtherEventsFireIff` | internal/alert/evaluate_ops.go:165-216 | a known rate limit is compared; unknown events and windows never fire |
| `Alerts.OperatorsAreTheOrder` | internal/alert/evaluate.go:288-306 | the operators are one order: complements, converses and equality |
| `AlertRules.NormalizeMilestoneRule` | internal/alert/rules.go:95-131 | accepted exactly under the stated conditions; the ladder keeps the thresholds, each once, ascending |
| `AlertRules.NormalizeRule` | internal/alert/rules.go:45-93 | accepted exactly under the stated conditions, and every accepted rule is of the form the run lemmas assume |
| `AlertRules.ParseRules` | internal/alert/rules.go:28-43 | one bad rule rejects all; otherwise each place holds the normal form of its own rule |
| `AlertRules.NormalFormIsUnique` | internal/alert/rules.go:45-131 | an accepted rule has only one normal form |
| `WorkerPool.JobsArePartitioned` | internal/sync/worker.go:34-80 | in every interleaving each job is in exactly one of unsent, in flight, done and dropped, and never with two workers |
| `WorkerPool.NoDeadlock` | internal/sync/worker.go:34-80 | until the pool returns, some step other than a cancellation is possible |
| `WorkerPool.RunsAreShort` | internal/sync/worker.go:34-80 | a measure decreases with every step, so no run is longer than a bound linear in jobs and workers |
| `WorkerPool.EveryJobDoneOnce` | internal/sync/worker.go:69-79 | a run that returns uncancelled has done every job once and dropped none, counts exactly the outcomes that are errors, and names the smaller of five and that many of them |
| `WorkerPool.EveryTrackedNameOnce` | internal/sync/catalog.go:20-47 | over a listing without duplicates and any pins, every tracked name is worked exactly once |
| `WorkerPool.StepMovesOneJob` | internal/sync/worker.go:46-79 | a step moves at most one job, from one place to the next |
| `WorkerPool.OnlyBusyWorkersFinish` | internal/sync/worker.go:49-52 | once cancelled, only jobs already being worked are still done |
| `WorkerPool.WorkersAtFirst` | internal/sync/worker.go:35-47 | as many workers as asked for, at least one |
| `WorkerPool.RepoFailCounter.NoteFail` | internal/sync/stats.go:40-47 | one more failure, and its name while fewer than five are held |
| `WorkerPool.RepoFailCounter.Snapshot` | internal/sync/stats.go:49-54 | what has been noted |
| `Catalog.ResolveTracked` | internal/sync/catalog.go:20-47 | an explicit list verbatim; otherwise the listing followed by each pin outside it once, or an error if either read fails |
| `Catalog.PinsAddNoDuplicates` | internal/sync/catalog.go:35-46 | a listing without duplicates stays without them |
| `Coordinator.AtMostOneBody` | internal/sync/coordinator.go:105-171 | in every interleaving of starts, bodies, finishes and callbacks at most one body is in flight, and running is set exactly then |
| `Coordinator.OneFinishEach` | internal/sync/coordinator.go:151-171 | each accepted start gets exactly one finish, with its own result |
| `Coordinator.FinishCarriesTheReturn` | internal/sync/coordinator.go:114-119 | in every run the one finish of a start carries the error and numbers its own body returned, and success only without an error |
| `Coordinator.RejectedStartChangesNothing` | internal/sync/coordinator.go:105-129 | a start while one is in flight changes nothing |
| `Coordinator.IdleErrorIsTheLast` | internal/sync/coordinator.go:141-163 | when idle, the last error is the text the body of the last accepted start returned, or empty if it returned none |
| `Coordinator.AcceptedStartIsShown` | internal/sync/coordinator.go:141-149 | an accepted start is shown as running under its own scope and repository, with the old error gone |
| `Coordinator.TimesAreOfTheLastSteps` | internal/sync/coordinator.go:141-163 | the times are those of the last accepted start and of the last finish |
| `Coordinator.ReportsAreHonest` | internal/sync/coordinator.go:114-118 | the callback never sees success beside an error |
| `Coordinator.CallbacksCanOverlap` | internal/sync/coordinator.go:163-170 | two callbacks can be running at once, since they come after the lock is released |
| `Coordinator.SyncCoordinator.Begin` | internal/sync/coordinator.go:105-129 | accepted exactly when nothing runs; otherwise no field changes |
| `Coordinator.SyncCoordinator.FinishRun` | internal/sync/coordinator.go:151-163 | all fields after a finish; a success leaves the error cleared at the start |
| `Reports.ListedIffFound` | internal/store/report_visibility.go:126-150 | the list is in name order and names exactly the repositories the direct lookup finds, with the same data |
| `Reports.ReportsSeeOnlyReportable` | internal/store/report_visibility.go:134-178 | two stores that agree on every reportable repository give the same list, count and sums, whatever the others hold |
| `Reports.LookupSeesOnlyReportable` | internal/store/report_visibility.go:126-132 | and the same lookup |
| `Reports.OperatorChoiceOutlivesSyncs` | internal/store/report_visibility.go:46-122 | an exclude or include holds through every later sync, whatever GitHub then says |
| `Reports.UnknownNeedsAnOperator` | internal/store/report_visibility.go:24-38 | a repository of unknown visibility is shown only if an operator included it |
| `Reports.InheritedIsFoundIff` | internal/store/report_visibility.go:106-132 | after a sync a repository under no operator's choice is found if and only if it is public, or private where those are shown |
| `Reports.GitHubDecidesIff` | internal/store/report_visibility.go:24-38 | the same from GitHub's own answer, with the private flag standing in for a missing one |
| `Reports.InheritingGoesBack` | internal/store/report_visibility.go:40-56 | taking a choice back lets the stored visibility decide again; an unknown policy does nothing |
| `Reports.PrivateScopeAdds` | internal/store/report_visibility.go:134-150 | showing private repositories adds exactly the inherited private ones to the list and takes none away |
| `Reports.UpsertedRow` | internal/store/report_visibility.go:89-104 | counted interest keeps the greater value, the rest is GitHub's latest, the policy stays and the row is unhidden |
| `Reports.SumsAddUpTheTables` | internal/store/report_visibility.go:157-178 | the sums are those of the clones table and of the views table over the reportable repositories |
| `Reports.StarsNeverDecrease` | internal/store/report_visibility.go:89-104 | no sync or policy change lowers a stored star count |
| `Reports.ReportStore.UpsertRepoWithVisibility` | internal/store/report_visibility.go:89-104 | the whole row: counts by maximum, the policy kept, the repository unhidden |
| `Reports.ReportStore.SetRepoReportPolicy` | internal/store/report_visibility.go:46-56 | only the policy of an existing row, and only a valid one |
| `Reports.ReportStore.ReportRepoByName` | internal/store/report_visibility.go:126-132 | a reportable repository's summary or nothing |
| `Reports.ReportStore.ListReportRepos` | internal/store/report_visibility.go:134-150 | the filter loop gives the one name-ordered list of reportable repositories |
| `Reports.ReportStore.ReportRepoCount` | internal/store/report_visibility.go:152-155 | the number of reportable repositories |
| `Reports.ReportStore.SumReportClonesAll` | internal/store/report_visibility.go:157-167 | the clones of the listed repositories, added up |
| `Reports.ReportStore.SumReportViewsAll` | internal/store/report_visibility.go:168-178 | the views of the listed repositories, added up |
| `FleetStale.DetectFleetUpstreamStale` | internal/store/upstream_stale.go:23-58 | the loop refines the sets meant: the counts are cardinalities, since is the latest stale observation, and the signal needs three stuck and half of the eligible |
| `FleetStale.TallyFleetUpstreamStale` | internal/store/upstream_stale.go:60-84 | the tally loop counts the eligible and the stuck and keeps the latest observation |
| `FleetStale.ActiveMeansStuck` | internal/store/upstream_stale.go:45-57 | active means at least three stuck, twice stuck at least eligible, and stuck for at least K days |
| `FleetStale.ActiveIff` | internal/store/upstream_stale.go:45-57 | the signal is active if and only if three are stuck and they are half of the eligible |
| `FleetStale.EitherMetricMakesEligible` | internal/store/upstream_stale.go:136-156 | either metric alone, in the fourteen days up to yesterday, makes a reportable repository eligible |
| `FleetStale.StuckIff` | internal/store/upstream_stale.go:86-134 | an eligible repository is stuck if and only if a metric last fetched well stopped K days before yesterday, since the later one |
| `FleetStale.ActiveAtSmallerThresholds` | internal/store/upstream_stale.go:23-58 | active at K means active at every smaller positive K |
| `FleetStale.StaleSeesOnlyReportable` | internal/store/upstream_stale.go:38-84 | fleets that agree on reportable repositories have one and the same signal |
| `FleetStale.RepoUpstreamStaleObs` | internal/store/upstream_stale.go:86-105 | stuck if either metric is, since the later of the two |
| `FleetStale.MetricIsUpstreamStale` | internal/store/upstream_stale.go:122-134 | the last successful fetch's latest day, if old enough |
| `FleetStale.RepoHasNonZeroTrafficInWindow` | internal/store/upstream_stale.go:136-156 | whether either metric counted anything in the window |
| `FleetStale.DaysStuckFromSince` | internal/store/upstream_stale.go:107-120 | whole days between since and the last completed day |
| `Momentum.CloneMomentumSeries` | internal/h2h/series.go:64-86 | for every list of rows and every window of at least one day, each rolling value is the direct two-range ratio of that day |
| `Momentum.CloneMomentumRatio` | internal/h2h/metrics.go:88-107 | the ratio of two range sums, the divisor at least one |
| `Momentum.RatioMeaning` | internal/h2h/metrics.go:100-106 | the earlier window grown by the ratio is the later one; from nothing the ratio is the count itself |
| `Momentum.RollingIsDirect` | internal/h2h/series.go:64-125 | over fetched rows the series has a point on exactly the days with full history up to the latest row, each the ratio over the whole table |
| `Momentum.DenseDailyCounts` | internal/h2h/series.go:88-125 | every day from the earlier of calendar start and first row to the last row, with zero where no row is |
| `H2HChart.HistorySuffices` | internal/server/h2h.go:198-269 | for both rolling intervals the fetched history always suffices: no point from the first day shown to the latest row is missing |
| `H2HChart.FirstDayShown` | internal/server/h2h.go:259-269 | 7 or 30 days are shown, and two windows more are fetched |
| `H2HChart.BuildH2HChart` | internal/server/h2h.go:198-256 | labels are the days of the range with a row of either repository, counts are the tables' own, and momentum is the direct ratio or null |
| `H2HChart.AlignNullableFloatSeries` | internal/h2h/series.go:127-157 | the union of labels, ascending, where each column says on a day what its series says |
| `H2HChart.AlignMomentumSeries` | internal/h2h/series.go:33-40 | both rolling series aligned; a window below one gives nothing |
| `H2HChart.ValueOnMeaning` | internal/h2h/series.go:127-157 | alignment loses no value and moves none |
| `H2HChart.AlignDayRows` | internal/h2h/series.go:159-183 | the union of days with both counts, zero where a repository has no row |
| `H2HChart.TrimmedIsRangeQuery` | internal/server/h2h.go:271-282 | trimming the longer history gives what a query of the chart's range would |
| `H2HChart.TrimFloatSeriesFrom` | internal/h2h/series.go:43-62 | the labels on or after the start with what stands beside them |
| `H2HChart.KeptIsSuffix` | internal/h2h/series.go:43-62 | on ascending labels trimming drops the same prefix of labels and columns |
| `H2HChart.TrimDayRowsFrom` | internal/server/h2h.go:271-282 | the rows on or after the start, in order |
| `Score.ScoresMakeAHundred` | internal/h2h/score.go:40-132 | both scores lie in 0..100 and sum to 100, or to 101 exactly when both shares fall on a half point |
| `Score.SwapSwapsScores` | internal/h2h/score.go:40-90 | swapping the repositories swaps the scores and keeps the gap; only a tie keeps the leader |
| `Score.MoreNeverHurts` | internal/h2h/score.go:117-147 | more clones, views or momentum never lower a repository's score nor raise the other's |
| `Score.UncontestedScore` | internal/h2h/score.go:48-70 | who alone has a metric gains its whole weight: 50, 30 and 20, or 50 and 50 |
| `Score.SharesAreProportional` | internal/h2h/score.go:135-147 | shares are in the proportion of the values |
| `Score.LeaderScoresNoLess` | internal/h2h/score.go:72-76 | the leader never has the smaller score, and who does not lead has less |
| `Score.RowsShowTheirLeader` | internal/h2h/score.go:92-113 | each row shows its metric's values, its weight and who leads on it |
| `Score.RoundIsNearest` | internal/h2h/score.go:117-132 | rounding is to the nearest integer and the same on both sides of zero |
| `Score.GapIsAPercentage` | internal/h2h/score.go:150-157 | the gap lies in 0..100, is zero only for a tie and 100 only against zero |
| `Score.GapIsRelativeToTheLeader` | internal/h2h/score.go:150-157 | taking the gap off the leader's score gives the other's |
| `Score.LoadRepoMetrics` | internal/h2h/metrics.go:35-86 | views and momentum of the last 7 and 30 days are the range sums and ratios on that day; an unknown repository has none |
| `Score.ScoredMomentumEndsTheChart` | internal/h2h/metrics.go:55-75 | with a clone row today, the momentum that is scored is the chart's last point |
| `Score.RoundedPair` | internal/h2h/score.go:117-132 | how two shares of a hundred round |
| `Calendar.TextOrderIsDayOrder` | internal/server/h2h.go:271-282 | the text order of RFC 3339 full-dates is calendar order, and equal text is the same day |
| `Calendar.NextDateIsNextNumber` | internal/h2h/series.go:117-123 | stepping one calendar day is adding one to the day number |
| `Names.SortedMeaning` | internal/store/report_visibility.go:134-150 | the name order lists exactly the set, ascending, each once |
| `Printing.FormatBadgeNumber` | internal/server/badge.go:185-198 | the badge's character loop prints the digits in groups of three |
| `Printing.GroupedCount` | internal/i18n/number.go:73-90 | the page's chunk loop prints the same grouping, with the locale's separator; in English they agree |
| `Printing.UngroupNumber` | internal/i18n/number.go:73-90 | deleting the separators gives back the digits and so the number |
| `Printing.SvgEscapeIsOnePass` | internal/server/badge.go:200-206 | the four replacements in a row equal one pass over the characters |
| `Printing.SvgEscapeRoundTrip` | internal/server/badge.go:200-206 | decoding the entities gives back the text |
| `Printing.EscapedIsInert` | internal/server/badge.go:200-206 | no angle bracket or quote is left |

## Left out

- HTTP handlers, templates, middleware, sessions, whitelist, reverse proxy and rate limiting: plumbing around the models here.
- SQLite itself: connections, migrations, write-ahead log, backup and restore. Reads and writes succeed, except where the star sync models a failing cursor read, maximum read or cursor write; a failing `UpsertStar`, a failing debounce read or write and a failing stamp after a delivery are not modelled.
- The GitHub client beyond the paging of stargazers: HTTP, JSON, retries and sleeps. Replies are inputs.
- Filter expressions: the listing arrives filtered. Featured repositories' metadata is not modelled.
- Sinks' own formats (Slack, webhook, Loki, SMTP) and payload texts: a fan-out is its sinks' outcomes.
- The evaluation of a traffic rule's metric (`evalOneScoped` with its sums and drop percentages): which repositories or scopes a rule fires for is an arbitrary input of each evaluation.
- Trimming and lower-casing of rule fields: `AlertRules` starts from fields already in that form. Rules are values there; the source changes them in place before anyone else sees them.
- Integer widths: all counts are unbounded integers, `Atoi`'s range error included.
- Floating point: momentum and score are real numbers; rounding errors of IEEE arithmetic are not modelled, rounding to whole percent is.
- Dates that do not parse: rows of the H2H series and coverage tables hold valid dates.
- Configuration changes while running: one rule list and one set of sinks per run. A configuration without rules or sinks evaluates nothing, not even the counter.
- The suggestion text and confidence label of a comparison, compact numbers, decimal numbers, label truncation, metrics, logs, CSV, terminal and web output: easy claims or output only.
- `UpsertView`, `UpsertClone` and the demo writers: they bypass the coverage discipline on purpose.
- The clone windows of repository summaries that use SQL's own current date, and the sort orders other than by name.
- StarRuns.StoredHistoryIsRebuild: assumes a list that only grows and a reported count equal to its length; with unstars the claim is false, as `StarHistory.UnstarLeavesOldTotal` shows.
- Freshness.DenseTrafficChart: needs a range that ends no earlier than the day before its start, because the source's allocation panics on a longer negative length.
- AlertGuarantees.StaleFiresOncePerEpisode: assumes that ops rules sharing one key share one debounce mode, because the key is built from another mode than the one applied.
- AlertGuarantees.TrafficFiresOncePerDate: assumes that everything asking for the key is daily; two rules that differ only in fields with bars could share a key in different modes.
- WorkerPool.EveryJobDoneOnce: the end of the worker's function and the count of its failure are one step; only a cancellation between jobs is seen by the pool itself.
- Coordinator.SyncCoordinator.Begin: the observation of durations for metrics is left out.
