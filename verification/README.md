# Verified model of the dashboard's stateful algorithms

This project models, in Dafny, the algorithms behind the numbers of a barbershop-network dashboard and the protocols
that protect its hand-entered data, and proves what they promise. Days are ordinals (0001-01-01 is day 1), moments are
microseconds, money is whole kopecks, database tables are maps, sets or sequences of records, and an SQL filter is a
predicate over rows.

| part | modules | main result |
|---|---|---|
| Rebooking (OPZ) events | `Opz`, `OpzSearch`, `OpzOutcome` | the windowed, prefiltered search equals the plain rule over the whole table, and windows add up |
| Administrator attribution | `Shifts`, `AdminAttribution`, `AttributionOutcome` | the greedy allocator is total, conserving, independent of input order and even on shared days |
| Calendar and role periods | `Calendar`, `Baseline`, `Periods`, `Roles`, `ManualMonths`, `BaselineOutcome`, `RoleOutcome` | baselines, slices, merges, role partitions and manual-month runs with real month lengths |
| Manual-fact saves | `FactRows`, `FactSaves`, `FactTable`, `FactOutcome` | no lost update and no deadlock over every interleaving of transactions |
| Yandex Pay saves | `PaymentSaves`, `PaymentTable`, `PaymentOutcome` | a compare-and-set on (amount, data through) over every interleaving |
| Plan rewrite | `PlanRules`, `PlanTable`, `PlanOutcome` | hand-set values survive exactly when unedited, inserts never clash, saving twice is saving once |
| Payment breakdown | `BreakdownRules`, `PaymentBreakdown`, `BreakdownOutcome` | no kopeck lost, two granularities that agree exactly as far as totals apply |
| Sessions | `SessionRules`, `SessionStore`, `SessionOutcome` | one-way life of every refresh token and bounded sessions over every run |
| Staff mirror rows | `StaffRules`, `StaffSteps`, `StaffTable`, `StaffOutcome` | idempotent sync, one standing row per branch, YClients rows untouched over every run |
| Rate limiter | `LimiterRules`, `RateLimiter`, `LimiterOutcome` | at most the maximum in every window, pruning and sweeping unobservable |

`Wrappers`, `Sorting`, `Clock` and `Reporting` hold shared datatypes, sorting, day arithmetic and reporting windows. Each part has a rule or a step
relation on values, a method or class that works as the source does (loops, dictionaries, fields changed in place), a
contract tying the two, and lemmas about the rule over every input or every run. An `Outcome` module then tells what
the rule comes to over the rows' own fields, the days and the numbers, in both directions and without the predicates
the rule is built from, so that a rule that looked at the wrong field or left out a case would contradict it;
`AnyRowsStart`, `RunGoesOn`, `AnyBatchBegins` and `AnySaveMayEnd` show that the runs spoken of are all there. `dafny verify
dfyconfig.toml` checks the whole project.

What the proofs turned up:

- `_month_slices` steps its cursor past each month's end, so every window ending in December 9999 raises an overflow
  (`Periods.MonthSlices`, `ManualMonths.CountableMonths`, `PaymentBreakdown.Breakdown` state it exactly).
- Role segments agree with a person's administrator periods exactly when those periods hold every month they touch
  whole; periods resolved over the same window always do (`Roles.SegmentsAgreeExactly`, `Roles.ResolvedSegmentsAgree`).
  The failing half (`Roles.HalfMonthDisagrees`) is not reachable in the dashboard, whose callers resolve the periods over
  the very window they cut into segments (`dashboard_service.py:6585-6630`).
- `_merge_date_periods` steps a day past each period's end, so it overflows when a period other than the last ends on
  9999-12-31 (`Periods.MergeDatePeriods`).
- The `Retry-After` hint is cut to whole seconds, so a client that waits exactly as told can be refused once more
  (`LimiterRules.RetryAdmitsExactly`, `LimiterRules.RetryTooEarly`).
- A session just issued can be dropped by its own maintenance when enough others are marked as used later
  (`SessionRules.IssuedKeptExactly`).
- The monthly Yandex Pay line can exceed the table's, by exactly the fitting months of branches the table does not
  apply (`BreakdownRules.MonthlyPayIsTablePay`).

## Model

| member | source | states |
|---|---|---|
| OpzSearch.FindEvents | dashboard_service.py:3722-3935 | The optimised search (prior-visit probe, one-day lookback, survivor narrowing or not, sort plus bisect, taken set, first-visit flags) returns exactly the events of the plain rule over the whole table, in the same order |
| OpzSearch.Pass | dashboard_service.py:3877-3919 | The loop over candidates emits exactly the drafts of the bookings that are the first to rebook their anchor, in (create date, id) order |
| OpzSearch.LatestVisit | dashboard_service.py:3884-3892 | Bisecting a client's sorted visits finds the greatest visit up to a day in (date, moment, id) order, or nothing exactly when there is none |
| OpzSearch.BisectRight | dashboard_service.py:3888-3888 | How many dates of a sorted list are at most a day |
| OpzSearch.IndexVisits | dashboard_service.py:3862-3875 | The index holds every read visit of each client, sorted by the anchor order, with its dates alongside |
| OpzSearch.RebookingsSurvive | dashboard_service.py:3780-3806 | A booking of the read days that rebooks a visit is never dropped by the prior-visit probe |
| OpzSearch.NearVisitsRead | dashboard_service.py:3814-3849 | Every visit a candidate could be anchored on is read, narrowed or not |
| OpzSearch.LatestReadIsAnchor | dashboard_service.py:3819-3826 | The latest visit that was read passes the day rule exactly when it is the true anchor over all visits and the booking rebooks it |
| OpzSearch.EarlierRebookingsRead | dashboard_service.py:3755-3759 | The one-day lookback sees every earlier booking that could share an anchor with a counted one |
| OpzSearch.CandidatesHoldEveryEvent | dashboard_service.py:3770-3812 | Prefilters drop no event: the accepted candidates are the accepted bookings of the whole table, in order |
| OpzSearch.FreeMeansFirst | dashboard_service.py:3893-3899 | A candidate whose visit is still free at its turn is the first booking of the whole table to rebook it |
| OpzSearch.TakenMeansNotFirst | dashboard_service.py:3897-3899 | A visit already taken was rebooked first by an earlier booking |
| OpzSearch.FirstVisitFlag | dashboard_service.py:1633-1657 | The flag taken from first days up to the window end equals the windowless notion of a first visit |
| OpzOutcome.EventsAreRebookings | dashboard_service.py:3877-3935 | Told over the rows alone: the events are exactly the bookings that are the first to rebook the client's latest visit of the day or the day before, each once in order of creation, with the booking's id, client, creator and days and the visit's day and barber |
| Opz.EventsAdditive | dashboard_service.py:3733-3735 | The events of a window are the events of its two parts laid end to end |
| Opz.EventsAdditiveOverParts | dashboard_service.py:3733-3735 | The same for any number of adjacent windows |
| Opz.OneEventPerVisit | dashboard_service.py:3733-3735 | An anchor visit is rebooked by at most one event, whatever the windows |
| Opz.AnchorUnique | dashboard_service.py:3712-3719 | The anchor order singles out one visit |
| Opz.FixedOffsetIsValid | dashboard_service.py:3702-3704 | Any fixed offset of less than a day meets the hypothesis made about time zones |
| Shifts.SqlAgreesWithInterval | dashboard_service.py:4672-4713 | The SQL shift predicate holds of a slot and a moment exactly when the Python interval test does, equal slot ends included |
| Shifts.CoveringDays | dashboard_service.py:4330-4343 | Only slots of the moment's day and the day before can cover it |
| AdminAttribution.Assign | dashboard_service.py:4259-4313 | The dictionaries-and-minimum loop builds an allocation in which every event went to its rightful administrator given the earlier ones |
| AdminAttribution.Choose | dashboard_service.py:4299-4307 | One turn picks the on-shift creator, else the least loaded on shift by day, window and id, else the listed creator, else the least loaded of all |
| AdminAttribution.AllocationUnique | dashboard_service.py:4250-4255 | There is only one rightful allocation of an event sequence |
| AdminAttribution.AssignmentIgnoresInputOrder | dashboard_service.py:4273-4273 | The result does not depend on the order events come in |
| AdminAttribution.AssignmentTotal | dashboard_service.py:4253-4254 | Exactly the events' ids are attributed, each to a listed administrator |
| AdminAttribution.SharesAddUp | dashboard_service.py:4253-4254 | The administrators' shares add up to the number of events |
| AdminAttribution.SharedDayIsEven | dashboard_service.py:4250-4252 | On a day whose events share one on-shift set and no on-shift creator, loads in that set differ by at most one after every event |
| AttributionOutcome.EachIsDue | dashboard_service.py:4299-4307 | Every event went to its creator on shift, else to whoever on shift had the fewest events that day, of those the fewest in the window, of those the smallest id; with nobody on shift to its listed creator, else to the fewest in the window |
| AttributionOutcome.AssignedAsDue | dashboard_service.py:4273-4313 | The dictionary gives every event, taken by day, moment and id, to whom it is due |
| AttributionOutcome.UnscheduledIsEven | dashboard_service.py:4306-4307 | With nobody scheduled and no listed creators the loads of all listed people differ by at most one after every event |
| Calendar.MonthOfUnique | dashboard_service.py:4393-4400 | A day lies in one month only |
| Calendar.MonthStartIsOrdinal | dashboard_service.py:177-182 | Months laid end to end from 0001-01-01 give the proleptic Gregorian ordinals of the closed leap-year formula |
| Calendar.CalendarEnds | dashboard_service.py:177-182 | The last month ends on 9999-12-31 and every valid date lies in a month of the calendar |
| Baseline.ShiftedDay | dashboard_service.py:177-182 | The shift fails exactly before year 1; otherwise it lands the given months earlier on the same day or that month's last day |
| Baseline.ShiftMonotone | dashboard_service.py:177-182 | Shifting months back keeps the order of dates, and a later date can always be shifted when an earlier one can |
| Baseline.BaselineWellFormed | dashboard_service.py:202-230 | Every baseline is a non-empty window that ends before the period starts |
| Baseline.PlainBaseline | dashboard_service.py:198-200 | Without a preset the baseline is adjacent and of equal length, and exists exactly when it fits the calendar |
| Baseline.StretchTooLongExactly | dashboard_service.py:219-228 | Told from the window's months and days alone, when the shifted stretch would overlap the period and is replaced |
| Baseline.BaselineMissingExactly | dashboard_service.py:223-230 | Told from the window and the preset alone, exactly when there is no baseline |
| Baseline.WholeMonthsLandOnWholeMonths | dashboard_service.py:241-246 | On the shifted path whole months are measured against as many whole months, the preset's distance earlier |
| Baseline.WeekKeepsWeekdays | dashboard_service.py:232-235 | A stretch of at most a week is measured against the same weekdays seven days earlier |
| BaselineOutcome.BaselineExactly | dashboard_service.py:172-246 | What each preset is measured against: a day or month the same dates one month back, a quarter three, a year twelve, a week seven days; what would overlap, and a plain period, the days just before |
| Periods.MonthSlices | dashboard_service.py:4393-4400 | The cursor loop yields one cut month per month of the window, and overflows exactly when the window ends in December 9999 |
| Periods.SlicesTile | dashboard_service.py:4393-4400 | The slices tile the window day by day |
| Periods.TilesCover | dashboard_service.py:4393-4400 | Each day of a tiled window lies in exactly one tile, no other day in any |
| Periods.AppendRun | dashboard_service.py:4432-4435 | One turn of the joining loops keeps runs tiling the same days, neighbours different, kinds agreeing day by day |
| Periods.MergeDatePeriods | dashboard_service.py:4439-4446 | The cursor loop gives the same days in periods with a gap between them, and overflows exactly when a period other than the last in order ends on 9999-12-31 |
| Periods.MergedPeriods | dashboard_service.py:4439-4446 | The merge of the sorted periods holds exactly the same days, inverted periods included, and leaves a gap of a day between its periods |
| Periods.MergeIdempotent | dashboard_service.py:4439-4446 | Merging merged periods changes nothing |
| Roles.ResolveRoles | dashboard_service.py:4573-4664 | Per month the newest metric row, else the newest input row, else the position decides, and equal neighbours join into each kind's periods |
| Roles.Newest | dashboard_service.py:4632-4647 | The most recently updated candidate, the first read of several |
| RoleOutcome.CategoryExactly | dashboard_service.py:4632-4647 | A month's category is that of its newest metric row touching it, first read of several, without one of its newest input row, without either the position's |
| Roles.RolesPartition | dashboard_service.py:4652-4663 | A person's administrator and master periods are disjoint, cover the window and hold each day by its month's category |
| RoleOutcome.RolesAreJoined | dashboard_service.py:4648-4651 | No period of one kind of work starts the day after another of the same kind ends |
| Roles.RoleSegments | dashboard_service.py:4410-4436 | Month maps are joined into segments that tile the window with neighbours different |
| Roles.SegmentsFollowMonths | dashboard_service.py:4418-4436 | Each day's segment carries the role map of its month |
| RoleOutcome.SegmentsAreJoined | dashboard_service.py:4432-4435 | Neighbouring segments follow each other without a gap and carry different roles |
| Roles.SegmentsAgreeExactly | dashboard_service.py:4421-4431 | A segment calls a person administrator exactly on their administrator days if and only if those periods cover every month of the window they touch whole |
| Roles.HalfMonthDisagrees | dashboard_service.py:4421-4431 | Periods holding half a month: its one segment calls the person administrator on all of it |
| Roles.ResolvedSegmentsAgree | dashboard_service.py:4421-4431 | For periods resolved over the same window the segments agree with them on every day |
| ManualMonths.CountableMonths | dashboard_service.py:5628-5655 | The loop collects the months of one contiguous run, overflowing exactly in December 9999 |
| ManualMonths.CountableRun | dashboard_service.py:5628-5655 | Countable months form one run of months for every period and today |
| ManualMonths.CountableExactly | dashboard_service.py:5646-5654 | The 1sts collected are exactly those of the period's months that start inside it and either end inside it or hold today with the period reaching it |
| ManualMonths.ShiftMonthStart | dashboard_service.py:5841-5845 | Stepping by last days of months lands on the 1st so many months earlier, failing exactly before year 1 |
| ManualMonths.PreviousCountableMonths | dashboard_service.py:5848-5865 | As many months, immediately before the countable ones, failing exactly at the ends of the calendar |
| ManualMonths.RunsAdjacent | dashboard_service.py:5855-5860 | Two runs end to end are one run and share no month |
| FactRows.CollectPosts | dashboard_service.py:8570-8589 | Posted rows by key, refused when a key comes twice |
| FactRows.CollectChanges | dashboard_service.py:8642-8656 | The edited rows, or a conflict exactly when some edited row no longer shows what its editor was shown |
| FactRows.JudgeBatch | dashboard_service.py:8591-8666 | The verdict of every check before the first write, in their order: nothing posted, foreign branch, closed row, foreign row, stale row, no edit, departed branch |
| FactRows.WrittenRowsWereFresh | dashboard_service.py:8642-8656 | A batch that is written changes only edited rows whose shown value is the one their editor saw |
| FactRows.SumSplits | dashboard_service.py:8515-8523 | The shown sum does not depend on the order split rows are added in |
| FactOutcome.RoundedExactly | dashboard_service.py:8515-8523 | The editor shows the nearest whole number, halves rounded away from zero |
| FactOutcome.VerdictExactly | dashboard_service.py:8591-8666 | Told over the posted rows, what they show and what the actor may edit: each refusal comes exactly when its check is the first to fail, and a batch is written exactly when none does |
| FactOutcome.WrittenExactly | dashboard_service.py:8642-8666 | A written batch changes exactly the rows typed into, to the values posted, and each is in the actor's branches and own rows, open or holding a value, in a branch that has not left |
| FactOutcome.OpenWasBegun | dashboard_service.py:8543-8660 | Over every interleaving an open save still carries what was posted and read when it began, and passed every check then |
| FactOutcome.OnlyPermittedRowsChange | dashboard_service.py:8591-8633 | Over every interleaving a commit changes only rows its actor was permitted to edit when the save began, under the actor's name |
| FactOutcome.RefusedOnlyWhenChanged | dashboard_service.py:8674-8708 | Over every interleaving a save is refused in the middle only when the row it is replacing is not what it read any more |
| FactOutcome.AnyBatchBegins | dashboard_service.py:8543-8660 | Any batch can be posted in any state and opens a save exactly when it is judged fit to write, so the runs proved about are not empty |
| FactOutcome.DeleteWaitsExactly | dashboard_service.py:8676-8690 | A DELETE waits exactly for an open save that has deleted a row it is to delete |
| FactOutcome.InsertWaitsExactly | dashboard_service.py:8691-8708 | An INSERT waits exactly for an open save that has inserted, or deleted, the whole-month row of its key |
| FactSaves.RunKeepsInv | dashboard_service.py:8668-8708 | Every interleaving of begins, deletes, inserts, commits and aborts keeps the table unique and every open save sound, its plan being exactly the edits of its batch |
| FactSaves.NoLostUpdate | dashboard_service.py:8642-8729 | Over every interleaving, a commit leaves every edit of its batch stored under its author, each over the value its editor was shown, and touches no other key |
| FactSaves.WholeBatchStored | dashboard_service.py:8557-8561 | After a commit every row its editor changed shows the posted value: the whole batch or nothing |
| FactSaves.OnlyCommitsWrite | dashboard_service.py:8668-8708 | A refused, waiting or abandoned save changes nothing stored |
| FactSaves.KeyHeldOnce | dashboard_service.py:8668-8687 | A key is held by one open save at a time |
| FactSaves.HeldKeysAreSmaller | dashboard_service.py:8668-8675 | A save never holds a key beyond the one it works on |
| FactSaves.WaitsAscend | dashboard_service.py:8668-8675 | In every reachable state the keys wanted along waits only grow, so no cycle of waits closes |
| FactSaves.SomeSaveFree | dashboard_service.py:8668-8675 | Following the waits from any open save reaches one that waits for nobody |
| FactSaves.SomeSaveCanStep | dashboard_service.py:8668-8675 | In every reachable state with an open save, some save can take a step of its own |
| FactTable.Table.WriteBatch | dashboard_service.py:8601-8708 | With nobody else writing: refused whole with nothing changed, or exactly the edited keys hold the new value and author |
| FactTable.Table.ReplaceKey | dashboard_service.py:8675-8702 | Delete and insert of one key leaves it the one new row or none, other keys as they were |
| FactTable.ShowRows | dashboard_service.py:8515-8523 | Summing the rows one by one gives the rounded shown value, nothing for no rows |
| PaymentSaves.EntryDates | payment_methods.py:92-104 | Once the month has started: the latest day is the greatest one accepted, the default the last day of the month already passed or else its 1st; before that neither |
| PaymentSaves.CollectPending | payment_methods.py:308-322 | The rows to write with their default days filled in, or a conflict exactly when some edited row went stale |
| PaymentSaves.JudgeBatch | payment_methods.py:292-324 | The verdict of the checks before the first write |
| PaymentSaves.WrittenRowsWereFresh | payment_methods.py:308-322 | What is written replaces rows that still hold the pair their editor saw, with a sound pair |
| PaymentOutcome.VerdictExactly | payment_methods.py:288-325 | Told over posted pairs, stored rows and days: each verdict comes exactly when its check is the first to fail, and what is written is exactly the edits, an undated amount reaching the day offered |
| PaymentOutcome.OpenWasBegun | payment_methods.py:237-325 | Over every interleaving an open save still carries what was posted and read when it began, and passed every check then |
| PaymentOutcome.OnlyOpenBranchesChange | payment_methods.py:288-360 | Over every interleaving a commit changes only rows of branches open when the save began, from the pair shown to the pair asked for, under its author |
| PaymentOutcome.RefusedOnlyWhenChanged | payment_methods.py:328-360 | Over every interleaving a save is refused in the middle only when the row it is writing is not the one it read any more |
| PaymentOutcome.AnyBatchBegins | payment_methods.py:237-325 | Any parsed batch can be posted in any state and opens a save exactly when it is judged fit to write |
| PaymentOutcome.WaitsExactly | payment_methods.py:328-360 | A write waits for another save exactly when that has written its branch and is still open, unless the row it read is gone |
| PaymentOutcome.ParsedExactly | payment_methods.py:63-81 | What parsing leaves of a posted row: no negative amount, a day of the month that has come, no day without an amount |
| PaymentOutcome.RowsAlwaysSound | payment_methods.py:107-117 | Every row ever stored has an amount of nought or more and a day inside its month and not after today |
| PaymentSaves.RunKeepsInv | payment_methods.py:326-385 | Every interleaving, days passing included, keeps every open save sound, its plan being exactly the pending rows of its batch |
| PaymentSaves.CommitIsCompareAndSet | payment_methods.py:326-385 | Over every interleaving, a commit takes every pending row of its batch from the pair its editor saw to the posted pair, an undated amount to the default day as of its begin, and touches no other row |
| PaymentSaves.RowsAlwaysValid | payment_methods.py:107-117 | Every row ever stored has a non-negative amount and reaches a day of its month that has come |
| PaymentSaves.OnlyCommitsWrite | payment_methods.py:331-360 | A refused, waiting or abandoned save changes no row |
| PaymentSaves.WaitsAscend | payment_methods.py:327-327 | Whoever is waited for has passed the branch, so waits only climb |
| PaymentSaves.SomeSaveFree | payment_methods.py:327-327 | Following the waits reaches a save that waits for nobody |
| PaymentSaves.SomeSaveCanStep | payment_methods.py:327-360 | In every reachable state with an open save, some save can take a step of its own |
| PaymentTable.Table.WriteRow | payment_methods.py:328-360 | One guarded insert, update or delete: counted exactly when the row is still the one read with the pair the editor saw, and nothing else moves |
| PaymentTable.Table.SaveBatch | payment_methods.py:237-385 | With nobody else writing no guard fails: the batch is refused whole, or every pending row takes its new pair and no other row moves |
| PlanTable.Table.Save | dashboard_service.py:7800-8128 | Refused with nothing changed exactly when the request does not fit the snapshot, else the month is rewritten by the merge rule; no insert of the rewrite ever meets a row already there |
| PlanTable.Table.RewriteMetrics | dashboard_service.py:8003-8112 | Generated rows and restored hand-set rows together give every slot its merged value, each slot inserted at most once |
| PlanTable.Table.WriteGenerated | dashboard_service.py:8048-8092 | Generated rows go in except over an unedited hand-set value |
| PlanTable.Table.RestoreHandSet | dashboard_service.py:8094-8112 | Hand-set rows go back unchanged except where replaced, generated or edited |
| PlanTable.Table.RewriteSettings | dashboard_service.py:7989-8028 | The month's settings become exactly the submitted ones that have values; other months and branches stay |
| PlanTable.Table.RewriteInputs | dashboard_service.py:7996-8046 | The month's inputs become exactly the team's, each slot inserted at most once |
| PlanTable.Snapshot | dashboard_service.py:7453-7529 | Saved inputs come from the inputs table, and from the metric rows for whoever is not in it: identity from the newest row, fields from all |
| PlanTable.CarryOver | dashboard_service.py:7910-7925 | The team is the submitted staff and, unless replacing, the fired people who were not submitted |
| PlanTable.Calculate | dashboard_service.py:7627-7650 | A branch or staff metric is generated exactly when the settings and inputs give it a value, with that value and category |
| PlanRules.HandSetSurvivesExactly | dashboard_service.py:8051-8112 | A hand-set value survives a save unchanged if and only if the plan is not replaced and its branch row or staff row was not edited |
| PlanOutcome.BranchValueSurvivesExactly | dashboard_service.py:7876-8112 | A hand-set branch value survives if and only if the plan is not replaced, the branch's submitted settings are the stored ones, and every submitted person of the branch has the saved category and values |
| PlanOutcome.StaffValueSurvivesExactly | dashboard_service.py:7876-8112 | A hand-set value of a person survives if and only if the plan is not replaced and what was submitted for the person is what was saved |
| PlanOutcome.SnapshotExactly | dashboard_service.py:7453-7529 | Who counts as saved and as what: by the inputs table, or by the six input metrics of whoever is not in it, branch and category from the newest |
| PlanOutcome.TeamExactly | dashboard_service.py:7860-7925 | The team is the submitted people and, unless replacing, the fired employees with a saved input whom the request leaves out |
| PlanOutcome.AcceptedExactly | dashboard_service.py:7812-7955 | A request is accepted exactly when its branches are listed once and open, its people come once in listed branches, and everyone on the team belongs to the month and branch and plans as saved or else as the position says |
| PlanOutcome.RestIsLeft | dashboard_service.py:7989-8002 | Other months and branches that are not listed keep every row |
| PlanOutcome.SettingsAfter | dashboard_service.py:8011-8028 | A listed branch keeps its submitted values and nothing else, and no row without values |
| PlanOutcome.InputsAfter | dashboard_service.py:8030-8046 | A listed branch keeps the inputs of its team, one row each, and no others |
| PlanOutcome.BranchMetricAfter | dashboard_service.py:8051-8070 | Unless a hand-set value survives there, a branch slot holds the metric its settings and own people give, under no category, or nothing |
| PlanOutcome.StaffMetricAfter | dashboard_service.py:8072-8092 | The same for a person's slot: the metric of the person's input under the branch's settings, with the person's category |
| PlanOutcome.NobodysMetricAfter | dashboard_service.py:8094-8112 | A person not on the branch's team is left with nothing but surviving hand-set values |
| PlanRules.NothingEdited | dashboard_service.py:7876-7911 | Read back after a save, the same request counts no branch and no person as edited |
| PlanRules.AcceptedAgain | dashboard_service.py:7927-7955 | Saving the same request again is accepted with the same team |
| PlanRules.SaveTwice | dashboard_service.py:7800-8128 | Saving the same plan again changes nothing but the time stamps of rows it generates, even after a replacing save |
| PlanOutcome.SecondSaveExactly | dashboard_service.py:7800-8128 | Field by field: after saving the same request again settings and inputs are the same, and so are value, category and source of every metric, with the time stamp of those set by hand |
| PlanRules.OneValue | dashboard_service.py:7627-7650 | The settings and inputs give a metric at most one value |
| PaymentBreakdown.Breakdown | payment_methods.py:436-573 | The report's branch and month lines, or a refusal exactly for too many months or an end in December 9999 |
| PaymentBreakdown.BucketByMonth | dashboard_service.py:1533-1603 | Each branch, month and account type holds the sum of exactly its payments of the period |
| PaymentBreakdown.BucketByBranch | payment_methods.py:473-477 | Adding up the months gives each branch the sum of exactly its payments |
| PaymentBreakdown.MakeBranchLine | payment_methods.py:503-544 | A branch line: account sums, Yandex Pay carved out of cashless, the gaps in month order, reached days and the reason |
| PaymentBreakdown.MakeMonthLine | payment_methods.py:545-568 | A month line: account sums over all branches and the totals that fit, each asked on its own |
| PaymentBreakdown.ReasonIsRight | payment_methods.py:414-433 | The reason is absent exactly when the totals apply, and the day reported with it is the latest total's |
| BreakdownOutcome.BranchLineExactly | payment_methods.py:498-544 | A branch line field by field over payments, stored totals and the window: cash is account type 0, cashless type 1, the rest other; totals are shown exactly when no reported month starts before the period and no total reaches past it, with the day reported |
| BreakdownOutcome.MonthLineExactly | payment_methods.py:545-568 | A month line field by field, every total of a branch's reported month counted exactly when its days lie inside the period |
| BreakdownOutcome.WindowMeets | payment_methods.py:461-466 | A branch is listed exactly when some day of the period is one it reports |
| BreakdownRules.AppliedExactly | payment_methods.py:428-433 | Totals apply if and only if the first month is whole or not covered and no total reaches past the end |
| BreakdownRules.AppliedStretchInside | payment_methods.py:420-427 | An applied total covers no day outside the period |
| BreakdownRules.BreakdownConserves | payment_methods.py:473-568 | In every line cash, cashless, Yandex Pay and other add up to the payments it stands for, and both tables add up to all payments of the period |
| BreakdownRules.BranchIsSumOfMonths | payment_methods.py:473-477 | A branch's bucket is the sum of its months |
| BreakdownRules.MonthlyPayIsTablePay | payment_methods.py:445-450 | Monthly Yandex Pay exceeds the table's by exactly the fitting months of branches that are not applied, so they agree when all are |
| SessionStore.Store.Maintain | auth_sessions.py:261-293 | Expired sessions go, and of the live ones all but the first so many by (last used, id) descending |
| SessionStore.Store.Issue | auth_sessions.py:117-149 | A new row under a new id, then maintenance |
| SessionStore.Store.Load | auth_sessions.py:308-336 | The session a token may rotate, ending it on a replay or past its age, by current token first, then by the previous one in grace |
| SessionStore.Store.Rotate | auth_sessions.py:152-215 | The guarded update then maintenance; refused with nothing changed exactly when the guard no longer matches |
| SessionStore.Store.List | auth_sessions.py:231-247 | The live sessions left after maintenance, in order |
| SessionStore.Store.RevokeToken | auth_sessions.py:218-223 | Exactly the session holding the token goes |
| SessionStore.Store.RevokeUser | auth_sessions.py:226-228 | Exactly the user's sessions go |
| SessionStore.Store.RevokeSession | auth_sessions.py:250-258 | Exactly that session of that user goes, and it is reported |
| SessionRules.KeepsTheTop | auth_sessions.py:261-293 | After maintenance the user keeps as many live sessions as the limit allows, each before every one dropped, and none expired |
| SessionRules.RankIsPosition | auth_sessions.py:274-290 | A session's rank by counting is its position in the sorted list |
| SessionRules.IssuedKeptExactly | auth_sessions.py:117-149 | A session just issued survives its own maintenance exactly when it can live at all and fewer than the limit are marked as used later |
| SessionRules.RunKeepsInv | auth_sessions.py:117-336 | Every run of issue, look-up, rotation, grace retry and revocation keeps one owner per token and every expiry under its cap |
| SessionRules.LoadDetermined | auth_sessions.py:308-336 | A token is found in at most one session, so its look-up has one outcome |
| SessionOutcome.CurrentTokenExactly | auth_sessions.py:308-336 | A current token goes through exactly before its expiry has passed and before its age cap; past the cap the session ends, past the expiry the look-up just fails |
| SessionOutcome.PreviousTokenExactly | auth_sessions.py:317-336 | A token held only as previous goes through exactly when the session was rotated at most 30 seconds ago and is in time; later than that the session is gone and the look-up fails |
| SessionOutcome.UnknownTokenRefused | auth_sessions.py:318-323 | A token in no slot is refused and changes nothing |
| SessionOutcome.TicketWasIssued | auth_sessions.py:152-180 | Over every run every rotation past its checks was let through by a look-up of a session in time, with a previous token at most 30 seconds after the session's last rotation |
| SessionOutcome.MaintainedExactly | auth_sessions.py:261-293 | Of a user's sessions the most recently used live ones are left up to the limit, all of other users' and every row as it was |
| SessionOutcome.IssuedExactly | auth_sessions.py:117-142 | Issuing adds one session, just used and never rotated, expiring after the sliding term or at the age cap, and retires the least recently used ones over the limit |
| SessionOutcome.RotatedExactly | auth_sessions.py:173-207 | Rotating puts the minted token in the current slot and the presented one in the previous slot and extends the session; when the session does not hold the token any more or has expired nothing changes |
| SessionOutcome.AppliedExactly | auth_sessions.py:117-293 | What each operation of a run does to the rows, the ids, the minted tokens and the tickets given out |
| SessionRules.SpentTokensAreRefused | auth_sessions.py:152-215 | A token that has left both slots is refused by every later look-up and fails every later guard |
| SessionRules.RotationKeepsOneSpare | auth_sessions.py:178-204 | Rotation adds no row, changes no other session, leaves the presented token as the one spare, also in a grace retry, and the token it lets go of is in no slot any more |
| SessionRules.SlotsOnlyLost | auth_sessions.py:178-204 | No step puts a minted token into a slot it was not in, or back into the current one |
| SessionRules.OneWayLife | auth_sessions.py:152-215 | Over every run a token out of the current slot never returns to one, out of both slots it never returns at all, and it never changes session |
| SessionRules.SessionsBounded | auth_sessions.py:296-299 | In every reachable state no session outlives its age cap and no token sits in two sessions |
| SessionRules.SignInKeepsLimit | auth_sessions.py:140-142 | Right after issuing or rotating the user has at most the allowed live sessions |
| StaffTable.ChooseStanding | portal_staff_sync.py:139-142 | For each branch the row chosen is the greatest of the user's rows there by YClients row, live row, id |
| StaffTable.Table.ServeBranches | portal_staff_sync.py:145-155 | Branches in ascending order: each gets a mirror under the next id or its standing row brought up to date |
| StaffTable.Table.FireRest | portal_staff_sync.py:157-162 | Every other mirror of the user is fired, and the change flag says exactly whether anything differs |
| StaffTable.Table.Sync | portal_staff_sync.py:111-162 | The table becomes what the sync rule says, row for row, and the flag is true exactly when it changed |
| StaffTable.Table.Link | portal_staff_link.py:122-203 | Links exactly a live, free, visible YClients row of a shared branch without a linked row and with movable mirrors, retiring those mirrors; every refusal changes nothing and has its kind |
| StaffTable.Table.Unlink | portal_staff_link.py:206-250 | Releases exactly a linked row of the actor's branches and syncs; otherwise nothing changes |
| StaffTable.Table.Detach | portal_staff_sync.py:165-180 | Mirrors of the user are fired and YClients rows released, every other row as it was |
| StaffRules.SyncIdempotent | portal_staff_sync.py:111-162 | A second sync with the same inputs changes nothing |
| StaffRules.OneStandingPerBranch | portal_staff_sync.py:140-162 | After a sync each target branch has a standing row, live and up to date when it is a mirror, and every other mirror of the user is fired |
| StaffRules.OneStanding | portal_staff_sync.py:139-142 | At most one row stands for a branch |
| StaffOutcome.SyncedRowExactly | portal_staff_sync.py:129-162 | What a sync makes of each row that was there: others' rows stay, a row of YClients at most becomes bookable, the standing mirror of a target branch is woken and renamed, every other mirror of the user fired |
| StaffOutcome.AddedRowExactly | portal_staff_sync.py:25-51 | Every row a sync adds is a live mirror in a target branch where the user had no row, under an id above all there were |
| StaffOutcome.MissingBranchExactly | portal_staff_sync.py:145-149 | Every target branch where an active user had no row gets exactly one |
| StaffOutcome.AddedInOrder | portal_staff_sync.py:145-149 | The new rows come in the order of their branches |
| StaffSteps.RunKeeps | portal_staff_sync.py:96-108 | Over any run of sync, link, unlink and detach a YClients row stays with its name and fired mark, and a row linked to nobody and unknown to YClients stays as it is |
| StaffOutcome.RowsStay | portal_staff_sync.py:96-108 | Over any run every row stays in its branch with its origin and id, one of YClients with its name and fired mark, one of nobody that YClients does not know exactly as it was |
| StaffSteps.RunKeepsOneLink | portal_staff_link.py:54-56 | Over any such run a user never gets a second linked YClients row in a branch |
| StaffSteps.RetiredMirrorStays | portal_staff_link.py:183-186 | A mirror a link retired is never woken by whatever runs later |
| StaffSteps.LinkThenUnlink | portal_staff_link.py:206-239 | Linking and at once unlinking gives the YClients row back as it was and an active user of the branch a live mirror |
| StaffOutcome.ClaimExactly | portal_staff_link.py:130-158 | A row can be claimed exactly when it is a live row of YClients that nobody has, in a branch where the user has no linked row |
| StaffOutcome.LinkedExactly | portal_staff_link.py:152-186 | A link gives the row its user, lets go of the user's mirrors in that branch, fired, and leaves the rest |
| StaffOutcome.UnlinkedExactly | portal_staff_link.py:218-239 | An unlink takes one row of YClients from its user and leaves it otherwise as it was |
| StaffOutcome.DetachedExactly | portal_staff_sync.py:165-180 | Detaching fires the user's mirrors, lets go of the user's rows of YClients, and leaves the rest |
| RateLimiter.Limiter.Enforce | auth_routes.py:413-430 | Answer and hint are those of a limiter that keeps its whole history: bucket by bucket, the hint of the first that refuses |
| RateLimiter.Limiter.AllowDemo | auth_routes.py:433-444 | The same for the demo login |
| RateLimiter.Limiter.Serve | auth_routes.py:413-444 | Over any run of requests the dictionaries keep standing for the run's full history and every answer is the full-history one |
| RateLimiter.ServeRun | auth_routes.py:365-444 | A new limiter answers any run of requests as if nothing were ever pruned or swept |
| RateLimiter.Limiter.CheckBucket | auth_routes.py:391-410 | One bucket admits exactly when the full history would, counts what it admits, and gives the hint of the oldest counted stamp |
| RateLimiter.Limiter.Sweep | auth_routes.py:373-384 | Dropping idle keys keeps the dictionaries standing for the same history |
| RateLimiter.SweptStands | auth_routes.py:373-384 | Nothing a sweep drops can be seen at any later time |
| RateLimiter.CheckedStands | auth_routes.py:399-410 | Writing the pruned list back keeps both dictionaries standing for the history |
| LimiterRules.AtMostMax | auth_routes.py:391-410 | Over every run with non-decreasing readings a bucket admits at most its maximum in any half-open stretch of its window's length |
| LimiterRules.RunIsSound | auth_routes.py:391-410 | Over every run, stamps with a full maximum between them are a window apart |
| LimiterRules.RetryAdmitsExactly | auth_routes.py:402-408 | Waiting the hinted seconds is enough if and only if the remaining time is at most a second or a whole number of seconds |
| LimiterRules.RetryTooEarly | auth_routes.py:402-402 | A run of one attempt where a minute allows one: the next, half a second later, is told to wait 59 seconds and is refused again after them |
| LimiterOutcome.AttemptExactly | auth_routes.py:391-430 | An attempt passes exactly when the address on that route has room and, with an e-mail, so has the address with the e-mail; a counting bucket that had room keeps the stamp even when the next one refuses |
| LimiterOutcome.DemoExactly | auth_routes.py:433-444 | A demo login passes exactly when its address had fewer than ten in the last minute, whatever the settings |
| LimiterOutcome.RefusedHintExactly | auth_routes.py:400-408 | A refused attempt is told the whole seconds, at least one, until the oldest stamp counted in the bucket that refused leaves the window |
| LimiterOutcome.SweptExactly | auth_routes.py:373-384 | A sweep leaves exactly the keys with a stamp younger than their window, and their lists as they were |
| LimiterOutcome.ServedExactly | auth_routes.py:391-444 | Every answer of a run: an attempt passes exactly when its buckets had room after the requests before it, a demo login when its address had fewer than ten in the last minute |

## Left out

- FindEvents: does not model a window that starts in the first days of year 1, where the source drops its one-day lookback; the per-request cache is not modelled either.
- Time zones: the time-zone database and daylight-saving changes are replaced by any forward-moving local day within one day of the UTC day (`Opz.ValidZone`).
- FactSaves.WaitsAscend: the order in which one DELETE locks the split rows of a single legacy month is not modelled; a key is held as a whole, so a deadlock inside one key's statement is outside the claim.
- FactSaves, PaymentSaves: isolation is row locks plus guarded writes as the statements state them; connection loss is an abort, and the audit row written in the same transaction is not a step.
- Input parsing: texts, number ranges and missing fields of posted rows are refused before the models start.
- PlanTable.Calculate: the formulas from inputs to metric values are parameters, and the order in which a branch adds its staff's values (floating-point rounding) is not modelled; stored category texts other than the two roles are kept but not matched against aliases.
- Plan concurrency: the advisory lock serialises saves of a month on PostgreSQL, so saves are modelled one after another; audit rows are left out.
- PaymentBreakdown.BucketByMonth: the row sets behind the revenue (services, goods and top-ups, the reporting window, the as-of moment) are taken as already filtered; a payment is a branch, a day, an account type and an amount.
- PaymentBreakdown.Breakdown: kopecks are integers, so rounding to two decimals and the minus-zero repair do not appear.
- Stored totals of an unlisted branch or outside the month axis are never read, as in the source's query.
- Sessions: hashing, cookies, device labels and access tokens; a token is an abstract value that is never minted twice.
- StaffTable.Table.Link: moving manual facts off a mirror is opaque (a set of mirrors whose facts can be moved); row locks, audit rows and the retry after a lost staff id are left out, and a refused call is rolled back as its router does.
- Staff rows that appear or change through the YClients sync or account provisioning are not steps of the runs.
- RateLimiter.Limiter: one process, one clock with non-decreasing readings; client address and e-mail normalisation happen before.
- Not modelled at all: routing, passwords, mail, the YClients client, report presentation, role hierarchy tables and migrations, which would add only plumbing or easy members.
