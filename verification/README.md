# kube-shim, verified

kube-shim runs Kubernetes Jobs and CronJobs on short-lived cloud VMs. This project models its algorithmic core in
Dafny and proves what that core promises. `dafny verify dfyconfig.toml` checks everything.

| Part | Files | Main results |
|---|---|---|
| Log merging (`src/api/log_filter.rs`) | LogLines, StableSort, LogFilter, LogFilterLaws, MergerModel, MergerRuns, LiveMerge, StreamMerger, FollowedLog | following a log gives the bytes of fetching it afterwards; no byte is lost over any run; normalising is idempotent |
| Protobuf to Go's JSON (`src/k8s_protobuf.rs`) | GoJson, GoJsonWriter, GoJsonLaws, GoJsonWritten, GoJsonPointers, GoJsonShown, GoJsonImage, GoJsonErrors | a message is converted exactly to the JSON Go would write, and exactly if there is one; zero values on the wire never show; the presence of a pointer field always does, at any depth; nothing unknown is converted; the recursion terminates |
| Budget (`src/pricing/mod.rs`, `src/currency.rs`) | Currency, Budget, Jobs, BudgetStore | settling is path-independent; the ledger balances over every run; admission keeps committed spend covered; changing the currency changes nothing else |
| Plans and billing (`src/workload.rs`, `src/pricing/mod.rs`) | Plans | ranking agrees with billing; the chosen plan is the cheapest; an estimate bounds the actual cost |
| Scheduling (`src/reconcile/schedule.rs`) | DayOfWeek, CronSchedule, ScheduleLaws, Scheduler, TableRuns | fields mean what POSIX says; every run uses up an instant of its own; missed instants are caught up with once; CronJobs share nothing but the budget; all of it over every run of the whole tables |
| Container environment (`src/container_env.rs`, `src/cloud_init.rs`) | Expansion, EnvResolve, ExpansionLaws, ContainerConfig | what the worker reads is the fold of the specification; `$(VAR)` is one scan, undone by escaping |
| CronJob updates (`src/api/cronjob.rs`) | MergePatch, MergePatchLaws | the merge patch of RFC 7386, path by path; repeating an accepted PATCH changes nothing |
| Cost report (`src/api/cost_report.rs`) | CostCsv | a reader of RFC 4180 gets back every field, unless one holds a bare carriage return |

Code that works in place is modelled in place (`StreamMerger`, `BudgetStore`, `Scheduler` and `CronJobStore` are
classes; loops are loops), and each method is proved against a function whose properties are the lemmas. Text is
bytes where the source slices bytes, else characters; money is `real`; time is whole seconds, in the merger
nanoseconds. A table is a sequence or a map, a query a fold or a least element.

Given, not modelled: chrono's reading and writing of times (`LogLines.Clock`), base64, UTF-8 and JSON parsing
(`GoJson.Codec`, `EnvResolve.Decoder`), and the `cron` crate (`CronSchedule.Crate`). Of chrono is assumed that a written
time is one field of a line and reads back as itself or not at all; of the crate that it reads six fields in the years
it covers, that `*` matches, that named days match on those days and that `next` is the least firing instant. Of the
generated schema of the protobuf messages is assumed what `GoJson.Schema.Ranked`, `GoJsonWritten.WellFormed` and
`GoJsonPointers.NoNullPointers` say; it holds of `proto/go-fields.json`, where four pointers are without `omitempty`,
three of them strings and one a LocalObjectReference.

Where the code and its documentation differ, the model follows the code:

- `committed_budget`'s comment says that the actual cost of a finished job is charged separately. Nothing in the
  budget code debits the balance for it: `BudgetStore.JobsAreNeverCharged` shows over all runs that jobs never move the
  balance, `BudgetStore.SpentTwice` two jobs that each cost all of it and run one after the other.
- `settle_accrual` is described as settling on read; whether an extra read makes a difference depends on the clock.
  `Budget.SettleTwice` gives the exact condition, whichever way the clock moves, `Budget.StopAheadCredits` an instance
  where it does make one.
- `csv_field` quotes commas, quotes and newlines, but section 2 of RFC 4180 wants a carriage return quoted too. A job's
  name is free text and ends up in the report: `CostCsv.ReportReadsBack` gives the exact condition for a report to be
  readable, `CostCsv.BareReturnLost` one that is not.
- The day-of-week range `0-7` is not the whole week but Sunday: both ends are 0 (`DayOfWeek.ZeroToSevenIsSunday`).

The worker's side of the delivery follows `bootstrap/cloud-init-template.sh` for `mapfile` and the `--secret` options,
and the rules for podman's `--env-file` that `src/cloud_init.rs:154-158` lists; that a carriage return before the line
break is dropped is added to them, since the code keeps such values out of the file.

## Model

| member | source | states |
|---|---|---|
| `LogLines.SplitText` | src/api/log_filter.rs:218-229 | Complete lines and the open rest are together exactly the bytes received |
| `LogLines.CompleteAppend` | src/api/log_filter.rs:218-229 | A chunk completes only the line left open, so lines do not depend on chunk boundaries |
| `LogLines.SplitOfConcat` | src/api/log_filter.rs:286-307 | Written lines, split again, are the same lines |
| `LogLines.TimeOfTerminated` | src/api/log_filter.rs:311-316 | Adding the missing newline leaves a line's timestamp alone |
| `LogLines.TimestampRead` | src/api/log_filter.rs:311-316 | A line has the time that its text up to the first space says, and else none |
| `LogLines.TagAt` | src/api/log_filter.rs:287-296 | A line without a time carries that of the line before it |
| `StableSort.SortSpec` | src/api/log_filter.rs:286-307 | The sort orders lines by carried time, keeps all of them, and keeps lines of equal time in their order |
| `StableSort.SortedUnique` | src/api/log_filter.rs:286-307 | Sorted and stable determines the result: no other order meets the promise |
| `StableSort.MergeOfSorts` | src/api/log_filter.rs:252-276 | Sorting two streams one after the other is merging the sorted streams head by head, the first winning ties |
| `StableSort.MergeSortedOnly` | src/api/log_filter.rs:252-276 | A merge head by head is sorted only if both streams are |
| `StableSort.SortedCarries` | src/api/log_filter.rs:286-307 | An untimestamped line still follows the line whose time it carries: times carried again along the sorted lines are the same |
| `LogFilter.LogFilter.FilterLines` | src/api/log_filter.rs:81-104 | The output is what each line adds, in order |
| `LogFilter.LogFilter.Apply` | src/api/log_filter.rs:81-104 | Sorts timestamped input, keeps the last `tailLines`, filters, and cuts off at `limitBytes` |
| `LogFilter.TagStream` | src/api/log_filter.rs:287-296 | Each line gets its own time, or else the last one before it |
| `LogFilter.WriteLines` | src/api/log_filter.rs:298-306 | Lines in order, each but the last newline-terminated |
| `LogFilter.MergeByTimestamp` | src/api/log_filter.rs:286-307 | The stable sort of all streams' lines, closed |
| `LogFilter.NormalizeTimestamps` | src/api/log_filter.rs:327-334 | The filter with only timestamps kept |
| `LogFilter.MergedLogReadsBack` | src/api/log_filter.rs:286-307 | Splitting a merged log gives back its lines, each carrying its time, in order |
| `LogFilter.MergeIdempotent` | src/api/log_filter.rs:286-307 | Merging a merged log changes nothing |
| `LogFilter.NormalizeIdempotent` | src/api/log_filter.rs:327-334 | Normalising a normalised log changes nothing, whatever bytes it was |
| `LogFilterLaws.SinceFilters` | src/api/log_filter.rs:58-76 | `since` gives what the log without its earlier lines would give; lines without a time stay |
| `LogFilterLaws.TimestampsStrip` | src/api/log_filter.rs:58-76 | With `timestamps` each timed line has its time in the kubelet's form, without it it lacks its own |
| `LogFilterLaws.StampStripped` | src/api/log_filter.rs:63-73 | Up to the first space, that is all they differ in |
| `LogFilterLaws.TailCounts` | src/api/log_filter.rs:91-99 | `tailLines` gives what the log of the last lines would give |
| `LogFilterLaws.LimitCuts` | src/api/log_filter.rs:100-103 | `limitBytes` gives the beginning of the output without it |
| `LogFilterLaws.UntimestampedUnchanged` | src/api/log_filter.rs:58-62 | Input without timestamps passes through |
| `StreamMerger.MergerInput.PushLine` | src/api/log_filter.rs:190-201 | Appends the line with the time it carries and when it was received |
| `StreamMerger.StreamMerger.Push` | src/api/log_filter.rs:218-229 | A chunk queues the lines it completes and leaves the rest open; the other stream is untouched |
| `StreamMerger.StreamMerger.FinishOne` | src/api/log_filter.rs:232-239 | An open rest becomes a line |
| `StreamMerger.StreamMerger.Finish` | src/api/log_filter.rs:232-239 | Both streams are finished |
| `StreamMerger.StreamMerger.Deadline` | src/api/log_filter.rs:242-248 | The end of the window of the earliest received front line |
| `StreamMerger.StreamMerger.TakeFront` | src/api/log_filter.rs:268-276 | Takes the front line, with its missing newline if another line waits |
| `StreamMerger.StreamMerger.Ready` | src/api/log_filter.rs:252-276 | Returns the lines that may go now, and leaves exactly the others |
| `MergerRuns.ReadyMoves` | src/api/log_filter.rs:252-276 | `ready` takes lines from the fronts of the queues, in order, and touches nothing else |
| `MergerRuns.ReadyTexts` | src/api/log_filter.rs:268-276 | What is written for a line is the line, except for a newline added |
| `MergerRuns.ReadyLeaves` | src/api/log_filter.rs:252-276 | After the end both queues are empty; before, one of them is, and no front line has waited the window |
| `MergerRuns.DeadlineExact` | src/api/log_filter.rs:242-276 | With one queue empty, `ready` releases something at a time if and only if the deadline has passed, a front line having waited 200 ms |
| `MergerRuns.RunConserves` | src/api/log_filter.rs:190-276 | Over every run, expiries and unordered timestamps included, each stream's written lines, queued lines and open rest are exactly what was pushed, in order |
| `MergerRuns.RunKeepsBytes` | src/api/log_filter.rs:190-276 | The same in bytes: nothing is lost, doubled or moved |
| `MergerRuns.NoLineOverdue` | src/api/log_filter.rs:242-276 | On a monotonic clock, after any run that ends with `ready`, no queued line has waited `MERGE_WINDOW` |
| `LiveMerge.LiveIsMerge` | src/api/log_filter.rs:115-170 | Without expiries, what is written is the merge of both whole streams, for every chunking and interleaving |
| `LiveMerge.LiveIsOneShot` | src/api/log_filter.rs:218-307 | Without expiries, the lines are those of `merge_by_timestamp` if and only if neither stream's carried times ever decrease |
| `FollowedLog.Turn` | src/api/log_filter.rs:124-152 | One turn's output, and the merger after it |
| `FollowedLog.Send` | src/api/log_filter.rs:154-164 | A chunk is sent up to what `limitBytes` leaves, an empty one not at all |
| `FollowedLog.ApplyStream` | src/api/log_filter.rs:115-170 | The chunks sent, none empty, are the whole output cut off at `limitBytes` |
| `FollowedLog.EmittedIsRun` | src/api/log_filter.rs:124-152 | The output over a whole stream is the filtered lines of the merger's run |
| `FollowedLog.FollowIsFetch` | src/api/log_filter.rs:115-170 | Followed and fetched logs are the same bytes, for every chunking, interleaving, filter and limit |
| `FollowedLog.UntimestampedPassesThrough` | src/api/log_filter.rs:147-152 | Without timestamps, both streams' chunks pass through as they arrive |
| `GoJsonWriter.WriteMessage` | src/k8s_protobuf.rs:340-382 | A message becomes the object of its fields, or the special form of its type |
| `GoJsonWriter.WriteInto` | src/k8s_protobuf.rs:202-267 | The loop over the fields inserts into the given object what the recursive definition says |
| `GoJsonWriter.WriteValue` | src/k8s_protobuf.rs:288-311 | Lists in order, maps by key, the first error winning |
| `GoJsonImage.ConvertedExactly` | src/k8s_protobuf.rs:202-382 | A message is converted exactly if Go would write it as JSON, and to that JSON: every field in literal values, at every depth |
| `GoJsonImage.ConvertedIsImage` | src/k8s_protobuf.rs:202-382 | What is written under each name: booleans, numbers, texts, base64, lists and maps element by element, and nothing for what `omitempty` drops |
| `GoJsonImage.ImageIsConverted` | src/k8s_protobuf.rs:202-382 | The conversion fails on nothing that has such a JSON |
| `GoJsonErrors.FailsExactly` | src/k8s_protobuf.rs:202-382 | The conversion fails exactly if something is wrong at some depth, and its error says what, and where |
| `GoJsonImage.NamedIsRead` | src/k8s_protobuf.rs:165-170 | What types with a form of their own read by name is what is on the wire, or the zero |
| `GoJson.DefaultDecreases` | src/k8s_protobuf.rs:254-258 | The default made for an absent struct is no larger than its holder and of lower rank, so the recursion ends |
| `GoJson.InlineDecreases` | src/k8s_protobuf.rs:225-240 | An embedded struct is smaller, or as small and of lower rank |
| `GoJsonLaws.SameMessageSameJson` | src/k8s_protobuf.rs:202-267 | Messages that differ, at any depth, only in which zero values are present give the same JSON or the same error |
| `GoJsonLaws.ZeroOnTheWire` | src/k8s_protobuf.rs:241-264 | Putting an absent field's zero value on the wire changes nothing |
| `GoJsonLaws.ConvertedIsKnown` | src/k8s_protobuf.rs:172-182 | Success means that no message reached holds an unknown field; the unknown-field error means that one does |
| `GoJsonWritten.WritesOnto` | src/k8s_protobuf.rs:202-267 | A message writes the same fields whatever object it writes them into, so embedding a struct adds exactly its own fields |
| `GoJsonWritten.OneFieldDiffers` | src/k8s_protobuf.rs:202-267 | Messages that write all fields but one alike write the same object if and only if they write that one alike |
| `GoJsonShown.PointerShows` | src/k8s_protobuf.rs:241-264 | What the JSON holds for a pointer field at any depth, embedded, listed or mapped: nothing, `null` or its value, by presence and `omitempty` |
| `GoJsonPointers.PointerPresenceShows` | src/k8s_protobuf.rs:202-311 | Taking a pointer field off the wire, at any depth, changes the JSON of the whole object if and only if the field is `omitempty` or its value is not one written as `null` |
| `GoJsonPointers.PointerAlwaysShows` | src/k8s_protobuf.rs:202-311 | With the schema there is, it always changes it |
| `Currency.ConvertScales` | src/currency.rs:117-144 | Converting multiplies by one positive factor, and fails only for want of a rate |
| `Currency.QuotedExactly` | src/currency.rs:127-143 | A rate is how much of the currency one EUR buys: so much is worth one EUR, and what one EUR buys of another |
| `Currency.FactorsCompose` | src/currency.rs:117-144 | A detour through a third currency changes nothing; there and back is the identity |
| `Budget.SettleBounds` | src/pricing/mod.rs:463-491 | No settle lowers the balance, lifts it past the cap, or credits more than the elapsed time earned; disabled, only the clock moves |
| `Budget.SettledExactly` | src/pricing/mod.rs:463-491 | Below the cap the balance grows by rate times elapsed days, up to the cap; above it, or disabled, it stays |
| `Budget.ToppedUpExactly` | src/pricing/mod.rs:594-606 | A top-up adds to the settled balance, never leaving it below zero |
| `Budget.PatchedExactly` | src/pricing/mod.rs:620-695 | Each setting as given or as it was, amounts in the new currency; refused exactly for want of a rate that is needed |
| `Budget.SettleTwice` | src/pricing/mod.rs:463-491 | An extra settle makes no difference if and only if the clock kept its direction or could not matter, for all three readings |
| `Budget.StopAheadCredits` | src/pricing/mod.rs:480-484 | Accrual at 100 with settles at 200 and then 150 credits 100 seconds, one settle at 150 only 50 |
| `Budget.SettlePathIndependent` | src/pricing/mod.rs:463-491 | Any number of settles at nondecreasing times equals one at the last |
| `Budget.LedgerBalances` | src/pricing/mod.rs:463-695 | Over every run the balance moves by the applied deltas plus the accrual, which is bounded by what enabled time earned, and stays nonnegative |
| `Budget.CurrencyChangeScales` | src/pricing/mod.rs:630-670 | A change of currency alone scales balance and rate by one positive factor, or is refused for want of a rate |
| `Budget.HeadroomKept` | src/pricing/mod.rs:608-670 | Days of headroom survive a change of currency |
| `Budget.ConvertSettleCommute` | src/pricing/mod.rs:620-670 | Converting and then settling is settling and then converting |
| `Budget.CurrencyChangesCompose` | src/pricing/mod.rs:630-670 | A to B to C is A to C, and A to B to A restores the row |
| `BudgetStore.BudgetStore.EnsureSeeded` | src/pricing/mod.rs:379-396 | Seeds on a first boot only |
| `BudgetStore.BudgetStore.SettleAccrual` | src/pricing/mod.rs:463-491 | The row is settled, the caller sees the settled balance |
| `BudgetStore.BudgetStore.ApplyTopup` | src/pricing/mod.rs:594-606 | The row is settled and topped up, never below zero; the delta that landed is returned |
| `BudgetStore.BudgetStore.PatchSettings` | src/pricing/mod.rs:620-695 | The row is settled and patched; without a rate it is only settled |
| `BudgetStore.BudgetStore.AvailableBudget` | src/pricing/mod.rs:505-536 | The settled balance less the estimates of jobs before completion; nothing while disabled |
| `BudgetStore.BudgetStore.CheckBudget` | src/pricing/mod.rs:558-572 | Insufficient only if cost and budget are known and the cost is higher |
| `BudgetStore.BudgetStore.Admit` | src/reconcile/schedule.rs:375-421 | Check and insert as one step: the job is added exactly if the budget suffices |
| `BudgetStore.BudgetStore.Complete` | src/pricing/mod.rs:505-517 | A completed job's claim is gone |
| `BudgetStore.CommittedStaysCovered` | src/pricing/mod.rs:505-572 | In every reachable state the committed estimates are covered by the balance |
| `BudgetStore.CommittedExactly` | src/pricing/mod.rs:505-517 | A job counts with its estimate as long as it is before completion |
| `BudgetStore.JobsAreNeverCharged` | src/pricing/mod.rs:463-606 | Over every run the balance is what settles and top-ups alone would have made it: admissions and completions never move it |
| `BudgetStore.SpentTwice` | src/pricing/mod.rs:493-572 | Two jobs that each cost the whole balance are both admitted, one after the other |
| `Plans.CheapestIsLeast` | src/workload.rs:150-187 | The query returns a fitting plan no other fitting plan precedes in the ORDER BY, and none only if none fits |
| `Plans.UnitsExactly` | src/workload.rs:207-215 | The fewest whole cores and GB that hold the request, one of each by default |
| `Plans.FitsExactly` | src/workload.rs:156-165 | The chosen plan has the cores and 1024 MB for each GB; there is none only if no plan has |
| `Plans.RankedExactly` | src/workload.rs:166-172 | No plan that fits is priced where the chosen one is not, cheaper, or as cheap and smaller, or as big with an earlier name |
| `Plans.ChargeBreakdown` | src/pricing/mod.rs:126-214 | The charges pushed: plan, unbundled boot disk and address, volume; none while the plan is unpriced |
| `Plans.ChargedExactly` | src/pricing/mod.rs:126-214 | The charges item by item: keys, hours, unit prices and totals |
| `Plans.RankIsBill` | src/pricing/mod.rs:126-214 | The ORDER BY cost plus the volume's rate, times hours over 100, is the sum of the charges |
| `Plans.ChosenIsCheapest` | src/workload.rs:195-215 | The chosen plan covers the request, no priced fitting plan bills less, and it is unpriced only if all that fit are |
| `Plans.LargerIsNoCheaper` | src/workload.rs:195-215 | Enlarging a request never lowers the bill of a priced choice, nor finds a plan where there was none |
| `Plans.DurationMonotone` | src/pricing/mod.rs:240-249 | On a fixed plan and price table a longer run costs no less |
| `Plans.HoursExactly` | src/pricing/mod.rs:231-248 | Durations count in hours of 3600 seconds, and not below zero |
| `Plans.RetiredPlan` | src/pricing/mod.rs:100-114 | On a plan that left the catalog a job is charged as if it had included disk and address |
| `Plans.RecordedPlan` | src/pricing/mod.rs:100-114 | On a recorded plan of the catalog, by that plan's storage |
| `Plans.CostExactly` | src/pricing/mod.rs:255-289 | A job's cost is the sum of its charges in the operator's currency, unknown exactly for want of a rate |
| `Plans.ActualWithinEstimate` | src/pricing/mod.rs:225-289 | A run on the plan its estimate chose, no longer than its deadline, costs at most the estimate |
| `DayOfWeek.MarkDays` | src/reconcile/schedule.rs:157-162 | Marks exactly the days of the item, and keeps those marked |
| `DayOfWeek.DayOfWeekToNames` | src/reconcile/schedule.rs:121-170 | The names of exactly the days that the items name; what is not understood comes back unchanged |
| `DayOfWeek.StepsAreItemDays` | src/reconcile/schedule.rs:159-162 | Stepping through the range reaches exactly the days (first + k * step) mod 7 within it |
| `DayOfWeek.RewrittenTwice` | src/reconcile/schedule.rs:121-170 | Rewriting is idempotent on every string |
| `ScheduleLaws.NumberRead` | src/reconcile/schedule.rs:125-139 | Numbers are read in decimal, below 2^64 |
| `ScheduleLaws.DayNumbered` | src/reconcile/schedule.rs:125-128 | Days are numbered 0 to 7, both ends Sunday |
| `ScheduleLaws.DayNamed` | src/reconcile/schedule.rs:129-132 | Or go by name, in any case |
| `ScheduleLaws.RangeRead` | src/reconcile/schedule.rs:144-148 | A range runs from the day before the dash to the day behind it |
| `ScheduleLaws.SingleRead` | src/reconcile/schedule.rs:142-155 | Without a dash an item is every day or one |
| `ScheduleLaws.SteppedRead` | src/reconcile/schedule.rs:135-152 | With a step, every so manieth day of the week, or from one day on to Saturday; a step of 0 is refused |
| `ScheduleLaws.SteppedRangeRead` | src/reconcile/schedule.rs:135-148 | Every so manieth day of a range |
| `ScheduleLaws.ItemsRead` | src/reconcile/schedule.rs:134-163 | The items of a field are read one by one, or not at all |
| `ScheduleLaws.NotUnderstood` | src/reconcile/schedule.rs:119-124 | A field with an item that is not understood, like `*` and `?`, stays as it is |
| `DayOfWeek.ZeroToSevenIsSunday` | src/reconcile/schedule.rs:125-160 | `0-7` names Sunday only |
| `CronSchedule.NextIsLeast` | src/reconcile/schedule.rs:56-63 | `next_after` is the least instant at which any part fires |
| `CronSchedule.DueMeansMissed` | src/reconcile/schedule.rs:275-292 | Due if and only if some instant fired since the last run, at most the deadline ago |
| `CronSchedule.TokensJoin` | src/reconcile/schedule.rs:34-47 | Fields joined by spaces are read back as those fields |
| `ScheduleLaws.TrimmedExactly` | src/reconcile/schedule.rs:35-77 | Trimming takes the spaces at both ends and nothing else |
| `ScheduleLaws.OthersPass` | src/reconcile/schedule.rs:35-43 | Descriptors pass unchanged, other than five fields with the seconds in front |
| `ScheduleLaws.RestrictedExactly` | src/reconcile/schedule.rs:104-109 | A day field is unrestricted exactly if an item is `*` or `?`, alone or with a step of 1 |
| `CronSchedule.EitherDayRule` | src/reconcile/schedule.rs:76-109 | The parts together fire exactly when time and month match and either or both day fields do, by whether both restrict |
| `CronSchedule.WeekdayRule` | src/reconcile/schedule.rs:76-170 | And the day of the week matches exactly on the union of what the field's items name |
| `Scheduler.Scheduler.ScheduleDueJobs` | src/reconcile/schedule.rs:201-265 | One tick attempts exactly the due runs that are not held, CronJob after CronJob on the tables the ones before left, and counts those created |
| `Scheduler.Scheduler.IsDueNow` | src/reconcile/schedule.rs:218-257 | A run is attempted if and only if it is due and neither suspended nor forbidden |
| `Scheduler.TickSeenFrom` | src/reconcile/schedule.rs:201-265 | What becomes of a CronJob's runs depends on nothing but these runs and the budget's answer at its turn |
| `Scheduler.BudgetIsShared` | src/reconcile/schedule.rs:375-395 | While the clock does not go back, that answer is yes if and only if the balance, settled then, covers the run on top of what was committed before the tick and of the runs this tick created before it |
| `Scheduler.TickKeepsCovered` | src/reconcile/schedule.rs:201-265 | A tick keeps committed spend covered by the balance |
| `Scheduler.DueIsMissed` | src/reconcile/schedule.rs:218-292 | Due if and only if the schedule is accepted and fired after every run there is, not too long ago |
| `Scheduler.CreatedExactly` | src/reconcile/schedule.rs:218-427 | One run, in the state before completion, is created exactly if the CronJob is due and neither suspended, forbidden nor unaffordable |
| `Scheduler.AffordableExactly` | src/pricing/mod.rs:558-572 | The budget refuses only known costs above what an enabled budget has left |
| `Scheduler.EachRunItsInstant` | src/reconcile/schedule.rs:201-344 | Over every sequence of ticks, completions and edits, and after whatever runs of that name there were, the schedule fired between each new run and the last one before it |
| `Scheduler.RunsWithinInstants` | src/reconcile/schedule.rs:201-344 | New runs never outnumber the instants at which their schedule fired |
| `Scheduler.DueUntilCaughtUp` | src/reconcile/schedule.rs:201-309 | A due run stays due through every kind of hold until exactly one run catches up |
| `Scheduler.ForbidAtMostOne` | src/reconcile/schedule.rs:249-309 | Under `Forbid`, at most one run created under it is active |
| `TableRuns.TablesSeenFrom` | src/reconcile/schedule.rs:201-427 | Over every run of the tables (ticks, budget operations, admissions of other jobs, completions, edits), each CronJob and its runs go through a history of their own |
| `TableRuns.EveryRunItsInstant` | src/reconcile/schedule.rs:201-427 | Over every run of the tables, every run created has a firing instant after all earlier runs of its CronJob to itself |
| `TableRuns.NeverTwoActive` | src/reconcile/schedule.rs:249-309 | Over every run of the tables during which a CronJob forbids it, no two runs created are active at once |
| `TableRuns.SuspendedNeverRuns` | src/reconcile/schedule.rs:236-239 | Over every run of the tables during which a CronJob stays suspended, no run of it is created |
| `TableRuns.TickRunsExactly` | src/reconcile/schedule.rs:201-427 | What a tick of the whole table does for one CronJob, and exactly when |
| `TableRuns.TablesStayCovered` | src/pricing/mod.rs:505-572 | Over every run of the tables committed spend stays covered by the balance |
| `Expansion.ExpandOne` | src/container_env.rs:404-430 | The value of the piece behind a dollar sign, and what is left |
| `Expansion.Expand` | src/container_env.rs:399-434 | The loop ends and yields each piece's value; inserted values are not scanned |
| `Expansion.PiecesCoverInput` | src/container_env.rs:399-434 | The pieces of the one scan are the whole input, in order |
| `Expansion.ExpandedPrefix` | src/container_env.rs:399-434 | Text without a dollar sign passes through, and expansion starts over behind it |
| `Expansion.EscapeRoundTrip` | src/container_env.rs:392-434 | Doubling every dollar sign gives a text that expands to the original under any environment |
| `ExpansionLaws.Referenced` | src/container_env.rs:408-420 | A reference becomes the variable's value, or stays as it is without one |
| `ExpansionLaws.NotClosed` | src/container_env.rs:422-425 | A reference without an end is text |
| `ExpansionLaws.Alone` | src/container_env.rs:427-430 | Any other dollar sign is text |
| `ExpansionLaws.FindFirst` | src/container_env.rs:412-413 | The variable found is the first of that name |
| `Expansion.ExpandedWithout` | src/container_env.rs:399-434 | Expansion brings in no byte that neither text nor values have |
| `EnvResolve.SetVar` | src/container_env.rs:386-392 | Replaces the variable in place, or appends it |
| `EnvResolve.AddSecret` | src/container_env.rs:285-299 | Adds every key of a Secret, or fails at the first bad one |
| `EnvResolve.ResolveWithSecrets` | src/container_env.rs:254-351 | The loops over `envFrom` and `env` compute the recursive definition, errors included |
| `EnvResolve.PutIsUpdate` | src/container_env.rs:386-392 | Setting a variable is a map update and keeps names distinct |
| `EnvResolve.ResolvedStands` | src/container_env.rs:254-351 | Names are distinct and valid, the map is the right-biased fold of `envFrom` then `env`, and errors are the fold's |
| `EnvResolve.ResolvedNulFree` | src/container_env.rs:368-384 | With NUL-free literals and pod fields, no resolved value holds a NUL |
| `EnvLaws.AcceptedNames` | src/container_env.rs:84-86 | Names pass exactly if nonempty and printable ASCII without `=`, prefixes if printable so |
| `EnvLaws.LastSource` | src/container_env.rs:269-299 | The last `envFrom` source sets every key of its Secret, behind the prefix, to its decoded value over what was there; it fails exactly if one name or value cannot be had |
| `EnvLaws.LastEntry` | src/container_env.rs:301-345 | The last `env` entry is set over all others: to its text, expanded by what precedes it, to the pod's name or namespace, or to the Secret's value |
| `EnvLaws.SecretReferenced` | src/container_env.rs:368-384 | A reference to a Secret's key is the decoded value under that key, or an error if it does not decode or holds a NUL |
| `EnvLaws.SecretMissing` | src/container_env.rs:304-328 | A missing Secret or key is skipped if optional, and else the error that says which |
| `ContainerConfig.EncodeVar` | src/cloud_init.rs:171-198 | What one variable adds to which file, or why it is refused |
| `ContainerConfig.EncodeEnv` | src/cloud_init.rs:168-199 | The two files of all variables, or the first refusal |
| `ContainerConfig.EncodeArgv` | src/cloud_init.rs:201-212 | Every entry expanded and NUL-terminated, or a refusal |
| `ContainerConfig.MakeConfig` | src/cloud_init.rs:164-220 | The four files, errors in the source's order |
| `ContainerConfig.OneLineReadsBack` | src/cloud_init.rs:154-181 | A one-line variable survives the environment file exactly unless its name starts with a space or `#` or a carriage return ends its value |
| `ContainerConfig.OptionCarriesName` | src/cloud_init.rs:182-188 | A secret's option carries the variable's name if and only if the name has no comma |
| `ContainerConfig.EnvFileReadsBack` | src/cloud_init.rs:154-182 | podman reads exactly the variables that were put in the file |
| `ContainerConfig.PlacedExactly` | src/cloud_init.rs:177-181 | The file has exactly the variables whose value has no line break and whose line takes 60 KiB at most |
| `ContainerConfig.RefusedBecause` | src/cloud_init.rs:171-194 | Why a variable is refused |
| `ContainerConfig.SecretEnvReadsBack` | src/cloud_init.rs:195-198 | The script reads exactly the other ones, byte for byte |
| `ContainerConfig.ArgvReadsBack` | src/cloud_init.rs:201-212 | `mapfile` reads exactly the expanded entries; refused exactly if one holds a NUL |
| `ContainerConfig.AcceptedExactly` | src/cloud_init.rs:164-220 | A container is accepted if and only if every variable and every expanded argument can be delivered |
| `ContainerConfig.RefusedFor` | src/cloud_init.rs:164-220 | A refusal is that of the first variable refused, or else names the first of the two fields with a NUL in an entry |
| `ContainerConfig.ConfigDelivers` | src/cloud_init.rs:164-220 | The two readers' variables share no name and together are exactly the environment |
| `ContainerConfig.ContainerSeesResolved` | src/container_env.rs:254-351 | From specification to container: the worker reads the fold of `envFrom` and `env`, each name once |
| `MergePatch.Merge` | src/api/cronjob.rs:451-470 | The update in place computes section 2 of RFC 7386, in whatever order the keys come |
| `MergePatch.MergedTwice` | src/api/cronjob.rs:448-470 | Applying a patch twice is applying it once |
| `MergePatchLaws.PathMerged` | src/api/cronjob.rs:448-470 | Along every path that the patch reaches by its objects, null removes, what is no object replaces, and the rest stays |
| `MergePatchLaws.WholeReplaced` | src/api/cronjob.rs:451-455 | A patch that is no object replaces everything |
| `MergePatch.ApplyDefaults` | src/api/cronjob.rs:371-386 | The loop sets each default that is missing or null |
| `MergePatch.FilledFields` | src/api/cronjob.rs:359-386 | Exactly the defaulted fields that are missing or null are filled in, and nothing else is touched |
| `MergePatchLaws.DefaultsAre` | src/api/cronjob.rs:375-380 | Which fields have which defaults |
| `MergePatchLaws.DefaultedField` | src/api/cronjob.rs:371-386 | What a field of a defaulted spec holds |
| `MergePatch.DefaultedTwice` | src/api/cronjob.rs:369-386 | Defaulting on every read changes nothing more |
| `MergePatch.PatchAndDefaultTwice` | src/api/cronjob.rs:359-386 | Patching and defaulting is a fixpoint, also when the patch nulls a defaulted field |
| `CronJobStore.CronJobStore.Load` | src/api/cronjob.rs:406-446 | The stored spec with its defaults |
| `CronJobStore.CronJobStore.Update` | src/api/cronjob.rs:250-300 | Stores the admitted, defaulted spec and its schedule, keeping id and creation time; errors change nothing |
| `CronJobStore.CronJobStore.Patch` | src/api/cronjob.rs:218-249 | Stores the patched spec unless the patch renames the object or admission rejects it |
| `CronJobStore.PatchedTwice` | src/api/cronjob.rs:218-300 | Repeating an accepted PATCH is accepted and stores the same spec |
| `MergePatchLaws.RenamingRefused` | src/api/cronjob.rs:226-236 | A PATCH is refused as a renaming exactly if it is no object or its metadata does not keep both names |
| `MergePatchLaws.StoredField` | src/api/cronjob.rs:218-264 | In the stored spec a nulled field has its default or is gone, a set one is set, others are what they were |
| `MergePatchLaws.StoredPath` | src/api/cronjob.rs:218-264 | And so further down, where no default reaches |
| `MergePatchLaws.StoredWhole` | src/api/cronjob.rs:237-264 | A PATCH without `spec` stores the defaulted one, one that replaces it whole the replacement |
| `MergePatchLaws.ScheduleColumn` | src/api/cronjob.rs:388-395 | The schedule column is the spec's own schedule, or empty |
| `CostCsv.AppendCharges` | src/api/cost_report.rs:442-459 | One job's rows, a charge without a rate skipped |
| `CostCsv.CostReport` | src/api/cost_report.rs:424-461 | The header, then every priced charge's row |
| `CostCsv.CellsExactly` | src/api/cost_report.rs:374-379 | Under each column stands the field of that name, or nothing |
| `CostCsv.RowsExactly` | src/api/cost_report.rs:427-450 | Each charge with its fields is one row, in order; one without a rate and a job without prices are none |
| `CostCsv.FieldRead` | src/api/cost_report.rs:225-231 | A written field is read back, or, with a bare carriage return, makes the text unreadable |
| `CostCsv.RowRead` | src/api/cost_report.rs:451-458 | A written row is read back field for field if all its fields can be |
| `CostCsv.RowsRead` | src/api/cost_report.rs:442-459 | Any written rows are read back if all fields can be, and else nothing is |
| `CostCsv.QuotedOnlyIfNeeded` | src/api/cost_report.rs:220-231 | A field reads back unquoted if and only if it is left unquoted and has no carriage return: quotes are never superfluous, and missing only there |
| `CostCsv.ReportReadsBack` | src/api/cost_report.rs:424-461 | The report reads back as the column names and every row if and only if no field holds a carriage return without a comma, quote or newline |
| `CostCsv.BareReturnLost` | src/api/cost_report.rs:225-231 | A report with a bare carriage return in a description is not readable |

## Left out

- LargerIsNoCheaper: speaks of priced choices; without prices the code ranks by size, and there is no bill to compare.
- CommittedStaysCovered: takes check and insert, and each settle, top-up and patch, as one step; the statements of overlapping requests are separate in the code and no claim is made about them.
- Complete: the job state machine (`src/reconcile/job.rs`) is not part of this model; whether a state precedes completion is a flag that a run loses once.
- Merge: the JSON tree is a value here; the loop updates a local copy of each object's fields, not the tree through a reference.
- WriteInto: the object is passed in and returned; what it holds after an error is not modelled, since every caller drops it.
- ApplyStream: a receiver that goes away in the middle, and the bounded channel, are left out.
- HTTP handlers, routing, authentication, TLS, SSH and the SQL text: plumbing around the modelled functions.
- ResolveWithSecrets: a container arrives as entries and sources, so of `validate` only the checks of names and prefixes are modelled; the others are a series of tests of the JSON's shape.
- Floating-point rounding, saturating integers and sub-second clocks: exact reals and whole seconds instead, so the deadline never overflows. Protobuf float values are not modelled.
- Prices with amount zero, where SQL yields NULL, and negative prices.
- Presence of an enum field's zero value: the source refuses to convert one that is present.
- NUL bytes in literal environment values: the framing of the secret file is not claimed for them.
- `store_rates`, `store_plans`, `parse_cpu_millicores`, the resource flags and `run_options.rs`: only easy members.
- Creating and deleting CronJobs. Deleting one keeps its job rows, which count for a new one of the same name; deleting a finished run's row frees its instant.
- The `cron` crate's range of years, which its source would tell: nothing is said about instants it does not cover.
- ReportReadsBack: the reader takes every character but comma, quote and the two line breaks as text, also those beyond the ASCII range of the grammar of RFC 4180, as `charset=utf-8` asks.
- The report's field values (`charge_row`) and column list: rows are arbitrary text by column name, columns any plain names.
