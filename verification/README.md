# nasdaq: a verified model of the ingestion, crossover and job core

`nasdaq` is a set of Python services that fill and read a MySQL market
database. `prices.py` and `all_prices.py` import daily price bars from the
Polygon API. `import_to_mysql.py` loads company listings from `;`-separated
CSV files. `sma_events.py` scans each symbol's closes for moving-average
crossovers and records them as events. `thirty_day_report.py` ranks
symbols by their change over a report window. `db.py` reads the
connection settings. `webapp.py` is a Flask front end that checks ad-hoc
SQL for being read-only and runs the services as background jobs, keeping
a bounded in-memory job table and capturing each job's output line by line.

This project models the deterministic core of those files in Dafny and
proves what they promise:

- dates are whole day numbers;
- prices, closes and averages are exact `real`s;
- the database is a map keyed by each table's primary key;
- network calls become parameters holding what they returned;
- the clock is a `now` or `today` argument.

Modules, one per file:

| module | file | models |
|---|---|---|
| `Common` | common.dfy | `Option`, `Result`, filtering, the future-date clamp of the `main`s |
| `Text` | text.dfy | whitespace stripping, case mapping, decimal integers |
| `Sorting` | sorting.dfy | the stable sort used for `sort_values` / `list.sort` |
| `Batching` | batching.dfy | `chunked`, the upsert row count, the update-column policy |
| `SmaEvents` | sma_events.dfy | `compute_sma_events`: rolling means and the crossover scan |
| `SmaRun` | sma_run.dfy | `sma_events.main`: window checks, event index, resumption floor, dedup, the event store |
| `PriceIngest` | prices.dfy | `to_price_row`, `date_range`, the grouped-daily ticker filter, per-symbol start dates, both import loops |
| `CompanyImport` | companies.dfy | column aliases, `parse_market_cap`, `load_data_frames`, the updatable columns |
| `ThirtyDayReport` | report.dfy | `ReportWindow`, the report-date clamp, the long-window filter, per-symbol performance |
| `DbConfig` | db.dfy | `DatabaseConfig` and `load_database_config` |
| `QueryGuard` | query_guard.dfy | `is_read_only_query` |
| `Jobs` | jobs.dfy | the job table: creation, bounded logs, cleanup, listing |
| `JobRunner` | job_runner.dfy | `LogCapture`, the argv builder, exit-code mapping, `execute_job` |

State the source changes in place is modelled with classes:

- `Jobs.JobRegistry` holds the `jobs` table and `job_counter`;
- `JobRunner.LogCapture` holds the partial-line buffer;
- `SmaRun.EventIndex` holds `existing_events` and `latest_event_dates`;
- `SmaRun.EventStore` holds the `sma_events` table.

Loops of the source are `while`/`for` loops proved against a specification
function:

- `chunked` and `date_range`;
- the crossover walk;
- the grouped-daily filter;
- the per-symbol loops of the `main`s;
- the keyword search;
- the `LogCapture.write` split loop.

## Model

| member | source | states |
|---|---|---|
| `Batching.Chunked` | src/sma_events.py:277-285 | the batches concatenate back to the input, each is non-empty and at most `size` long, all but the last are exactly `size` long (a `size` below 1 gives batches of one), and there are none for empty input |
| `Batching.UpsertedCount` | src/sma_events.py:288-303 | the count returned is the number of rows, 0 for none, whatever the chunk size |
| `Batching.UpdateColumns` | src/sma_events.py:296-300 | a column is in the update set iff it is in the table, is not a primary-key column and is not one of the kept columns (`created_at` for events) |
| `Batching.UpdateColumnsOfValues` | src/all_prices.py:141-156 | for a table made of key columns followed by value columns, the update set is exactly the value columns, in order |
| `Batching.FlattenAppend` | src/sma_events.py:277-285 | concatenating batches distributes over appending one more batch |
| `SmaEvents.TypeOfRoundTrip` | src/sma_events.py:178-272 | each of the six event types is exactly one family (price vs short, price vs long, short vs long) with one direction |
| `SmaEvents.RollingMean` | src/sma_events.py:157-158 | the average at row `i` over window `w` is defined iff `1 <= w <= i + 1`, so only full windows count |
| `SmaEvents.WithAverages` | src/sma_events.py:156-158 | the frame has one row per price row |
| `SmaEvents.AverageColumns` | src/sma_events.py:157-158 | each frame row keeps the row's date and close and carries the short and long rolling means of that row |
| `SmaEvents.MeanWithinBounds` | src/sma_events.py:157-158 | a defined average lies between any lower and upper bound of the closes in its window |
| `SmaEvents.FlatWindowMean` | src/sma_events.py:157-158 | a window of equal closes `c` averages to `c` |
| `SmaEvents.RollingMeanOfSuffix` | src/sma_events.py:157-158 | dropping `k` leading rows leaves the average of a later row unchanged while its window still fits |
| `SmaEvents.SumBounds` | src/sma_events.py:157-158 | the sum of closes lies between count times the lower bound and count times the upper bound |
| `SmaEvents.Crossing` | src/sma_events.py:178-203 | an up-cross iff the previous difference is `<= 0` and the current one `> 0`; a down-cross iff the previous is `>= 0` and the current `< 0`; a current difference of 0 never crosses |
| `SmaEvents.EmitShape` | src/sma_events.py:175-206 | one difference at one row gives at most one event, of that difference's family, filled from that row |
| `SmaEvents.ScanCrossovers` | src/sma_events.py:160-274 | the walk over the frame returns the specification `AllEvents`: the events of each row, row after row |
| `SmaEvents.AllEventsStep` | src/sma_events.py:160-274 | scanning one more row appends exactly that row's events |
| `SmaEvents.DetectCrossing` | src/sma_events.py:175-206 | one register step: the events emitted are `Emit` of the previous register value, and the register becomes the current difference, or `None` when it is undefined |
| `SmaEvents.ComputeSmaEvents` | src/sma_events.py:147-274 | the result is the specification `CandidateEvents`: the scan of the date-sorted series with its averages |
| `SmaEvents.EventAtIff` | src/sma_events.py:175-272 | a row has an event of type `t` iff `t`'s difference was defined at the previous row and crosses zero in `t`'s direction at this row |
| `SmaEvents.ZeroDiffNeverFires` | src/sma_events.py:178-203 | a current difference of 0 fires no event type |
| `SmaEvents.AtMostOnePerFamily` | src/sma_events.py:175-272 | a row gives at most three events, no two of the same family |
| `SmaEvents.EventNeedsDefinedDiff` | src/sma_events.py:175-177 | an event needs its difference defined at its own row and at the row before it |
| `SmaEvents.EventFields` | src/sma_events.py:179-189 | an event carries the symbol and its row's date and close, and it carries the short or long average whenever its family uses that average |
| `SmaEvents.EventOfFamily` | src/sma_events.py:175-272 | an event of a row is the event its family's difference builds from that row |
| `SmaEvents.EventProvenance` | src/sma_events.py:160-274 | every scanned event comes from one row of the scanned prefix |
| `SmaEvents.ShortSeriesNoEvents` | src/sma_events.py:153-158 | a series shorter than the short window gives no events |
| `SmaEvents.BelowLongWindowOnlyShortEvents` | src/sma_events.py:157-158 | on a series shorter than the long window, every event is a price-versus-short cross |
| `SmaEvents.SuffixFrameIsResumed` | src/sma_events.py:335-342 | the frame of a suffix of the history agrees with the full frame wherever the suffix holds a full window |
| `SmaEvents.ResumedScanAgrees` | src/sma_events.py:335-342 | past both windows, a resumed scan gives at each row exactly the events of the full scan |
| `SmaEvents.ResumedCandidateKeys` | src/sma_events.py:335-342 | every key a scan of a suffix of an ascending history finds is also found by the scan of the whole history |
| `SmaEvents.CandidatesOfOrdered` | src/sma_events.py:156 | on a date-ascending series the sort is the identity and the candidates are the plain scan |
| `SmaEvents.CandidateKeysDistinct` | src/sma_events.py:147-274 | on an ascending series, candidates are in date order and no two share a `(symbol, date, type)` key |
| `SmaEvents.CandidateKeysOfSymbol` | src/sma_events.py:179-189 | every candidate key carries the scanned symbol |
| `SmaEvents.ScanKeysDistinct` | src/sma_events.py:160-274 | on a strictly ascending frame, the scanned events are date-ordered with distinct keys |
| `SmaRun.ValidateWindows` | src/sma_events.py:310-313 | no error iff `0 < short < long`; the non-positive error iff a window is `<= 0`; the ordering error iff both are positive and `short >= long` |
| `SmaRun.LatestDate` | src/sma_events.py:111-117 | a symbol's latest date is `None` iff it has no key, and otherwise is one of its keys' dates and not below any of them |
| `SmaRun.LatestDateAdd` | src/sma_events.py:356-360 | adding a key makes the latest date the greater of the old one and the new date |
| `SmaRun.LatestDateGrows` | src/sma_events.py:356-360 | adding keys never lowers a symbol's latest date |
| `SmaRun.LatestDateOtherSymbols` | src/sma_events.py:356-360 | keys of other symbols leave a symbol's latest date unchanged |
| `SmaRun.EventIndex.Load` | src/sma_events.py:106-118 | the index holds exactly the loaded keys, and its latest-date map is their per-symbol maximum |
| `SmaRun.EventIndex.Add` | src/sma_events.py:357-360 | the key is added, and the symbol's latest date becomes the maximum of the old one and the key's date |
| `SmaRun.EventIndex.Record` | src/sma_events.py:356-360 | every new event's key is added and the index stays consistent |
| `SmaRun.ResumeFloor` | src/sma_events.py:335-339 | a floor exists iff a latest event date does, and then it lies `max(long, short) + 5` days before that date |
| `SmaRun.ResumeFloorMonotone` | src/sma_events.py:335-339 | a later latest date never gives an earlier floor |
| `SmaRun.PriceHistory` | src/sma_events.py:121-144 | the history read is never longer than the stored prices |
| `SmaRun.HistoryMembers` | src/sma_events.py:128-143 | a point is in the history iff a stored price on or after the floor has that date and a non-null close |
| `SmaRun.HistoryAscending` | src/sma_events.py:131 | on an ascending table the history is strictly ascending by date |
| `SmaRun.FloorBelowAll` | src/sma_events.py:133-134 | on an ascending table, a floor at or before the first stored date reads the whole history |
| `SmaRun.LaterFloorSuffix` | src/sma_events.py:133-134 | on an ascending table, a later floor reads a suffix of what an earlier floor reads |
| `SmaRun.LaterFloorKeys` | src/sma_events.py:335-342 | on an ascending table, a later floor finds no key that an earlier floor would not |
| `SmaRun.NewEvents` | src/sma_events.py:344-348 | keeps exactly the candidates whose key is not yet stored, and never more than there are |
| `SmaRun.NewEventsKeepsUnknown` | src/sma_events.py:344-348 | with no candidate key stored, every candidate is new, in order |
| `SmaRun.NewEventsDistinct` | src/sma_events.py:344-348 | new events of distinct-key candidates have distinct keys |
| `SmaRun.KeySetSize` | src/sma_events.py:353-354 | distinct-key events have as many keys as events |
| `SmaRun.UpsertedSnoc` | src/sma_events.py:294-302 | upserting one more event is one more `Put` |
| `SmaRun.UpsertedAppend` | src/sma_events.py:294-302 | upserting in two batches equals upserting in one |
| `SmaRun.UpsertedKeyed` | src/sma_events.py:294-302 | every stored row stays under its event's own key |
| `SmaRun.UpsertedKeys` | src/sma_events.py:294-302 | the stored keys become the old keys plus the events' keys |
| `SmaRun.UpsertedKeepsCreatedAt` | src/sma_events.py:296-300 | an existing row keeps its `created_at` |
| `SmaRun.UpsertedLeavesOthers` | src/sma_events.py:294-302 | a row whose key no event has is untouched |
| `SmaRun.UpsertedStoresEvent` | src/sma_events.py:294-302 | the last event with a key is the one stored under it, whatever came before it in the batch; its `created_at` is the stored row's when the key was already in the table, otherwise now |
| `SmaRun.UpsertedNewCreatedAt` | src/sma_events.py:294-302 | a key that was not in the table before is stored, if at all, with `created_at` of now |
| `SmaRun.EventStore.KeyRows` | src/sma_events.py:111-114 | the rows read back are exactly the stored keys |
| `SmaRun.EventStore.ExecuteBatch` | src/sma_events.py:295-301 | one statement's effect is the upsert of its batch |
| `SmaRun.EventStore.Upsert` | src/sma_events.py:288-303 | returns the number of events and leaves the table as the upsert of all of them, batch by batch |
| `SmaRun.RecordSettles` | src/sma_events.py:335-360 | after recording a symbol's new events, a second scan of it from the moved floor finds nothing new |
| `SmaRun.OtherSymbolStaysSettled` | src/sma_events.py:334-360 | recording events of another symbol keeps a settled symbol settled |
| `SmaRun.NewEventsOfSymbol` | src/sma_events.py:335-348 | a symbol's new events carry its name, have distinct keys, none already stored, and all come from the scan of its whole history |
| `SmaRun.ProcessSymbol` | src/sma_events.py:335-362 | one symbol's turn returns the number of new events, adds their keys to the index and upserts them into the store |
| `SmaRun.StepRows` | src/sma_events.py:353-354 | upserting fresh distinct events removes nothing, keeps every `created_at` and grows the table by their count |
| `SmaRun.Run` | src/sma_events.py:306-364 | an invalid window pair is reported before anything is read or written; otherwise no row is removed and no `created_at` changes, the total is the number of keys added, every symbol ends settled, every added key belongs to a processed symbol and to the scan of its whole history, and an already settled store is left untouched |
| `QueryGuard.FromNewline` | src/webapp.py:126 | the rest of the text from the first newline on, or nothing when there is none |
| `QueryGuard.FindClose` | src/webapp.py:127 | the first `*/` at or after a position, or `None` iff there is none |
| `QueryGuard.SearchWord` | src/webapp.py:142 | true iff the keyword occurs in the text with no word character on either side |
| `QueryGuard.CheckKeywords` | src/webapp.py:135-145 | true iff none of the 11 dangerous keywords occurs as a whole word |
| `QueryGuard.IsReadOnlyQuery` | src/webapp.py:110-145 | true iff the text, with `--` line comments then `/* */` block comments removed, stripped and upper-cased, starts with `SELECT` and contains none of the keywords as a whole word |
| `QueryGuard.NoDoubleDashLeft` | src/webapp.py:126 | after removing line comments no `--` is left before a newline |
| `QueryGuard.DashFreePrefix` | src/webapp.py:126 | text without a dash passes through the line-comment removal unchanged |
| `QueryGuard.LineCommentDropped` | src/webapp.py:126 | a `--` comment is removed up to, not including, its newline |
| `QueryGuard.BlockCommentDropped` | src/webapp.py:127 | a `/* ... */` comment is removed up to its first `*/` |
| `QueryGuard.LeadingCommentIgnored` | src/webapp.py:125-145 | a leading block comment with no `-` and no `*/` inside it does not change the verdict, so a keyword inside it does not reject |
| `QueryGuard.DashInCommentCutsCloser` | src/webapp.py:125-134 | the `--` pass runs before the block-comment pass, so a `--` inside a block comment removes the rest of the line, closer included: `/*` + `c` + `--` + `b` (no newline in `b`; `c` free of `-`, `/`, `*` and newlines, for example `/* -- */ SELECT 1`) normalises to text that starts with `/*` and is refused, while `SELECT 1` is accepted |
| `QueryGuard.NormalizeIgnoresCase` | src/webapp.py:128 | upper- or lower-casing the query first does not change its normal form |
| `QueryGuard.ReadOnlyIgnoresCase` | src/webapp.py:128-145 | the verdict does not depend on letter case |
| `QueryGuard.GluedKeywordIsNoWord` | src/webapp.py:142 | a keyword followed by a word character, as in `CREATED_AT`, is not a whole-word match |
| `QueryGuard.MapBlockComments` | src/webapp.py:127-128 | the case maps commute with block-comment removal |
| `QueryGuard.MapLineComments` | src/webapp.py:126-128 | the case maps commute with line-comment removal |
| `Jobs.JobIdInjective` | src/webapp.py:334 | different counter values give different job ids |
| `Jobs.BoundedAppendKeepsLast` | src/webapp.py:342 | appending to a job log keeps the last `MAX_LOG_LINES` (1000) lines |
| `Jobs.LogKeepsLastLines` | src/webapp.py:342 | appending many lines to a bounded log keeps the last 1000 of all lines written |
| `Jobs.LogStaysBounded` | src/webapp.py:342 | a job log never exceeds 1000 lines |
| `Jobs.JobRegistry.constructor` | src/webapp.py:92-93 | the table starts empty with counter 0 |
| `Jobs.JobRegistry.RunService` | src/webapp.py:307-361 | rejects exactly the names outside the four valid services and leaves the table alone; otherwise increments the counter and appends `job_<n>`, a fresh id, running, with no end time, no exit code and an empty log |
| `Jobs.JobRegistry.AppendLogLine` | src/webapp.py:455-457 | a line goes to the bounded log of the job with that id, if it is still in the table |
| `Jobs.JobRegistry.SettleJob` | src/webapp.py:547-551 | sets the status, exit code and end time of the job and logs the closing lines |
| `Jobs.JobRegistry.CleanupOldJobs` | src/webapp.py:147-186 | the table becomes the running jobs followed by the retained finished ones, and the count is finished minus retained |
| `Jobs.JobRegistry.Partition` | src/webapp.py:158-165 | splits the table into running and finished jobs, in order |
| `Jobs.JobRegistry.ListJobs` | src/webapp.py:362-387 | returns the listing of the table |
| `Jobs.FreshId` | src/webapp.py:333-334 | the next id is not yet in a valid table |
| `Jobs.CleanupKeepsRunning` | src/webapp.py:156-180 | every running job survives the cleanup and no job is invented |
| `Jobs.CleanupBound` | src/webapp.py:169-175 | exactly `min(10, finished)` finished jobs remain, and the running jobs are unchanged |
| `Jobs.CleanupKeepsNewest` | src/webapp.py:167-175 | no dropped finished job ended later than a kept one |
| `Jobs.JustFinishedSurvives` | src/webapp.py:553-554 | a job that ended after every other finished job survives the cleanup |
| `Jobs.NewestIsRetainedFirst` | src/webapp.py:169-175 | when the kept list is full, the last job to end heads it |
| `Jobs.RunningFinishedSplit` | src/webapp.py:158-165 | running and finished jobs together are the table, as a multiset |
| `Jobs.CleanedValid` | src/webapp.py:178-180 | the cleaned table keeps ids distinct and each issued by the counter |
| `Jobs.ListingOrdered` | src/webapp.py:385-387 | the listing has `min(10, jobs)` entries, newest start first |
| `Jobs.ListingFromTable` | src/webapp.py:371-383 | each listed entry is the summary of a job in the table |
| `Jobs.ListingNewest` | src/webapp.py:385-387 | no job left out of the listing started later than a listed one |
| `JobRunner.NewlineAt` | src/webapp.py:452-453 | the position of the first newline, or `None` iff there is none |
| `JobRunner.SplitRoundTrip` | src/webapp.py:452-453 | the split lines, each followed by a newline, then the remainder, give back the text |
| `JobRunner.SplitHasNoBreaks` | src/webapp.py:452-453 | no split line and no remainder contains a newline |
| `JobRunner.UnlinesRoundTrip` | src/webapp.py:452-453 | splitting newline-terminated lines plus a newline-free remainder gives them back |
| `JobRunner.LinesAppend` | src/webapp.py:449-453 | splitting a concatenation splits the first part, then the remainder joined to the second |
| `JobRunner.LogLinesAppend` | src/webapp.py:454-457 | logging two groups of lines is logging one after the other |
| `JobRunner.WritesCompose` | src/webapp.py:439-459 | two writes log the same lines and leave the same buffer as one write of both texts |
| `JobRunner.CaptureStep` | src/webapp.py:439-459 | after each piece of output the log and the buffer are those of one write of all the output so far |
| `JobRunner.CapturedLinesAreClean` | src/webapp.py:439-467 | every captured line is non-empty and holds no newline |
| `JobRunner.CapturedWholeLines` | src/webapp.py:439-467 | output made of non-empty lines, each ended by a newline, and an unfinished rest is captured as exactly those lines, then the rest if it is non-empty |
| `JobRunner.CaptureFlushed` | src/webapp.py:461-467 | the final flush adds the unfinished last line when it is non-empty, completing the captured lines |
| `JobRunner.LogCapture.constructor` | src/webapp.py:428-437 | the capture starts with an empty buffer for its job |
| `JobRunner.LogCapture.Write` | src/webapp.py:439-459 | returns the length of the text; the buffer becomes the text after the last newline; each complete non-empty line is appended to the job log in order |
| `JobRunner.LogCapture.Flush` | src/webapp.py:461-467 | appends the buffer to the job log only if it is non-empty, then empties it |
| `JobRunner.Argv` | src/webapp.py:509-529 | argv starts with the service name, followed by each option of that service whose parameter is present and truthy |
| `JobRunner.ArgvRoundTrip` | src/webapp.py:512-529 | each option's flag reads back its value (as `str()` for the windows, as given for dates) iff the parameter is present and truthy, and reads back nothing otherwise |
| `JobRunner.RawDateArgument` | src/webapp.py:513-515 | a non-string date is placed in argv as it is, not converted to text |
| `JobRunner.Verdict` | src/webapp.py:543-589 | a return gives completed with 0; a `SystemExit` gives its code, `None` read as 0, completed iff that code is 0; any other exception gives failed with 1 |
| `JobRunner.LogKeepsEnds` | src/webapp.py:454-457 | logging a line keeps the job in the table and keeps every end time |
| `JobRunner.SettledJob` | src/webapp.py:547-551 | settling sets exactly the job's status, exit code and end time |
| `JobRunner.LogStartLines` | src/webapp.py:486-489 | the job's log receives `Starting service: <service>` and `Parameters: <params>`, in that order; the table's size, ids and end times stay |
| `JobRunner.CaptureOutput` | src/webapp.py:531-544 | the job's log receives exactly the `Captured` lines of all the output, written piece by piece and flushed; the job and every end time stay |
| `JobRunner.CaptureAndSettle` | src/webapp.py:531-592 | the table becomes the cleanup of the table in which the captured lines were logged and the job settled with `Verdict`'s status and code, an end time of now and the closing lines of how the service ended; the job has that status, code and end time, and when every other job ended before now it is still in the table |
| `JobRunner.ExecuteJob` | src/webapp.py:469-592 | the table becomes `RunTable`: the start lines logged, then, without the API key for `fetch_prices`, the job failed with 1 and the two error lines and no cleanup; otherwise the captured lines logged, the job settled by `Verdict` with its closing lines, then the cleanup. The job ends with the final status and code and an end time of now; when every other job ended before now, it survives the cleanup |
| `JobRunner.LogLinesAt` | src/webapp.py:455-457 | logging lines changes only the job with the id, whose log becomes the bounded append of the lines |
| `JobRunner.SettledLogAt` | src/webapp.py:547-551 | after logging lines and settling, the job carries the new status, code and end time, and its log is the last 1000 lines of its old log, the lines and the closing lines |
| `JobRunner.RunRecord` | src/webapp.py:486-592 | a run changes only its own job in `RunTable`: the final status and code, an end time of now, and a log made of the last 1000 lines of the old log, the two start lines, then the two missing-key lines, or the captured output followed by the closing lines |
| `JobRunner.SettledSurvives` | src/webapp.py:553-554 | a job that ended after every other job survives the cleanup that follows |
| `PriceIngest.UtcDay` | src/all_prices.py:168 | the day of a millisecond timestamp is the one whose 86 400 000 ms span contains it |
| `PriceIngest.ToPriceRow` | src/all_prices.py:159-181 | fails iff both the given date and the timestamp are missing; otherwise uses the given date, or the timestamp's UTC day, and copies the symbol and the bar's fields |
| `PriceIngest.DateRange` | src/all_prices.py:184-188 | every day from start to end, ascending by one, and nothing when start is after end |
| `PriceIngest.GroupedRows` | src/all_prices.py:203-209 | the rows are exactly the aggregates with a non-empty ticker in the symbol set, in input order, each stamped with the target date |
| `PriceIngest.FetchGroupedPriceRows` | src/all_prices.py:191-209 | the filter loop returns `GroupedRows` |
| `PriceIngest.GroupedDailyImport` | src/all_prices.py:219-253 | the date is clamped to today; nothing is stored when there are no symbols; otherwise the count is the number of kept rows |
| `PriceIngest.PriceUpdateColumns` | src/all_prices.py:149-153 | the update set of the prices table is its seven value columns, not `symbol` or `trade_date` |
| `PriceIngest.StoredPricesKeys` | src/all_prices.py:141-156 | upserting rows adds exactly their `(symbol, trade_date)` keys |
| `PriceIngest.StoredPricesLeavesOthers` | src/all_prices.py:141-156 | a stored bar no row touches is unchanged |
| `PriceIngest.StoredPricesLastWins` | src/all_prices.py:141-156 | the last row with a key is the bar stored under it |
| `PriceIngest.StartDate` | src/prices.py:268-275 | the day after the last stored date if there is one, else the explicit start, else `lookback - 1` days before the end |
| `PriceIngest.PlanRun` | src/prices.py:235-243 | the end is the clamped requested date; an error iff an explicit start is after it; the lookback is at least 1; a fresh symbol never starts after the end |
| `PriceIngest.RowsFor` | src/prices.py:203-225 | the fetched bars convert iff all have timestamps, one row per bar, each the `to_price_row` of its bar |
| `PriceIngest.RequestsExact` | src/prices.py:268-279 | a symbol is requested iff its start date is not after the end, with that start and the end |
| `PriceIngest.NeverStoredIsRequested` | src/prices.py:268-279 | a symbol with no stored bar is always requested from the plan's start |
| `PriceIngest.UpToDateIsSkipped` | src/prices.py:277-279 | a symbol stored up to the end date is not requested |
| `PriceIngest.StoreRequest` | src/prices.py:281-297 | stores the request's rows, or none when the fetch fails |
| `PriceIngest.ImportSymbol` | src/prices.py:268-298 | one symbol's turn adds its request, if any, and its rows to the total |
| `PriceIngest.ImportPrices` | src/prices.py:267-303 | the requests made are `Requests` and the total is the sum of rows stored for them |
| `PriceIngest.TotalStoredSnoc` | src/prices.py:296-297 | the total grows by each request's stored rows |
| `CompanyImport.AliasesAreTargets` | src/import_to_mysql.py:29-51 | every alias names a target column |
| `CompanyImport.BuildRenameMap` | src/import_to_mysql.py:154-158 | a column is renamed iff its stripped, lower-cased name is an alias key, and then to that alias |
| `CompanyImport.NormalizeColumns` | src/import_to_mysql.py:153-160 | each column becomes its alias, or stays as it was |
| `CompanyImport.RenamedIsIdempotent` | src/import_to_mysql.py:153-160 | normalising twice is normalising once |
| `CompanyImport.SymbolHeaderIff` | src/import_to_mysql.py:39-41 | a header becomes `symbol` iff its key is `symbol`, `ticker` or `ticker symbol` |
| `CompanyImport.TargetsAreFixed` | src/import_to_mysql.py:29-51 | every target column name normalises to itself |
| `CompanyImport.Truncate` | src/import_to_mysql.py:174 | truncation toward zero, as `int()` does on a number |
| `CompanyImport.Multiplier` | src/import_to_mysql.py:54-60 | a power of a thousand, other than 1 iff the upper-cased suffix is K, M, B or T |
| `CompanyImport.RemoveCommas` | src/import_to_mysql.py:172 | the text without its commas |
| `CompanyImport.ParseMarketCap` | src/import_to_mysql.py:163-174 | 0 for a missing value, blank text or `n/a`/`na`/`none` in any case; an error for any other single character |
| `CompanyImport.MarketCapRoundTrip` | src/import_to_mysql.py:171-174 | a sign, a whole number with its thousands commas and a suffix read back as that number times the suffix's multiplier |
| `CompanyImport.FractionalMarketCap` | src/import_to_mysql.py:171-174 | a sign, a fraction `a.b` (optionally negative) and a suffix read back as the value times the multiplier, truncated toward zero |
| `CompanyImport.MarketCapExamples` | src/import_to_mysql.py:171-174 | `$1.5B` reads as 1 500 000 000 and `$-0.0015K` as -1 |
| `CompanyImport.UnitlessValueLosesLastDigit` | src/import_to_mysql.py:171 | a value ending in a digit loses that digit, since the last character is always taken as the suffix |
| `CompanyImport.FramesEmptyIff` | src/import_to_mysql.py:104-118 | no file is used iff none has a `symbol` column |
| `CompanyImport.CleanRecord` | src/import_to_mysql.py:123-129 | a row cleans iff its market cap parses, and then has the stripped, upper-cased symbol and the parsed cap |
| `CompanyImport.CleanAll` | src/import_to_mysql.py:122-129 | all rows clean iff every market cap parses, row by row |
| `CompanyImport.KeepLastDistinct` | src/import_to_mysql.py:134 | after dropping duplicates no symbol appears twice |
| `CompanyImport.KeepLastKeepsLast` | src/import_to_mysql.py:134 | the last row of each symbol is the one kept |
| `CompanyImport.KeepLastKeys` | src/import_to_mysql.py:134 | dropping duplicates keeps every symbol |
| `CompanyImport.LoadedNoUsableFiles` | src/import_to_mysql.py:118-119 | loading fails for lack of files exactly when no file has a `symbol` column |
| `CompanyImport.LoadedInvalidMarketCap` | src/import_to_mysql.py:129 | loading fails on a market cap exactly when a usable row's cap does not parse |
| `CompanyImport.LoadedDistinct` | src/import_to_mysql.py:134 | a successful load has one row per symbol |
| `CompanyImport.LoadedKeys` | src/import_to_mysql.py:122-134 | the loaded symbols are exactly the cleaned symbols of the rows that have one |
| `CompanyImport.IsUsable` | src/import_to_mysql.py:104 | a file is used iff its normalised header has `symbol` |
| `CompanyImport.LoadDataFrames` | src/import_to_mysql.py:96-136 | the loop over the files returns `Loaded` |
| `CompanyImport.UpdatableColumns` | src/import_to_mysql.py:222 | every target column except `symbol`, and nothing else |
| `ThirtyDayReport.FromEndAndSpan` | src/thirty_day_report.py:77-81 | an error iff the lookback is below 1; otherwise the end is kept and the window holds exactly the `lookback` days ending on it |
| `ThirtyDayReport.MainWindow` | src/thirty_day_report.py:284-289 | the report date defaults to today and a future one becomes today; the window spans `lookback` days up to it |
| `ThirtyDayReport.FilterLongWindowEvents` | src/thirty_day_report.py:205-208 | keeps exactly the events whose long window equals the argument |
| `ThirtyDayReport.FilterLongWindowCounts` | src/thirty_day_report.py:205-208 | each matching event keeps its multiplicity, and non-matching ones are gone |
| `ThirtyDayReport.FilterLongWindowKeepsMatching` | src/thirty_day_report.py:205-208 | input whose events all match, including empty input, is returned unchanged |
| `ThirtyDayReport.FilterLongWindowKeepsOrder` | src/thirty_day_report.py:205-208 | the filter keeps the input order: filtering a concatenation filters each part in turn, and one event is kept iff it matches |
| `ThirtyDayReport.Closed` | src/thirty_day_report.py:122 | keeps exactly the observations with a close |
| `ThirtyDayReport.Earliest` | src/thirty_day_report.py:135-139 | an observation of the symbol with the earliest date |
| `ThirtyDayReport.Latest` | src/thirty_day_report.py:135-140 | an observation of the symbol with the latest date |
| `ThirtyDayReport.DistinctSymbols` | src/thirty_day_report.py:136 | every observed symbol once |
| `ThirtyDayReport.Grouped` | src/thirty_day_report.py:136-143 | one performance per symbol whose first close is not zero |
| `ThirtyDayReport.ComputeSymbolPerformance` | src/thirty_day_report.py:109-145 | rows are ordered by percentage change, largest first |
| `ThirtyDayReport.PerformanceRowsDescribeSymbols` | src/thirty_day_report.py:135-144 | each row holds its symbol's earliest and latest non-null close and their dates, with the change relative to a non-zero start |
| `ThirtyDayReport.PerformanceCoversSymbols` | src/thirty_day_report.py:122-143 | a symbol has a row iff it has a non-null close and its earliest one is not zero |
| `ThirtyDayReport.PerformanceSymbolsDistinct` | src/thirty_day_report.py:136-141 | no symbol has two rows |
| `ThirtyDayReport.NoClosesNoRows` | src/thirty_day_report.py:122-133 | without a non-null close there are no rows |
| `DbConfig.Missing` | src/db.py:48 | exactly the required keys the mapping lacks |
| `DbConfig.FromMapping` | src/db.py:47-57 | a missing-keys error iff a required key is absent, listing them in order; a port error iff all are present and the port is not an integer; otherwise the fields are the mapped values as text and the port as an integer |
| `DbConfig.FromMappingRoundTrip` | src/db.py:47-57 | a config written out as a mapping reads back as itself |
| `DbConfig.WithEnvDefaults` | src/db.py:59-68 | each field comes from its environment value when that is set and non-empty, else is kept; an error iff such a port value is not an integer |
| `DbConfig.NoEnvKeepsConfig` | src/db.py:59-68 | without environment values the config is unchanged |
| `DbConfig.WithEnvDefaultsIdempotent` | src/db.py:59-68 | applying the environment twice is applying it once |
| `DbConfig.SqlalchemyUrl` | src/db.py:40-44 | the URL starts with `mysql+pymysql://` |
| `DbConfig.UrlRoundTrip` | src/db.py:40-44 | a URL formatted from a config whose user, password and host hold no separator parses back to that config |
| `DbConfig.DatabaseName` | src/db.py:106 | `database` if truthy, else `name` if truthy, else `nasdaq` |
| `DbConfig.LoadDatabaseConfig` | src/db.py:92-109 | fails for the section iff `database` is missing or not a mapping, and never for missing keys, since every key has a default |
| `DbConfig.EmptySectionDefaults` | src/db.py:101-107 | an empty section gives `127.0.0.1`, 3306, `nasdaq_user`, `nasdaq_pass`, `nasdaq` |
| `DbConfig.LoadedFieldsFromSection` | src/db.py:101-108 | each loaded field is the section's value as text, or its default |
| `Common.ClampToToday` | src/all_prices.py:219-222 | the requested date if not after today, else today, and today when none is given |
| `Text.IntRoundTrip` | src/db.py:53 | an integer written in decimal reads back as itself |
| `Sorting.SortBy` | src/thirty_day_report.py:145 | the result is sorted by the key and is a permutation of the input |
| `Sorting.SortSortedIsIdentity` | src/sma_events.py:156 | sorting a sorted sequence returns it unchanged |
| `Sorting.SmallestBy` | src/webapp.py:169-175 | the first `n` of the sorted input: sorted, a sub-multiset of the input, of length `min(n, input)`, and no left-out element has a smaller key than a kept one |

## Left out

- Database and network I/O are not modelled:
  - SQLAlchemy engines, table creation and reflection, `ALTER TABLE`, and the `SELECT`s;
  - the Polygon/massive REST clients and `enrich_with_polygon_metrics`;
  - `time.sleep` pacing.
  Tables are maps; fetches are parameters holding their result, or `None` for a raised error.
- Flask routes, `threading`, `job_lock`, daemon threads, `redirect_stdout`/`redirect_stderr` and `sys.argv` swapping are not modelled. Jobs run one at a time, each as one sequential call.
- argparse, logging, YAML file reading, report formatting and file writing are not modelled. `generate_report.py` and `agent.py` are not part of this model.
- `safe_to_int` is not modelled, because it is float handling.
- Floating-point arithmetic is not modelled. Closes, averages and percentage changes are exact `real`s.
- `SmaEvents.RollingMean`: the average is an exact quotient, not pandas' floating-point rolling mean, so rounding differences are not captured.
- `ThirtyDayReport.ComputeSymbolPerformance`: pandas groupby is modelled by value, not its row order; ties in `pct_change` keep the model's order, not pandas'. The change is an exact ratio.
- `CompanyImport.ParseDecimal`: reads plain decimal text only (digits, one optional point, an optional sign) as an exact real. Python's `float()` also accepts:
  - exponents (`1e3`, so `$1e3K` parses in Python but is an error here);
  - `inf` and `nan`;
  - `_` digit separators (`1_000`);
  - Unicode digits and spaces.
  Its result is also rounded to a binary float before `int()`.
- `CompanyImport.ParseMarketCap`: inherits every `ParseDecimal` difference. It also does not model the NaN check on float input, since cells are text.
- `Text.ParseInt`: accepts ASCII digits with an optional sign only. Python's `int()` also accepts `_` separators (`3_306`), Unicode digits and surrounding whitespace.
- `DbConfig.FromMapping`: inherits the `ParseInt` differences through `ToInt` (src/db.py:53).
- `DbConfig.LoadDatabaseConfig`: inherits the `ParseInt` differences for the section's port (src/db.py:103).
- `DbConfig.ToInt`: a YAML scalar is a string, an integer or null; booleans and floats are not modelled, so `port: 3306.0` (which Python's `int()` truncates) and `port: true` are not captured.
- `Text.IsSpace`: whitespace is the ASCII set only. Python's `str.strip()` also strips Unicode spaces.
- `Text.UpperChar`: like `Text.LowerChar` and `Text.IsWordChar`, it is ASCII-only. Python's `upper()`, `lower()` and `\b` also treat non-ASCII letters as letters and word characters.
- `QueryGuard.IsReadOnlyQuery`: because of the ASCII-only `\b`, `SELECT ÉDROP FROM t` is rejected here (É is no word character) but accepted by Python (É is one). `Normalize` has the same `IsSpace` and case-map limits.
- `CompanyImport.HeaderKey`: like `CleanSymbol` and `StripCell`, it has the same ASCII-only limits, for header keys and cells.
- `CompanyImport.LoadDataFrames`: each CSV file comes already projected onto the target columns (`CsvFile` records). So the following are not captured:
  - the `reindex` `ValueError` when two headers normalise to the same name (a `Symbol;Ticker` header, src/import_to_mysql.py:116);
  - pandas' conversion of `NA`-like strings to missing values;
  - `glob` file order.
- `JobRunner.Argv`: parameters are JSON strings, integers, booleans or null. Floats, lists and objects are not modelled.
- `JobRunner.Verdict`: `SystemExit` carries an integer or `None`. `sys.exit("message")`, whose non-integer code Python stores as the exit code (src/webapp.py:566-569), is not modelled.
- `Jobs.JobRegistry.RunService`: start and end times are natural numbers standing for `datetime.now().isoformat()` strings. Ordering by those strings, and the empty-string default for a missing end time, are taken to agree with numeric order.
- `PriceIngest.ImportPrices`: the `RuntimeError` raised when no API key is given (src/prices.py:232-233) is not modelled. The run starts after that check.
- `PriceIngest.GroupedDailyImport`: the missing-API-key `RuntimeError` (src/all_prices.py:216-217) is not modelled. Nor is the failure path at src/all_prices.py:250-252, where a caught fetch error leaves `rows` unbound and the next line raises `NameError`: the fetch is taken to succeed.
- `PriceIngest.UtcDay`: days are counted from the epoch, with no calendar conversion.
- `SmaRun.Run`: symbols come distinct (`SELECT DISTINCT`) and stored prices come in ascending date order (`ORDER BY trade_date`). The run takes both as given from the database.
- `SmaRun.Run`: the `event_type` strings are modelled as an enumeration.
