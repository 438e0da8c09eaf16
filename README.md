# traderkit-server ingestion core in Dafny

This project models the core of traderkit-server, a Go service that backfills one-minute
OHLCV bars for US equities into a Postgres database. The model covers:

- the resume window of the bar store (`partiallyFilledRange`);
- the trading-day retention calculator (`LastRetainedDay`, `IsMarketOpenOnDay`,
  `IsMarketHoliday`);
- the choice of the backfill start time (`Ingestion.Backfill`, `mostRecentIngestion`);
- the Polygon flat-file iterator (`polygonBackfillIter`: opening the day's file, skipping old
  rows, rolling over to the next day, `Values`, `Err`) and the flat-file object path;
- the ingestion metrics and the self-overwriting terminal progress printer;
- the migration difference and the sort-then-diff order of `runMigrations`;
- the `.env` loader.

Instants are integer nanoseconds since the Unix epoch. US Eastern time is a fixed offset from
UTC (`Calendar.Zone`), and calendar dates are day numbers converted to and from the
proleptic Gregorian calendar Go's `time` package uses. The conversion is the days-from-civil
algorithm by Howard Hinnant, which computes the same calendar as Go's code. Objects whose fields the Go code updates in place
are Dafny classes:

- the metrics (`Metrics.Metrics`);
- the progress printer (`ProgressPrinter.Printer`, whose writer is the text written so far);
- the flat-file iterator (`PolygonIngestion.BackfillIter`, with the bucket as a map from
  object path to CSV records);
- the process environment (`Env.Environment`, a map).

Each method is proved against a function of the old state, and the properties the code
promises are lemmas about those functions. `ParseUint`, `Atoi`, `%d`, `strings.Split`,
`SplitN` and `strings.Repeat` are modelled in `Text` on character strings.

The code is followed where its comments say otherwise. `partiallyFilledRange.Contains` is
documented as "within the range" but is written as a disjunction; the model keeps the
disjunction and proves the departure (`FilledRange.ContainsEverythingWhenOrdered`,
`FilledRange.ContainsOutsideRange`). The repository's retention test expects UTC midnight.
The code returns the instant of Eastern midnight, so the scenarios state the Eastern date and
that instant. `readFromFlatFile` says the rows it skips are already stored, but at the end of a
day the iterator moves its threshold by one day and keeps the time of day. So on every later
day the rows earlier than that time are skipped too, although nothing says they are stored.
The model keeps this behaviour and states it (`PolygonIngestion.LaterDaysKeepTimeOfDay`).

## Model

| member | source | states |
|---|---|---|
| FilledRange.ContainsAtOrAfterFilledBefore | ohlcv/partially_filled_range.go:15-17 | with `FilledBefore` present, every instant at or after it is contained, whatever `UnfilledAfter` is |
| FilledRange.ContainsAtOrBeforeUnfilledAfter | ohlcv/partially_filled_range.go:19-21 | with `UnfilledAfter` present, every instant at or before it is contained |
| FilledRange.EmptyRangeContainsNothing | ohlcv/partially_filled_range.go:14-24 | with both bounds nil, no instant is contained |
| FilledRange.OnlyFilledBefore | ohlcv/partially_filled_range.go:15-23 | with only `FilledBefore`, `Contains(t)` iff `t >= FilledBefore` |
| FilledRange.OnlyUnfilledAfter | ohlcv/partially_filled_range.go:15-23 | with only `UnfilledAfter`, `Contains(t)` iff `t <= UnfilledAfter` |
| FilledRange.ExistsIffBothPresent | ohlcv/partially_filled_range.go:26-28 | `Exists` holds exactly when both bounds are present |
| FilledRange.ContainsEverythingWhenOrdered | ohlcv/partially_filled_range.go:12-24 | with both bounds present and ordered, `Contains` holds of every instant, unlike the "within the range" doc comment |
| FilledRange.ContainsOutsideRange | ohlcv/partially_filled_range.go:12-24 | witness: range [10, 20] contains 5, which the doc comment's reading (`Within`) rejects |
| FilledRange.WithinIsTheWindow | ohlcv/partially_filled_range.go:12-13 | the documented reading holds exactly inside `[FilledBefore, UnfilledAfter]`, implies `Contains`, and needs both bounds |
| FilledRange.PartiallyFilledRange.Contains | ohlcv/partially_filled_range.go:14-24 | `Contains` as written: at or after a present `FilledBefore`, or at or before a present `UnfilledAfter` |
| FilledRange.PartiallyFilledRange.Exists | ohlcv/partially_filled_range.go:26-28 | both bounds are present |
| Calendar.StartOfDay | utils/retention_period.go:68-70 | the start of local day `d` lies on day `d` at local nanosecond 0 |
| Calendar.TruncateToDay | utils/retention_period.go:68-70 | `truncateToLocationDay`: the result is local midnight of the same local day, at most one day before `t` |
| Calendar.StartOfPreviousDay | utils/retention_period.go:22 | stepping one day back moves local midnight back by exactly 24 hours |
| Calendar.StartOfDayMonotone | utils/retention_period.go:21-26 | a later local day starts later, and the gap is exactly the number of days between them times 24 hours |
| Calendar.Weekday | utils/retention_period.go:34 | `time.Weekday` of a day number is between 0 (Sunday) and 6 (Saturday) |
| Calendar.WeekdaySuccession | utils/retention_period.go:34 | day 0 (1970-01-01) is a Thursday, and each day is the weekday after the previous one, Saturday wrapping to Sunday |
| Calendar.CivilFromDays | utils/retention_period.go:60 | the (year, month, day) of a day number has month 1..12 and day 1..31 |
| Calendar.CivilRoundTrip | utils/retention_period.go:60 | converting a day number to its date and back gives the day number |
| Calendar.CivilInjective | utils/retention_period.go:60 | comparing year, month and day identifies the day: distinct days have distinct dates |
| RetentionPeriod.NewYearsDay | utils/retention_period.go:42 | the listed date 2025-01-01 is day 20089 since the epoch, in both directions of the conversion |
| RetentionPeriod.MartinLutherKingJrDay | utils/retention_period.go:43 | the listed date 2025-01-20 is day 20108 since the epoch, in both directions of the conversion |
| RetentionPeriod.WashingtonsBirthday | utils/retention_period.go:44 | the listed date 2025-02-17 is day 20136 since the epoch, in both directions of the conversion |
| RetentionPeriod.GoodFriday | utils/retention_period.go:45 | the listed date 2025-04-18 is day 20196 since the epoch, in both directions of the conversion |
| RetentionPeriod.MemorialDay | utils/retention_period.go:46 | the listed date 2025-05-26 is day 20234 since the epoch, in both directions of the conversion |
| RetentionPeriod.Juneteenth | utils/retention_period.go:47 | the listed date 2025-06-19 is day 20258 since the epoch, in both directions of the conversion |
| RetentionPeriod.IndependenceDay | utils/retention_period.go:48 | the listed date 2025-07-04 is day 20273 since the epoch, in both directions of the conversion |
| RetentionPeriod.LaborDay | utils/retention_period.go:49 | the listed date 2025-09-01 is day 20332 since the epoch, in both directions of the conversion |
| RetentionPeriod.ThanksgivingDay | utils/retention_period.go:50 | the listed date 2025-11-27 is day 20419 since the epoch, in both directions of the conversion |
| RetentionPeriod.ChristmasDay | utils/retention_period.go:51 | the listed date 2025-12-25 is day 20447 since the epoch, in both directions of the conversion |
| RetentionPeriod.HolidayDaysOfDates | utils/retention_period.go:41-52 | each of the ten listed 2025 holiday dates has its day number in `HolidayDays` |
| RetentionPeriod.HolidayDaysAreListedDates | utils/retention_period.go:41-63 | a day is in `HolidayDays` iff its date is one of the ten listed dates |
| RetentionPeriod.IsMarketHoliday | utils/retention_period.go:40-66 | the search returns true iff year, month and day of `t` (Eastern) match a listed holiday; the time of day is ignored |
| RetentionPeriod.IsMarketOpenOnDay | utils/retention_period.go:33-35 | the result is `IsOpen` of the Eastern day: false on every Saturday, Sunday and listed holiday |
| RetentionPeriod.OpenInEveryFourDays | utils/retention_period.go:21-26 | among any four consecutive days one is open, which bounds the walk back between two counted days |
| RetentionPeriod.PrevOpen | utils/retention_period.go:21-26 | the latest open day before `d` is open and at most four days back |
| RetentionPeriod.PrevOpenIsLatest | utils/retention_period.go:21-26 | no day strictly between `PrevOpen(d)` and `d` is open |
| RetentionPeriod.CountOpenSplit | utils/retention_period.go:21-26 | open-day counts over adjacent intervals add up |
| RetentionPeriod.CountToPrevOpen | utils/retention_period.go:21-26 | exactly one open day lies in `[PrevOpen(d), d)` |
| RetentionPeriod.NthOpenDayBeforeCounts | utils/retention_period.go:17-26 | for `n > 0` the n-th open day before today is earlier than today, is open, and exactly `n` open days lie in `[it, today)` |
| RetentionPeriod.NthOpenDayBeforeUnique | utils/retention_period.go:17-26 | conversely, an open day before today with exactly `n` open days up to today is the n-th open day before |
| RetentionPeriod.NthStepClosed | utils/retention_period.go:22-23 | stepping back over a closed day leaves the target unchanged |
| RetentionPeriod.NthStepOpen | utils/retention_period.go:22-24 | stepping back over an open day consumes one count |
| RetentionPeriod.LastRetainedDay | utils/retention_period.go:11-29 | the loop returns Eastern midnight of the n-th open day before today; for `n <= 0` today's midnight; for `n > 0` an earlier open day with exactly `n` open days in `[result, today)` |
| RetentionPeriod.SundayScenario | utils/retention_period_test.go:10-19 | from 2025-07-13T00:00Z with `n = 2` the result is Thursday 2025-07-10, at 04:00 UTC |
| RetentionPeriod.FridayScenario | utils/retention_period_test.go:20-30 | from Friday 2025-07-11 noon UTC with `n = 2` the result is Wednesday 2025-07-09 |
| RetentionPeriod.HolidayScenario | utils/retention_period.go:17-26 | from Monday 2025-07-07 with `n = 1` the weekend and the Independence Day holiday are skipped: Thursday 2025-07-03 |
| Ingestion.MostRecentIngestion | ohlcv/ingestion.go:50-61 | a row's timestamp is returned as is; "no rows" gives the zero time without error; any other query error is returned with its own text |
| Ingestion.ZeroTimeRowReadsAsEmpty | ohlcv/ingestion.go:28-36 | a stored bar at the zero time reads the same as an empty store |
| Ingestion.RetentionDays | ohlcv/ingestion.go:38-41 | the period is the `int64` that `Atoi` reads from the variable, or 14 when `Atoi` fails |
| Ingestion.Backfill | ohlcv/ingestion.go:26-46 | an empty symbol list is the index-out-of-range panic; otherwise the process exits iff the probe of `symbols[0]` fails, and all symbols are handed off, starting at the stored timestamp when it is not zero |
| Ingestion.OnlyFirstSymbolProbed | ohlcv/ingestion.go:28 | the outcome depends only on the probe of the first symbol |
| Ingestion.EmptyStoreStartsAtRetentionWindow | ohlcv/ingestion.go:36-43 | with nothing stored, the start is Eastern midnight of the day `LastRetainedDay` returns: exactly `n` open days before today for `n > 0`, today for `n <= 0` |
| Ingestion.UnsetVariableGivesDefault | ohlcv/ingestion.go:38-41 | every value without a digit, the empty value of an unset variable included, gives 14 days |
| Ingestion.RetentionDaysNotClamped | ohlcv/ingestion.go:38-42 | every `int64` written in decimal is used unchanged, including zero, negative and large values |
| Text.FormatNat | ohlcv/metrics.go:35-41 | `%d` of a non-negative integer is a non-empty digit string without a leading zero |
| Text.FormatNatValue | ohlcv/metrics.go:35-41 | `%d` of a non-negative integer reads back as that integer |
| Text.FormatPadded | ohlcv/providers/polygon_ingestion.go:151-153 | the zero-padded field of `time.Format`: the digits of the value, left-padded with zeros to the width, after a minus sign when negative |
| Text.FormatPaddedShape | ohlcv/providers/polygon_ingestion.go:151-153 | the field is at least the width long and all digits, after a leading minus sign for a negative value |
| Text.FormatPaddedValue | ohlcv/providers/polygon_ingestion.go:151-153 | a zero-padded field of a value that fits is exactly `width` digits and reads back as the value |
| Text.FormatNatLength | ohlcv/providers/polygon_ingestion.go:151-153 | a number below 10^k prints with at most k digits |
| Text.ParseUintOrDefault | ohlcv/providers/polygon_ingestion.go:116-127 | `ParseUint` with the error discarded never gives more than the largest value of the width |
| Text.ParseDigitsFrom | ohlcv/providers/polygon_ingestion.go:116-127 | the digit loop of `ParseUint`: 0 at a character that is not a digit, `max` as soon as the value so far passes it, never more than `max` |
| Text.ParseUintOrDefaultCases | ohlcv/providers/polygon_ingestion.go:116-127 | for every input: `max` when the leading digits exceed it; otherwise the value of an all-digit, non-empty string, and 0 for anything else |
| Text.OverflowBeforeBadCharacter | ohlcv/providers/polygon_ingestion.go:116-127 | digits past `max` followed by a character that is not a digit read as `max`, not 0 |
| Text.OverflowExample | ohlcv/providers/polygon_ingestion.go:127 | `9999999999x` in a 32-bit column reads as 4294967295 |
| Text.Atoi | ohlcv/ingestion.go:38 | a parse succeeds only on a non-empty digit string, possibly after one `+` or `-`, and yields an `int64` |
| Text.AtoiSignedDigits | ohlcv/ingestion.go:38 | a digit string, bare or after `+`, reads as its value and after `-` as its negation, leading zeros allowed, exactly when that is an `int64`; otherwise the parse fails |
| Text.AtoiExamples | ohlcv/ingestion.go:38 | `+7` and `007` read as 7 and a bare `-` fails |
| Text.AtoiFormatInt | ohlcv/ingestion.go:38 | `Atoi` reads back every `int64` printed in decimal |
| Text.Repeat | utils/progress_printer/progress_printer.go:23 | `strings.Repeat` of one character gives exactly `n` copies of it; the printer pads with spaces and the date fields with zeros |
| Text.Split | utils/env.go:14 | `strings.Split` yields at least one part, and no part contains the separator |
| Text.JoinSplit | utils/env.go:14 | splitting the file on newlines loses nothing: joining the lines gives the file back |
| Text.SplitTrailing | utils/env.go:14 | a newline-terminated file splits into lines whose last is empty |
| Text.SplitN2 | utils/env.go:16 | `SplitN(_, "=", 2)`: one part iff there is no `=`; otherwise the text before the first `=` and everything after it |
| Metrics.IncrementIsModular | ohlcv/metrics.go:21-28 | a `uint64` increment adds one modulo 2^64 |
| Metrics.Increment | ohlcv/metrics.go:23 | `x++` on a `uint64` stays a `uint64`; it wraps at the maximum |
| Metrics.IncrementTimesAdds | ohlcv/metrics.go:26-28 | `k` increments add `k` modulo 2^64 |
| Metrics.RowCounterWraps | ohlcv/metrics.go:21-24 | the row counter wraps to zero after 2^64 - 1 |
| Metrics.Message | ohlcv/metrics.go:35-41 | the progress text starts with `[source] ` and ends with `)` |
| Metrics.MessageShowsRows | ohlcv/metrics.go:35-41 | the digits after `[source] ` decode to the row count and end at a space |
| Metrics.MessageAfterRows | ohlcv/metrics.go:35-41 | after the row digits the message is ` bars read, `, the skipped count, ` bars skipped (current ticker: `, the ticker and `)` |
| Metrics.CountersShowSkippedAndTicker | ohlcv/metrics.go:35-41 | in that text the skipped digits decode to the skipped count, and the ticker follows them, closed by `)` |
| Metrics.Metrics.constructor | ohlcv/metrics.go:10-15 | the zero value: empty source and ticker, both counters 0 |
| Metrics.Metrics.SetSource | ohlcv/metrics.go:17-19 | replaces the source; nothing else changes |
| Metrics.Metrics.IngestRow | ohlcv/metrics.go:21-24 | sets the ticker and increments the row counter; the source and the skipped counter are unchanged |
| Metrics.Metrics.SkipRow | ohlcv/metrics.go:26-28 | increments the skipped counter; nothing else changes |
| Metrics.Metrics.SetError | ohlcv/metrics.go:30-32 | changes no field |
| Metrics.Metrics.Print | ohlcv/metrics.go:34-42 | exactly one printer update whose message is the progress text of the current fields |
| Metrics.PrintAfterReading | ohlcv/metrics.go:17-42 | after a source is set, two bars are ingested (the last for MSFT) and one is skipped, `Print` on a fresh printer writes exactly the message for 2 read and 1 skipped with ticker MSFT, then `\r` |
| ProgressPrinter.Line | utils/progress_printer/progress_printer.go:23 | the line is the message, spaces up to the longest earlier length, then `\r` |
| ProgressPrinter.LineCoversEarlierLines | utils/progress_printer/progress_printer.go:23 | a line is never shorter than the longest earlier line nor than its own message |
| ProgressPrinter.FirstLine | utils/progress_printer/progress_printer.go:15-23 | with `max = 0` the line is the message and `\r` |
| ProgressPrinter.Printer.constructor | utils/progress_printer/progress_printer.go:15-17 | a new printer has written nothing and has `max = 0` |
| ProgressPrinter.Printer.Update | utils/progress_printer/progress_printer.go:21-29 | appends the padded line, so earlier output stays a prefix; `max` becomes the larger of its old value and the message length and never decreases |
| ProgressPrinter.Printer.Complete | utils/progress_printer/progress_printer.go:33-36 | an update followed by a newline |
| ProgressPrinter.UpdatePrintsOutput | utils/progress_printer/progress_printer_test.go:44-58 | a fresh printer writes `First\r`, then appends `Second message\r` |
| ProgressPrinter.MaxTracksLongestMessage | utils/progress_printer/progress_printer_test.go:25-40 | `max` is 5, then 24, and stays 24 after a shorter message |
| ProgressPrinter.CompleteAfterLongerUpdate | utils/progress_printer/progress_printer_test.go:76-93 | a short completion after a longer update is padded with 9 spaces and ends with `\r\n` |
| ProgressPrinter.CompletePrintsOutput | utils/progress_printer/progress_printer_test.go:63-72 | completing on a fresh printer writes `Done\r\n` |
| Database.LessOrEqualTotal | database/database.go:54-55 | Go's string order is total |
| Database.LessOrEqual | database/database.go:54-55 | the order `sort.Strings` sorts by: character by character, a proper prefix first |
| Database.LessOrEqualTransitive | database/database.go:54-55 | Go's string order is transitive |
| Database.Insert | database/database.go:54-55 | inserting into a sorted list keeps it sorted and adds exactly the element |
| Database.SortStrings | database/database.go:54-55 | `sort.Strings`: the result is sorted and a permutation of the input |
| Database.MigrationDifference | database/database.go:102-111 | the loop builds the order-preserving difference `Difference(all, applied)` |
| Database.DifferenceMembers | database/database.go:102-111 | a name is in the result iff it is in `all` and not in `applied` |
| Database.DifferenceIsSubsequence | database/database.go:103-107 | the result keeps the order of `all` (a subsequence) and is no longer than it |
| Database.DifferenceWithNothingApplied | database/database.go:104-110 | with nothing applied the result is `all` |
| Database.DifferenceWithEverythingApplied | database/database.go:104-110 | with every name applied the result is empty |
| Database.DifferenceDependsOnAppliedMembers | database/database.go:104-106 | only which names of `all` occur in `applied` matters, not their order, repetition or extra names |
| Database.DifferenceKeepsOrder | database/database.go:54-57 | the difference of a sorted list is sorted |
| Database.RunMigrations | database/database.go:38-62 | the executed files are exactly the unapplied ones, in ascending name order, as a subsequence of the sorted file list |
| Env.SetenvAccepts | utils/env.go:18 | the checks `os.Setenv` makes on Unix: a non-empty key without `=` or NUL, and a value without NUL |
| Env.ApplyLines | utils/env.go:15-22 | a load ends loaded, with a refused variable, or at a line without `=`, and that line is one of the lines |
| Env.Load | utils/env.go:8-25 | a read error is returned before anything is set; otherwise the newline-split lines are applied in order |
| Env.Environment.constructor | utils/env.go:8 | the environment starts as given |
| Env.Environment.LoadEnvFile | utils/env.go:8-25 | the loop leaves the environment and outcome that `Load` specifies |
| Env.KeyValueSplitAtFirstEquals | utils/env.go:16-18 | the key is the text before the first `=`; the value is everything after it, later `=` and `\r` included |
| Env.LaterLinesOverwrite | utils/env.go:15-18 | after a successful load each key holds the value of the last line assigning it; other keys keep their values |
| Env.LineWithoutSeparatorFails | utils/env.go:16-18 | any line without `=` makes the load fail |
| Env.NewlineTerminatedFileFails | utils/env.go:14-18 | a file ending in a newline never loads successfully, because its last line is empty |
| Env.FailureStopsTheLoad | utils/env.go:19-21 | lines after the first failing line have no effect |
| Env.RefusedVariableStopsTheLoad | utils/env.go:18-21 | a line whose key or value `os.Setenv` refuses ends the load with that key, and the environment is as before the line |
| PolygonIngestion.RowTime | ohlcv/providers/polygon_ingestion.go:209-210 | the bar's instant: window_start parsed as `uint64`, converted to `int64`, in nanoseconds |
| PolygonIngestion.Int64FromUint64 | ohlcv/providers/polygon_ingestion.go:209-210 | `int64(x)` of a `uint64` is in range and congruent to `x` modulo 2^64 |
| PolygonIngestion.RowTimeValue | ohlcv/providers/polygon_ingestion.go:209-210 | the instant is an `int64`, and equals the column's value when the column is plain decimal digits that fit |
| PolygonIngestion.Keep | ohlcv/providers/polygon_ingestion.go:203-216 | the records at or after the threshold, in file order |
| PolygonIngestion.KeepMembers | ohlcv/providers/polygon_ingestion.go:212-215 | the kept records are exactly the records at or after the threshold |
| PolygonIngestion.KeepStep | ohlcv/providers/polygon_ingestion.go:203-216 | each record read is kept or dropped, then reading continues |
| PolygonIngestion.FlatFileName | ohlcv/providers/polygon_ingestion.go:140-155 | `toFlatFileName`: the prefix, the four-digit year and two-digit month directories, then `YYYY-MM-DD.csv.gz`, for the Eastern date of the instant |
| PolygonIngestion.FileNameOfLayout | ohlcv/providers/polygon_ingestion.go:148-154 | positions of the prefix, year, month and day fields and the `.csv.gz` suffix in a path |
| PolygonIngestion.FlatFileNameFields | ohlcv/providers/polygon_ingestion.go:140-155 | the path is `us_stocks_sip/minute_aggs_v1/YYYY/MM/YYYY-MM-DD.csv.gz` for the Eastern date, with the directories agreeing with the file name |
| PolygonIngestion.FlatFileNameInjective | ohlcv/providers/polygon_ingestion.go:140-155 | different Eastern days have different paths |
| PolygonIngestion.LateEveningDate | ohlcv/providers/polygon_ingestion.go:146 | 02:00 UTC on 2025-07-11 falls on 2025-07-10 in Eastern time |
| PolygonIngestion.LateEveningReadsEasternDate | ohlcv/providers/polygon_ingestion.go:146-154 | at that instant the file read is 2025-07-10's |
| PolygonIngestion.StreamFrom | ohlcv/providers/polygon_ingestion.go:83-107 | the rows the iterator yields from a threshold: the kept rows of that day's file, then those of the following days; a missing file ends them |
| PolygonIngestion.StreamAfter | ohlcv/providers/polygon_ingestion.go:95-101 | the stream again from the threshold moved one day on with its time of day kept, so each later file is filtered at that time of day; none once the moved threshold passes `now` |
| PolygonIngestion.LaterDaysKeepTimeOfDay | ohlcv/providers/polygon_ingestion.go:242-248 | every row after the first day is at or after the threshold plus 24 hours: the rows of later days earlier in the day than the threshold are never yielded, though nothing says they are stored |
| PolygonIngestion.StreamRowsNotOlderThanThreshold | ohlcv/providers/polygon_ingestion.go:94-106 | every row the iterator can yield is a full record not older than the starting threshold |
| PolygonIngestion.ToBar | ohlcv/providers/polygon_ingestion.go:109-131 | the bar carries the row's timestamp; volume and transactions fit in 32 bits |
| PolygonIngestion.FromBar | ohlcv/providers/polygon_ingestion.go:116-127 | a bar written back as a CSV record has the eight columns |
| PolygonIngestion.ParseFormatted | ohlcv/providers/polygon_ingestion.go:116-127 | a number in range reads back through `ParseUint` |
| PolygonIngestion.ValuesRoundTrip | ohlcv/providers/polygon_ingestion.go:109-131 | `Values` inverts the file's column order: every bar with in-range fields comes back unchanged from its record |
| PolygonIngestion.SkipOlderRecords | ohlcv/providers/polygon_ingestion.go:203-216 | the reading loop stops at the first record not older than the threshold or at the end; every record before it is older and counted once as skipped |
| PolygonIngestion.BackfillIter.constructor | ohlcv/providers/polygon_ingestion.go:54-58 | a fresh iterator holds the threshold, has no file open and no row |
| PolygonIngestion.BackfillIter.OpenFlatFile | ohlcv/providers/polygon_ingestion.go:158-197 | sets the metrics source first; succeeds iff the file exists, with the header consumed; no counter changes |
| PolygonIngestion.BackfillIter.ReadFromFlatFile | ohlcv/providers/polygon_ingestion.go:201-227 | the current row is the last record consumed, is not older than the threshold and is the first record the threshold keeps; the records read before it are dropped by the threshold and counted as skipped; at end of file the threshold keeps none of the records read |
| PolygonIngestion.BackfillIter.CloseFlatFile | ohlcv/providers/polygon_ingestion.go:229-240 | the file is closed; threshold and row unchanged |
| PolygonIngestion.BackfillIter.IncrementDate | ohlcv/providers/polygon_ingestion.go:242-248 | the threshold moves exactly one day on, keeping its time of day; true iff it passes `now` |
| PolygonIngestion.BackfillIter.Next | ohlcv/providers/polygon_ingestion.go:83-107 | true: the row is the next pending one and not older than the threshold; false: nothing was pending and no file is open; the rows counter and ticker are untouched (the skipped count and the source are stated per read and per open, by `ReadFromFlatFile` and `OpenFlatFile`) |
| PolygonIngestion.BackfillIter.ReadNext | ohlcv/providers/polygon_ingestion.go:94-106 | the same promise as `Next` once a file is open |
| PolygonIngestion.BackfillIter.NextDay | ohlcv/providers/polygon_ingestion.go:95-101 | at end of file: close, advance the day, and either stop past `now` or yield the first row of the following days |
| PolygonIngestion.BackfillIter.Values | ohlcv/providers/polygon_ingestion.go:109-131 | returns the row in database column order with a nil error; counts one ingested row under the row's ticker |
| PolygonIngestion.BackfillIter.Err | ohlcv/providers/polygon_ingestion.go:133-136 | always nil |

## Left out

- The MinIO/S3 client, `GetObject`, gzip and CSV byte decoding are not modelled. A day's file is a
  map entry holding its records with the header first, and a missing entry is the 403/404
  answer. Other transport or decoding errors end the process in the code (`log.Fatal`), so
  the model requires well-formed files instead.
- `log.Fatal` and `os.Exit` paths are preconditions or `Exit` outcomes, not behaviour. This
  covers the time-zone load, a failed probe, a non-EOF read error and close errors.
- The time-zone database is not modelled. Eastern time is a fixed UTC offset, so
  daylight-saving transitions inside a walk are not modelled. The scenarios use the July
  offset, UTC-4.
- `time.Now()` is the parameter `now`. `os.Getenv("RETENTION_PERIOD_DAYS")` and the
  database probe in `Backfill` are parameters.
- `strconv.ParseFloat` prices are not parsed: open, high, low and close stay the text of
  their fields.
- String lengths are counted in characters, not UTF-8 bytes. This matters for the progress
  printer's padding on non-ASCII messages.
- `Metrics.StartPrinting` is a goroutine with a ticker (concurrency and timing), and is not
  modelled.
- Database I/O is not modelled: the pgx pool, the migrations glob and query, and
  `executeMigrationFile`. `Database.RunMigrations` returns the files it would execute, in
  order.
- Database.SortStrings: `sort.Strings` sorts the slice in place; the model is a functional
  insertion sort on sequences, so only the sorted result and the permutation are captured,
  not the in-place update.
- The `os.Setenv` checks are those Go makes on Unix: a non-empty key without `=` or NUL, and a
  value without NUL. Nothing else of the process environment is modelled.
- main.go (it loads the `.env` file, exits on failure, and serves a fixed web page) and
  ohlcv/ingestion_provider.go (an interface declaration with no logic) are not part of this
  model. The loader itself is `Env.Environment.LoadEnvFile`. `RetrieveBackfilledData` is the `Handoff` outcome of
  `Ingestion.Backfill`.
- PolygonIngestion.BackfillIter.Next: Go's `Next` is one recursive method. The model splits
  it into `Next`, `ReadNext` and `NextDay`, which call each other in the same order.
- `PolygonIngestion.New`, `SetMetrics` and `Backfill` build the iterator with the MinIO client
  and the API keys. The model's iterator constructor takes the bucket contents, the time
  zone, the metrics and the threshold instead.
- Calendar.CivilFromDays: only days of the proleptic Gregorian calendar are modelled, as Go
  does. Years outside 0 to 9999 are not covered by the file-name lemmas, because Go's
  `Format("2006")` changes width there.
