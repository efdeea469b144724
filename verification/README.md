# Ammonia inventory forecast: a verified model of the data core

The ammonia inventory dashboard reads a seven-column CSV of daily plant
readings. The columns are date, actual power, actual ammonia, the refill flag,
predicted ammonia, prediction error and prediction error percentage.
The data flows through four stages:

1. The parser validates the rows and stops at the first bad line. A
   serialiser writes the rows back out.
2. The validators add cross-field checks: prediction-error consistency,
   date order, file size and sudden jumps.
3. The dashboard page works from a base date. It clamps the base date into
   the data's range, shows a ±30-day chart window around it, and derives
   the refill warning, the statistics cards (current stock, R², mean
   absolute error, next refill), the initial base date, the month buttons
   and the refill-level stepper.
4. On the Python side, preprocessing fills or drops missing readings,
   flags refill events together with the days excluded from training after
   each one, and checks a data frame's columns. The prediction endpoint
   turns a JSON body into the forecasting script's command-line flags.

This project models that core in Dafny and proves its contracts. The model
is built from immutable datatypes and pure functions; methods appear only
where the source is a loop.

- Timestamps are integer seconds since the epoch.
- A calendar day is the day number of the instant in UTC+9, the fixed
  offset the page assumes.
- Measurements are reals.
- `parseFloat` is a parameter `num: string -> Option<real>`, where `None`
  stands for NaN.
- "Today" is a parameter, and so is JavaScript's number-to-string
  conversion.

Modules, one per concern:

- `Outcomes`: `Option` and `Result`.
- `Text`: JavaScript's `trim`, `split` and `join`, string shapes and
  `parseInt`.
- `Sequences`: sorting by key, `find`, `filter` and duplicate removal.
- `JstDates`: `parseJstDate`, `new Date`, `ymd` and calendar-day
  comparison.
- `CsvParser`: `lib/utils/csvParser.ts`.
- `Validators`: `lib/utils/validators.ts`.
- `Statistics`: `calculateR2` and the mean absolute error.
- `Dashboard`: the pure logic of `app/page.tsx`.
- `Preprocess`: `backend/ai_pipeline/src/preprocess.py`.
- `PredictArgs`: `app/api/ml/predict/route.ts`.

## Model

| member | source | states |
|---|---|---|
| Text.TrimEmptyIffAllSpace | lib/utils/csvParser.ts:61-62 | a line trims to the empty string exactly when every character is white space, so only such lines are skipped as blank |
| Text.SplitJoin | lib/utils/csvParser.ts:182-190 | splitting a join of pieces that avoid the separator gives back the pieces, which is what makes the comma- and newline-joined export re-readable |
| Text.JoinSplit | lib/utils/csvParser.ts:30 | joining the pieces of a split restores the text, so splitting on newlines loses nothing but the separators |
| Text.ParseInt | app/page.tsx:322 | `parseInt(s, 10)` fails exactly when no decimal digit follows the leading white space and an optional sign |
| Text.ParseIntOfDigits | app/page.tsx:322 | a string starting with a digit parses to the value of its leading run of digits, ignoring the rest |
| Text.ParseIntOfFlags | app/page.tsx:322 | the flag texts "1" and "0" parse to 1 and 0, and "1.0" also counts as a refill |
| Sequences.SortBy | backend/ai_pipeline/src/preprocess.py:88-89 | sorting by a key yields a permutation of the input in non-decreasing key order |
| Sequences.Find | app/page.tsx:306-308 | `find` returns the first element satisfying the predicate, and nothing exactly when none does |
| Sequences.Filter | app/page.tsx:302 | `filter` keeps exactly the elements satisfying the predicate, each one from the input |
| Sequences.FilterConcat | app/page.tsx:222-225 | filtering distributes over concatenation, so kept elements stay in their original relative order |
| Sequences.Dedup | app/page.tsx:567-588 | removing repetitions from an ascending list leaves a strictly increasing list with the same members |
| Sequences.FilterHead | app/page.tsx:322-324 | the first element of a filtered list is the first element satisfying the filter, and the list is non-empty exactly when one does |
| JstDates.Midnight | app/page.tsx:69-75 | the UTC+9 midnight of a day lies on that day and at or before every instant of it |
| JstDates.CeilDays | app/page.tsx:251-253 | `Math.ceil(ms / day)` is the least whole number of days covering the difference |
| JstDates.EmptyIsInvalid | app/page.tsx:77-89 | the empty string is an Invalid Date |
| JstDates.SpaceAndTeeAgree | app/page.tsx:77-89 | `YYYY-MM-DD HH:MM:SS` and `YYYY-MM-DDTHH:MM:SS` resolve to the same UTC+9 instant |
| JstDates.BareDateShape | app/page.tsx:85-87 | a bare `YYYY-MM-DD` is read on its own branch, at the UTC+9 offset |
| JstDates.BareDateIsMidnight | app/page.tsx:85-87 | a bare date resolves to midnight UTC+9 of the day its digits name |
| JstDates.TimestampDayIsItsDate | app/page.tsx:79-84 | a date-time resolves to an instant on the calendar day its digits name, at or after that day's midnight |
| JstDates.HostDateVersusJst | app/page.tsx:77-89 | `new Date` accepts the same non-empty strings as `parseJstDate`; it agrees on date-times and puts a bare date nine hours later |
| CsvParser.RowOf | lib/utils/csvParser.ts:73-81 | building a row from seven values and reading its fields back gives the values in column order |
| CsvParser.ValidateRow | lib/utils/csvParser.ts:119-175 | checks run in a fixed order (date shape, the five numbers, the flag in {"0","1"}, actual then predicted in [0,1200]); the first failing one decides the error, and none failing means the row is valid |
| CsvParser.ReadLine | lib/utils/csvParser.ts:60-90 | a line is skipped exactly when it trims to empty; a non-blank line with other than seven comma fields is rejected with exactly that count; a seven-field line is accepted exactly when its row validates, and the accepted row is the fields of the trimmed line in column order |
| CsvParser.AcceptedIsSound | lib/utils/csvParser.ts:73-92 | every accepted line yields a row that passes `validateRow` and has trimmed, comma-free fields |
| CsvParser.VerdictsExact | lib/utils/csvParser.ts:60-93 | the verdict for line k is that line's own reading |
| CsvParser.ParseRows | lib/utils/csvParser.ts:60-99 | the loop returns at most one row per line, or the first rejected line's error with its index |
| CsvParser.ParseRowsFailFast | lib/utils/csvParser.ts:84-99 | the loop succeeds exactly when no line is rejected; a failure names the first rejected line |
| CsvParser.ParseRowsKeepsOrder | lib/utils/csvParser.ts:60-63 | on success the rows are those of the non-blank lines, in input order |
| CsvParser.Counted | lib/utils/csvParser.ts:95-99 | a success reports `rowCount` equal to the number of rows; a failure carries no data |
| CsvParser.ParseLines | lib/utils/csvParser.ts:28-106 | fewer than two lines fails for want of data; a header other than the seven columns in order fails with an error listing them; a line error names a data line; on success `rowCount` equals the data length |
| CsvParser.LinesHaveNoNewline | lib/utils/csvParser.ts:30 | no line of the split input contains a newline |
| CsvParser.ParseLinesSound | lib/utils/csvParser.ts:84-99 | every row of a successful parse passed `validateRow` |
| CsvParser.ParseCsvSound | lib/utils/csvParser.ts:28-106 | every row `parseCSV` returns passed `validateRow` and is well formed |
| CsvParser.ParseLinesFailFast | lib/utils/csvParser.ts:58-99 | past a valid header, the parse succeeds exactly when no data line is rejected, returning the non-blank lines' rows in order, and otherwise stops at the first rejected line |
| CsvParser.CommaFieldsOfJoin | lib/utils/csvParser.ts:64 | splitting a comma join of trimmed, comma-free fields and trimming them gives back the fields |
| CsvParser.HeaderRoundTrip | lib/utils/csvParser.ts:183-184 | the written header reads back as exactly the seven expected columns |
| CsvParser.RowLineRoundTrip | lib/utils/csvParser.ts:185-188 | a valid, well-formed row's written line is read back as exactly that row |
| CsvParser.LinesOfDataToCsv | lib/utils/csvParser.ts:189 | the export splits into the header line followed by one line per row |
| CsvParser.ParseLinesOfExport | lib/utils/csvParser.ts:182-190 | the header plus the rows' lines parse to exactly the rows and their count |
| CsvParser.DataToCsvRoundTrip | lib/utils/csvParser.ts:182-190 | parsing what `dataToCSV` writes for a non-empty list of valid rows returns exactly those rows |
| CsvParser.ReparseIsIdentity | lib/utils/csvParser.ts:28-106 | writing out any non-empty row list `parseCSV` returned and parsing it again returns exactly that list |
| CsvParser.EmptyExportIsRefused | lib/utils/csvParser.ts:182-190 | with no rows the export is the bare header, which `parseCSV` refuses for want of data |
| Validators.ValidatePredictionError | lib/utils/validators.ts:18-35 | invalid exactly when all three numbers parse and the error differs from predicted − actual by more than 0.01 |
| Validators.ValidatePredictionErrorPct | lib/utils/validators.ts:41-63 | an actual of 0 is valid with a skip warning; otherwise invalid exactly when the percentage differs from error / actual × 100 by more than 0.1 |
| Validators.ExactRowPasses | lib/utils/validators.ts:18-63 | a row whose error and percentage are computed exactly passes both checks with no warnings |
| Validators.RowProblem | lib/utils/validators.ts:71-97 | the error check runs before the percentage check on a row, and the row has a problem exactly when one of them fails |
| Validators.SkipNotesExact | lib/utils/validators.ts:94-96 | a skip warning is recorded for 1-based row k + 1 exactly when row k has an actual of 0 |
| Validators.SkipNotesBelow | lib/utils/validators.ts:94-96 | skip warnings name only rows that were examined |
| Validators.Notes | lib/utils/validators.ts:99-102 | warnings are attached only when there is at least one |
| Validators.ValidateDataset | lib/utils/validators.ts:68-103 | invalid exactly when some row has a problem; the error is the first problem row's, tagged with its 1-based number; otherwise valid with the skip warnings |
| Validators.ValidateFileSize | lib/utils/validators.ts:110-121 | valid exactly when bytes ≤ limit × 1024 × 1024 for any limit, fractional ones included, otherwise an error naming the limit |
| Validators.DefaultFileSizeLimit | lib/utils/validators.ts:110-113 | the default limit of 5 MB admits 5242880 bytes and refuses one byte more; a 0.5 MB limit admits 524288 bytes and refuses one more |
| Validators.FileSizeMonotone | lib/utils/validators.ts:110-121 | a file that passes still passes when it is smaller or the limit is larger |
| Validators.InstantsExact | lib/utils/validators.ts:128-129 | each row's date is read with `new Date` |
| Validators.ValidateDateOrder | lib/utils/validators.ts:126-140 | invalid exactly when some row's date is before its predecessor's; the error names the first such pair |
| Validators.DateOrderIsSorted | lib/utils/validators.ts:126-140 | with every date valid, passing the adjacent-pair check means the whole sequence is non-decreasing |
| Validators.Change | lib/utils/validators.ts:151-155 | the jump between consecutive actual values is defined exactly when both parse, and is never negative |
| Validators.AnomaliesSound | lib/utils/validators.ts:150-163 | every sudden-change warning names a row that is not a refill and whose jump exceeds the threshold |
| Validators.AnomaliesComplete | lib/utils/validators.ts:150-163 | every such row gets a warning carrying its jump |
| Validators.AnomaliesExact | lib/utils/validators.ts:150-163 | a row is reported exactly when it is anomalous |
| Validators.DefaultThresholdExample | lib/utils/validators.ts:147-158 | at the default threshold of 300 m³ a change of exactly 300 is not an anomaly and one of 300.5 is |
| Validators.DetectAnomalies | lib/utils/validators.ts:147-169 | always valid, carrying the sudden-change warnings in row order when there are any |
| Statistics.R2 | app/page.tsx:348-354 | the score is at most 1, and 0 for empty series or series of different lengths |
| Statistics.SpreadZero | app/page.tsx:351-353 | the total sum of squares about m vanishes exactly when every value equals m |
| Statistics.ResidualsZero | app/page.tsx:352 | the residual sum of squares vanishes exactly when prediction and actual coincide |
| Statistics.NoSpreadIffConstant | app/page.tsx:351-353 | the fallback for zero total sum of squares applies exactly when the actual series is constant |
| Statistics.R2OneIffExact | app/page.tsx:348-354 | for an actual series with spread, the score is 1 exactly when the prediction is perfect |
| Statistics.R2OfConstant | app/page.tsx:353 | a constant actual series scores 0 whatever the prediction |
| Statistics.MeanAbs | app/page.tsx:298-299 | the average error is never negative |
| Statistics.MeanAbsBounded | app/page.tsx:298-299 | the average error never exceeds a bound on every single error |
| Dashboard.ResolveAgrees | app/page.tsx:120-130 | a non-empty date that the loader's `Date.parse` filter keeps is exactly one `parseJstDate` accepts; `new Date` agrees on date-times and is nine hours later on bare dates |
| Dashboard.ClampBase | app/page.tsx:193-215 | a base before the first row's day is raised to the first row; one after the last row's day is lowered to the last row and flags the range warning; afterwards the base's day lies between the two |
| Dashboard.ClampKeepsInRange | app/page.tsx:199-215 | a base already within the data's days is left alone with no flag |
| Dashboard.Window | app/page.tsx:217-225 | the window keeps exactly the rows whose full timestamp is within 30 days of the base |
| Dashboard.WindowConcat | app/page.tsx:222-225 | the window keeps rows in their original order |
| Dashboard.CheckRefillWarning | app/page.tsx:240-272 | no warning exactly when no row at or after the base predicts below the level; otherwise the first such row, with the whole days to it rounded up |
| Dashboard.WarningExample | app/page.tsx:240-272 | daily predictions of 650, 620, 590 and 560 against a level of 600 warn of the third day, two days out |
| Dashboard.CurrentStock | app/page.tsx:277-286 | the stock is the actual value of the first window row on the base's day, and absent when there is none |
| Dashboard.Actuals | app/page.tsx:288-291 | each row's actual value, with a missing number counting as 0 |
| Dashboard.Predictions | app/page.tsx:292-295 | each row's prediction, with a missing number counting as 0 |
| Dashboard.Errors | app/page.tsx:298 | each row's prediction error, with a missing number counting as 0 |
| Dashboard.NextRefillOf | app/page.tsx:301-338 | "no forecast data" exactly when no row is strictly after the base; a recommended refill is at least one day out |
| Dashboard.NextRefillIsFirstLow | app/page.tsx:305-320 | the recommendation is the first row after the base predicted at or below the level, dated with `new Date` |
| Dashboard.NextRefillFallsBackToFlag | app/page.tsx:321-332 | with no such row, it is the first later row flagged as a refill |
| Dashboard.NextRefillNoneInHorizon | app/page.tsx:305-337 | "none in horizon" exactly when there are later rows but none is low or flagged |
| Dashboard.UpdateStats | app/page.tsx:274-346 | the cards are computed exactly for a non-empty window; the accuracy is at most 1 and the average error non-negative |
| Dashboard.AverageErrorBounded | app/page.tsx:298-299 | the average error card never exceeds a bound on every row's error |
| Dashboard.Settle | app/page.tsx:199-237 | the base is written back exactly when it was clamped; the cards update exactly when the window is non-empty; the refill check, when it runs, decides the final warning |
| Dashboard.SettledAsWritten | app/page.tsx:189-238 | the base is written back exactly when the first run clamped it; a clamp re-runs the effect on the clamped day, as the `baseDate` dependency does |
| Dashboard.SettledGuardFixed | app/page.tsx:229-232 | the same two runs with only the guard corrected: the base is written back exactly when the first run clamped it |
| Dashboard.Settled | app/page.tsx:229-232 | the effect as its comment intends, with the past-the-end clamp carried into the re-run: the base is written back exactly when the first run clamped it |
| Dashboard.OnChartChange | app/page.tsx:189-238 | the effect does nothing without rows or without a base date; on rows in day order, any base day it writes back lies within the rows' days |
| Dashboard.RerunIsInRange | app/page.tsx:199-215 | the run a clamp causes starts at the midnight of a day within the rows' days, so it clamps nothing |
| Dashboard.RowInMidnightWindow | app/page.tsx:217-225 | the window around a row's own midnight holds that row, so it is never empty |
| Dashboard.SettledBaseInRange | app/page.tsx:199-214 | on rows in day order, the base day written back lies between the first and the last row's days |
| Dashboard.RangeWarningIsOverwritten | app/page.tsx:229-238 | as written, a base past the data's end ends with the refill check over the window around the last day's midnight, not with the range warning |
| Dashboard.GuardFixAloneIsNotEnough | app/page.tsx:229-238 | correcting only the guard ends the same way, because the re-run the clamp causes is in range |
| Dashboard.RangeWarningLostExample | app/page.tsx:229-232 | one noon row and a base ten days later: as written the alert is all-clear, corrected it is the range warning |
| Dashboard.RangeWarningIsKept | app/page.tsx:205-215 | corrected, a base past the end keeps the range warning naming the last day, sets the base to that day, and redraws the cards around its midnight |
| Dashboard.RaisedBaseIsRecentred | app/page.tsx:199-203 | a base before the first row's day is raised to it; the effect then redraws and runs the refill check around that day's midnight, and the correction changes nothing here |
| Dashboard.InRangeVersionsAgree | app/page.tsx:229-232 | a base within the rows' days runs once, writes nothing back, and every version runs the refill check over the window around it |
| Dashboard.InitialBaseDay | app/page.tsx:152-168 | an initial base day is chosen exactly when there is at least one row; when every row day is after today it is the sorted day at index floor(n / 2) |
| Dashboard.PickBase | app/page.tsx:157-167 | a base day is picked from the sorted days exactly when there is one; when every day is after today it is the one at index floor(n / 2) |
| Dashboard.PickBaseIsLatestPast | app/page.tsx:157-167 | from ascending days the pick is one of them, and it is the latest day not after today whenever one exists |
| Dashboard.InitialBaseIsLatestPast | app/page.tsx:152-168 | the initial base is one of the rows' days: today if present, otherwise the latest earlier day when there is one |
| Dashboard.MonthButtons | app/page.tsx:567-588 | one button per month that has data, strictly ascending and without repeats |
| Dashboard.StepRefill | app/page.tsx:596-601 | a step is applied exactly when the new level stays within [0, 1000]; otherwise the level is unchanged |
| Dashboard.StepsStayInRange | app/page.tsx:596-601 | from a level in [0, 1000], any sequence of steps keeps it in [0, 1000] |
| Preprocess.FillForward | backend/ai_pipeline/src/preprocess.py:55-58 | forward fill agrees with the reference fill, keeps its length and keeps every present value |
| Preprocess.LastPresentNone | backend/ai_pipeline/src/preprocess.py:55-58 | nothing is carried forward exactly when no earlier value is present |
| Preprocess.FilledNoneIffLeading | backend/ai_pipeline/src/preprocess.py:55-58 | a value stays missing after the fill exactly when it and every earlier value are missing |
| Preprocess.LastPresentFrom | backend/ai_pipeline/src/preprocess.py:55-58 | a filled-in value is one that occurs earlier in the column |
| Preprocess.FilledIdempotent | backend/ai_pipeline/src/preprocess.py:55-58 | filling twice is the same as filling once |
| Preprocess.HandleMissing | backend/ai_pipeline/src/preprocess.py:33-63 | "ffill" fills both columns forward; "drop" keeps exactly the complete rows; any other method returns the rows unchanged; "interpolate" returns the given interpolation |
| Preprocess.DropKeepsComplete | backend/ai_pipeline/src/preprocess.py:59-61 | dropping keeps only complete rows and keeps every complete row; with no gaps nothing changes |
| Preprocess.RefillFlags | backend/ai_pipeline/src/preprocess.py:92-95 | the first row is never a refill; a later row is one exactly when its ammonia rose by at least the threshold |
| Preprocess.MarkExcluded | backend/ai_pipeline/src/preprocess.py:97-104 | a row is excluded exactly when some refill row k has k ≤ j ≤ k + the exclusion count |
| Preprocess.DetectRefillEvents | backend/ai_pipeline/src/preprocess.py:65-106 | the result is the rows sorted by date, with the refill and exclusion flags above computed on that order |
| Preprocess.ExclusionWindow | backend/ai_pipeline/src/preprocess.py:97-104 | a lone refill row is itself excluded, and the row just past its window is not |
| Preprocess.DefaultThresholdExample | backend/ai_pipeline/src/preprocess.py:65-95 | at the default threshold a rise of exactly 50 m³ is a refill, 49.5 m³ is not, and a row next to a missing reading never is |
| Preprocess.DefaultExclusion | backend/ai_pipeline/src/preprocess.py:65-104 | at the default of three rows, a lone refill excludes itself and the three rows after it, and not the fourth |
| Preprocess.ValidateData | backend/ai_pipeline/src/preprocess.py:144-179 | fails exactly when a required column is missing, naming one; otherwise it reports whether any power or ammonia value is negative and whether the sorted dates have a gap, without failing |
| Preprocess.DefaultNeverRaises | backend/ai_pipeline/src/preprocess.py:144-179 | with the default required columns the later checks never look up a missing column |
| Preprocess.GapIsTwoDays | backend/ai_pipeline/src/preprocess.py:174-176 | on sorted dates, a gap is a step of two whole days or more |
| Preprocess.DailyHasNoGap | backend/ai_pipeline/src/preprocess.py:174-176 | steps of less than two days never count as a gap |
| PredictArgs.Chosen | app/api/ml/predict/route.ts:16-27 | an option is used exactly when its body field is a number, and the used options keep the fixed order |
| PredictArgs.ArgsFrom | app/api/ml/predict/route.ts:14-29 | the list holds two entries per used option: its flag, then its value as a string |
| PredictArgs.BuildArgs | app/api/ml/predict/route.ts:14-29 | fails only on a `null` body; a non-object body gives no arguments; otherwise the flags and values of the numeric fields, in the fixed order |
| PredictArgs.NoFieldsNoArgs | app/api/ml/predict/route.ts:14-29 | a body that is not an object contributes no arguments |
| PredictArgs.RequestArgs | app/api/ml/predict/route.ts:33-34 | an unparsable body becomes `{}` and yields no arguments |
| PredictArgs.NoArgsForEmptyObject | app/api/ml/predict/route.ts:33-34 | the empty object yields no arguments |
| PredictArgs.OnlyNumbersExample | app/api/ml/predict/route.ts:16-27 | fields given as a string or `null` add nothing, and the flags come out in the fixed order whatever the order of the keys |

## Left out

- File and network I/O is not modelled: `fetch`, the CSV file read, the spawned Python script, `alert`, `console` and `print`. Neither are React state or Chart.js rendering. The page's logic is modelled as pure functions of the rows, the base date, the refill level and today.
- The lenient inline CSV loader (app/page.tsx:108-130) is not modelled. Only its `Date.parse` filter is covered, through `Dashboard.ResolveAgrees`; its header mapping and its sort are left out.
- `jstTodayString` reads the wall clock, so today's day is a parameter.
- `handleDateChange` (app/page.tsx:590-594), behind the −7, −1, +1 and +7 day buttons (app/page.tsx:760-780), is not modelled. Neither is the date input that sets the base date directly; the model takes any base date string as the effect's input.
- The refill-level number input (app/page.tsx:803-810) is not modelled. It sets the level to `parseInt` of whatever is typed, so the level can leave [0, 1000] or become NaN. A NaN level makes every `< refillLevel` test false: the refill check is then always all-clear and the next-refill card never picks a low prediction. The model's level is an integer that only the stepper changes, so `Dashboard.StepsStayInRange` covers the buttons and not typed values.
- JstDates.ParseJstDate and JstDates.HostDate: `ValidStamp` rejects a day past the month's length, so "2024-02-30 12:00:00" is an Invalid Date here, although the row validator's shape check lets it through. V8 accepts days 1 to 31 in any month and rolls them over into the next month (1 March here). Likewise the date-time format allows hour 24 with zero minutes and seconds: "2024-01-10 24:00:00" passes the row validator's regular expression, and V8 reads `parseJstDate`'s "2024-01-10T24:00:00+09:00" as midnight of 11 January. `ValidStamp` accepts hours 0 to 23 only, so that row resolves to an Invalid Date here and the chart drops it. Neither engine behaviour is modelled.
- Dashboard.SettledAsWritten: the model runs the chart effect at most twice, which is what happens on rows in day order (the loader sorts them, app/page.tsx:130). The re-run's base is taken to be the midnight UTC+9 of the clamped day, which is what `parseJstDate` gives a bare date (`JstDates.BareDateIsMidnight`). Re-runs caused by `chartData`, `refillLevel` or `currentRange` changing are separate calls.
- Statistics.NoSpreadIffConstant: holds only under exact arithmetic. In doubles the mean of a constant series can differ from its values in the last bits. Sixty-one readings of 600.1 m³ average to 600.0999999999993, so `ssTot` is about 2.8e-23 rather than 0, and the page skips the `ssTot === 0` fallback (app/page.tsx:353).
- Statistics.R2OfConstant: holds only under exact arithmetic. For such a series the page shows `1 − ssRes / ssTot`, a huge negative number, where the model gives 0. Actual values of 0.2, 0.2 and 0.2 against predictions of 0.3 give about −1.3e31.
- Floating point is modelled with reals: no rounding, no `Infinity`, and NaN as `None`. `toFixed`, locale date formatting and all message texts are left out. Alerts and errors are datatype constructors.
- `parseFloat` is a parameter rather than a model of JavaScript's lenient number syntax. `String(number)` in the prediction endpoint is a parameter too.
- `ymd` strings are compared as day numbers. String order and day order agree only for four-digit years.
- Host-local `Date` getters are taken to be UTC+9. `setDate(±30)` is taken to be exactly 30 × 86400 seconds, because that zone has no daylight saving.
- `new Date` of a date string of any other shape, which browsers parse leniently, is modelled as an Invalid Date.
- The month buttons are modelled as month indices (`year × 12 + month − 1`) rather than their `YYYY-MM` keys and `YY/MM` labels.
- The 'interpolate' branch of `handle_missing_values` is a parameter, the interpolated rows; pandas' linear interpolation is not modelled.
- `load_data`, `remove_outliers`, `fill_missing_actuals` and `preprocess_pipeline` are not modelled. They do pandas I/O, quantile and standard-deviation statistics, and read the wall clock.
- Preprocess.DetectRefillEvents: pandas' default sort is not stable, so its order of equal dates is unspecified. The model sorts stably, and the contract states only a date-ordered permutation.
- `exclude_days_after` counts rows, not calendar days, exactly as the source indexes rows. The default column names are fixed and are not parameters.
- Preprocess.ValidateData: dates are integer seconds, so NaT and non-datetime date columns are not modelled. Its printed messages become flags of the result.
- The prediction endpoint's POST handler beyond lines 33-34 is not modelled: the script call, the `try`/`catch` and the response. Reading a field of a `null` body, a `TypeError`, is modelled as `None`.
- Sequences.FindInFilter: kept as a general fact about filter-then-find. The dashboard states its first-match properties directly as one scan, which the source's filter-then-find is equivalent to.

## Findings

| source | as written | input that shows it | evidently intended | confidence | as-written member | corrected member |
|---|---|---|---|---|---|---|
| app/page.tsx:229-232 | The guard `!isAfterDateOnly(baseDateObj, effectiveDataEnd)` tests the base after it has been clamped to the last row, so it is always true. The last row is always in the window, so the refill check always runs and overwrites the range-exceeded warning set at lines 205-214. The clamp's `setBaseDate` also re-runs the effect (the `baseDate` dependency, line 238) on the last day's midnight, which is in range. So correcting the guard alone still loses the warning (`Dashboard.GuardFixAloneIsNotEnough`). | One row dated "2024-01-10 12:00:00" predicting 700 m³, a base ten days later and a refill level of 600: the final state is the all-clear notice, not the range warning. | The comment says not to overwrite the warning when out of range. So the refill check should be skipped in the run that clamps past the end and in the re-run that clamp causes. | not executed | Dashboard.SettledAsWritten | Dashboard.Settled |
