# Pulse usage tracking, modelled in Dafny

Pulse is a desktop activity monitor. Its usage-tracking core is modelled here:

- **The window tracker** (`AppUsageService`). On every tick it asks for the foreground window. When the owning executable changes, it appends one usage record for the previous window to today's log. The record holds the previous window's application name, title, executable path and the milliseconds since the last change.
- **The JSON log store** (`JsonStorage`). One file per UTC day, named `usage-YYYY-MM-DD.json`, holds an array of records. Appending reads today's array, adds the record with a timestamp and writes it back. A range load reads every file whose name carries a date inside the interval, in directory order.
- **The IPC summaries** (`AppUsageIpc`). `aggregate` totals the durations per application, in order of first appearance, and ranks them by descending total. The handlers load today's file or a week/month range. `usage:getEntries` can also narrow the records to one application.
- **The Focus view** (`Focus`). It covers:
  - the productivity tags kept in local storage, loaded, saved and auto-filled with "neutral";
  - cleaning the summary rows;
  - the "Xh MMm" duration text;
  - stripping the " - App" suffix from window titles;
  - per-title detail aggregation;
  - the productive / unproductive / neutral totals.
- **The App Usage view** (`AppUsageView`). It covers:
  - cleaning and ranking the summary rows;
  - the column sort state and its comparator;
  - the CSV export, with `toFixed(2)` number fields and quoting of names that contain commas.

Shared pieces:

- `Sorting` holds the JavaScript `Array.prototype.sort` model. It has a functional insertion sort and an in-place one over an array, both proved sorted and a permutation, and sums over sequences.
- `Grouping` holds first-appearance key lists and per-key totals. Both `aggregate` and `aggregateDetails` use them.
- `IsoDate` holds the calendar date text of `toISOString()` and the reading of ISO date-only text by `new Date(...)`: `YYYY`, `YYYY-MM` and `YYYY-MM-DD`, with a four-digit or signed six-digit year.
- `Text` holds the JavaScript string operations used: `trim`, `endsWith`, `replace` of a first occurrence, `padStart` and decimal digits.

Durations and instants are integers in milliseconds. Values whose JavaScript type is unknown (`unknown`, `any`) are modelled as `Option`s: a field that is absent or of the wrong type is `None`.

The clock, the foreground-window probe and the directory listing are parameters. So are the "one month ago" instant, the collation used by `localeCompare`, and what local storage holds.

## Model

| member | source | states |
|---|---|---|
| `AppUsageService.Step` | main/services/appUsageService.ts:29-52 | A tick without a window owner changes nothing. Otherwise the owner becomes the last window. A record is emitted exactly when there was a previous window and the executable path differs. The record describes the previous window with duration `now - lastChange`. Only then does `lastChange` advance, to the second clock reading `after`. |
| `AppUsageService.RunCountsChanges` | main/services/appUsageService.ts:35-48 | Starting from no window, a run of ticks logs exactly one record per change of executable path between consecutive usable probes. It ends with a last window iff some probe was usable, and that window is the last probe's path. |
| `AppUsageService.Run` | main/services/appUsageService.ts:29-52 | A run writes at most one record per tick. It ends with a last window iff it started with one or some probe was usable. A run without a usable probe changes nothing. |
| `AppUsageService.RunTelescopes` | main/services/appUsageService.ts:36-45 | The logged durations plus the time between each record's two clock readings add up exactly to how far `lastChange` advanced. |
| `AppUsageService.RunUnloggedNonNegative` | main/services/appUsageService.ts:36-45 | When the clock does not run backwards within a tick, the time between a record's two clock readings adds up to no less than 0. |
| `AppUsageService.RunDurations` | main/services/appUsageService.ts:36-45 | The logged durations are the advance of `lastChange` minus that unlogged time. So with a clock that does not run backwards they never exceed the advance: the time spent appending is in no record. |
| `AppUsageService.RecordIsPreviousWindow` | main/services/appUsageService.ts:37-42 | An emitted record carries the path and title of the previous window, never the path of the new one. |
| `AppUsageService.WindowTracker.constructor` | main/services/appUsageService.ts:20-21 | The tracker starts with no last window, `lastChange` at load time and nothing logged. |
| `AppUsageService.AccountedAfterRecord` | main/services/appUsageService.ts:35-48 | A tick that writes its record keeps the bookkeeping: one more record, one more path change, and the durations still add up. |
| `AppUsageService.AccountedAfterQuiet` | main/services/appUsageService.ts:35-48 | A tick that takes effect without a record keeps the bookkeeping. |
| `AppUsageService.WindowTracker.Tick` | main/services/appUsageService.ts:29-52 | Without a record to write, the store is untouched and the state moves as `Step` says. With one, today's file gets the stamped record appended and a new file joins the listing. If the old file parsed, the state moves as `Step` says, the record is logged and the append time joins the unlogged time. Otherwise the exception leaves the tracker as it was. |
| `AppUsageService.WindowTracker.LogChange` | main/services/appUsageService.ts:35-46 | The previous window's record is appended to today's file. If that succeeds, `lastChange` becomes the second clock reading and the new window is remembered. A refused append leaves the tracker as it was. |
| `JsonStorage.TodayFileNameParts` | main/utils/jsonStorage.ts:12-15 | Today's file name is `usage-`, then the date's ISO text, then `.json`. |
| `JsonStorage.FileDate` | main/utils/jsonStorage.ts:37-39 | A name yields a date only if it has the `usage-` prefix and the `.json` suffix. The date then has a month in 1..12 and a day in 1..31. |
| `JsonStorage.TodayFileDate` | main/utils/jsonStorage.ts:12-15 | Today's file name has the `usage-` prefix and `.json` suffix, and the range load reads today's date back from it. |
| `JsonStorage.TodayInWeek` | main/utils/jsonStorage.ts:37-40 | Today's file lies inside the interval from seven days ago to now. |
| `IsoDate.ParseDateText` | main/utils/jsonStorage.ts:38-39 | A date read from text has a year within ±999999, a month in 1..12 and a day in 1..31. |
| `IsoDate.ParseDateTextRoundTrip` | main/utils/jsonStorage.ts:38-39 | Reading the date text that `toISOString` writes, four-digit or signed six-digit year, gives back the same calendar date. |
| `IsoDate.PartialFormsRead` | main/utils/jsonStorage.ts:38-39 | The year-only `YYYY` form reads as January 1st. The year-month `YYYY-MM` form reads as the first of that month. |
| `JsonStorage.UsageLogDir.constructor` | main/utils/jsonStorage.ts:9-10 | The log directory holds exactly the listed files, each listed once. |
| `JsonStorage.UsageLogDir.LoadJson` | main/utils/jsonStorage.ts:17-20 | A missing file reads as empty. A parsed file gives its records. An unparsable file is an error. |
| `JsonStorage.UsageLogDir.AppendToTodayLog` | main/utils/jsonStorage.ts:22-27 | Today's file becomes its old records followed by the stamped entry, and a new file joins the listing. When the old contents do not parse, nothing is written. The call succeeds iff the old contents parse, and a failure carries the parse error. |
| `JsonStorage.AppendThenLoad` | main/utils/jsonStorage.ts:22-27 | Loading today's file after an append gives the old records followed by the stamped entry. |
| `JsonStorage.AppendVisibleInRange` | main/utils/jsonStorage.ts:32-45 | After an append, a successful range load whose interval holds today's midnight contains the stamped entry. |
| `JsonStorage.UsageLogDir.LoadUsageRange` | main/utils/jsonStorage.ts:32-45 | The result is the range load of the current listing, which the lemmas below characterise. |
| `JsonStorage.RangeLoadFails` | main/utils/jsonStorage.ts:36-43 | The range load fails iff some listed file in range does not parse. |
| `JsonStorage.RangeLoadMembers` | main/utils/jsonStorage.ts:36-43 | A successful range load contains a record iff some listed, in-range, parsed file contains it. |
| `JsonStorage.RangeLoadConcat` | main/utils/jsonStorage.ts:36-43 | Loading a listing split in two gives the first part's records followed by the second's. |
| `JsonStorage.SkippedNameIrrelevant` | main/utils/jsonStorage.ts:37-40 | A file that is not a usage log, or whose date is outside the interval, does not affect the result. |
| `AppUsageIpc.AggregateEntries` | main/ipc/appUsage.ts:13-22 | The loop's rows are the specified aggregate. They are sorted by descending duration, and their durations sum to the total of all records with an application name. |
| `AppUsageIpc.TallyCount` | main/ipc/appUsage.ts:16-17 | Adding a named record to the summary keeps it equal to the per-application totals of the records so far, in first-appearance order. |
| `AppUsageIpc.TallySkip` | main/ipc/appUsage.ts:16 | A record without an application name leaves the summary as it was. |
| `AppUsageIpc.AggregateProperties` | main/ipc/appUsage.ts:13-22 | The aggregate has one row per distinct non-empty application name, and each row's duration is that application's total. An application is listed iff some record names it. The rows are sorted descending and sum to the total. |
| `AppUsageIpc.AggregateRowTotals` | main/ipc/appUsage.ts:17-20 | Each row's application is non-empty, and its duration is that application's total. |
| `AppUsageIpc.AggregateCovers` | main/ipc/appUsage.ts:16-20 | An application appears in the aggregate iff some record carries it as a non-empty name. |
| `AppUsageIpc.AggregateDistinct` | main/ipc/appUsage.ts:19-20 | No application appears twice, and there is one row per distinct name. |
| `AppUsageIpc.WeekRangeDays` | main/ipc/appUsage.ts:31-36 | Take an instant strictly inside today's UTC day. The week range reads a day's file iff that day is today or one of the six days before it. A range that starts at now reads no day file. |
| `AppUsageIpc.GetTodaySummary` | main/ipc/appUsage.ts:25-28 | Today's summary is the aggregate of today's file, and a missing file gives no rows. |
| `AppUsageIpc.GetSummary` | main/ipc/appUsage.ts:31-38 | The range summary is the aggregate of the range load from the range's start to now. |
| `AppUsageIpc.GetEntries` | main/ipc/appUsage.ts:40-65 | The handler fails iff the underlying load fails. With a non-empty application it returns exactly that application's records. Otherwise it returns everything loaded. |
| `AppUsageIpc.WithApp` | main/ipc/appUsage.ts:59-61 | A record is kept iff it is one of the loaded records and names the application, and the list never grows. |
| `AppUsageIpc.WithAppCount` | main/ipc/appUsage.ts:59-61 | The filter keeps every record of the application, as often as it occurs, and no other record. |
| `AppUsageIpc.WithAppConcat` | main/ipc/appUsage.ts:59-61 | Filtering distributes over concatenated loads. |
| `AppUsageIpc.WithAppTotal` | main/ipc/appUsage.ts:59-61 | The filtered records' durations add up to that application's total in the aggregate. |
| `AppUsageIpc.SummaryMatchesEntries` | main/ipc/appUsage.ts:59-61 | For every row of a summary, the entries fetched for that application over the same records sum to the row's duration. |
| `Focus.ParseTag` | renderer/src/routes/Focus/index.tsx:42-45 | "productive" and "unproductive" are read as themselves. Any other value becomes neutral. |
| `Focus.LoadStoredTags` | renderer/src/routes/Focus/index.tsx:34-52 | With no window, no item, an empty item or unparsable text, the tags are empty. Otherwise they have exactly the stored keys, each value read by `ParseTag`. |
| `Focus.SavedTagsReload` | renderer/src/routes/Focus/index.tsx:188-191 | Loading what was saved gives back the same tag map. |
| `Focus.ParseTagText` | renderer/src/routes/Focus/index.tsx:42-43 | Each tag's stored text reads back as that tag. |
| `Focus.AppName` | renderer/src/routes/Focus/index.tsx:58 | A row's name is never blank, and a non-blank string name is kept. |
| `Focus.Clamp` | renderer/src/routes/Focus/index.tsx:59-61 | A finite non-negative duration is kept, and a negative or non-numeric one becomes 0. |
| `Focus.SanitizeRows` | renderer/src/routes/Focus/index.tsx:54-65 | A value that is not an array gives no rows. Every kept row has a non-blank name and a positive duration. |
| `Focus.SanitizeAllMembers` | renderer/src/routes/Focus/index.tsx:56-64 | A row is kept iff it is the cleaned form of an input element with positive clamped duration. |
| `Focus.SanitizeAllSum` | renderer/src/routes/Focus/index.tsx:59-64 | The kept rows' durations add up to the clamped durations of all elements, so the filter only drops zeros. |
| `Focus.SanitizeAllConcat` | renderer/src/routes/Focus/index.tsx:56-64 | Cleaning is element-wise and keeps order. |
| `Focus.SanitizeRowsIdempotent` | renderer/src/routes/Focus/index.tsx:54-65 | Cleaning rows that are already clean gives them back unchanged. |
| `Focus.JsRem` | renderer/src/routes/Focus/index.tsx:70 | JavaScript's `%` has the sign of the dividend and a magnitude below the divisor. |
| `Focus.FormatDuration` | renderer/src/routes/Focus/index.tsx:67-73 | The text ends in `m`. It has an hours part (`h `) iff the duration is negative or at least an hour. |
| `Focus.MinutesText` | renderer/src/routes/Focus/index.tsx:69-72 | The text ends in `m`. It has an hours part iff the minute count is negative or at least 60. |
| `Focus.FormatDurationRoundTrip` | renderer/src/routes/Focus/index.tsx:67-73 | For a non-negative duration, the text reads back as its whole minutes. |
| `Focus.MinutesTextRoundTrip` | renderer/src/routes/Focus/index.tsx:68-72 | "{m}m" under an hour and "{h}h {mm}m" above it both read back as the minute count. |
| `Focus.HoursRoundTrip` | renderer/src/routes/Focus/index.tsx:72 | The hours form with two-digit padded minutes reads back as `h*60+m`. |
| `Focus.MinutesOnlyRoundTrip` | renderer/src/routes/Focus/index.tsx:71 | The minutes-only form reads back as its minutes. |
| `Focus.StripSuffixes` | renderer/src/routes/Focus/index.tsx:86-88 | After the loop the title no longer ends with the suffix. Trimmed non-empty text stays trimmed and non-empty, so the `app` fallback is never taken. |
| `Focus.SanitizeTitleForApp` | renderer/src/routes/Focus/index.tsx:80-90 | The loop computes the specified cleaned title. |
| `Focus.TitleForClean` | renderer/src/routes/Focus/index.tsx:80-90 | A cleaned title is non-empty, trimmed and free of the " - App" suffix. A missing or blank title is "Unknown". |
| `Focus.TitleForIdempotent` | renderer/src/routes/Focus/index.tsx:80-90 | Cleaning a cleaned title changes nothing. |
| `Focus.AggregateDetails` | renderer/src/routes/Focus/index.tsx:92-116 | A value that is not an array gives no rows and total 0. Otherwise the loop's rows are the specified per-title details, and the total is the sum of the clamped durations. |
| `Focus.DetailSkip` | renderer/src/routes/Focus/index.tsx:101-103 | A record with zero clamped duration changes neither the map nor the total. |
| `Focus.DetailCount` | renderer/src/routes/Focus/index.tsx:105-111 | Counting a record keeps the map equal to the per-title time and occurrence totals so far, and adds its time to the total. |
| `Focus.DetailsShape` | renderer/src/routes/Focus/index.tsx:92-116 | Titles are distinct and rows are ranked by descending time. The rows' times add up to the total, and their occurrences to the number of counted records. |
| `Focus.DetailsCover` | renderer/src/routes/Focus/index.tsx:100-114 | A title is listed iff some counted record cleans to it. |
| `Focus.GroupedTitleClean` | renderer/src/routes/Focus/index.tsx:105-111 | Every grouped title is clean: non-empty, trimmed and without the suffix. |
| `Focus.SortedRowsProperties` | renderer/src/routes/Focus/index.tsx:168-171 | The sorted copy is a permutation ranked by descending duration, so `totalMs` and every tag total are the same as over the unsorted rows. |
| `Focus.ProductivityTotals` | renderer/src/routes/Focus/index.tsx:236-245 | Each bucket is the summed duration of the rows carrying that tag, with untagged applications counted as neutral. |
| `Focus.TagTimesAddUp` | renderer/src/routes/Focus/index.tsx:231-245 | The three buckets add up to `totalMs`. |
| `Focus.UntaggedIsNeutral` | renderer/src/routes/Focus/index.tsx:239 | With no tags for the rows' applications, everything is neutral. |
| `Focus.AutoFillTags` | renderer/src/routes/Focus/index.tsx:173-186 | The loop computes the specified fill. `mutated` is set iff some application lacked a tag. When it is unset, the previous map is kept. |
| `Focus.FilledStep` | renderer/src/routes/Focus/index.tsx:178-183 | One more row adds at most its application, as neutral, and leaves existing tags alone. |
| `Focus.AllTaggedFilled` | renderer/src/routes/Focus/index.tsx:184 | When every application is tagged, filling changes nothing. |
| `Focus.FilledProperties` | renderer/src/routes/Focus/index.tsx:173-186 | Existing tags are preserved, and new keys are exactly the rows' untagged applications, set to neutral. Afterwards every application is tagged, and filling again changes nothing. |
| `Focus.SetTag` | renderer/src/routes/Focus/index.tsx:193-198 | The chosen application gets the chosen tag, and every other tag is unchanged. |
| `Focus.ChosenTagSurvivesFill` | renderer/src/routes/Focus/index.tsx:193-198 | A tag the user chose is never overwritten by the auto-fill. |
| `AppUsageView.SanitizeUsage` | renderer/src/routes/AppUsage/index.tsx:23-34 | A value that is not an array gives no rows. The result is a permutation of the cleaned rows, every row is shown, and the result is ranked by descending duration. |
| `AppUsageView.SanitizeUsageProperties` | renderer/src/routes/AppUsage/index.tsx:23-34 | A value that is not an array gives no rows. The result is a permutation of the cleaned rows, every row is shown, and it is ranked by descending duration. Its total is the sum of the clamped input durations. |
| `AppUsageView.SanitizeUsageMembers` | renderer/src/routes/AppUsage/index.tsx:23-34 | A row is listed iff it is the cleaned form of an input element with positive duration. |
| `AppUsageView.HundredthsNearest` | renderer/src/routes/AppUsage/index.tsx:48-49 | The digits of `toFixed(2)` are the magnitude in hundredths rounded to nearest, with halves rounded up. |
| `AppUsageView.FixedTextPlain` | renderer/src/routes/AppUsage/index.tsx:48-49 | A `toFixed(2)` field has no comma, quote or carriage return, and ends in a point and two digits. |
| `AppUsageView.FixedTextParses` | renderer/src/routes/AppUsage/index.tsx:48-49 | A `toFixed(2)` field reads back as its signed, rounded hundredths. |
| `AppUsageView.ShareField` | renderer/src/routes/AppUsage/index.tsx:49 | The share is the literal "0" exactly when the total is 0. |
| `AppUsageView.CsvLines` | renderer/src/routes/AppUsage/index.tsx:47-52 | There is one line per row, in the rows' order. |
| `AppUsageView.EscapeApp` | renderer/src/routes/AppUsage/index.tsx:50 | A name with a comma comes out between quotes and is no shorter than the name plus two. Any other name is written as it is. |
| `AppUsageView.FormatCsv` | renderer/src/routes/AppUsage/index.tsx:45-54 | The text starts with the header line. It is the header alone iff there are no rows. |
| `AppUsageView.QuotedRoundTrip` | renderer/src/routes/AppUsage/index.tsx:50 | A name with its quotes doubled, between quotes, reads back as the name. |
| `AppUsageView.FieldOfApp` | renderer/src/routes/AppUsage/index.tsx:50 | The escaped application field reads back as the application name. |
| `AppUsageView.HeaderRecord` | renderer/src/routes/AppUsage/index.tsx:46 | The header line reads as its three column names. |
| `AppUsageView.RecordOfLine` | renderer/src/routes/AppUsage/index.tsx:51 | Each line reads as the row's name, minutes field and share field. |
| `AppUsageView.CsvReadsBack` | renderer/src/routes/AppUsage/index.tsx:45-54 | The CRLF-joined CSV text reads back as the header record followed by one record per row, in order. |
| `AppUsageView.CsvFieldValues` | renderer/src/routes/AppUsage/index.tsx:48-49 | The minutes field reads as `duration/60000` in hundredths. A non-zero total's share field reads as `duration*100/total` in hundredths. |
| `AppUsageView.HandleSort` | renderer/src/routes/AppUsage/index.tsx:130-137 | The clicked column becomes the key. Clicking the current column flips the direction. A new column starts ascending for the name and descending otherwise. |
| `AppUsageView.HandleSortTwice` | renderer/src/routes/AppUsage/index.tsx:130-137 | Two clicks on a column restore the sort state iff that column was already the key. |
| `AppUsageView.Compare` | renderer/src/routes/AppUsage/index.tsx:115-126 | By name, the result is the collation's, negated when descending. By duration, two rows tie iff their durations are equal. Otherwise the first row goes first iff it has less time (ascending) or more time (descending). By share, rows tie iff the total is 0 or the durations are equal, and with a positive total they order as by duration. |
| `AppUsageView.UsageOrderPreorder` | renderer/src/routes/AppUsage/index.tsx:115-126 | For every column and direction, the comparator is a total preorder, given a consistent collation. |
| `AppUsageView.InitialOrderIsRanking` | renderer/src/routes/AppUsage/index.tsx:73 | The initial sort state (duration, descending) orders rows exactly as the ranking by descending duration. |
| `AppUsageView.SortedUsage` | renderer/src/routes/AppUsage/index.tsx:113-128 | The sorted copy is a permutation of the usage rows, ordered by the chosen comparator. Already ordered rows are left as they are, and the total is unchanged. |
| `AppUsageView.ExportText` | renderer/src/routes/AppUsage/index.tsx:139-154 | Export and copy produce text iff there is at least one row. |
| `AppUsageView.ExportReadsBack` | renderer/src/routes/AppUsage/index.tsx:139-154 | The exported text reads back as the header plus one record per sorted row, so it holds `|rows| + 1` records. |

## Left out

- **Electron and IPC plumbing.** The `ipcMain.handle` registration, the `active:get` / `active:list` passthroughs to `getActiveWindow` / `getOpenWindows`, the preload bridge and the `appUsageAPI` availability checks are not modelled. They only forward calls.
- **The foreground-window probe, the clock and the interval timer.** `active-win`, `Date.now()` and `setInterval` are parameters of each tick. The tick's `try`/`catch` is modelled only for the one failure the store can report, an unparsable old file: such an append changes nothing. I/O errors from `readFileSync`, `writeFileSync` or `readdirSync` (disk full, permissions) cannot occur in the model. Console logging is left out.
- **File-system details.** `ensureDir`, path joining, UTF-8 and the JSON text format are not modelled. A file is either a parsed array of records or unparsable. The directory listing is a sequence given as is, in whatever order the operating system returns.
- **Unparsable log files.** `loadJSON` throws on an unparsable file, and the model returns an error, following the code. Nothing in the code skips such a file.
- **Clock readings of a record.** The source reads `Date.now()` once for the duration, again inside `appendToTodayLog` for the `timestamp`, and a third time for `lastChange`. The model stamps the record with the first reading `now`; the third is the tick's `after`.
- `JsonStorage.UsageLogDir.AppendToTodayLog`, and `AppUsageService.WindowTracker.Tick` through the shared predicate `JsonStorage.AppendedTo`: a newly created day file is assumed to join the end of the listing (`listing0 + [name]`). `readdirSync` promises no order, so the source may list it anywhere; no lemma of the model relies on the placement beyond the file being listed.
- **Non-ISO file names.** In the model, any text that is not an ISO date-only form reads as an Invalid Date, and its file is skipped. The source reads ISO date-time forms such as `2024-05-01T10:00:00Z` with V8's ISO parser, and other forms such as `2024-5-1` with its legacy parser, and includes such a file when its date is in range. A day above the month's length (up to 31) is accepted, as V8 does, and counts on into the next month.
- **Calendar arithmetic.** `setMonth(getMonth() - 1)` is the parameter `monthAgo`. Local time zones and daylight saving are not modelled: the week start is exactly seven days of milliseconds earlier, and today's file name uses the UTC date, as `toISOString` does.
- **Floating point.**
  - Durations are exact integers of milliseconds. A non-numeric, NaN or infinite duration is `None`.
  - `toFixed(2)` is exact rational rounding, with halves rounded away from zero.
  - The exponent form `toFixed` uses at magnitudes of 10^21 and above is not modelled.
  - `formatHours`, `formatMinutes` and `xTickFormatter` (one-decimal display text) are not modelled.
- `AppUsageView.CsvReadsBack`: holds only for names that contain a comma, or else contain no quote and no carriage return. The source writes other names verbatim, and such a name does not read back as one RFC 4180 field.
- `AppUsageView.ExportReadsBack`: has the same restriction on names as `CsvReadsBack`.
- `AppUsageView.SortedUsage`: does not state that the sort is stable. It sorts by comparing `duration * total` instead of the floating-point share, which gives differences of the same sign.
- **`localeCompare`.** It is an abstract comparison function, required to be a consistent collation. No locale tables are modelled.
- **React and browser state.**
  - `useState`/`useMemo`/`useEffect` scheduling, loading and error messages are not modelled. So are the `loadData` / `fetchDetails` / `load` async plumbing, `response ?? []`, the refresh interval, charts and layout.
  - The DOM download and the clipboard write are left out, and so is the export file name label.
  - Local storage is an input to `Focus.LoadStoredTags`, given as the stored text and the `Object.entries` view of its parse (a JSON string gives its index keys). Saving is `JSON.stringify`, modelled by `Focus.Saved`.
- **Prototype keys.** Keys inherited from `Object.prototype`, such as `"constructor"` in `summary[e.app]`, `next[row.app]` and `tags[app]`, are treated as absent.
- **Key order.** Object key order for integer-like application names is taken as first-appearance order, as for all other strings.
- **The `app` fallback of `sanitizeTitleForApp`.** It is unreachable, because a trimmed non-empty title never strips to empty. `Focus.TitleForClean` proves the result is never empty.
