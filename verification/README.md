# controlador-de-renda: timer ledger, reports and helpers in Dafny

This project models the core of *controlador-de-renda*, a freelancer income tracker. It is written in Dafny, and the verifier proves properties of the model.

On the backend (FastAPI + SQLAlchemy):

- A user owns **works**: billable engagements with an hourly rate in cents, a sprint name and `YYYY-MM-DD` start and end dates. A work can be **closed** with an optional reason.
- Each work has **time entries**: timer sessions with `started_at`, an optional `ended_at` while running, and an optional `deleted_at`.
- The database allows at most one running session per work, through a partial unique index.
- The model covers:
  - starting and stopping the timer, and the statuses the timer endpoints report;
  - closing a work, which stops its running session;
  - creating works, with the request validator, and listing them;
  - the period summary, with per-work totals priced once per work and ordered by earnings;
  - money rounding, the whole-second duration of a session, and the CORS origin list.

On the frontend (React), the model covers:

- the `HH:MM:SS` clock display;
- the live elapsed time and earnings of the work page;
- the calendar day arithmetic behind the dashboard's report windows, and its top-works list;
- the sign-up form's submit rule.

The ledger is an immutable `Db(works, entries)` of sequences in insertion order. Operations are pure functions of the state. Those that can fail return a `Result`: the next state and the response, or an HTTP error. Read-only queries such as `Reports.GetSummary` and `WorksRoutes.ListWorks` return their response directly.

- Clock readings and the ids the database would generate are parameters.
- Backend instants are integer **microseconds** since the Unix epoch, which is the resolution of Python `datetime` and of Postgres `timestamptz`. Seconds alone could not express two things exactly: the truncation toward zero in `int(delta.total_seconds())`, and the `23:59:59` upper bound of a report window.
- Browser instants are milliseconds, like `Date.now()`.

Modules, one per source file:

- `Wrappers`, `Arith`, `Text`: shared helpers.
- `TimeUtil`, `Money`: `utils/time.py` and `utils/money.py`.
- `Ledger`: the tables and the schema invariants from the migrations.
- `TimerService`, `TimerRoutes`, `WorkService`: the timer and close operations.
- `WorkSchema`, `WorksRoutes`: creating and listing works.
- `Reports`: `reports_service.py`.
- `Config`: `core/config.py`.
- `Format`, `WorkDetail`, `Calendar`, `Dashboard`, `Register`: the frontend files.
- `Sorting`: a generic stable sort, standing in for Python's `list.sort` and SQL `ORDER BY`.

## Model

| member | source | states |
|---|---|---|
| TimerService.FindWork | apps/backend/app/services/timer_service.py:14-16 | Returns the first work with this id whose owner is the caller; returns None exactly when the caller owns no such work. |
| TimerService.GetWorkOr404 | apps/backend/app/services/timer_service.py:13-17 | Fails with 404 "Work not found" exactly when the id is unknown or the work belongs to another user; otherwise returns the position of a work matching both id and owner. |
| TimerService.GetOpenEntry | apps/backend/app/services/timer_service.py:20-21 | Returns None exactly when the work has no running entry; otherwise the first running entry of that work. |
| TimerService.OpenEntryIsUnique | apps/backend/app/services/timer_service.py:20-21 | Under the one-open-entry index, any running entry of the work is the one the lookup returns. |
| TimerService.EndOpenEntry | apps/backend/app/services/timer_service.py:45-48 | Only the work's running entry gets `ended_at = now`, and it is returned. Entries of other works and entries already ended are unchanged. Ids, starts and deletion marks are kept. Afterwards the work has no running entry and the index invariant still holds. With nothing running, the entries are returned as they were. |
| TimerService.StartTimer | apps/backend/app/services/timer_service.py:24-35 | 404 exactly for an unknown or foreign work. If a session is running, that same entry comes back with `created = false` and the state is unchanged. Otherwise exactly one entry `(freshId, work, now, no end, not deleted)` is appended with `created = true`, and no work record changes. Neither `closed_at` nor `end_date` is consulted. |
| TimerService.StopTimer | apps/backend/app/services/timer_service.py:38-48 | 404 exactly for an unknown or foreign work. With nothing running the result is None and the state is unchanged. Otherwise the running entry, and only it, gets `ended_at = now` and is returned. Works never change, and afterwards the work has no running entry. |
| Ledger.Valid | apps/backend/app/db/migrations/versions/cb12ad0a31a6_init_tables2.py:25-61 | The schema's guarantees together: unique work ids and entry ids, every entry's work exists, and at most one running session per work. |
| Ledger.AtMostOneOpenPerWork | apps/backend/app/db/migrations/versions/cb12ad0a31a6_init_tables2.py:55-61 | No two rows with no `ended_at` share a `work_id`. |
| Ledger.AtMostOneOpenIffCounts | apps/backend/app/db/migrations/versions/cb12ad0a31a6_init_tables2.py:55-61 | The partial unique index on `work_id` where `ended_at IS NULL` holds exactly when no work has more than one running session. |
| Ledger.OpenCountZero | apps/backend/app/db/migrations/versions/cb12ad0a31a6_init_tables2.py:55-61 | A work has no running session exactly when its count of running sessions is 0. |
| TimerService.StartPreservesValid | apps/backend/app/services/timer_service.py:20-35 | Starting keeps the schema invariant, including at most one open entry per work, given an unused entry id. |
| TimerService.StopPreservesValid | apps/backend/app/services/timer_service.py:38-48 | Stopping keeps the schema invariant. |
| TimerService.StartTwice | apps/backend/app/services/timer_service.py:27-29 | A second start, at any clock reading, returns the entry the first start created, with `created = false`, and leaves the state unchanged. |
| TimerService.StartIgnoresClosedAt | apps/backend/app/services/timer_service.py:24-35 | Starting a work succeeds whatever its `closed_at` and `closed_reason` hold. |
| TimerService.StartThenStop | apps/backend/app/services/timer_service.py:24-48 | On a work with nothing running, start then stop appends exactly one entry, from the first clock reading to the second. |
| TimerRoutes.TimerStart | apps/backend/app/api/routes/timer.py:12-20 | "started" carrying the fresh id and `now` for a new session. "already_running" carrying the id and original `started_at` of the running session, with the state unchanged. 404 exactly for an unknown or foreign work. |
| TimerRoutes.TimerStop | apps/backend/app/api/routes/timer.py:23-32 | "not_running" with no entry id, no `ended_at` and no change when nothing runs. Otherwise "stopped" with the running session's id and `ended_at = now`. |
| TimerRoutes.DoubleStartEchoesOriginal | apps/backend/app/api/routes/timer.py:18-20 | After a start, a second start at any clock reading changes nothing and answers "already_running" with the entry id and `started_at` of the first answer. |
| TimerRoutes.DoubleStopIsNotRunning | apps/backend/app/api/routes/timer.py:29-32 | After a stop, a second stop reports "not_running" and changes nothing. |
| WorkService.CloseWork | apps/backend/app/services/work_service.py:7-20 | The close as intended, with both close columns stored (see Findings). 404 exactly for an unknown or foreign work. Otherwise that work gets `closed_at = closeNow` and `closed_reason = reason`, with its other fields kept. A running session of the work gets `ended_at = stopNow`, and then none is running. Entries of other works are unchanged. |
| WorkService.CloseWorkWithMapping | apps/backend/app/services/work_service.py:15-20 | For a `Work` class mapping a given set of attributes: the same 404, the same returned work and the same stored entries as the intended close. The stored row equals the intended one when both close fields are mapped, and stays as it was when neither is. |
| WorkService.WorkMapsNoCloseFields | apps/backend/app/db/models/work.py:6-21 | The `Work` class maps neither `closed_at` nor `closed_reason`. |
| WorkService.CloseAsWrittenIsNotStored | apps/backend/app/services/work_service.py:15-18 | As written, a close of an owned work returns the work with `closed_at = closeNow` but stores no change to any work row; reading the row back gives its old `closed_at`, where the intended close gives `closeNow`. |
| WorkService.CloseWithMigratedColumns | apps/backend/app/services/work_service.py:15-18 | With the two columns of the closing migration mapped, the close is exactly the intended one. |
| WorkService.CloseWorkPreservesValid | apps/backend/app/services/work_service.py:7-20 | Closing keeps the schema invariant. |
| WorkService.CloseTwiceOverwrites | apps/backend/app/services/work_service.py:7-20 | Closing a closed work succeeds again; the second reason and time replace the first, and nothing else about the work changes. |
| WorkService.StartAfterClose | apps/backend/app/services/work_service.py:15-16 | After a close, a start succeeds and creates a new running entry: closing blocks nothing. |
| WorkSchema.ValidateWorkCreate | apps/backend/app/schemas/work.py:4-10 | Accepts exactly the inputs with a title of 1..255 characters, a sprint name of 1..100, two dates of exactly 10 characters, a rate in 0..10,000,000 and a currency of 3..10 characters or none. Accepted fields are copied verbatim and a missing currency becomes "BRL". A rejection is a 422 naming exactly the failing fields. |
| WorksRoutes.CreateWork | apps/backend/app/api/routes/works.py:13-34 | 400 "start_date cannot be after end_date" exactly when the start date is greater as a string; nothing is stored in that case. Otherwise one work owned by the caller is appended, with the payload's fields verbatim and no `closed_at`, and its id is returned. |
| WorksRoutes.CreateWorkAcceptsEqualDates | apps/backend/app/api/routes/works.py:19-20 | A work that starts and ends on the same day is accepted. |
| WorksRoutes.CreateWorkPreservesValid | apps/backend/app/api/routes/works.py:22-34 | Creating keeps the schema invariant, given an unused work id. |
| WorksRoutes.StartsNoEarlierIsTotalPreorder | apps/backend/app/api/routes/works.py:45 | Descending `start_date` order is total and transitive, so the listing order is well defined. |
| WorksRoutes.UserWorks | apps/backend/app/api/routes/works.py:44 | Contains exactly the stored works owned by the caller. |
| WorksRoutes.ListWorksQuery | apps/backend/app/api/routes/works.py:42-47 | A permutation of the caller's works, containing exactly those works, ordered by `start_date` descending as strings. |
| WorksRoutes.ToListItem | apps/backend/app/api/routes/works.py:51-57 | Copies id, title, sprint name, rate and currency; the owner, the dates and the close state are dropped. |
| WorksRoutes.ListWorks | apps/backend/app/api/routes/works.py:49-60 | One item per queried work, in order, copying id, title, sprint name, rate and currency. |
| WorksRoutes.CreateThenList | apps/backend/app/api/routes/works.py:22-58 | A created work is then listed with the returned id and the payload's title, sprint name, rate and currency. |
| WorksRoutes.ListWorksOnlyOwn | apps/backend/app/api/routes/works.py:44 | Every listed item is the image of a stored work the caller owns. |
| TimeUtil.ClampNonnegativeSeconds | apps/backend/app/utils/time.py:7-8 | At least 0 and at least the input; the identity on non-negative values; 0 on negative ones. |
| TimeUtil.ClampIdempotent | apps/backend/app/utils/time.py:7-8 | Clamping twice is clamping once. |
| TimeUtil.TruncDiv | apps/backend/app/utils/time.py:12 | Division truncating toward zero, like `int()` of an exact quotient: the quotient times the divisor lies between 0 and the dividend, less than one divisor away from it. |
| TimeUtil.SecondsBetween | apps/backend/app/utils/time.py:11-13 | 0 when the end is not after the start. Otherwise the number of whole seconds the interval spans, truncated and never negative. |
| TimeUtil.SecondsBetweenSelf | apps/backend/app/utils/time.py:11-13 | An entry that ends when it starts lasts 0 seconds. |
| TimeUtil.SecondsBetweenMonotone | apps/backend/app/utils/time.py:11-13 | A later end never yields fewer seconds. |
| Money.RoundHalfEven | apps/backend/app/utils/money.py:8 | Python `round` of `n/d`: within half of the exact quotient, and even on an exact tie. |
| Money.RoundHalfUp | apps/frontend/src/pages/WorkDetail.tsx:50 | `Math.round` of `n/d`: within half of the exact quotient, a tie going up. |
| Money.RoundHalfEvenUnique | apps/backend/app/utils/money.py:8 | Any integer within half of `n/d` and even on a tie is the rounded value: the rule determines the result. |
| Money.RoundHalfEvenMonotone | apps/backend/app/utils/money.py:8 | A larger numerator never rounds lower. |
| Money.CentsFromHourlyRate | apps/backend/app/utils/money.py:1-8 | 0 cents when `seconds <= 0`. Otherwise within half a cent of `rate * seconds / 3600`, and even on an exact half-cent tie. |
| Money.CentsForWholeHours | apps/backend/app/utils/money.py:8 | A whole number of hours earns exactly the rate times the hours. |
| Money.CentsExamples | apps/backend/app/utils/money.py:8 | One hour at 3500 is 3500; half an hour is 1750; 1 second at 3333 is 1; half an hour at 1 is 0 (a tie to even); 1.5 hours at 1 is 2. |
| Money.CentsNonNegative | apps/backend/app/utils/money.py:6-8 | A non-negative rate never earns a negative amount. |
| Money.CentsMonotone | apps/backend/app/utils/money.py:6-8 | At a non-negative rate, more seconds never earn less. |
| Money.HalfUpVersusHalfEven | apps/backend/app/utils/money.py:8 | The browser's and the server's rounding agree except on an exact tie whose upper neighbour is odd, where the browser's is one more. |
| Reports.IncludedEntries | apps/backend/app/services/reports_service.py:55-65 | Contains exactly the stored entries of the caller's works that are not deleted, have ended, and started between 00:00:00 of the first day and 23:59:59 of the last, UTC, both inclusive. |
| Reports.AddSeconds | apps/backend/app/services/reports_service.py:70 | The dict gains the key if it was missing, and the value under that key grows by `sec`. Every other key's value is unchanged, and the keys stay distinct. |
| Reports.PerWorkSeconds | apps/backend/app/services/reports_service.py:67-70 | One key per work with at least one entry, and no other keys; each value is the sum of that work's clamped durations. |
| Reports.AddSecondsKeyOrder | apps/backend/app/services/reports_service.py:70 | Adding to a key already present keeps the key order; a new key is inserted last, with `sec` as its value. |
| Reports.FirstSeen | apps/backend/app/services/reports_service.py:68 | Contains exactly the works that have an entry. |
| Reports.PerWorkSecondsKeyOrder | apps/backend/app/services/reports_service.py:67-70 | The dict's keys are the works in the order of each work's first entry among the queried rows. |
| Reports.SummaryItems | apps/backend/app/services/reports_service.py:76-90 | A row exactly for each key whose work the caller owns, each once. A row carries that work's id, title, sprint and currency, its seconds from the dict, and those seconds priced at the work's rate. |
| Reports.UnsortedRowsAreExact | apps/backend/app/services/reports_service.py:67-92 | Before sorting, there is a row exactly for each caller's work with an included entry, once, priced from the sum of that work's included durations. |
| Reports.DayStart | apps/backend/app/services/reports_service.py:48 | Midnight UTC: an exact multiple of a day, and the first instant of day `day`. |
| Reports.WindowEnd | apps/backend/app/services/reports_service.py:49-50 | 23:59:59 on day `to`: inside that day, and exactly one second before the next midnight. |
| Reports.Duration | apps/backend/app/services/reports_service.py:69 | A closed entry lasts its whole seconds, truncated; 0 when it ends before it starts or is still open. |
| Reports.GetSummary | apps/backend/app/services/reports_service.py:37-114 | The summary as intended, with `deleted_at` readable (see Findings). Echoes `from` and `to`; currency is always "BRL". `by_work` lists each work with an included entry exactly once, with its total seconds and cents priced once from that total. Rows are ordered by earnings, non-increasing. The grand totals are the sums over `by_work`. |
| Reports.SummaryWithMapping | apps/backend/app/services/reports_service.py:55-65 | For a `TimeEntry` class mapping a given set of attributes: a 500 exactly when one of `work_id`, `deleted_at`, `ended_at`, `started_at` is unmapped, and otherwise the intended summary. |
| Reports.TimeEntryMapsNoDeletedAt | apps/backend/app/db/models/time_entry.py:7-18 | The `TimeEntry` class does not map `deleted_at`, which the entries query names. |
| Reports.SummaryAsWrittenFails | apps/backend/app/services/reports_service.py:60 | As written, every summary request answers 500, whatever the data and dates. |
| Reports.SummaryWithMigratedColumns | apps/backend/app/services/reports_service.py:55-65 | With every migrated `time_entries` column mapped, the request answers the intended summary. |
| Reports.EarnsAtLeastIsTotalPreorder | apps/backend/app/services/reports_service.py:95 | The ordering by earnings, highest first, is total and transitive. |
| Reports.InvertedWindowIsEmpty | apps/backend/app/services/reports_service.py:48-50 | When the first day is after the last, both totals are 0 and `by_work` is empty. |
| Reports.SummaryOrderIsStable | apps/backend/app/services/reports_service.py:95 | Rows with equal earnings keep the relative order they had before sorting: the sort is stable. |
| Reports.PricedOncePerWork | apps/backend/app/services/reports_service.py:80 | Pricing the total once differs from pricing per entry: two half hours at 1 cent an hour earn 1 cent together but 0 apart; 1.5 hours at 3500 earn 5250. |
| Sorting.SortBy | apps/backend/app/services/reports_service.py:95 | A permutation of its input of the same length. |
| Sorting.SortIsSorted | apps/backend/app/services/reports_service.py:95 | Under a total preorder, the result is ordered. |
| Sorting.SortIsStable | apps/backend/app/services/reports_service.py:95 | Under a total preorder, elements that rank equally keep their relative order. |
| Sorting.SortKeepsSum | apps/backend/app/services/reports_service.py:91-95 | Sorting does not change the sum of any measure over the rows, so totals accumulated before the sort match the sorted rows. |
| Config.StripNonEmpty | apps/backend/app/core/config.py:14 | Never more entries than pieces; when no piece holds a comma, every entry is non-empty, stripped and comma-free. Its contents are pinned down by `StripNonEmptyOne` and `StripNonEmptyAppend`. |
| Config.StripNonEmptyOne | apps/backend/app/core/config.py:14 | A single piece gives nothing when it is all whitespace, and otherwise exactly its stripped text. |
| Config.CorsList | apps/backend/app/core/config.py:13-14 | Every entry is non-empty, carries no surrounding whitespace and holds no comma; there are at most as many entries as comma-separated pieces. |
| Config.CorsListOfPieces | apps/backend/app/core/config.py:14 | A setting made by joining comma-free pieces with commas gives exactly the stripped, non-blank pieces, in order. |
| Config.CorsListStripsEntries | apps/backend/app/core/config.py:14 | `" http://a , http://b ,"` allows exactly `["http://a", "http://b"]`: entries are stripped, and the trailing blank piece is dropped. |
| Config.StripNonEmptyAppend | apps/backend/app/core/config.py:14 | Entries keep the order of the pieces they come from. |
| Config.CorsListRoundTrip | apps/backend/app/core/config.py:14 | A non-empty list of usable origins, joined with commas, reads back as exactly that list. |
| Config.DefaultCorsList | apps/backend/app/core/config.py:11-14 | The default setting allows exactly `["http://localhost:5173"]`. |
| Config.BlankListAllowsNothing | apps/backend/app/core/config.py:14 | A setting made only of commas and whitespace allows no origin. |
| Text.Trim | apps/backend/app/core/config.py:14 | The longest infix without leading or trailing whitespace, everything cut off being whitespace. Python and JavaScript differ in which characters count as whitespace. |
| Text.TrimEmptyIff | apps/backend/app/core/config.py:14 | Stripping leaves nothing exactly when the string is all whitespace. |
| Text.TrimIdempotent | apps/frontend/src/pages/Register.tsx:17 | Trimming twice is trimming once. |
| Text.Split | apps/backend/app/core/config.py:14 | At least one piece; no piece holds the separator; joining the pieces with it gives the input back. |
| Text.SplitJoin | apps/backend/app/core/config.py:14 | Splitting undoes joining when no piece holds the separator. |
| Text.ZeroPad | apps/frontend/src/lib/format.ts:11 | Decimal digits denoting `n`, at least `width` long, and exactly `width` long when `n < 10^width`. When `n` has `width` digits or more, it is `String(n)` unpadded. |
| Text.StrLtTrichotomy | apps/backend/app/api/routes/works.py:19 | String comparison is total: exactly one of less, equal or greater. |
| Text.StrLtTransitive | apps/backend/app/api/routes/works.py:45 | String comparison is transitive. |
| Text.DigitsOrder | apps/backend/app/api/routes/works.py:19 | Equal-length digit strings compare as the numbers they denote. |
| Format.ParseHMS | apps/frontend/src/lib/format.ts:12 | Reads `hh:mm:ss` back into a count of seconds, accepting only digit fields with minutes and seconds below 60. |
| Format.FormatHMS | apps/frontend/src/lib/format.ts:6-13 | At least 8 characters, with colons before the last two 2-digit fields; exactly 8 characters below 100 hours. |
| Format.FormatHMSRoundTrip | apps/frontend/src/lib/format.ts:6-13 | Reading the display back yields the input clamped at 0. So the fields are digits, minutes and seconds are below 60, and `hh*3600 + mm*60 + ss` is the clamped input. |
| Format.FormatHMSInjective | apps/frontend/src/lib/format.ts:6-13 | Different non-negative counts never show the same display. |
| Format.FormatHMSOfNegative | apps/frontend/src/lib/format.ts:7 | Any negative count shows "00:00:00". |
| WorkDetail.ElapsedSeconds | apps/frontend/src/pages/WorkDetail.tsx:42-46 | 0 when not running, when there is no start, or when the start lies in the future. Otherwise the whole seconds since the start, floored. |
| WorkDetail.EarnedCents | apps/frontend/src/pages/WorkDetail.tsx:48-51 | 0 when not running. Otherwise within half a cent of `rate * elapsed / 3600`, an exact tie going up. |
| WorkDetail.OnStart | apps/frontend/src/pages/WorkDetail.tsx:53-57 | On success: running, from the `started_at` the server returned. When `apiFetch` throws, the view is unchanged. |
| WorkDetail.OnStop | apps/frontend/src/pages/WorkDetail.tsx:59-63 | On success: not running, with no start, which is the page's opening state. When `apiFetch` throws, the view is unchanged. |
| WorkDetail.FailedRequestKeepsDisplay | apps/frontend/src/api/client.ts:40-43 | A start or stop answered with a non-2xx status leaves the elapsed time and earnings shown unchanged. A running timer keeps running. |
| WorkDetail.StoppedShowsZero | apps/frontend/src/pages/WorkDetail.tsx:42-63 | After Stop the page shows 0 seconds elapsed and 0 cents earned, whatever the clock reads. |
| WorkDetail.ElapsedMatchesServer | apps/frontend/src/pages/WorkDetail.tsx:44-45 | After a start, the page counts the same seconds as the server's `seconds_between` for the same interval. |
| WorkDetail.EarnedVersusServer | apps/frontend/src/pages/WorkDetail.tsx:50 | While running, the page shows the server's price for the elapsed seconds or one cent more; one more exactly on a half-cent tie whose upper neighbour is odd. |
| WorkDetail.HalfCentTieDiffers | apps/frontend/src/pages/WorkDetail.tsx:50 | Half an hour at 1 cent an hour: the page shows 1 cent and the server pays 0. |
| Calendar.Next | apps/frontend/src/pages/Dashboard.tsx:7 | The next valid day, chronologically later. |
| Calendar.Prev | apps/frontend/src/pages/Dashboard.tsx:7 | The previous valid day, chronologically earlier. |
| Calendar.PrevNext | apps/frontend/src/pages/Dashboard.tsx:7 | Stepping back after stepping forward returns to the day. |
| Calendar.NextPrev | apps/frontend/src/pages/Dashboard.tsx:7 | Stepping forward after stepping back returns to the day. |
| Calendar.NextIsImmediate | apps/frontend/src/pages/Dashboard.tsx:7 | No valid day lies strictly between a day and the next. |
| Calendar.AddDays | apps/frontend/src/pages/Dashboard.tsx:6-7 | Always a valid day, so overflow and underflow normalise across months and years; later for positive offsets, earlier for negative ones. |
| Calendar.AddDaysAdd | apps/frontend/src/pages/Dashboard.tsx:7 | Moving `a` days and then `b` days is moving `a + b` days. |
| Calendar.IsoDate | apps/frontend/src/pages/Dashboard.tsx:8-11 | Dashes before two 2-digit fields; exactly 10 characters for four-digit years. |
| Calendar.IsoAddDays | apps/frontend/src/pages/Dashboard.tsx:5-12 | The written day `days` days away, which reads back as exactly that day whenever its year is not negative. |
| Calendar.ParseIso | apps/frontend/src/pages/Dashboard.tsx:6 | Reads `Y-MM-DD` back into a valid day with a non-negative year, or nothing. |
| Calendar.IsoDateRoundTrip | apps/frontend/src/pages/Dashboard.tsx:8-11 | The written day reads back as itself, so month and day come out padded to 2 digits. |
| Calendar.IsoAddZero | apps/frontend/src/pages/Dashboard.tsx:5-12 | Moving 0 days writes the same day. |
| Calendar.NewYearsEveExample | apps/frontend/src/pages/Dashboard.tsx:7 | One day before 2026-01-01 is written "2025-12-31". |
| Calendar.LeapDayExample | apps/frontend/src/pages/Dashboard.tsx:7 | One day after 2024-02-28 is written "2024-02-29" (a leap year); one day after 2025-02-28 is written "2025-03-01". |
| Calendar.IsoOrderIsChronological | apps/frontend/src/pages/Dashboard.tsx:8-11 | For four-digit years, comparing written days as strings, as the server does, agrees with chronological order. |
| Dashboard.RequestedWindows | apps/frontend/src/pages/Dashboard.tsx:15-17 | The windows are today to today, today−6 to today, and today−29 to today. |
| Dashboard.WindowsSpanTheirDays | apps/frontend/src/pages/Dashboard.tsx:25-27 | Each window starts no later than today, and counting forward 6 and 29 days from its start reaches today: 1, 7 and 30 days. |
| Dashboard.WindowsAreOrderedAsStrings | apps/frontend/src/pages/Dashboard.tsx:25-27 | Compared as strings, as the server compares dates, every window's `from` is at most its `to`. |
| Dashboard.TopWorks | apps/frontend/src/pages/Dashboard.tsx:58 | A prefix of `by_work` of length `min(6, |by_work|)`. |
| Dashboard.TopWorksEarnMost | apps/frontend/src/pages/Dashboard.tsx:58 | Every shown work earned at least as much as every work left out. |
| Register.Utf16Length | apps/frontend/src/pages/Register.tsx:17 | JavaScript `.length`: between the code-point count and twice it, and equal to it when every character is in the Basic Multilingual Plane. |
| Register.CodeUnits | apps/frontend/src/pages/Register.tsx:17 | One UTF-16 unit per character, or two exactly when it lies above the Basic Multilingual Plane. |
| Register.Utf16LengthOne | apps/frontend/src/pages/Register.tsx:17 | A one-character string has the length of that character's units. |
| Register.Utf16LengthAppend | apps/frontend/src/pages/Register.tsx:17 | The length of a concatenation is the sum of the lengths. |
| Register.CanSubmit | apps/frontend/src/pages/Register.tsx:16-18 | Submittable only with a name and an email that are not all whitespace and a password of at least 3 characters; always submittable when the trimmed name has 2 characters or more, the trimmed email 4 or more and the password 6 or more. |
| Register.SubmitDisabled | apps/frontend/src/pages/Register.tsx:95 | Disabled whenever the form cannot be submitted or a request is in flight, and only then. |
| Register.Submission | apps/frontend/src/pages/Register.tsx:27-30 | The registration sends exactly the trimmed name and email, and the password unmodified; the login sends the same email and password. |
| Register.EnabledSubmissionMeetsMinimums | apps/frontend/src/pages/Register.tsx:16-18 | What an enabled button sends has a name of at least 2 units, an email of more than 3 and a password of at least 6. |
| Register.SubmittedFieldsAreTrimmed | apps/frontend/src/pages/Register.tsx:27-30 | Trimming the sent name or email again changes nothing. |
| Register.BlankNameCannotSubmit | apps/frontend/src/pages/Register.tsx:16-18 | A name made only of whitespace keeps the button disabled. |
| Register.LengthExamples | apps/frontend/src/pages/Register.tsx:17 | Lengths count UTF-16 units and the password is untrimmed: one emoji is a long enough name, and six spaces are a long enough password. |

## Findings

| source | as written | input that shows it | evidently intended | confidence | as-written member | corrected member |
|---|---|---|---|---|---|---|
| apps/backend/app/services/reports_service.py:60 | The entries query filters on `TimeEntry.deleted_at`, but the `TimeEntry` class (`app/db/models/time_entry.py`) does not map that column; only a migration adds it to the table. Building the query raises `AttributeError`, which nothing catches. | Any `GET /reports/summary`, for example `date_from=date_to=2026-01-01` on an empty database: 500. | The summary over entries whose `deleted_at` is null, reading the column the migration adds. | not executed; medium (assumes a plain declarative base) | Reports.SummaryAsWrittenFails | Reports.GetSummary |
| apps/backend/app/services/work_service.py:15-16 | `close_work` assigns `closed_at` and `closed_reason`, which the `Work` class (`app/db/models/work.py`) does not map; only a migration adds the columns. The assignments set plain attributes of the object in memory, so the commit stores the stopped session but neither close field. | Close an owned work whose `closed_at` is null: the response carries the close time, and the stored row still has a null `closed_at`. | The close time and reason stored in the work's row. | not executed; medium (assumes a plain declarative base) | WorkService.CloseAsWrittenIsNotStored | WorkService.CloseWork |

## Left out

- Floating point:
  - `money.py` computes `rate * (seconds / 3600)` in binary doubles, and `WorkDetail.tsx` does the same with `Math.round`. The model rounds the exact rational `rate * seconds / 3600`, so a double that lands just off a true `.5` tie is not modelled.
  - `formatHMS`'s `Math.floor` on a fractional input is left out; the model takes whole seconds.
  - `time.py` truncates `delta.total_seconds()`, a double. The model divides the exact microsecond count, which agrees only while durations stay below about 2^53 microseconds (roughly 285 years).
- Money.CentsFromHourlyRate: rates and seconds are unbounded integers. Python integers are unbounded too, but the doubles involved lose precision beyond 2^53, and that is not modelled.
- Clocks and ids: `datetime.now(timezone.utc)`, `Date.now()` and `todayISO()` are parameters, as are the UUIDs and ids the database generates. `close_work` reads the clock twice, so it takes two parameters.
- Date parsing: the report takes the day numbers that `date.fromisoformat` gives for `date_from` and `date_to`, alongside the strings it echoes, so a malformed date is not modelled: `date.fromisoformat` raises `ValueError`, which no handler catches, so the request ends in a 500. `isoAddDays` takes the `Date` that `new Date(iso + "T00:00:00")` denotes, so malformed input strings are not modelled.
- Calendar.ParseIso: reads non-negative years only. Round trips are proved for those years; negative years are only written.
- Dashboard.WindowsAreOrderedAsStrings: proved for years 1029 to 9999 only, where the windows' `from` dates also have four-digit years. Outside that range `String(year)` has a different width and string order is not calendar order.
- Timezones: the browser's local day is modelled as a plain calendar day, so the daylight-saving effects of `setDate` are not modelled.
- Database:
  - Rows are sequences in insertion order. Postgres returns the report's entries without an `ORDER BY`, so insertion order stands in for whatever order it picks, and it fixes the dict order of `per_work_seconds`.
  - `list_works` orders only by `start_date`; equal dates are modelled as keeping insertion order.
  - Text comparison is code-point order, like Python `<` and the C collation; another collation is not modelled.
  - Concurrency, transactions, `commit`/`refresh` and the race the unique index guards against are left out. The index appears as the invariant `Ledger.Valid`, which the transitions are proved to keep.
- `work_map.get(work_id)` in the report always finds the work, because the entries query joins on the caller's works. The model still models the `continue` branch as written.
- `app/db/base.py` is not part of this model; it is taken to be a plain SQLAlchemy declarative base, so a class maps exactly the attributes it declares.
- Authentication and the user tables are not part of this model: password hashing, JWT, bearer extraction, and the register and login routes. `user_id` is a parameter.
- Pydantic's coercion of request bodies and the body of `POST /works/{id}/close` are left out. The close reason is taken as given, without its length limit.
- `formatMoneyBRL` (locale formatting), `safe_int`, the frontend API clients, routing, the other pages and all rendering are left out; they have no logic beyond display and I/O.
- Register: `onSubmit` does not itself check `canSubmit`; the model states what the button allows. The error display and the token storage after login are I/O and are left out.
- Settings loading from the environment and `.env` is left out; `CorsList` takes the `CORS_ORIGINS` string.
