# NestDoorbellConsumer, modelled in Dafny

NestDoorbellConsumer has two programs.

- The **consumer** (`main.go`) receives Smart Device Management events from
  Nest doorbells: chime, motion, person and clip preview. For an event that
  carries a clip preview, it downloads the clip to
  `outputDir/<formatted name><extension>`, choosing the first free file name.
- The **video datasource** (`grafana_video_datasource/main.go`) answers
  `/list?from=&to=` for Grafana. It parses the two Unix timestamps, applies
  their defaults, splits `[from, to)` into the coarsest year, month, day and
  hour directory prefixes (`YYYY`, `YYYY/MM`, `YYYY/MM/DD`,
  `YYYY/MM/DD/HH`), and walks them.

The model covers, in the datasource:

- `listTargetDirectories`: the recursive stage decomposition and its four loops;
- `parseUnixTimeOrDefault`;
- the handler's defaulting and validation.

In the consumer, it covers:

- `Process` and `processResourceUpdateEvent`, with the three event handlers;
- the clip-preview download's choice of extension and file name.

The modules:

- `Wrappers`: the `Option` and `Result` types.
- `Decimal`:
  - `strconv.Itoa`, `%0Nd` padding and `strconv.ParseInt(s, 10, 64)` with its syntax and range errors;
  - proved: the parser accepts exactly the optionally signed int64 decimals, and `Itoa` round-trips.
- `Calendar`: a proleptic Gregorian days-from-civil conversion and its inverse, proved to round-trip and to preserve order.
- `Clock`: Go's `time.Time` as a broken-down wall-clock time, with `time.Date` normalisation, `AddDate`, `Add(time.Hour)`, `Add(-time.Nanosecond)` and `time.Unix`. `Add(time.Hour)`, `Add(-time.Nanosecond)` and `time.Unix` are proved to agree with arithmetic on Unix seconds; `time.Date` and `AddDate` are proved to agree with arithmetic on day numbers and month counts.
- `Datasource`:
  - `listTargetDirectories` as a specification, `TargetDirectories`, written in five mutually recursive stage functions;
  - an imperative method, `ListTargetDirectories`, with one loop method per Go loop, proved equal to the specification;
  - the two `log.Panic` calls are the error outcomes `DecemberPanic` and `MonthOrderPanic`;
  - each prefix is kept as the fields it is built from (`Prefix`), and `Path` renders it as the text the source builds with `strconv.Itoa`, `fmt.Sprintf` and `filepath.Join`.
- `ListingProperties`: what the decomposition returns.
  - The base case, the same-day hour list and the year stage.
  - The entry formats.
  - Exactly when it panics, for `from` before `to` (the only ranges the handler passes): the December panic never happens; the month-order panic happens exactly when `from` is in February to November and `to` lies in a later year. A reversed range can reach the December panic.
  - Concrete ranges.
- `ListHandler`: parsing, defaults and validation of `/list`.
- `Text`: `strings.Contains`, `strings.Join` and `strings.ReplaceAll`, with the containment and injectivity facts the consumer needs.
- `Events`: the event types and the dispatch as a pure function that either finishes, with a failure or none, or asks for one download; and the routing restated by handler priority.
- `EventProcessor`: the processor as a class holding the set of existing paths, with the file-name probe loop, the download, and `Process`.

## Where the code and its intent disagree

`listTargetDirectories` is meant to return prefixes that cover every hour of `[from, to)`; line 26 documents `toTs` as exclusive. The code does not do that.

The loops stop before `toTs`'s own year, month, day or hour, while the stage tests use the instant one nanosecond before `toTs`. So a range that ends on a boundary loses its last unit. Every recursive call ends on a boundary (1 January, the first of a month, a midnight), so the partial unit at the start of a range is lost as well.

Examples (the model follows the code):
- A whole year, 1 January to 1 January, lists nothing (`ListingProperties.WholeYearIsEmpty`).
- The rest of a day up to midnight lists nothing (`ListingProperties.UntilMidnightIsEmpty`); this is the leading partial day of every range that crosses a midnight.
- The default 24-hour window started at 14:30 lists only hours 00 to 13 of the second day (`ListingProperties.DayWindowExample`).

The month-order check at line 42 reads like a guard against an impossible case. It is reachable, as `ListingProperties.MonthOrderPanicReachable` shows.

## Model

| member | source | states |
|---|---|---|
| Decimal.ParseIntCharacterization | grafana_video_datasource/main.go:19-22 | `strconv.ParseInt(s, 10, 64)` succeeds exactly on an optionally signed decimal whose value is in the int64 range, and returns that value; a well-formed decimal outside the range is a range error |
| Decimal.ParseIntEmpty | grafana_video_datasource/main.go:19-22 | the empty string and a lone sign are syntax errors |
| Decimal.ItoaRoundTrip | grafana_video_datasource/main.go:34 | parsing the decimal text of any int64 gives the number back |
| Decimal.ItoaInjective | main.go:273 | different numbers have different decimal texts |
| Decimal.PadIntDigits | grafana_video_datasource/main.go:49 | `%0Nd` of a number below 10^N is exactly N digits that read back as the number |
| Decimal.ScanDigitsOutcome | grafana_video_datasource/main.go:19 | the digit scan succeeds exactly on an all-digit text whose value fits in 64 bits, with that value; an all-digit overflow is a range error |
| Clock.FromUnixToUnix | grafana_video_datasource/main.go:23 | `time.Unix` of a time's Unix seconds is that time |
| Clock.ToUnixFromUnix | grafana_video_datasource/main.go:23 | the time `time.Unix(n, 0)` names is n seconds after the epoch, on unbounded seconds and proleptic calendar fields (the int64 limits are under Left out) |
| Clock.ToUnixInjective | grafana_video_datasource/main.go:23 | two times with the same Unix seconds are the same time |
| Clock.BeforeIsEarlier | grafana_video_datasource/main.go:88 | `Before` on wall-clock fields holds exactly when the Unix seconds are smaller |
| Clock.PrevIsOneSecondEarlier | grafana_video_datasource/main.go:29 | `toTs.Add(-time.Nanosecond)` on whole-second inputs is the second before `toTs`, with borrows through minute, hour, day, month and year |
| Clock.AddHourIsHourLater | grafana_video_datasource/main.go:65 | `Add(time.Hour)` is 3600 seconds later, carrying into the next day |
| Clock.AddHourSameDay | grafana_video_datasource/main.go:65 | before 23:00, `Add(time.Hour)` changes only the hour |
| Clock.NormalizeMonth | grafana_video_datasource/main.go:45 | `time.Date`'s month normalisation keeps the month count and lands in 1..12 |
| Clock.NormalizeDay | grafana_video_datasource/main.go:54 | `time.Date`'s day normalisation gives a valid calendar date |
| Clock.NormalizeDayDays | grafana_video_datasource/main.go:54 | day `d` of a month normalises to the date `d - 1` days after the month's first |
| Clock.MonthStartAfter | grafana_video_datasource/main.go:45 | the next month starts a month's length of days after this one |
| Clock.StartOfNextYear | grafana_video_datasource/main.go:30 | `time.Date(y+1, January, 1, ...)` is midnight 1 January, and the second before it is 31 December 23:59:59 |
| Clock.StartOfNextMonth | grafana_video_datasource/main.go:45 | for January to November, the first of the next month is midnight and the second before it is the month's last day at 23:59:59 |
| Clock.StartOfNextDay | grafana_video_datasource/main.go:54 | `time.Date(y, m, d+1, ...)` is a midnight whose previous second is 23:59:59 of day `d` |
| Clock.AddYearToNewYear | grafana_video_datasource/main.go:35 | `AddDate(1, 0, 0)` of 1 January is 1 January of the next year |
| Clock.BeforePrev | grafana_video_datasource/main.go:29 | a time before `toTs` is the second before it or earlier |
| Clock.PrevYear | grafana_video_datasource/main.go:29 | the second before `toTs` is in `toTs`'s year, unless `toTs` is midnight 1 January |
| Clock.MidnightStartsDay | grafana_video_datasource/main.go:30 | midnight of a date is on that date and is the first second of its day number |
| Datasource.YearLoop | grafana_video_datasource/main.go:33-36 | the year loop yields one entry per year from `fromTs`'s year to `toTs`'s year, exclusive; entry k is the directory of year + k |
| Datasource.MonthLoop | grafana_video_datasource/main.go:48-51 | the month loop yields one entry per month before `toTs`'s month |
| Datasource.DayLoop | grafana_video_datasource/main.go:57-60 | the day loop yields one entry per day before `toTs`'s day |
| ListingProperties.NextMonthStart | grafana_video_datasource/main.go:50 | `AddDate(0, 1, 0)` of the first of a month is the first of the next month, at the same clock time |
| ListingProperties.NextDayOf | grafana_video_datasource/main.go:59 | `AddDate(0, 0, 1)` is the next day, or the first of the next month after a month's last day, at the same clock time |
| ListingProperties.MonthLoopEntries | grafana_video_datasource/main.go:48-51 | started on the first of a month, entry k of the month loop is month + k of `fromTs`'s year, and `fromTs` ends on the first of `toTs`'s month, or on 1 January of the next year after December |
| ListingProperties.DayLoopEntries | grafana_video_datasource/main.go:57-60 | for a `toTs` day within the month, entry k of the day loop is day + k of `fromTs`'s month, and `fromTs` ends on `toTs`'s day, or on the first of the next month after the month's last day |
| Datasource.HourLoop | grafana_video_datasource/main.go:63-66 | the hour loop yields one entry per hour before `toTs`'s hour |
| Datasource.AppendYears | grafana_video_datasource/main.go:33-36 | the loop appends the year loop's entries to `result` and leaves `fromTs` where the loop ends |
| Datasource.AppendMonths | grafana_video_datasource/main.go:48-51 | the loop appends the month loop's entries to `result` and leaves `fromTs` where the loop ends |
| Datasource.AppendDays | grafana_video_datasource/main.go:57-60 | the loop appends the day loop's entries to `result` and leaves `fromTs` where the loop ends |
| Datasource.AppendHours | grafana_video_datasource/main.go:63-66 | the loop appends the hour loop's entries to `result` and leaves `fromTs` where the loop ends |
| Datasource.YearStageStep | grafana_video_datasource/main.go:29-37 | proof helper (an unfolding of the stages): when the years differ: the recursive listing up to 1 January, then the year loop, then the later stages, a panic in the recursion stopping everything |
| Datasource.MonthStageStep | grafana_video_datasource/main.go:38-52 | proof helper (an unfolding of the stages): when the months differ and neither guard fires: the recursive listing up to the first of the next month, then the month loop, then the later stages |
| Datasource.DayStageStep | grafana_video_datasource/main.go:53-61 | proof helper (an unfolding of the stages): when the days differ: the recursive listing up to the next midnight, then the day loop, then the hour stage |
| Datasource.ListTargetDirectories | grafana_video_datasource/main.go:27-69 | the imperative function returns the decomposition `TargetDirectories` (a list of prefixes, or the panic it raises) |
| Datasource.YearPart | grafana_video_datasource/main.go:29-37 | the year stage and everything after it, appended to the result so far |
| Datasource.MonthPart | grafana_video_datasource/main.go:38-52 | the month stage, including both panics, and everything after it, appended to the result so far |
| Datasource.DayPart | grafana_video_datasource/main.go:53-61 | the day stage and everything after it, appended to the result so far |
| Datasource.HourPart | grafana_video_datasource/main.go:62-68 | the hour stage, appended to the result so far |
| ListingProperties.BaseCase | grafana_video_datasource/main.go:28-68 | when `fromTs` and the second before `toTs` share the clock hour, the result is empty |
| ListingProperties.SameMonthIsDayStage | grafana_video_datasource/main.go:29-38 | proof helper (an unfolding of the stages): with year and month shared, the year and month stages are skipped |
| ListingProperties.SameDayIsHourStage | grafana_video_datasource/main.go:29-53 | proof helper (an unfolding of the stages): with the date shared, only the hour stage runs |
| ListingProperties.HourLoopOneDay | grafana_video_datasource/main.go:63-66 | within one day, hour entry k is the directory of `fromTs`'s date and `fromTs`'s hour + k |
| ListingProperties.HourLoopLast | grafana_video_datasource/main.go:63-66 | a loop one hour short of its bound yields just the current hour's directory |
| ListingProperties.SameDayHours | grafana_video_datasource/main.go:62-67 | on one day with different hours, the result is exactly the hour entries from `fromTs`'s hour up to `toTs`'s hour, in order |
| ListingProperties.UntilMidnightIsEmpty | grafana_video_datasource/main.go:53-67 | a range ending at the next midnight lists nothing |
| ListingProperties.AlignedHourIsEmpty | grafana_video_datasource/main.go:62 | one whole aligned hour lists nothing |
| ListingProperties.YearLoopFromNewYear | grafana_video_datasource/main.go:33-36 | the year loop started on 1 January ends on 1 January of `toTs`'s year |
| ListingProperties.YearLoopEntries | grafana_video_datasource/main.go:33-36 | the year loop's entries are the unpadded years in ascending order |
| ListingProperties.YearStageShape | grafana_video_datasource/main.go:29-37 | across years: the listing up to 1 January, then years `fromTs.Year()+1` to `toTs.Year()-1`, then the later stages from 1 January of `toTs`'s year |
| ListingProperties.TwoDigits | grafana_video_datasource/main.go:49 | `%02d` of 0..99 is two digits that read back as the number |
| ListingProperties.HourEntryFormat | grafana_video_datasource/main.go:64 | an hour entry of a four-digit year is 13 characters `YYYY/MM/DD/HH` whose fields read back as the numbers |
| ListingProperties.EntryPadding | grafana_video_datasource/main.go:34 | year entries are unpadded, month and hour entries zero-padded |
| ListingProperties.MonthEntryInjective | grafana_video_datasource/main.go:49 | different year-months give different month entries |
| ListingProperties.DayStageOk | grafana_video_datasource/main.go:53-67 | the day and hour stages never panic |
| ListingProperties.MonthStageGuardsPass | grafana_video_datasource/main.go:38-52 | when the months differ and neither guard fires, the month stage does not panic |
| ListingProperties.MonthStageOutcome | grafana_video_datasource/main.go:38-44 | the month stage panics exactly when the months differ and `fromTs` is in December or after `toTs`'s month, and the December panic exactly in the first case |
| ListingProperties.BeforeNewYear | grafana_video_datasource/main.go:30 | a time is before 1 January of y+1 exactly when its year is at most y |
| ListingProperties.PanicCharacterization | grafana_video_datasource/main.go:29-44 | for `fromTs` before `toTs`: the decomposition panics exactly when `fromTs` is in February to November and `toTs` is in a later year (at or after the next 1 January), and never with the December panic |
| ListingProperties.PanicAcrossYears | grafana_video_datasource/main.go:29-44 | when the years differ, `toTs` is in a later year and the listing panics, with the month-order panic, exactly when `fromTs` is in February to November |
| ListingProperties.PanicWithinYear | grafana_video_datasource/main.go:38-44 | when the year is shared, the listing panics, with the month-order panic, exactly when `fromTs` is in February to November and `toTs` is the next 1 January |
| ListingProperties.RestOfYearOutcome | grafana_video_datasource/main.go:30-44 | the recursive listing up to the next 1 January panics exactly when `fromTs` is in February to November, and only with the month-order panic |
| ListingProperties.NewYearMonthStageOk | grafana_video_datasource/main.go:38-44 | a month stage starting on 1 January never panics |
| ListingProperties.MonthOrderPanicReachable | grafana_video_datasource/main.go:42-44 | 10 May 2023 to 1 January 2024 panics |
| ListingProperties.DecemberPanicReversed | grafana_video_datasource/main.go:39-40 | the reversed range 15 December 2023 to 1 November 2023 reaches the December panic |
| ListingProperties.DayStageToFirstIsEmpty | grafana_video_datasource/main.go:53-67 | a range ending at midnight of a first of the month lists nothing from the day stage on |
| ListingProperties.WholeYearIsEmpty | grafana_video_datasource/main.go:27-69 | a whole calendar year lists nothing |
| ListingProperties.Year2023IsEmpty | grafana_video_datasource/main.go:27-69 | the year 2023 lists nothing |
| ListingProperties.MonthEndIsEmpty | grafana_video_datasource/main.go:27-69 | 31 May 23:00 to 1 June 01:00 lists nothing |
| ListingProperties.DayWindowExample | grafana_video_datasource/main.go:27-69 | 10 May 14:30 to 11 May 14:30 lists exactly the hours 00 to 13 of 11 May |
| ListHandler.ParseUnixTimeOrDefault | grafana_video_datasource/main.go:15-24 | a time read from a non-empty parameter is the number `ParseInt` read, in seconds after the epoch |
| ListHandler.ParseUnixTimeCharacterization | grafana_video_datasource/main.go:15-24 | empty gives the default; otherwise success exactly on int64 decimals, with that many seconds after the epoch (as a calendar time, without the wrap of Go's internal seconds listed under Left out); a well-formed out-of-range decimal is a range error |
| ListHandler.ParseUnixTimeRoundTrip | grafana_video_datasource/main.go:19-23 | the decimal Unix seconds of a time parse back to that time |
| ListHandler.AddSecondsIsLater | grafana_video_datasource/main.go:78-83 | adding k seconds moves the Unix time by k |
| ListHandler.DefaultToFollowsFrom | grafana_video_datasource/main.go:83 | a missing `to` is 24 hours after the parsed `from`, not after now, and such a range is never rejected |
| ListHandler.AddSecondsUndone | grafana_video_datasource/main.go:78-83 | going back 24 hours and forward 24 hours returns to the same time |
| ListHandler.DefaultsAreLastDay | grafana_video_datasource/main.go:78-83 | with neither parameter the range is the 24 hours up to now, `now` taken at whole seconds |
| ListHandler.ValidatedBeforeDecomposition | grafana_video_datasource/main.go:78-91 | a `from` error, then a `to` error, then `from` not before `to`, each rejects the request before any decomposition |
| ListHandler.HandlerPanics | grafana_video_datasource/main.go:78-94 | a request panics only with the month-order panic, exactly when the parsed `from` is before the parsed `to`, is in February to November, and `to` is in a later year |
| ListHandler.HandleListParsed | grafana_video_datasource/main.go:78-91 | a parse error rejects the request; once both parameters parse, the response is the one for that range |
| ListHandler.RangePanics | grafana_video_datasource/main.go:88-94 | for two parsed times, the response is a panic exactly when `from` is before `to`, is in February to November, and `to` is in a later year; the panic is always the month-order panic |
| ListHandler.OneDayNeverPanics | grafana_video_datasource/main.go:38-44 | a range of 24 hours never panics |
| ListHandler.DefaultToNeverPanics | grafana_video_datasource/main.go:83 | a request without `to` never panics |
| Text.JoinContains | main.go:219 | every part of `strings.Join` occurs in the result |
| Text.ReplaceAllAbsent | main.go:273 | `strings.ReplaceAll` leaves text without the pattern unchanged |
| Text.ReplaceAllInjective | main.go:273 | when the pattern occurs, different replacements give different results |
| Text.ContainsTransitive | main.go:219 | containment is transitive |
| Events.FirstPresent | main.go:171-197 | a handler of the order whose key is present, with no present key before it in the order; none exactly when no key of the order is present |
| Events.ResourceUpdateRouting | main.go:169-251 | the first present key of chime, motion, person decides the handler. A payload that fails to decode returns its error with no download. Otherwise a clip preview that decodes is downloaded, and a missing or undecodable one gives success. With no such key, the error carries the event and trait maps |
| Events.ChosenKeyAloneDecides | main.go:169-208 | two updates with the same chosen handler, the same chosen payload and the same clip preview are processed alike, whatever their other keys, traits, name and user |
| Events.ChimeShadowsOthers | main.go:171 | with a chime key present, motion and person payloads are ignored |
| Events.ProcessDispatch | main.go:160-167 | a resource update is processed whatever the relation update; a relation update alone succeeds; neither is an error |
| Events.DownloadOnlyWithClip | main.go:169-230 | a download is asked for only when the chosen payload decodes and a clip preview key is present and decodes to that clip |
| Events.CollectKeys | main.go:211-218 | the collected slice holds every key of the map exactly once |
| Events.MessageNamesKeys | main.go:219 | the error text contains the user id and every collected key |
| Events.UnsupportedResourceUpdateText | main.go:211-219 | the error text contains the user id, every event key and every trait key |
| EventProcessor.CandidateInjective | main.go:273 | with `{eventSessionId}` in the format, different indices give different file names |
| EventProcessor.CandidateConstant | main.go:273 | without the placeholder every index gives the same file name |
| EventProcessor.CandidatesFit | main.go:272-279 | with the placeholder, n existing candidates need at least n existing paths |
| EventProcessor.ChosenNameIsLeastFree | main.go:269-279 | the chosen name is the candidate with the least index that does not exist. With the placeholder that index is at most the number of existing paths. The loop never ends exactly when the placeholder is absent and the one candidate exists |
| EventProcessor.CandidateShape | main.go:273 | every candidate lies in the output directory and ends with the extension |
| EventProcessor.DownloadCreatesOneFile | main.go:269-294 | for downloads run one at a time: a successful download adds exactly one file, under the least free name; a failing one adds at most that file; no file is lost |
| EventProcessor.CreatedFileName | main.go:264-279 | a file a download creates is the least free candidate, lies in the output directory, and ends with the content type's first extension, or with `.video.unknown` when the lookup fails or finds none |
| EventProcessor.Processor.constructor | main.go:143-149 | the processor holds its device name, output directory, file name format and the existing paths |
| EventProcessor.Processor.ChooseFileName | main.go:269-279 | the probe loop returns the chosen name of the current file set |
| EventProcessor.Processor.DownloadAndSave | main.go:258-294 | a GET error is returned as is. A probe that never ends never returns. Otherwise the save's error is returned, and the file appears when it was created. One download is recorded |
| EventProcessor.Processor.Process | main.go:160-256 | a decoded clip preview is downloaded exactly once and the download's outcome is returned unchanged. Every other event leaves the files alone and returns nil or its own error text, which for an unroutable update names every event and trait key. The device name is not consulted |

## Left out

- Time zones: every time is in one fixed zone without daylight saving; `Local()` (grafana_video_datasource/main.go:17,23) is the identity.
- Sub-second precision: times parsed from `from` and `to` are whole seconds; `time.Now()` is taken truncated to whole seconds. `Add(-time.Nanosecond)` is modelled as one second earlier.
- ListHandler.DefaultsAreLastDay: holds for a whole-second `now` only. With a fractional `now` and no `to`, the second before `toTs` is still in `now`'s second, so Go can list one more hour than the model: at `now` = 2023-05-11 01:00:00.3 with no parameters Go lists `2023/05/11/00`, the model at 01:00:00 lists nothing.
- ListHandler.ParseUnixTimeCharacterization: `time.Unix(n, 0)` keeps `n + 62135596800` seconds in an int64, which wraps for n ≥ 9223371974719179008, and `Before` (grafana_video_datasource/main.go:88) compares those stored seconds. The model keeps unbounded seconds. So `from=0&to=9223371974719179008` is rejected by Go but listed by the model, and `from=9223371974719179008&to=1` is accepted by Go but rejected by the model. At the other end, Go computes the calendar fields from an unsigned count of seconds since its absolute zero year -292277022399, so for n below about -9.2233720287e18 (for example `from=-9223372036854775808`) the year, month, day and hour that lines 29-66 read are wrapped; the model computes proleptic Gregorian fields for every n.
- `time.Now()` is an input, in the handler (`now`) and in the consumer (`formattedName`); `time.Time.Format` of the file name layout is not modelled.
- `filepath.WalkDir`, the JSON response, the HTTP server and the static file handler (grafana_video_datasource/main.go:93-117).
- `log.Panic` is an error outcome; how `net/http` recovers from it is not modelled.
- Error message texts of `strconv.ParseInt` and `http.Error` are not modelled; only which error is raised.
- JSON decoding: each raw payload is given by what `json.Unmarshal` yields for each target type.
- The HTTP GET, `mime.ExtensionsByType`, `os.Stat`, `os.MkdirAll`, `os.Create` and `io.Copy` (main.go:259-294) are inputs. The file system is the set of paths `os.Stat` does not report as missing. A `Stat` error other than not-exist counts as existing, as the loop itself treats it.
- Directories that `os.MkdirAll` creates are not added to the path set.
- EventProcessor.JoinPath: `filepath.Join` without `filepath.Clean`, so names with `..`, doubled or trailing separators are not normalised.
- Text.ReplaceAll: only a non-empty pattern is modelled, since the one caller passes the constant `{eventSessionId}`.
- EventProcessor.Processor.ChooseFileName: the loop is bounded by one more probe than the number of existing paths. Its `Spins` outcome stands for the source's endless loop; `ChosenNameIsLeastFree` shows that this happens exactly when every candidate exists.
- OAuth token handling, the device listing, the Pub/Sub subscription and the final sleep loop (main.go:299-434).
- EventProcessor.DownloadCreatesOneFile: events are processed one at a time. `sub.Receive` (main.go:416) runs its callback from several goroutines at once, so two downloads can both find the same name free before either `os.Create` (main.go:286), and the second `Create` truncates the first file. That race is not modelled, and under it a file can be lost.
- `Init` (main.go:151-158).
- `format()` strings and log output (main.go:37-109) are not modelled, except `DeviceEvent.format`, which is part of the unsupported-event error.
