# Production-vision dashboard: status, calendar and aggregation rules in Dafny

This project models the rule engine of a production-monitoring dashboard.
Every business day, each application (CVAR ALL, CVAR NYQ, XVA) gets one entry.
An entry records when the PRC mail and the CP alerts went out, their statuses, a quality status, and the problem (PRB) and incident (HIIM) identifiers raised that day.
The model covers these parts of the system:

- **Browser side** (`static/js/dashboard.js`):
  - time-based SLA colouring: a lenient free-text time reading, per-application bands, and the PRC-mail Monday exemption, which is lifted on the Monday after the monthly infrastructure weekend;
  - how a row's badge combines an explicit status with the time colour;
  - the calendar rules: week start, weekend, the third-weekend scan, the default entry date, future months and the month-end week;
  - PRB/HIIM identifier counting, week grouping with newest-first order, and the month-end red tally;
  - the time text boxes and the XVA form rule;
  - column visibility, column-order completion and drag-and-drop reordering;
  - `escapeHtml` and the chart palette.
- **Server side** (`app.py`):
  - body validation and the one-entry-per-(date, application) guards of create and update;
  - the filter and sort of the entry listing;
  - the chart statistics and the XVA red-card statistics, including month seeding and the error (HTTP 500) outcomes of both.
- **Admin script** (`change_admin_password.py`): its password rule.

Modules, one per file:

- Shared value types:
  - `Wrappers`: Option;
  - `Text`: character classes, trim, string order;
  - `Calendar`: Gregorian dates, day numbers, weekdays;
  - `IsoDate`: `strptime('%Y-%m-%d')` and `isoformat`;
  - `PyInt`: which strings Python's `int()` accepts;
  - `Payload`: JSON values, truthiness and `dict.get`;
  - `Entries`: the entry record the browser sees;
  - `Tables`: insertion-ordered dicts and `sorted(d.items())`.
- Browser side: `Weekends`, `TimeText`, `Sla`, `TimeInput`, `XvaForm`, `IdCounts`, `WeeklyView`, `Columns`, `Html`, `Palette`.
- Server side: `EntryValidation`, `EntryStore`, `EntryQuery`, `MonthSeeds`, `Stats`, `XvaStats`, and `Password` for the admin script.

Code that changes state in the source is modelled imperatively:

- Dashboard globals that are mutated in place are classes: the column order (`Columns.ColumnLayout`) and a time text box (`TimeInput.TimeField`).
- The handlers' filter, seeding and counting loops are methods with loop invariants. Each is proved against a specification function of its input.
- The database is a `seq` of row dictionaries held in `EntryStore.EntryTable`.

## Model

| member | source | states |
|---|---|---|
| Calendar.DaysInMonth | static/js/dashboard.js:4541 | a month has 28 to 31 days, and 28 exactly for February of a common year (the `new Date(y, m + 1, 0)` last day) |
| Calendar.Weekday | static/js/dashboard.js:4503 | `getDay()` is a weekday number 0..6, with Sunday 0 |
| Calendar.AddDays | static/js/dashboard.js:4517-4518 | `setDate(getDate() + n)` rolls over months and years and moves the day number by exactly n |
| Calendar.AddDaysWithinMonth | static/js/dashboard.js:4550-4551 | a step that stays inside the month changes only the day of the month |
| Calendar.WeekdayShift | static/js/dashboard.js:4586 | moving n days moves the weekday by n modulo 7 |
| Calendar.BeforeIffEarlierDayNumber | static/js/dashboard.js:4569-4570 | comparing dates as `Date` objects is the (year, month, day) order, and both ways round |
| Calendar.DayNumberInjective | static/js/dashboard.js:4569-4570 | two dates with the same time value are the same date |
| Calendar.WeekStart | static/js/dashboard.js:4514-4520 | the week start is a Monday 0..6 days on or before the date; Sunday goes 6 days back and any other day `weekday - 1` days back |
| Calendar.WeekStartOfWeekDay | static/js/dashboard.js:4514-4520 | all seven days of a Monday-based week share that Monday as week start |
| Calendar.WeekendIsEndOfWeek | static/js/dashboard.js:4501-4505 | `isWeekend` (Saturday or Sunday) holds exactly on the sixth and seventh day of the date's week |
| Calendar.DefaultEntryDate | static/js/dashboard.js:4717-4732 | on a Monday the default date is 3 days back and a Friday; on any other day it is 1 day back |
| Calendar.DefaultEntryDateWeekend | static/js/dashboard.js:4717-4732 | the default date falls on a weekend exactly when today is a Sunday |
| Calendar.FutureMonthIsLater | static/js/dashboard.js:1006-1015 | an option is disabled exactly when its (year, month) is chronologically after the current one |
| Calendar.LastDayOfMonth | static/js/dashboard.js:1417-1418 | the last day of a month is a real date in that month |
| Calendar.ReachesMonthEndContainsLastDay | static/js/dashboard.js:1429-1432 | "the week spans two months, or its end is on or after the last day" means exactly that the seven days contain the month's last day |
| Calendar.MonthEndWeekHoldsLastDay | static/js/dashboard.js:1415-1432 | `isMonthEndWeek` holds iff some entry of the week lies in the month and year of the week's start and the seven days from the start hold that month's last day |
| Calendar.WeekEndInNextMonth | static/js/dashboard.js:1413-1414 | a week starting less than seven days before month end ends in another month |
| Weekends.CollectWeekendPairs | static/js/dashboard.js:4539-4555 | the day-by-day scan returns exactly the month's list of in-month Saturday/Sunday pairs |
| Weekends.SaturdayWithSunday | static/js/dashboard.js:4545-4553 | one scan step pushes a pair exactly when the day is a Saturday and the next day is in the same month |
| Weekends.StartsPairInMonth | static/js/dashboard.js:4549-4552 | a Saturday starts a pair exactly when it is not the month's last day |
| Weekends.PairsFromMembers | static/js/dashboard.js:4544-4555 | a pair is listed iff its Saturday is an in-month Saturday whose Sunday is the next in-month day |
| Weekends.ThirdWeekendExists | static/js/dashboard.js:4561-4564 | every month has a pair at index 2; it starts 14 days after the first Saturday, on day 15..21 |
| Weekends.ThirdSaturday | static/js/dashboard.js:4562 | `weekendPairs[2]` always exists; its Saturday is day 15..21 and its Sunday the day after |
| Weekends.IsThirdWeekendOfMonth | static/js/dashboard.js:4533-4574 | the method's answer is "the third pair's Saturday or Sunday lies from the week start to 6 days later" |
| Weekends.InThirdWeekendByDays | static/js/dashboard.js:4565-4570 | the same test in days of the month: the week contains the third Saturday or the Sunday after it |
| Weekends.MondayWeekInThirdWeekend | static/js/dashboard.js:4558-4570 | a Monday-started week contains the third weekend exactly when its Saturday is the third Saturday |
| Weekends.InfraMondayEarlyInMonth | static/js/dashboard.js:4576-4590 | a Monday among the first seven days of a month is never an infra Monday |
| Weekends.InfraMondayLateInMonth | static/js/dashboard.js:4576-4590 | a later Monday is an infra Monday exactly when it is two days after the third Saturday |
| Weekends.InfraMondayIsAfterThirdWeekend | static/js/dashboard.js:4576-4590 | `isMondayAfterInfraWeekend` holds iff the date is a Monday two days after its month's third Saturday, so on day 17..23 |
| TimeText.MatchAt | static/js/dashboard.js:4599 | the regex matches at a position exactly when `\d{1,2}:\d{2}` starts there, giving hour and minute below 100 |
| TimeText.FirstMatchFrom | static/js/dashboard.js:4599 | a match found from a position reads at most two digits for hour and minute; none is found only where the shape does not start there |
| TimeText.MatchTime | static/js/dashboard.js:4599 | the time read has hour and minute of at most two digits each, and a text that starts with the shape is read from its first character |
| TimeText.NoMatchIffNoShape | static/js/dashboard.js:4599-4602 | no time is read from the text exactly when no substring has the shape `\d{1,2}:\d{2}` |
| TimeText.MatchIsLeftmost | static/js/dashboard.js:4599 | the time read is the match at the leftmost position that has the shape |
| TimeText.TwelveHourClock | static/js/dashboard.js:4607-4615 | with AM/PM, hours 1..12 become `h mod 12`, plus 12 for PM (`12 AM` is 0 and `12 PM` is 12) |
| TimeText.TwentyFourHourClock | static/js/dashboard.js:4616-4623 | with no suffix, hours 0..24 are read as `h mod 24`, so 24 becomes 0 |
| TimeText.OutOfRangeReadings | static/js/dashboard.js:4604-4625 | nothing is range-checked: `13 PM` gives hour 25, and `7:99` gives 519 minutes |
| TimeText.ClockRoundTrip | static/js/dashboard.js:4599-4625 | a written `HH:MM` is read back as that hour and minute, so `h * 60 + m` minutes |
| TimeText.SuffixRead | static/js/dashboard.js:4599-4607 | `H:MM am` and `H:MM PM`, in any letter case and after white space, are read with their suffix |
| Sla.Rank | static/js/dashboard.js:4678 | every colour has a rank from 1 to 3 |
| Sla.RankOrder | static/js/dashboard.js:4678 | the ranks order Green below Yellow below Red, and no two colours share a rank |
| Sla.Worse | static/js/dashboard.js:4679 | the worst-of choice is one of its two inputs and ranks at least as high as both |
| Sla.ColorForApplication | static/js/dashboard.js:4649-4699 | CVAR ALL's worst-of always comes down to its own 9:00/11:00 band; CVAR NYQ gets the 16:00/18:00 band; XVA and every other application are Green |
| Sla.BandMonotone | static/js/dashboard.js:4657-4663 | a band's colour never improves as the minute value grows |
| Sla.NyqNeverWorseThanAll | static/js/dashboard.js:4665-4675 | the 16:00/18:00 band never ranks above the 9:00/11:00 band |
| Sla.CvarAllIsItsOwnBand | static/js/dashboard.js:4651-4679 | CVAR ALL's worst-of always equals its own band: Green below 540, Yellow for 540..660, Red above 660 |
| Sla.NyqThresholds | static/js/dashboard.js:4680-4691 | CVAR NYQ is Green below 960, Yellow for 960..1080 inclusive, Red above 1080 |
| Sla.OtherApplicationsGreen | static/js/dashboard.js:4692-4698 | XVA and every unrecognised application are always Green |
| Sla.ColorMonotone | static/js/dashboard.js:4649-4699 | for every application, a later time never gives a better colour |
| Sla.TimeBasedColor | static/js/dashboard.js:4590-4646 | Green when no time is read and for PRC mail on an ordinary Monday; a colour other than Green only ever comes from CVAR ALL or CVAR NYQ |
| Sla.UnreadableTimeIsGreen | static/js/dashboard.js:4599-4602 | text with no `\d{1,2}:\d{2}` in it is Green on every date, application and field |
| Sla.MondayPrcMailExempt | static/js/dashboard.js:4628-4637 | PRC mail on a Monday that is not an infra Monday is Green whatever the time |
| Sla.TimeBasedColorFollowsBands | static/js/dashboard.js:4639-4646 | in every other case (other days, CP alerts, other fields, infra Mondays) the colour is the application's band at the minutes read, or Green if no time is read |
| Sla.InfraMondayPrcMail | static/js/dashboard.js:4631-4633 | on the Monday two days after the third Saturday, PRC mail is coloured exactly like CP alerts |
| Sla.WeekdayExamples | static/js/dashboard.js:4680-4691 | on a non-Monday, CVAR NYQ gives "09:30" Green, "16:30" Yellow and "18:30" Red |
| Sla.WeekdayExamplesMore | static/js/dashboard.js:4651-4691 | on a non-Monday, CVAR ALL gives "10:00" Yellow and CVAR NYQ gives "4:15 pm" Yellow |
| Sla.PreferredColorPrecedence | static/js/dashboard.js:1544-1545 | an explicit status wins; with none, the time colour's name is used |
| Sla.OriginalBadgeShowsStatus | static/js/dashboard.js:1548-1549 | the first row renderer draws a badge iff a status is set, and the badge always carries that status, never the time colour |
| Sla.OverrideBadgeShowsTimeColor | static/js/dashboard.js:5296-5301 | the replacing renderer draws a badge in the same cases but coloured by the time alone; it agrees with the first exactly when the status is empty or names the time colour |
| TimeInput.FormatKeepsLeadingDigits | static/js/dashboard.js:4866-4881 | formatting keeps exactly the first four digits typed, in order |
| TimeInput.FormatShape | static/js/dashboard.js:4866-4881 | the formatted box has at most 5 characters, at most 4 digits, at most one colon, and only digits and colons |
| TimeInput.FormatIdempotent | static/js/dashboard.js:4865-4890 | formatting an already formatted box changes nothing |
| TimeInput.FormatDigits | static/js/dashboard.js:4869-4875 | four or more digits become `HH:MM`; three become `H:MM` |
| TimeInput.FormatTime | static/js/dashboard.js:4865-4881 | the box never holds more than five characters; with fewer than two digits it holds just those digits |
| TimeInput.FormatColon | static/js/dashboard.js:4869-4879 | a colon is written exactly when at least two digits were typed |
| TimeInput.StrictColon | static/js/dashboard.js:4903-4905 | a found colon splits the whole text into a `[0-1]?[0-9]` or `2[0-3]` hour and a `[0-5][0-9]` minute |
| TimeInput.StrictColonComplete | static/js/dashboard.js:4903-4905 | every such split of the text is found |
| TimeInput.StrictTimeInRange | static/js/dashboard.js:4915-4940 | a text that passes the strict pattern has hour ≤ 23 and minute ≤ 59, so the later range checks never clear it |
| TimeInput.StrictAcceptsClock | static/js/dashboard.js:4903 | every 00:00..23:59 written `HH:MM` passes the strict pattern |
| TimeInput.StrictIsLenient | static/js/dashboard.js:4903 | the lenient colour parser reads a strict time with the same hour and minute and no suffix |
| TimeInput.LenientAcceptsMore | static/js/dashboard.js:4903 | "24:00" and "7:99" are read by the colour parser but cleared by the box |
| TimeInput.ValidatedTime | static/js/dashboard.js:4892-4913 | what the box holds after validation, trimmed, is blank or passes the strict pattern (keep-or-clear is ValidatedTimeKeepsOrClears) |
| TimeInput.ValidatedTimeKeepsOrClears | static/js/dashboard.js:4892-4913 | the box is kept or cleared; it is kept iff the trimmed text is empty or strict, and what remains is blank or strict |
| TimeInput.ValidatedTimeIdempotent | static/js/dashboard.js:4892-4941 | validating twice is the same as validating once |
| TimeInput.TimeField.Format | static/js/dashboard.js:4865-4890 | `formatTimeInput` rewrites the box to the formatted text of its old value |
| TimeInput.TimeField.Validate | static/js/dashboard.js:4892-4941 | `validateTimeInput` rewrites the box to the validated text of its old value |
| Text.BlankIsAllSpace | static/js/dashboard.js:4898 | a trimmed value is empty exactly when the text is all white space |
| XvaForm.NoErrorIffAllTimedFieldsHaveStatus | static/js/dashboard.js:4995-5020 | there is no error iff none of SENSI, CF RA and VALO has a non-blank timing with a blank status |
| XvaForm.ErrorNamesFirstOffender | static/js/dashboard.js:4995-5015 | each message is returned exactly when its field is the first offender in the order SENSI, CF RA, VALO |
| Entries.RecordId | static/js/dashboard.js:1241 | a list element's id is empty exactly when it has neither an id number nor an alias (`p.prb_id_number \|\| p.prb_id`) |
| IdCounts.AddOne | static/js/dashboard.js:1242-1246 | a non-empty id joins the total set, and the active or closed set as its status says |
| IdCounts.AddRecords | static/js/dashboard.js:1239-1248 | the array loop adds each record's id to the sets its status fits |
| IdCounts.AddEntry | static/js/dashboard.js:1231-1249 | one entry adds its legacy id and its array ids to the sets they fit |
| IdCounts.CountIds | static/js/dashboard.js:1226-1288 | the three returned sizes are those of the collected total, active and closed sets |
| IdCounts.CountedIffCarried | static/js/dashboard.js:1226-1288 | an id is counted in a bucket iff it is non-empty and some entry carries it, in the legacy field or the array, with a status that fits |
| IdCounts.BucketsWithinTotal | static/js/dashboard.js:1226-1288 | the active and closed sets are subsets of the total, so active ≤ total and closed ≤ total; the empty id is never counted |
| IdCounts.OrderIndependent | static/js/dashboard.js:1231 | the collected sets do not depend on the order of the entries |
| IdCounts.ActiveAndClosedAtOnce | static/js/dashboard.js:1233-1247 | one id, legacy `active` on one entry and `closed` in another's array, counts once in total and once in both buckets |
| WeeklyView.GroupByWeek | static/js/dashboard.js:1384-1391 | the groups' keys are the entries' week starts in first-seen order, and each group holds exactly its week's entries in input order |
| WeeklyView.GroupsPartitionEntries | static/js/dashboard.js:1384-1391 | an entry is in a group iff the group's key is its week start; every key is a Monday, and each key is listed once |
| WeeklyView.SortNewestFirst | static/js/dashboard.js:1397 | the sorted weeks are a permutation of the keys with no week followed by a newer one |
| WeeklyView.InsertKeepsNewestFirst | static/js/dashboard.js:1397 | inserting a week keeps the newest-first order |
| WeeklyView.NewestFirstByTime | static/js/dashboard.js:1397 | distinct weeks in that order have strictly decreasing day numbers |
| WeeklyView.MonthEndTally | static/js/dashboard.js:1311-1324 | the loop returns the Quality-red and Punctuality-red counts of the entries |
| WeeklyView.QualityTallyCountsRedEntries | static/js/dashboard.js:1316-1318 | the Quality tally is the number of entries whose quality status is `Red` |
| WeeklyView.PunctualityTallyCountsRedEntries | static/js/dashboard.js:1321-1323 | the Punctuality tally is the number of entries whose PRC mail or CP alerts status is `Red`, each counted once |
| Columns.Groups | static/js/dashboard.js:551-560 | the standard, original and XVA-only column groups are exactly the listed columns |
| Columns.VisibleColumnsFrame | static/js/dashboard.js:563-571 | both views list the five standard columns first and `actions` last, with no repeats; XVA has 15 columns, the others 10 |
| Columns.XvaHidesOriginalColumns | static/js/dashboard.js:563-565 | XVA shows every column except PRC mail, CP alerts, quality and remarks |
| Columns.OthersHideXvaColumns | static/js/dashboard.js:566-570 | every other application shows every column except the nine XVA-only ones |
| Columns.VisibleColumnsShared | static/js/dashboard.js:551-572 | the two views share exactly the standard columns and `actions` |
| Columns.AllColumnsListed | static/js/dashboard.js:5033 | the list of known columns names every column |
| Columns.IndexOf | static/js/dashboard.js:5038 | `indexOf` is -1 iff the column is absent; otherwise it is the first position holding it |
| Columns.MissingFrom | static/js/dashboard.js:5036 | the filter keeps exactly the known columns absent from the order |
| Columns.MissingFromConcat | static/js/dashboard.js:5036 | the filter goes name by name in the list's order: one name is kept iff the order lacks it, and a concatenation filters to the concatenated parts |
| Columns.CompleteIsComplete | static/js/dashboard.js:5032-5045 | completion holds every known column; it keeps the old columns with their repeats and adds only the missing ones (as multisets) |
| Columns.CompleteKeepsOrder | static/js/dashboard.js:5037-5043 | the missing columns, as the filter lists them, are spliced in as one block just before the first closing column, which moves back by their number, or appended when there is none; the old columns before and after keep their places |
| Columns.CompleteIdempotent | static/js/dashboard.js:5037 | an order with nothing missing is left unchanged, so completing twice is completing once |
| Columns.EnsureAll | static/js/dashboard.js:5032-5045 | on the table's columns: every column is present, the old columns are kept with their repeats and only missing ones are added |
| Columns.EnsureAllKeepsOrder | static/js/dashboard.js:5036-5043 | on the table's columns the missing ones go in one block just before `actions`, in the order of the full list, and every old column keeps its place relative to the others |
| Columns.EnsureAllIdempotent | static/js/dashboard.js:5037-5044 | completing a complete order changes nothing |
| Columns.Move | static/js/dashboard.js:5164-5175 | the two splices put the dragged column at the drop index and keep every other column in order, losing nothing |
| Columns.MoveUndo | static/js/dashboard.js:5168-5171 | dragging the column back to where it came from restores the order |
| Columns.ColumnLayout.constructor | static/js/dashboard.js:5027 | the initial column order is the default list |
| Columns.ColumnLayout.EnsureAllColumnsInOrder | static/js/dashboard.js:5032-5045 | the global order becomes its completion and then holds every known column |
| Columns.ColumnLayout.Drop | static/js/dashboard.js:5164-5175 | when both columns are in the order, it becomes the completed relocation; otherwise nothing changes |
| Html.EscapeRoundTrip | static/js/dashboard.js:2676-2690 | escaping loses nothing: reading the entities back gives the original text |
| Html.EscapedCharacters | static/js/dashboard.js:2678 | escaped text holds no `<`, quote, backtick, `=` or `/`; `>` survives exactly when the input has one |
| Html.EscapeHtml | static/js/dashboard.js:2676-2690 | `escapeHtml` removes `<` and quotes but not `>`, reads back to its input, and maps an empty value to "" |
| Html.GreaterThanNotEscaped | static/js/dashboard.js:2678 | counterexample: "a>b" comes out unchanged, whereas the lookup table maps it to "a&gt;b" |
| Html.IntendedEscapeIsSafe | static/js/dashboard.js:2679-2688 | with the whole lookup table in use, the output holds no `<`, `>` or quote, and still reads back |
| Palette.GenerateDistinctColors | static/js/dashboard.js:2333-2357 | there is one fill and one border per slice (none for a negative count), slice i taking colour `i mod 10` |
| Palette.PaletteDistinct | static/js/dashboard.js:2334-2345 | the ten fills are pairwise different, and so are the ten borders |
| Palette.ColorsRepeatEveryTen | static/js/dashboard.js:2351 | slices fewer than ten apart get different colours; slices ten apart get the same one |
| Payload.GetOrUpdate | app.py:177 | `data.get` reads back a stored value whatever the default, and storing under one key changes no other key's reading |
| PyInt.DigitsParse | app.py:228-231 | a non-empty run of digits is an int, with or without a sign |
| PyInt.ForeignCharacterRejected | app.py:228-231 | a stripped text with a character other than a digit, `_`, `+` or `-` is refused |
| PyInt.BlankRejected | app.py:228-231 | empty or all-white-space text is refused |
| PyInt.GroupedDigitsAccepted | app.py:228-231 | "1_000" is accepted |
| PyInt.SpacedDigitsAccepted | app.py:228-231 | " 7 " is accepted |
| PyInt.StrayUnderscoresRejected | app.py:228-231 | "_1", "1_" and "1__0" are refused |
| PyInt.TrailingLetterRejected | app.py:228-231 | "12a" is refused |
| PyInt.ShowRoundTrip | app.py:491 | `int(str(n)) == n` |
| PyInt.ShowInjective | app.py:491 | different numbers have different decimal texts |
| IsoDate.ParseDate | app.py:254-258 | a date read by `strptime` is a real calendar date with year 1..9999 |
| IsoDate.ParseFormat | app.py:254-258 | reading a stored ISO date gives the date back |
| IsoDate.ShortFieldsAndTrailingText | app.py:257 | "2024-1-5" is read as 5 January 2024; "2024-01-32" is refused |
| EntryValidation.FirstLacking | app.py:191-199 | the loop finds the first required field that is absent or falsy with no list standing in, or none iff there is no such field |
| EntryValidation.FirstBad | app.py:202-222 | no message iff no checked field holds a truthy value outside its allowed list |
| EntryValidation.CheckItems | app.py:225-244 | a list passes iff every element passes; otherwise the verdict is that of a failing element; it raises iff an element that is no dictionary comes before any rejected one |
| EntryValidation.Validate | app.py:175-252 | `(True, None)` is returned exactly when every check passes, stated without their order; it raises exactly on a CVAR body whose fields and statuses pass when the PRB list, or after a passing PRB list the HIIM list, meets a non-dictionary element before any rejected one |
| EntryValidation.MissingFieldReportedFirst | app.py:190-199 | when a required field is lacking, the answer is "Missing required field: " plus the first such field |
| EntryValidation.XvaRequirements | app.py:183-185 | for XVA only a truthy date is required, and validation never raises |
| EntryValidation.CvarRequirements | app.py:186-198 | other applications need date and name, plus PRC mail text and status unless a non-empty `issues`, `prbs` or `hiims` list is given |
| EntryValidation.UnconvertiblePrbIdRejected | app.py:225-231 | a first PRB whose id `int()` refuses gives "Invalid PRB id number" |
| EntryValidation.XvaIgnoresLists | app.py:202-214 | for an XVA body the PRB/HIIM lists are never checked, whatever they hold |
| EntryStore.FindDuplicate | app.py:383-386 | the guard loop finds a clash iff some stored row other than the excluded id has the same date and application |
| EntryStore.FindById | app.py:407 | the row with the id is found, or none iff no stored row has it |
| EntryStore.CreateResult | app.py:369-441 | a create succeeds iff the body validates, its date reads and no stored row has its (date, application); the stored row is the body under the new id, appended; a failed create changes nothing |
| EntryStore.UpdateResult | app.py:369-441 | 404 iff no stored row has the id; a conflict needs the body to name a date or application; an update replaces the row with that id by the body merged over it, under the same id; any other answer changes nothing |
| EntryStore.CreateKeepsUnique | app.py:383-389 | a create never files a second row under a (date, application) pair |
| EntryStore.UpdateUnknownId | app.py:407-409 | an unknown id gives 404 and changes nothing |
| EntryStore.UpdateKeepsUnique | app.py:411-433 | with unique ids, an update never files a second row under a pair |
| EntryStore.EntryTable.constructor | app.py:306 | the table starts with the given rows |
| EntryStore.EntryTable.CreateEntry | app.py:369-396 | the answer and the new rows are those of the create rule |
| EntryStore.EntryTable.UpdateEntry | app.py:400-441 | the answer and the new rows are those of the update rule |
| EntryQuery.KeepIffSelected | app.py:309-343 | a row is appended exactly when it meets every given filter |
| EntryQuery.FailCauses | app.py:312-324 | a row raises exactly when a date filter meets an unreadable date, or an application filter meets a name that is not text |
| EntryQuery.NoFiltersKeepAll | app.py:309-343 | with no filters every row is kept |
| EntryQuery.DateWindow | app.py:312-319 | on ISO-stored dates the window keeps exactly the days from start to end inclusive, and never raises |
| EntryQuery.KeptMembers | app.py:309-343 | the kept rows are exactly the stored rows that pass |
| EntryQuery.FilterRows | app.py:309-343 | the loop fails iff some row raises; otherwise it returns the kept rows in stored order |
| EntryQuery.InsertKeepsDescending | app.py:346-349 | inserting a keyed row keeps the descending (date, created_at) order |
| EntryQuery.InsertRows | app.py:346-349 | inserting a keyed row adds exactly its row to the rows |
| EntryQuery.SortDescending | app.py:346-349 | the sort fails iff some date text does not read, or, with two rows or more, a comparison of a non-text key raises; otherwise it returns a permutation, in descending (date, created_at) order when every key is a (date, text) pair |
| EntryQuery.ScanKeys | app.py:346-349 | the key pass finds whether some date text fails to read and, if none does, whether some key is not a (date, text) pair |
| EntryQuery.SortTyped | app.py:346-349 | rows whose keys are all (date, text) pairs come back rearranged in descending key order |
| EntryQuery.GetEntries | app.py:294-353 | 500 iff some row raises in the filter, some kept row's date text does not read, or, with two kept rows or more, a comparison of a non-text key raises; otherwise the kept rows, rearranged, in descending key order when every kept key is a (date, text) pair |
| EntryQuery.LoneRowListed | app.py:346-353 | a single kept row whose date reads is listed (200) whatever its `created_at` holds, since a sort of one row compares nothing |
| MonthSeeds.YearValue | app.py:535 | `datetime(int(year), m, 1)` accepts only years 1..9999 |
| MonthSeeds.MonthValue | app.py:535 | and only months 1..12 |
| MonthSeeds.MonthKeyInjective | app.py:534 | different (year text, month) pairs get different `YYYY-MM` keys |
| MonthSeeds.DateKeyMatchesSeed | app.py:577 | an entry's month key equals the seed key of its year and month |
| MonthSeeds.SeedRow | app.py:533-536 | the inner loop fails iff `datetime` refuses a pair; otherwise it gives one seed per month |
| MonthSeeds.SeedPairs | app.py:532-536 | the nested loops fail iff some pair is refused; otherwise they give exactly the pairs' seeds |
| MonthSeeds.AllSeedsMembers | app.py:532-536 | the seeds listed are exactly the seeds of the (year, month) pairs |
| MonthSeeds.TwelvePerYear | app.py:537-543 | a year given alone is seeded with all twelve months, under twelve distinct keys |
| MonthSeeds.OnePerPair | app.py:530-536 | with both lists, seeds with the same key are the same seed, so there is one bucket per pair |
| MonthSeeds.DataYears | app.py:548 | the months-only branch takes the year of every kept entry, or raises where a date does not read |
| MonthSeeds.SelectMonths | app.py:526-553 | seeding fails iff a loop year or month is refused; otherwise the seeds are exactly those of the loop pairs |
| MonthSeeds.BothGivenFailsIff | app.py:530-536 | with both lists, seeding fails iff some year or some month is refused |
| MonthSeeds.MonthsAloneWithoutEntries | app.py:544-547 | with months alone and no entries, nothing is seeded and nothing fails |
| Stats.StatsKeepIffSelected | app.py:476-509 | a row is counted exactly when it meets every given filter, years and months included |
| Stats.PrbOnlyIsLegacyOnly | app.py:504-505 | `prb_only=true` drops rows without a legacy PRB id, even if they have a `prbs` list |
| Stats.StatsKeptMembers | app.py:476-509 | exactly the stored rows that pass are counted |
| Stats.KeepAdmitted | app.py:476-509 | the loop fails at a raising row; otherwise it keeps the passing rows in order |
| Stats.FilterStats | app.py:476-509 | the filter fails iff some row raises; otherwise it returns the kept rows |
| Stats.PunctualityColor | app.py:608-627 | Red, red and late count as Red; Green, green and on-time as Green; any other truthy status as Yellow |
| Stats.EntrySlots | app.py:602-639 | an entry adds only to the distributions' keys |
| Stats.Add | app.py:605-639 | each named counter goes up by one and the others stay |
| Stats.PunctualityOfRow | app.py:609-627 | an entry adds to exactly one punctuality counter when its status is truthy, and to none otherwise |
| Stats.QualityOfRow | app.py:603-606 | likewise for the quality counters |
| Stats.PunctualityTotals | app.py:608-627 | the three punctuality totals sum to the number of entries with a truthy PRC mail status |
| Stats.QualityTotals | app.py:602-606 | the three quality totals sum to the number of entries with a truthy quality status |
| Stats.UnknownQualityRaises | app.py:603-605 | a truthy quality status that is not Red, Yellow or Green raises (a 500) |
| Stats.SeedBuckets | app.py:555-572 | seeding gives each seed's key one zeroed bucket, with distinct keys and all sums 0 |
| Stats.SeedOne | app.py:556-572 | seeding one key keeps every earlier key, keeps the keys distinct and keeps every bucket zero |
| Stats.CountOne | app.py:574-642 | one turn keeps the loop's counts for one more entry: its month's bucket (created if absent) counts exactly the entries so far under that key, and so do all others; the distributions and its application count it |
| Stats.MonthBucket | app.py:576-600 | the entry's month gets a bucket: the one under its key, or a new zeroed one under its year and month, keeping every bucket's count exact |
| Stats.MonthsNew | app.py:580-600 | a new zeroed bucket for the next entry's month keeps every bucket counting exactly the entries of its own key |
| Stats.MonthsStep | app.py:602-639 | adding the next entry's counters to its own month's bucket keeps every bucket counting exactly the entries of its own key |
| Stats.CountEntries | app.py:574-642 | the loop fails iff some entry raises; otherwise its distribution and application counts are those over all entries, and each month bucket counts exactly the entries under its key |
| Stats.CountedAll | app.py:574-642 | each distribution counter sums over the month buckets; application counts are exact; every seed and every entry's month has a bucket; each bucket counts exactly the entries of its key and comes from a seed or an entry with its year and month |
| Stats.SumSlotPermute | app.py:645-648 | rearranging the buckets keeps every counter's sum |
| Stats.Rearranged | app.py:645-648 | sorting the buckets keeps every sum, every key and every bucket |
| Stats.MonthsRearranged | app.py:645-648 | buckets taken from the counted table still count exactly the entries of their keys and still come from a seed or an entry |
| Stats.MonthlyExact | app.py:555-648 | in the sorted list each bucket counts exactly the kept entries of its month, and its (key, year, month) is that of a selected month or of a kept entry |
| Stats.StatsMonthlyFacts | app.py:645-648 | the sorted buckets are ascending, count per month exactly, cover every seed and every counted month, and hold nothing else |
| Stats.StatsReportFacts | app.py:645-663 | the counted totals and the sorted buckets make a report that meets all the totals and monthly facts |
| Stats.GetStats | app.py:457-663 | 500 iff a row raises in filter, seeding or counting; otherwise the report has the exact totals and distributions, and sorted month buckets, each counting exactly the kept entries of its own month, with one for every selected and every counted month and none for anything else |
| Tables.Find | app.py:581 | `k in d` is found at a position holding k, or none iff no key is k |
| Tables.InsertKeepsAscending | app.py:645 | inserting a new key keeps the keys ascending |
| Tables.SortByKey | app.py:645 | `sorted(d.items(), key=...)` gives the same pairs with keys strictly ascending |
| XvaStats.XvaAdmitAsWritten | app.py:747-754 | as written, naming `datetime` in a date filter meets an unbound local |
| XvaStats.DateWindowOnXva | app.py:747-754 | an XVA row inside a date window is kept by the intended filter but fails (500) as written |
| XvaStats.NoWindowAgrees | app.py:740-767 | without date filters, the filter as written and the intended filter agree |
| XvaStats.XvaKeptMembers | app.py:740-767 | only XVA rows are counted, and every XVA row that passes the filters is |
| XvaStats.FilterXva | app.py:740-767 | the filter fails iff some row raises; otherwise it returns the kept XVA rows |
| XvaStats.SelectXvaMonths | app.py:774-797 | seeding fails as in the chart statistics, and also for months alone with kept entries (`entry.date` on a dict) |
| XvaStats.MonthsOnlyNothingKept | app.py:790-792 | months alone with nothing kept seeds nothing and does not fail |
| XvaStats.RedCardReadsStatusesOnly | app.py:825-851 | the red-card verdict and the counters an entry adds to depend only on its five status fields (VALO, SENSI, CF RA, legacy and target quality); an entry with none of them is no red card |
| XvaStats.RedCardRule | app.py:825-851 | the month total goes up iff the entry is a red card (VALO, SENSI, CF RA, quality legacy or quality target is Red); each status counter goes up iff that status is Red |
| XvaStats.MissingCauseIsUnknown | app.py:854 | a missing or empty root-cause application is tallied as "Unknown" |
| XvaStats.CauseKeysCanMeet | app.py:857 | the `app\|type` key joins two texts, so texts holding `\|` can meet under one key |
| XvaStats.CountRedOne | app.py:809-864 | one turn keeps the loop's counts for one more entry: the card goes into its own month's bucket (created if absent), each bucket counts exactly the red flags of its key, and red cards go into the root-cause tally, whose records keep the application and type of the first card under their key, in first-met order |
| XvaStats.RedMonthBucket | app.py:814-823 | the entry's month gets a bucket: the one under its key or a new zeroed one, keeping every bucket's count exact |
| XvaStats.CountReds | app.py:809-864 | the loop fails iff some kept entry's date raises; otherwise each month bucket counts exactly the red flags of the entries under its key, and the causes tally every kept red card, one record per key in the order keys were first met, showing the (defaulted) root-cause application and type of the first card under it |
| XvaStats.MonthlyFacts | app.py:866-867 | each sorted bucket counts exactly the red flags of its own month; the counters sum over the red cards; no status counter exceeds its total; every seed and every entry month has a bucket, and no other bucket exists |
| XvaStats.CausesFacts | app.py:853-871 | each root-cause record counts the red cards under its key and shows the root-cause application and type of the first of them; the records follow the order keys were first met, every key met has one, and the grand total is their sum, that is, the number of red cards |
| XvaStats.FirstRed | app.py:858-863 | the position found is a red card under the key with none before it, or -1 when no red card has the key |
| XvaStats.FirstRedIffCounted | app.py:858-864 | a key has a first red card iff some red card is counted under it |
| XvaStats.FirstRedAppend | app.py:858-863 | one more entry keeps every key's first red card, and is the first for a key not met before |
| XvaStats.FirstSeenExtend | app.py:858-864 | later entries keep every record's application, type and place |
| XvaStats.FirstSeenOpen | app.py:858-863 | a card with a new key appends a record with its own application and type, after all the others |
| XvaStats.XvaReportFacts | app.py:866-879 | the sorted buckets, the causes and their sum make a report meeting the monthly and root-cause facts, including each record's application, type and first-met order |
| XvaStats.XvaReportOf | app.py:809-879 | with the seeds given, the count fails iff a kept entry's date does not read; otherwise the report meets the monthly and root-cause facts, including each record's application, type and first-met order |
| XvaStats.GetXvaStats | app.py:727-879 | 500 iff a row raises in filter, seeding or counting; otherwise each sorted month bucket counts exactly the red flags of its own month, with one for every selected and counted month and no other, and the root-cause list holds one record per key in first-met order, each with the application and type of its first red card and the exact count, and the grand total is exact (with the date window as intended) |
| Password.ValidatePassword | change_admin_password.py:13-31 | a password is accepted iff it has 6..128 characters, a letter and a digit; acceptance comes with "Password is valid" and only with it |
| Password.MessagesInOrder | change_admin_password.py:15-29 | the message names the first failed check: too short, too long, no letter, no number |
| Password.LengthBoundsInclusive | change_admin_password.py:18-19 | 128 characters are accepted despite "less than 128"; 6 are accepted; 129 are too long |

## Left out

- DOM and UI plumbing are left out: event wiring, Chart.js set-up, the multiselect, column resizing, badge HTML, cursor placement and the border-colour flash of the time box. They change nothing the model states.
- `localStorage` (the saved column order), the `fetch` calls and their error fallbacks, and the session and authentication code are left out. They are I/O.
- Host-timezone behaviour of `new Date('YYYY-MM-DD')`, `getDay()` and `toISOString()` is left out. Dates are pure Gregorian calendar dates, and `Date` comparisons are day-number comparisons.
- The clock is not modelled. `getDefaultEntryDate` and `disableFutureMonths` take "today" and the current year and month as parameters.
- Floats, locale formatting and month names are not modelled. In particular the month name `strftime('%B %Y')` is kept as the (year, month) it spells.
- Flask request parsing is not modelled (bodies and query strings arrive decoded), and neither are the background cleanup thread, bcrypt, the SQLite/SharePoint adapter, the dummy-data scripts and the configuration constants.
- An id's type is not modelled. Browser ids are one uniform string type, so the JavaScript distinction between `'100'` and `100` is not modelled; the empty string stands for every falsy id.
- Case folding and digit classes are ASCII only: `str.lower()`, `isalpha()`, `isdigit()` and `int()` on non-ASCII letters and digits are not modelled.
- EntryQuery.SortDescending: when a key holds a non-text date or `created_at`, whether Python's comparisons raise depends on which rows the sort compares. The model takes that outcome as the parameter `mixedRaises`, and when nothing raises it promises the kept rows but no order.
- EntryQuery.GetEntries: passes `mixedRaises` on to the sort, so a listing with non-text keys is promised its rows but not their order.
- Sort stability is not modelled. `Stats.GetStats`, `XvaStats.GetXvaStats`, `EntryQuery.SortDescending` and `WeeklyView.SortNewestFirst` promise a permutation in the required order, not the stable order Python and JavaScript produce for equal keys.
- Stats.GetStats: the four monthly dictionaries are one table of buckets whose counters cover all four distributions. This is equivalent because all four get the same keys at the same points.
- MonthSeeds.SelectMonths: the seeds come as a sequence that holds exactly the members of the source's `selected_months` set, not in set iteration order. `years_in_data` likewise keeps one element per entry, not a set; repeated seeds only re-zero a bucket that is still empty.
- XvaStats.PyText: `str()` of a list or object root cause is a fixed stand-in text, not Python's rendering.
- Stats.GetStats: an application name that cannot be a dictionary key (a list or object) is modelled as raising, as Python's `TypeError` does, without its message.
- Columns.ColumnLayout.Drop: the DOM test that the drop target is a different header from the dragged one is not modelled; dropping a column onto itself relocates it to its own place and completes the order.
- Sla.TimeBasedColor takes an already-parsed calendar date; an unparsable date string (an invalid `Date`, whose `getDay()` is `NaN`) is not modelled.
- EntryStore.EntryTable.CreateEntry: the database's failure to insert (the 500 for a falsy result) is not modelled; the new id is a parameter.
- The months-only branch of `get_xva_stats` (app.py:792) reads `entry.date` on a dictionary. It is modelled only as the error outcome it produces whenever an entry was kept.

## Findings

| source | as written | input that shows it | evidently intended | confidence | as-written member | corrected member |
|---|---|---|---|---|---|---|
| static/js/dashboard.js:2678 | the replacement character class lists the ampersand, `<`, both quotes, the backtick, `=` and `/` but leaves out `>`, so the table's `'>': '&gt;'` entry is never used and `>` reaches the page unescaped | `escapeHtml("a>b")` is `"a>b"` | every character of the lookup table, `>` included, is replaced by its entity | medium, not executed | Html.GreaterThanNotEscaped | Html.IntendedEscapeIsSafe |
| app.py:775 | the handler's own `from datetime import datetime` makes `datetime` a local name of the whole function, so the `datetime.strptime` of a date filter (app.py:749, 753) raises an unbound-local error and the response is 500 | any `start_date` or `end_date` with at least one stored XVA entry | date-window filtering as in `get_stats` | high, not executed | XvaStats.DateWindowOnXva | XvaStats.GetXvaStats |
