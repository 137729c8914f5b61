# Jira work-log front end: a verified model

The repository is a small Flask front end over a Jira server. The user
browses the issues assigned to them, filters and sorts that list, and logs
work on one issue, on several issues at once, or from an uploaded text file
of `task name,time spent,date` lines. Every log becomes one POST of a
work log (`timeSpent`, `started`) to the issue, and the server answers with
a status code. This project models the logic in `flask_app.py` that sits
between the form input and those posts:

- the **date re-layout**. A date typed as `YYYY-MM-DD HH:MM` (layout A) or
  `HH:MM DD-MM-YYYY` (layout B) is read the way `datetime.strptime` reads
  it. The 1–2 digit fields, the whitespace and the calendar check all
  follow CPython's `_strptime`. The date is then written as
  `YYYY-MM-DDTHH:MM:SS.000+0000` (module `Dates`);
- the **upload pipeline**. Each line is stripped, split on commas and
  checked: it must have three fields, a known task name and a date that
  parses. Kept lines go, in order, to a dry-run list, and that list is
  posted one entry at a time (module `Upload`);
- the **task list**. The page builds the summary→key and key→summary
  dictionaries, filters case-insensitively by keyword and sorts stably by
  summary or key, ascending or descending (modules `Tasks` and `Views`);
- **`log_work`**. Its success rule is status 201 exactly, and its messages
  are fixed (module `Jira`). The tracker is a class whose posted work logs
  grow by one per call. The server's answers are an arbitrary function of
  the work log and the call's position.

Module `Text` models the few Python `str` operations these rely on: `strip`,
`split(',')`, `splitlines`, `lower`, `in`, code-point ordering and decimal
rendering. Module `Web` holds the flash notices and redirect targets.
`Views` holds the three pages that carry logic (`index`, `log_time`,
`log_time_multiple`). Their request data arrive as maps of query
arguments and form fields. The fetch of assigned issues and the current
time are inputs.

`flask_app.py` never parses or validates `time_spent`: it forwards the text
verbatim (flask_app.py:74, :105, :138). `KeepsLine` and `LogTime` state that
the posted `timeSpent` is the form or file text unchanged.

## Model

| member | source | states |
|---|---|---|
| Text.Strip | flask_app.py:101 | `line.strip()` is a substring of the line whose removed borders are all whitespace (Python's `isspace` set) and which neither starts nor ends with whitespace |
| Text.TrimStart | flask_app.py:111 | the whitespace a `\s+` of the date layouts consumes: a suffix of the text whose removed prefix is all whitespace and which does not start with whitespace |
| Text.StripUnpadded | flask_app.py:101 | a string that neither starts nor ends with whitespace is left unchanged by `strip` |
| Text.StripIdempotent | flask_app.py:101 | stripping twice is stripping once |
| Text.Split | flask_app.py:101 | `split(',')` gives at least one piece, no piece contains the separator, and joining the pieces with it gives back the input |
| Text.SplitJoin | flask_app.py:101 | splitting a join of separator-free pieces gives back exactly those pieces, empty pieces included |
| Text.SplitThreeFields | flask_app.py:101-105 | a line that splits into three fields is exactly the three fields joined by two commas |
| Text.SplitOfThreeFields | flask_app.py:101-105 | three comma-free fields joined by commas split back into those three fields |
| Text.SplitLines | flask_app.py:96 | `splitlines()` pieces contain no line-boundary character (\n, \r, \v, \f, \x1c–\x1e, \x85, \u2028, \u2029) and are no more numerous than the characters; `SplitLinesBreak` and `SplitLinesLast` fix the pieces themselves |
| Text.SplitLinesBreak | flask_app.py:96 | a break-free line ended by `\r\n`, or by one boundary character that is not a `\r` before `\n`, is the first piece, and the rest of the text splits on its own |
| Text.SplitLinesLast | flask_app.py:96 | a non-empty break-free text without terminator is one piece |
| Text.SplitLinesOfTerminated | flask_app.py:96 | a text whose lines each end in `\n` splits back into exactly those lines |
| Text.Lower | flask_app.py:45 | `lower()` keeps the length and lower-cases character by character |
| Text.LowerIdempotent | flask_app.py:55 | lower-casing twice is lower-casing once, and leaves no ASCII capital |
| Text.Contains | flask_app.py:55 | `needle in hay`, scanned from the left; `ContainsIff` states that it holds exactly when the needle occurs at some position |
| Text.ContainsIff | flask_app.py:55 | `needle in hay` holds exactly when the needle occurs at some position of the haystack |
| Text.Less | flask_app.py:66-68 | Python's `<` on strings, lexicographic by code point with a proper prefix first; `LessIrreflexive`, `LessTransitive`, `LessTotal` and `LessAsymmetric` state that it is the strict total order `sorted` needs |
| Text.LessIrreflexive | flask_app.py:66-68 | no string sorts before itself |
| Text.LessTransitive | flask_app.py:66-68 | string order is transitive |
| Text.LessTotal | flask_app.py:66-68 | any two distinct strings are ordered one way or the other |
| Text.LessAsymmetric | flask_app.py:66-68 | two strings are never each before the other |
| Text.NatToString | flask_app.py:38 | the decimal rendering of a status code is non-empty, all digits and has no leading zero |
| Text.NatToStringRoundTrip | flask_app.py:38 | reading the decimal rendering back gives the number |
| Text.Padded | flask_app.py:111 | the zero padding of `strftime`'s numeric fields: exactly `width` characters, all digits; `PaddedRoundTrip` states that they read back as the number when it fits |
| Text.PaddedRoundTrip | flask_app.py:78 | a zero-padded field of a number below 10^width reads back as that number |
| Dates.Year | flask_app.py:78 | `%Y` matches exactly when the text starts with four ASCII digits, and reads their decimal value, at most 9999 |
| Dates.Month | flask_app.py:78 | `%m` matches exactly when the text starts with 1–9, or with 0 and 1–9; it reads one or two digits, and the month is their value, in 1..12 |
| Dates.Day | flask_app.py:78 | `%d` matches exactly when the text starts with 1–9, or with 0 or a space and then 1–9; it reads one or two ASCII digits (their value) or a space and a digit (that digit's value), in 1..31 |
| Dates.Hour | flask_app.py:78 | `%H` matches exactly when the text starts with an ASCII digit; it reads one or two ASCII digits, and the hour is their value, in 0..23 |
| Dates.Minute | flask_app.py:78 | `%M` matches exactly when the text starts with an ASCII digit; it reads one or two ASCII digits, and the minute is their value, in 0..59 |
| Dates.MatchDateFirst | flask_app.py:78 | the `%Y-%m-%d %H:%M` pattern yields fields in range with seconds 0 and consumes input |
| Dates.MatchTimeFirst | flask_app.py:142 | the `%H:%M %d-%m-%Y` pattern yields fields in range with seconds 0 and consumes input |
| Dates.CheckCalendar | flask_app.py:78 | fields in range pass the calendar exactly when the date is real (year 1–9999, day within its month with the Gregorian leap rule); otherwise year 0 is reported first, then the day |
| Dates.Parse | flask_app.py:78 | `strptime` only accepts real dates with seconds 0, and never the empty text |
| Dates.FormatDateFirst | flask_app.py:111 | the zero-padded layout-A spelling `%Y-%m-%d %H:%M`; `ParseFormatDateFirst` states that it parses back to its fields, and `TimestampToDateFirst` that it is the date and minute of a `started` value |
| Dates.FormatTimeFirst | flask_app.py:158 | the zero-padded layout-B spelling `%H:%M %d-%m-%Y` used to pre-fill the form; `ParseFormatTimeFirst` and `PrefillRoundTrip` state that it parses back to its fields |
| Dates.Timestamp | flask_app.py:78 | the `started` value has 28 characters |
| Dates.Relayout | flask_app.py:111 | re-layout fails exactly when `strptime` fails |
| Dates.ParseFormatDateFirst | flask_app.py:78 | parsing the zero-padded layout-A spelling of in-range fields gives back those fields, or the calendar's error |
| Dates.ParseFormatTimeFirst | flask_app.py:142 | the same round trip for layout B |
| Dates.RelayoutDateFirst | flask_app.py:111 | a zero-padded layout-A date becomes itself with the space turned into `T` and `:00.000+0000` appended |
| Dates.RelayoutTimeFirst | flask_app.py:142 | a zero-padded layout-B date becomes year-month-day `T` hour:minute `:00.000+0000` made of its own pieces |
| Dates.LayoutsAgree | flask_app.py:142 | the two spellings of the same minute give the same `started` value, or the same error |
| Dates.TimestampReadsBack | flask_app.py:78 | the date and minute of any `started` value read back in layout A to the date that produced it |
| Dates.DateFirstNeedsLeadingDigit | flask_app.py:111 | a layout-A date that starts with anything but a digit, a space included, is rejected |
| Dates.TrailingTextDateFirst | flask_app.py:111 | any text after a complete layout-A date is reported as unconverted data, before the calendar is consulted |
| Dates.TrailingTextTimeFirst | flask_app.py:142 | the same for layout B |
| Dates.DateFirstNeedsFourDigits | flask_app.py:111 | a text that does not start with four digits does not match layout A |
| Dates.TimeFirstNeedsEarlyColon | flask_app.py:142 | a text that starts with three digits does not match layout B |
| Dates.DateFirstIsNotTimeFirst | flask_app.py:142 | a layout-A spelling never matches layout B |
| Dates.TimeFirstIsNotDateFirst | flask_app.py:111 | a layout-B spelling never matches layout A |
| Dates.UnpaddedFieldsAccepted | flask_app.py:111 | one-digit month, day and hour (`2024-3-5 9:30`) parse like their padded spelling, subject to the calendar |
| Dates.SpacedDayAccepted | flask_app.py:111 | a one-digit day written with a space in front parses like the padded day, as `%d` allows |
| Dates.DayOfSpacedDigit | flask_app.py:111 | `%d` reads a space and one digit as that day |
| Dates.LateClockRejected | flask_app.py:111 | an hour of 24 to 99 followed by a colon is no `%H:%M` |
| Dates.LateHourRejected | flask_app.py:111 | a layout-A text with such an hour does not match, whatever follows |
| Dates.TimestampToDateFirst | flask_app.py:78 | the date and minute of a `started` value, joined by a space, are the layout-A spelling of the same date |
| Dates.MinuteOfDigit | flask_app.py:111 | `%M` reads a single digit not followed by another as that minute |
| Dates.ParsedYearDateFirst | flask_app.py:111 | an accepted layout-A text starts with four digits whose value is the year it was read as |
| Dates.ParsedHourTimeFirst | flask_app.py:142 | an accepted layout-B text starts with one or two digits and a colon, and those digits' value is the hour it was read as |
| Dates.PrefillRoundTrip | flask_app.py:158 | the pre-filled `%H:%M %d-%m-%Y` text of the current time parses back in layout B to the current minute |
| DateExamples.ExampleCanonicalFromDateFirst | flask_app.py:78 | `2024-03-05 09:30` becomes `2024-03-05T09:30:00.000+0000` |
| DateExamples.ExampleCanonicalFromTimeFirst | flask_app.py:142 | `09:30 05-03-2024` becomes the same `2024-03-05T09:30:00.000+0000` |
| DateExamples.ExampleLeapDays | flask_app.py:111 | 29 February passes the calendar in 2024 and 2000 and is a day out of range in 2023 and 1900 |
| DateExamples.ExampleYearZero | flask_app.py:111 | year 0000 is rejected, and reported before an impossible day |
| Tasks.ToMap | flask_app.py:98 | a dict comprehension has exactly the keys of its pairs |
| Tasks.ToMapLastWins | flask_app.py:98 | each key gets the value of the last pair that has it |
| Tasks.SummaryToKey | flask_app.py:98 | the summary-to-key dict comprehension; `SummaryToKeySpec` and `SummaryToKeyDomain` state its keys and values |
| Tasks.SummaryToKeySpec | flask_app.py:98 | each summary maps to the key of the last fetched task with that summary |
| Tasks.SummaryToKeyDomain | flask_app.py:106 | a task name resolves exactly when some fetched task has it as summary |
| Tasks.DuplicateSummaryExample | flask_app.py:98 | with two tasks named `Fix bug`, the later one's key is used |
| Tasks.KeyToSummary | flask_app.py:135 | the key-to-summary dict comprehension; `KeyToSummarySpec` and `KeyToSummaryDomain` state its keys and values |
| Tasks.KeyToSummarySpec | flask_app.py:135 | each key maps to the summary of the last fetched task with that key |
| Tasks.KeyToSummaryDomain | flask_app.py:136 | a key is in the dictionary exactly when some fetched task has it |
| Tasks.Matches | flask_app.py:55 | the filter's test: the keyword occurs in the lower-cased summary; `FilterMembers` and `FilterCount` state that it decides which tasks are kept |
| Tasks.Filter | flask_app.py:55 | filtering never adds tasks |
| Tasks.FilterAppend | flask_app.py:55 | filtering distributes over concatenation, so kept tasks keep their relative order |
| Tasks.FilterCount | flask_app.py:55 | each task occurs in the filtered list as often as in the fetched list when its lower-cased summary contains the keyword, and not at all otherwise |
| Tasks.FilterMembers | flask_app.py:55 | a task is kept exactly when it was fetched and its lower-cased summary contains the keyword, as many times as it occurs |
| Tasks.Sort | flask_app.py:66-68 | sorting keeps the length |
| Tasks.SortSpec | flask_app.py:63-68 | `sorted(..., reverse=...)` returns a permutation, ordered nondecreasing by the key (nonincreasing when descending), and stable: tasks with equal keys keep their input order |
| Web.Lookup | flask_app.py:106 | `dict.get` gives the bound value or the default |
| Jira.Outcome | flask_app.py:35-38 | `log_work` reports success exactly when the status is 201 |
| Jira.OutcomeNotice | flask_app.py:85 | the flash category is `success` exactly for status 201 and `danger` otherwise |
| Jira.MessageTellsOutcome | flask_app.py:35-38 | a message starts with `Successfully logged ` exactly on success and with `Failed to log work: ` exactly on failure |
| Jira.FailureMessageStatus | flask_app.py:38 | the digits after `Failed to log work: ` up to the first space read back as the status code |
| Jira.Tracker.LogWork | flask_app.py:28-38 | one call posts exactly one work log with the given key, time and start, and returns the success flag and message for the server's answer |
| Jira.Notices | flask_app.py:120-122 | one notice per post, each the outcome of that post's answer |
| Jira.LogEach | flask_app.py:120-122 | the posting loop posts every work log once, in order, and flashes one notice per post |
| Upload.CheckLine | flask_app.py:100-115 | a skipped line flashes a `danger` notice; a kept line yields a non-empty issue key and a 28-character start time |
| Upload.KeptLine | flask_app.py:101-115 | a kept line is, once stripped, three comma-free fields whose name maps to a non-empty key and whose date parses; the entry is that key, the time text verbatim and the parsed date's timestamp |
| Upload.KeepsLine | flask_app.py:101-115 | conversely, every line of that shape is kept with exactly that entry |
| Upload.SkippedLine | flask_app.py:102-114 | the checks run in order (field count, task name, date) and each failure flashes its own message |
| Upload.SpaceBeforeDateIsSkipped | flask_app.py:105-114 | a space after the second comma belongs to the date field, so the line is skipped for its date |
| Upload.EveryLineAccounted | flask_app.py:100-115 | every line either adds one dry-run entry or flashes one notice |
| Upload.SkipsAppend | flask_app.py:100-114 | the skip notices of a file in two parts are those of the first part followed by those of the second |
| Upload.DryRunAppend | flask_app.py:99-115 | checking a file in two parts gives the concatenated dry runs and notices |
| Upload.KeptLines | flask_app.py:100-115 | the kept line numbers are increasing and are exactly the lines the check keeps |
| Upload.DryRun | flask_app.py:99-115 | `dry_run_results` after the first loop; `DryRunOfKept` states that it is exactly the kept lines' entries in file order, `DryRunAppend` that it composes over parts of a file |
| Upload.SkipNotices | flask_app.py:102-114 | the notices the first loop flashes; `EveryLineAccounted` states one per skipped line, `SkipsAppend` that they compose over parts of a file |
| Upload.DryRunOfKept | flask_app.py:115 | the dry run is exactly the kept lines' entries, in file order: no skipped line reaches submission |
| Upload.CheckLines | flask_app.py:99-115 | the first loop builds the dry run and the notices of the verdicts of all lines in order |
| Upload.UploadFile | flask_app.py:91-123 | no file flashes `No file selected.` and posts nothing; an empty dry run flashes `No valid tasks to process.` and posts nothing; otherwise every dry-run entry is posted once, in order, after the skip notices |
| Views.FetchError | flask_app.py:24 | the flash of a failed fetch starts with `Failed to fetch tasks: ` and ends with the reply's body |
| Views.FilterKeyword | flask_app.py:45 | the keyword is the form's `filter` on POST and the query's on GET, lower-cased character by character with its length kept, leaving no ASCII capital |
| Views.SortFieldOf | flask_app.py:65-68 | the tasks sort by summary exactly when `sort_by` is `summary`, by key for any other value |
| Views.Index | flask_app.py:41-69 | the task list page; `IndexSpec` states what it fetches, shows, flashes and how it sorts |
| Views.FilterNothing | flask_app.py:54-55 | the empty keyword filters nothing, so the `if filter_keyword` guard does not change the list |
| Views.IndexSpec | flask_app.py:41-69 | the list fetches only for a keyword or `fetch=1` on GET; it shows exactly the fetched issues matching the keyword, each as often as fetched, sorted and stable; a failed fetch flashes; the defaults are summary and descending |
| Views.Started | flask_app.py:77-80 | an empty date gives the current time, any other is accepted exactly when it parses |
| Views.StartedAgrees | flask_app.py:142 | a date typed in either layout gives the same start time |
| Views.LogTime | flask_app.py:72-86 | a missing field posts nothing; a bad date flashes the layout-A hint and posts nothing; otherwise exactly one post with the verbatim time and the re-laid-out start |
| Views.SelectedInfo | flask_app.py:136 | one entry per selected key |
| Views.SelectedInfoSpec | flask_app.py:135-136 | each selected key is paired with the summary of the last fetched issue having it, or with the empty string when none has |
| Views.SameWorklog | flask_app.py:148-149 | one work log per selected key, all with the same time and start |
| Views.LogTimeMultiple | flask_app.py:127-161 | nothing selected flashes `No tasks selected.`; with `confirm`, a bad date posts nothing, otherwise every selected key is posted exactly once, in order, with the same time and start; without `confirm` nothing is posted |
| Views.PrefillReadsBack | flask_app.py:158 | the pre-filled date, submitted unchanged, gives the start time of the current minute |

## Left out

- The HTTP calls of `get_assigned_tasks` and `log_work` (flask_app.py:18-38). The server's reply is the `Tracker.server` function of the work log and its position. On the task-list page the fetch is the `Fetch` input. In the upload and multi-issue paths the fetched list is a plain input, because the code ignores the fetch error there. Connection errors raised by `requests` are not modelled.
- The JSON reply: `response.json().get('issues', [])`, and the `KeyError` an issue without `fields.summary` would raise. Issues are given as key and summary.
- Flask itself: routing, sessions, templates, and the GET branches that only render a form or redirect. Each `flash` is a returned notice. Each `redirect` or `render_template` is a returned page value. A missing form field, which Flask answers with 400, is `MissingField`.
- `file.read().decode('utf-8')`: the upload arrives as decoded text. A file that is not valid UTF-8, which raises in the source, is not modelled.
- `datetime.now()`: the current time is the parameter `now`. Its microseconds, which `strftime` drops anyway, are not represented.
- jiraLogger.py and get_pedro_serrano_entry.py are not part of this model. The first has no entry point: it holds a second copy of `get_assigned_tasks`, which returns `[]` on failure, and of `log_work`, which returns only the success flag. The second reads a spreadsheet through pandas, whose behaviour is not visible here.
- Text.Lower: only ASCII capitals and the Latin-1 capitals U+00C0–U+00DE (except U+00D7) are lower-cased. Python's `lower` covers all of Unicode, including characters whose lower case is longer.
- Dates.Year: `\d` in CPython's `strptime` patterns also accepts non-ASCII decimal digits. The model reads ASCII digits only, so such input, which the source would parse, is rejected here.
- Dates.Day: the `[12]\d` alternative of `%d` reads a non-ASCII decimal digit in second place, and the model does not (`2024-03-1٥ 09:30` is day 15 for the source and no match here).
- Dates.Hour: `%H` (`2[0-3]|[01]\d|\d`) accepts any Unicode decimal digit where `\d` stands; the model accepts ASCII digits only (`2024-03-05 ٩:30` is 09:30 for the source and no match here).
- Dates.Minute: `%M` (`[0-5]\d|\d`) has the same gap as `%H`. `%m` has no `\d`, so `Dates.Month` is exact.
- Dates.Timestamp: years below 1000 are written with four digits. On CPython versions without the fix of gh-120713 (3.13 and the later 3.12 bug-fix releases have it) running on glibc, `strftime('%Y')` writes them without leading zeros; with the fix, CPython pads to four digits itself and agrees with the model.
- Dates.FormatTimeFirst: the pre-filled `strftime('%H:%M %d-%m-%Y')` text is written with a four-digit year below 1000 too. On CPython versions without the gh-120713 fix on glibc, the year is unpadded and `\d\d\d\d` would not read it back; `Dates.PrefillRoundTrip` and `Views.PrefillReadsBack` rest on the padding. A current time never has such a year.
