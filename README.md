# Dormitory electricity monitor — a Dafny model

The system is a small scheduled job, `index.py`. On each run it reads the two
remaining balances of a dormitory room: lighting (`lt`) and air conditioning
(`ac`). It then does three things:

- It builds a report in which each balance is marked 充足 (plenty), 还行 (fair) or
  ⚠️警告 (warning). The thresholds are 5.0 and 100.0.
- It sends the report under a warning title or a routine title. ServerChan
  receives it only when the report holds the warning marker. Telegram always
  receives it.
- It records the reading in a JSON file for the current month. A reading whose
  balances repeat the last stored one is skipped. It then rebuilds two files:
  the period index (`time.json`, the month files newest first) and the rolling
  window (`last_30_records.json`, the latest 30 readings or fewer).

The model has five modules:

- `Text`: the Python string operations the job relies on — `in`,
  `split(',')` and the `if key:` filter. `index.py` never calls `str.join`;
  `Text.Join` is only the inverse that pins down what `split` returns.
- `Notification`: `NotificationManager` — the bands, the escaping of `.` as
  `\.`, the report, the ServerChan gate and key selection, and the Telegram
  text.
- `Periods`: the `YYYY-MM` month keys — `strftime`/`strptime` with
  `'%Y-%m'`, the glob `????-??.json`, and the newest-first sort.
- `Records`: `DataManager` as a class. Its fields are whether the data folder
  `./page/data` exists, a map from the month files' stems to their readings,
  the rolling window (`last_30_records.json`, also in that folder) and the
  period index (`time.json`, which lies beside the folder at `./page/time.json`).
- `Monitor`: `main` — the title choice, notifying then recording, and `main` as
  it is written.

The file `index.py` defines `class DataManager` twice. The second definition
(line 132) rebinds the name. As written, `DataManager.load_data_from_json` and
`DataManager.dump_data_into_json` therefore no longer exist. `main` also calls
`DataManager.get_shanghai_time_str` (line 195), which is not defined anywhere.
The model records both defects under "## Findings". The rest of the model follows
the evident intent: one `DataManager` with all six methods, and
`get_cst_time_str` as the clock.

Balances are `real`. `str(float)` is not modelled. Instead, the decimal text of
each balance is a parameter. The marker lemmas require only that this text uses
the characters `str(float)` can produce (`Notification.FloatText`). Outbound
requests are returned as a sequence of `Post` values rather than being sent.

## Model

| member | source | states |
|---|---|---|
| Notification.Status | index.py:50-56 | Plenty exactly when the balance is above 100.0; Fair exactly when it is above 5.0 and at most 100.0; Warning exactly when it is at most 5.0 |
| Notification.StatusMonotone | index.py:50-56 | a larger balance is never put in a lower band |
| Notification.Label | index.py:50-56 | each band's non-empty label: 充足, 还行 or the warning marker; `LabelMarker` states which one carries the marker |
| Notification.LabelMarker | index.py:50-56 | a band's label contains the warning marker exactly when the band is Warning |
| Notification.Escape | index.py:62-63 | the escaped text is one character longer for every dot, and keeps the same number of dots |
| Notification.EscapedDots | index.py:62-63 | every dot of escaped text is immediately preceded by a backslash |
| Notification.EscapeChars | index.py:62-63 | escaping introduces no character other than the backslash |
| Notification.UnescapeEscape | index.py:62-63 | reading each `\.` as a dot gives back the original text |
| Notification.ReportLine | index.py:65-67 | one report line: its prefix, the escaped balance text, ` 度（`, the band's label, `）` and its line end; `LineMarker` states when it carries the marker |
| Notification.LineMarker | index.py:65-67 | a report line contains the marker when its band is Warning, and otherwise holds not even the marker's first character |
| Notification.FormatReport | index.py:48-69 | the lighting line ending in one line end, then the air-conditioning line ending in a blank line; `ReportWarns` states that it warns exactly when a balance is at or below 5.0 |
| Notification.LowReportWarns | index.py:65-68 | a balance at or below 5.0 puts the marker into the report |
| Notification.HighReportQuiet | index.py:65-68 | with both balances above 5.0, the report holds not even the marker's first character |
| Notification.ReportWarns | index.py:48-69 | the report contains the marker if and only if one balance is at or below 5.0 |
| Notification.ServerChanTargets | index.py:76-79 | no keys without the marker; otherwise the targeted keys are non-empty and comma-free, and laid end to end they are the configured list with its commas removed |
| Notification.TargetsArePieces | index.py:78-79 | with the marker, a key is targeted exactly when it is a non-empty comma-separated piece; a list without empty pieces is taken as is |
| Notification.ServerChanPosts | index.py:78-81 | one ServerChan request per target, in order, each carrying the same title and content |
| Notification.TelegramText | index.py:98 | the text is the title between asterisks, two line ends, then the content, with nothing else |
| Notification.AdminPosts | index.py:72-90 | the ServerChan requests in key order, followed by exactly one Telegram request last |
| Notification.NotifyAdmin | index.py:72-90 | the loop over the split keys issues exactly the requests `AdminPosts` describes |
| Text.Contains | index.py:76 | Python's `sub in s` as a left-to-right scan; `ContainsIff` states that it holds exactly when `sub` occurs at some position |
| Text.ContainsIff | index.py:76 | the left-to-right scan finds the marker exactly when it occurs at some position |
| Text.Split | index.py:78 | Python's `s.split(',')`, at least one piece; `SplitPieces`, `JoinSplit` and `SplitJoin` pin it down as the inverse of joining comma-free pieces |
| Text.SplitPieces | index.py:78 | the split has one more piece than there are commas, and no piece contains a comma |
| Text.JoinSplit | index.py:78 | joining the pieces with commas gives back the key list |
| Text.SplitJoin | index.py:78 | splitting a join of comma-free pieces gives back the pieces |
| Text.SplitConcat | index.py:78 | the pieces, and the non-empty pieces, laid end to end are the list with its commas deleted |
| Text.NonEmpty | index.py:79 | the `if key:` filter keeps the pieces that are non-empty, no more of them than there were; `NonEmptyMembers` and `NonEmptyAppend` state that it keeps exactly those, in order |
| Text.NonEmptyMembers | index.py:79 | a piece passes the `if key:` filter exactly when it is non-empty |
| Text.NonEmptyNoEmpty | index.py:79 | the filter changes nothing when no piece is empty |
| Periods.MatchesGlob | index.py:160 | the glob `????-??.json` selects a stem of seven characters with a dash at position 4 and no leading dot |
| Periods.ParsePeriod | index.py:161 | an accepted stem has seven characters with a dash at position 4, and names a year from 1 to 9999 and a month from 1 to 12 |
| Periods.PeriodName | index.py:143 | the key of a month is a stem that the glob selects |
| Periods.ParseName | index.py:143 | parsing the key written for a month gives back that month |
| Periods.NameParse | index.py:161 | every stem that parses is the key of its month, so each month has one spelling |
| Periods.ValueInjective | index.py:161 | two parsing stems with the same sort key are the same stem |
| Periods.ValueOrder | index.py:161 | the sort key orders months by year, then by month |
| Periods.InsertDescending | index.py:161 | inserting a stem keeps a list newest first |
| Periods.InsertStrictly | index.py:161 | inserting a month not yet present keeps a list strictly newest first |
| Periods.SortDescending | index.py:161 | sorting permutes the stems |
| Periods.SortOrdered | index.py:161 | the sorted stems are newest first, strictly so when no two stems name the same month |
| Periods.SortMembers | index.py:161 | sorting neither adds nor drops a stem |
| Periods.StrictlyDescendingUnique | index.py:161 | two strictly newest-first lists with the same members are equal |
| Periods.PeriodIndexUnique | index.py:160-161 | a folder has only one period index, whatever order the glob lists its files in |
| Periods.SortGivesIndex | index.py:160-161 | sorting any duplicate-free listing of the selected stems gives the period index: exactly the selected stems, each a month, strictly newest first |
| Periods.IndexNewestFirst | index.py:173-175 | the index starts with the newest selected month, and its second entry is the newest of the others |
| Records.Recorded | index.py:144-152 | the loaded month is kept as a prefix; the reading is appended exactly when the month is empty or its last reading has different balances; the result ends with the reading's balances |
| Records.RecordedKeepsNoDuplicates | index.py:146-150 | recording keeps a month free of neighbouring readings with equal balances |
| Records.RecordedIdempotent | index.py:146-148 | recording the same balances again changes nothing |
| Records.PySuffix | index.py:175-177 | `s[-k:]` has length `min(k, len(s))`, or the whole length when `k` is 0, and is a suffix of `s` |
| Records.Borrowed | index.py:173-175 | something is borrowed only when the current month has fewer than 30 readings and a previous period exists; the borrowed readings are the previous period's last `min(30 - n, len)` |
| Records.Window | index.py:177 | the window holds at most 30 readings |
| Records.WindowShape | index.py:167-177 | the window holds `min(30, n + previous)` readings; it ends with the current month's latest readings; with 30 or more readings the current month fills it; otherwise it is the previous period's tail followed by the whole current month |
| Records.DataManager.Load | index.py:110-120 | `load_data_from_json` as `record_data` (line 144) and `parse_and_update_data` (line 174) call it: a missing file or folder reads as an empty list |
| Records.DataManager.RecordData | index.py:141-152 | returns the recorded month; the month file then exists whenever the folder does; only that file is rewritten, and only when something was appended and the folder exists; no file gains neighbouring duplicates |
| Records.DataManager.UpdateTimeList | index.py:155-164 | fails with `FolderMissing` exactly when the folder is missing; otherwise fails when a selected stem is not a month, naming that stem; otherwise writes and returns the period index; a failure leaves `time.json` as it was |
| Records.DataManager.ParseAndUpdateData | index.py:167-178 | fails exactly when the index cannot be rebuilt, leaving both files alone; otherwise stores the period index and the window of the given month, which borrows from the index's second entry |
| Monitor.LowBalance | index.py:187 | the condition of `main`'s branch: one balance is at or below 5.0 |
| Monitor.Content | index.py:185-191 | the report followed by the warning suffix when a balance is low, otherwise the routine suffix; `ServerChanFollowsTitle` states that it warns exactly when the warning title is chosen |
| Monitor.Title | index.py:187-192 | the warning title is chosen exactly when one balance is at or below 5.0; otherwise the routine title |
| Monitor.ServerChanFollowsTitle | index.py:185-192 | the content holds the marker exactly when the warning title was chosen, and then every non-empty configured key is targeted; otherwise none is |
| Monitor.Announce | index.py:185-192 | `main`'s branch sends the requests `AdminPosts` describes, for the title and content the balances call for |
| Monitor.RecordReading | index.py:194-200 | the new store is the old one with the month file replaced by the recorded month, exactly when the folder exists and something was appended; the index and window are rebuilt from the recorded month; rebuilding fails exactly when the index cannot be built, and then leaves `time.json` and `last_30_records.json` as they were; no file gains neighbouring duplicates |
| Monitor.Run | index.py:180-201 | one run: the notifications above, then the recording above, with all their guarantees together |
| Monitor.AsWrittenDataManagerAttributes | index.py:132-178 | after the second class statement, `DataManager` has only the four methods that statement defines |
| Monitor.RunAsWritten | index.py:194-199 | as written, a run sends its notifications and then stops at the first missing `DataManager` attribute |
| Monitor.AsWrittenNeverRecords | index.py:195 | as written, every run stops at `get_shanghai_time_str` before recording anything, and the two JSON helpers are missing too |

## Left out

- Fetching the balances through ZZUPy (lines 31-44) is not modelled: it is a network login and query. The balances and their decimal texts are parameters.
- HTTP delivery and its responses (lines 80-87 and 95-106), and the success/failure logging, are not modelled. Requests are returned as `Post` values; the URL, `chat_id`, token and `parse_mode` are left out because they are constants of the request, not decisions.
- `str(float)` is not modelled. Float rounding, NaN and infinity comparisons are not modelled either, because balances are exact reals.
- The clock (`get_cst_time_str`, lines 133-138, with `pytz`) is two parameters of `Monitor.Run`: the month key and the time text.
- Real file I/O and JSON encoding are not modelled. A file that does not parse as JSON is held as an empty list, which is how `load_data_from_json` reads it back. A write into a missing folder is lost, as the logged exception is. No other write failure is modelled.
- The order in which `glob` lists files is not modelled. `UpdateTimeList` picks the files in an arbitrary order, and `Periods.PeriodIndexUnique` then shows that the order cannot matter.
- `strptime` accepts non-ASCII decimal digits in `%Y`. The model accepts only ASCII digits.
- A missing `SERVERCHAN_KEYS` variable (`None.split` raises) is not modelled. The keys are always a string.
- Logging and `markdown.py` are outside this model.
- Monitor.Run: assumes every HTTP request returns. The `requests.post` and `response.json()` calls at lines 82-83 and 101-102 are unguarded, so a request that raises ends `main` before `record_data` (line 199); the model does not capture that path.
- Records.Window: the window holds `min(30, n + |previous|)` readings, where `n` is the current month's count and `previous` is the month at `time_file_list[1]`, not `min(30, every reading recorded)`. The code borrows only from that second entry of the period index, so readings of older periods never enter the window; `Records.WindowShape` states the window's exact length.
- Records.DataManager.ParseAndUpdateData: the second entry of the index is the previous month only when the current month is the newest file. Exactly one file for a later month makes the current month the second entry, and the code then borrows from the current month itself. With two or more, it borrows from the second-newest file, which is a month later than the current one. The model keeps this behaviour, and `Periods.IndexNewestFirst` states what the second entry is.

## Findings

| source | as written | input that shows it | evidently intended | confidence | as-written member | corrected member |
|---|---|---|---|---|---|---|
| index.py:132 | a second `class DataManager` rebinds the name, so `load_data_from_json` and `dump_data_into_json` (lines 108-130) no longer exist and `record_data` raises `AttributeError` | any run that reaches `record_data` | one `DataManager` with all six methods | not executed | Monitor.AsWrittenNeverRecords | Records.DataManager.RecordData |
| index.py:195 | `main` calls `DataManager.get_shanghai_time_str`, which no class defines, so every run fails after notifying and before recording | any run, with any balances | `DataManager.get_cst_time_str("%m-%d %H:%M:%S")` | not executed | Monitor.RunAsWritten | Monitor.Run |
