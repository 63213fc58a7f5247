# vturb bot: a Dafny model of its rules

The vturb bot logs in to the vturb analytics dashboard with a headless
browser. It walks every video folder and every video inside it, downloads
the traffic CSV of each video filtered by `utm_content`, and moves the
download into `./analytics/<video name>`. A small HTTP API serves those
files, and renders its own documentation page.

This project models the parts of the bot that follow fixed rules and proves
what those rules guarantee:

- **Run gate** (module `Executions`, class `ExecutionManager`). The program
  runs at most once per period: once in the morning window
  [05:00, 17:00), and once outside it.
  - The table of past runs is a sequence of records (day number, second of
    the day, success), held in a class field.
  - `should_execute` is a method whose answer is proved to be the ghost
    predicate `Allowed`: no qualifying record in the current period.
    `register_execution` and `clear_old_records` are methods whose
    contracts state the new table; `RegisteredRunBlocks` ties a registered
    success to the answer of the gate.
  - The lemmas show which records matter to the gate and that a registered
    success blocks the rest of its period.
  - A run is registered with the clock reading at its end.
    `OncePerPeriod` shows that no order of starts yields two successful
    runs in one period, provided every run ends in the period it started
    in. `LateEndSecondSuccess` shows that a run that starts before 17:00
    and ends after it can give an afternoon a second success.
- **Logger** (module `Logging`, class `Logger`).
  - The timer map: `start_timer` overwrites, `end_timer` consumes, a
    missing name gives 0.
  - The layout of a log line and the prefix chosen for each log type.
  - The section headers of each level.
  - The selection of the log files that `limit_log_files` deletes.
  - The integer path of `format_number`, which groups thousands with dots.
  - The console and the log file are sequences of lines.
- **The walk in `main`** (module `App`). What the browser shows at each
  step is given as observations: list lengths, whether an element shows
  up, the text of a row.
  - The folder and video loops are `for` loops, proved equal to a
    recursive description of the walk (`WalkFrom`).
  - Lemmas state what the walk does: the order, the stops, the skips, and
    the count of processed videos.
  - `Run` composes the gate, the walk, the total timer and the
    registrations of the run, as written: a completed run whose browser
    fails to close is registered twice. The row-text splitting and the h/m/s summary
    are modelled too.
- **API** (module `Api`).
  - The rewriting of the documentation HTML: response-code classes, the
    `<table>` styling, and building and inserting the table of contents.
  - The folder lookup of `GET /analytics/{video_name}` and its choice of
    the first CSV.
  - The folder listing of `GET /list`.
- **CSV mover** (module `Files`, class `FileSystem`). `move_csv_files` is a
  method on two folders that are sets of names, plus whether the
  destination exists yet. When nothing raises it ends in the transition
  `AfterMove`. When creating the destination or moving a file raises, the
  loop stops there, and the CSVs before that one stay moved.

Module `Text` holds the Python string operations the rules use: `find`,
`split`, `join`, `replace`, `lower`/`upper`, digit conversion, and zero
padding. Each carries the contract that makes it usable in proofs.

Units:
- Dates are day numbers. A time of day is a second in 0..86399.
- Clock readings and elapsed time are whole hundredths of a second.

A video whose UTM filter cannot be applied ends the whole walk. Failing
both attempts to open the UTM dropdown raises an exception
(`app.py:286-293`), and so does failing to click the `utm_content` option
(`app.py:301-303`). Either exception leaves the walk and lands in the
top-level handler, which registers a failed run. `App.VideosFrom`
therefore ends the walk with an `Aborted` event.

## Model

| member | source | states |
|---|---|---|
| Executions.Clock | vturb/execution_manager.py:35-36 | builds the second of the day of `HH:MM:SS`, and hours, minutes and seconds read back from it |
| Executions.ParseClock | vturb/execution_manager.py:35 | a text that parses is `HH:MM:SS` with two-digit fields, and the hours, minutes and seconds of the result are the values of those fields |
| Executions.FormatClock | vturb/execution_manager.py:58 | `%H:%M:%S` text is eight characters with colons at places 2 and 5 |
| Executions.ClockRoundTrip | vturb/execution_manager.py:35-58 | parsing the stored `%H:%M:%S` text gives back the time of day that was stored |
| Executions.ClockCanonical | vturb/execution_manager.py:35-58 | a text that parses is exactly the text that formatting its value produces |
| Executions.TwoDigitsCanonical | vturb/execution_manager.py:35 | a two-digit field is the zero-padded text of its own value, below 100 |
| Executions.InMorning | vturb/execution_manager.py:27-36 | the morning window holds exactly the hours 5 to 16 |
| Executions.WindowEdges | vturb/execution_manager.py:27 | 05:00:00 and 16:59:59 are morning; 17:00:00, 04:59:59 and 02:00 are not |
| Executions.TodaysSuccesses | vturb/execution_manager.py:21-24 | the search yields exactly the successful records dated today, none added |
| Executions.IrrelevantRecord | vturb/execution_manager.py:21-24 | a failed record, or one of another day, can be added anywhere without changing the gate |
| Executions.RegisteredRunBlocks | vturb/execution_manager.py:42-61 | after a success is registered today, every later start in the same period is refused |
| Executions.OtherPeriodUnaffected | vturb/execution_manager.py:34-49 | a success in the other period does not change the answer |
| Executions.CountInZero | vturb/execution_manager.py:34-39 | no qualifying record in a period exactly when the count for that period is zero |
| Executions.OncePerPeriod | vturb/execution_manager.py:10-61 | over any sequence of starts, each registering its run at its end when allowed, a day never gets a second successful run in one period, as long as every run ends on the day and in the period it started in |
| Executions.LateEndSecondSuccess | vturb/execution_manager.py:27-58 | a run allowed at 16:50 that ends at 17:10 is recorded in the afternoon, so a day with an afternoon success at 02:00 gets a second one |
| Executions.Prune | vturb/execution_manager.py:67-68 | keeps exactly the records dated on or after the cutoff |
| Executions.PruneAppend | vturb/execution_manager.py:68 | pruning works record by record, so the table order is kept |
| Executions.PruneNothingOld | vturb/execution_manager.py:68 | a table without old records is left as it is |
| Executions.PruneIdempotent | vturb/execution_manager.py:63-68 | clearing twice with the same cutoff removes nothing more |
| Executions.ExecutionManager.constructor | vturb/execution_manager.py:5-8 | the manager starts from the stored table |
| Executions.ExecutionManager.ShouldExecute | vturb/execution_manager.py:10-49 | the loop over today's successes sets the two flags, and the answer is "no qualifying record in the current period" |
| Executions.SearchMatchesRanIn | vturb/execution_manager.py:21-39 | a record of the search falls in a period exactly when a qualifying record of the table does |
| Executions.ExecutionManager.RegisterExecution | vturb/execution_manager.py:51-61 | appends exactly one record with the given date, time and success; the earlier records are unchanged |
| Executions.ExecutionManager.ClearOldRecords | vturb/execution_manager.py:63-68 | the new table is the old one without the records before today minus `days` |
| Logging.Prefix | vturb/logger.py:80-97 | `[✓]`, `[!]`, `[✗]`, `[→]` exactly for SUCCESS, WARNING, ERROR, STEP; `[•]` for every other type; always three characters in brackets |
| Logging.AlignLeft | vturb/logger.py:100-104 | `:<width` keeps the text and pads it with spaces to the width |
| Logging.Seconds2Value | vturb/logger.py:74 | the elapsed text has two decimals after the point, and its digits read back as the elapsed hundredths |
| Logging.FormatLine | vturb/logger.py:103-104 | a line starts with the timestamp part, when there is one, and ends with a space, the message and the time suffix |
| Logging.LineLayout | vturb/logger.py:77-104 | a line is the optional `[ts] `, two spaces per indent level, the prefix, a space, the message and the time suffix, in that order |
| Logging.Separator | vturb/logger.py:119-131 | level 1 uses 80 `=`, level 2 uses 70 `-` |
| Logging.SectionShape | vturb/logger.py:118-141 | three file lines: separator, title in upper case at level 1 and unchanged at level 2, separator, each after the timestamp |
| Logging.TimerEnd | vturb/logger.py:59-64 | a present name gives now minus its start and is removed, with nothing else removed; an absent name gives 0 and changes nothing |
| Logging.TimerRoundTrip | vturb/logger.py:55-64 | starting then ending a timer gives the time in between and leaves the other timers as they were |
| Logging.Logger.constructor | vturb/logger.py:52 | no timers, nothing written |
| Logging.Logger.StartTimer | vturb/logger.py:55-56 | sets or overwrites only that timer |
| Logging.Logger.EndTimer | vturb/logger.py:59-64 | the result and the new timer map are those of `TimerEnd` |
| Logging.Logger.Log | vturb/logger.py:67-112 | the timer is consumed only with `show_time`, a name and a running timer; one line goes to the console, and the same line to the file exactly when `write_to_file` |
| Logging.Logger.LogSection | vturb/logger.py:115-145 | levels 1 and 2 show three lines and write the three file lines; any other level logs one line, written to the file |
| Logging.InsertByMtime | vturb/logger.py:19 | inserting a file keeps the list in mtime order and keeps every file, the new one included |
| Logging.InsertByMtimeStable | vturb/logger.py:19 | the inserted file goes after every file of its own mtime, and the files of each mtime keep their order |
| Logging.SortByMtime | vturb/logger.py:19 | the sort gives a permutation of the glob result in mtime order |
| Logging.SortByMtimeStable | vturb/logger.py:19 | the sort is stable: in mtime order, with the files of each mtime in their glob order |
| Logging.Oldest | vturb/logger.py:17-21 | nothing when there are at most `max_files` files, otherwise the count minus `max_files` files |
| Logging.Newest | vturb/logger.py:17-21 | the files that are kept: at most `max_files` |
| Logging.OldestBeforeNewest | vturb/logger.py:17-21 | deleted and kept files together are all the files, and every deleted file is no newer than every kept one |
| Logging.SliceTo | vturb/logger.py:21 | Python's `[:stop]`: a prefix, of length `stop`, or the length plus `stop` for a negative `stop`, clamped to the sequence |
| Logging.DeletedNames | vturb/logger.py:21-25 | the removed files are exactly the files whose removal does not fail |
| Logging.FailuresNames | vturb/logger.py:21-25 | the reported failures are exactly the files that cannot be removed |
| Logging.FailuresAppend | vturb/logger.py:21-25 | failures are reported file by file, in the order of the files |
| Logging.LimitLogFiles | vturb/logger.py:15-25 | deletes the files of `[:-max_files]` of the sorted listing, as written: removes exactly those it can remove, and reports, in order, the ones whose removal fails |
| Logging.ZeroLimitKeepsEverything | vturb/logger.py:17-21 | with a limit of 0 the slice as written selects nothing, though every file is over the limit; for limits above 0 it agrees with `Oldest` |
| Logging.GroupThousandsUngroup | vturb/logger.py:152 | taking the dots out of the grouped digits gives the digits back |
| Logging.GroupThousandsDots | vturb/logger.py:152 | a dot stands at every fourth place from the right, and nowhere else |
| Logging.FormatIntegerValue | vturb/logger.py:148-152 | the text of a whole number has dots every three digits, and its digits spell the number |
| Files.CsvIgnoresCase | vturb/files.py:8 | changing the case of a name does not change whether it counts as a CSV |
| Files.AfterMove | vturb/files.py:4-12 | every CSV leaves the source, every other name stays, moved names keep their name in the destination, nothing is lost, and the destination exists afterwards exactly when it already did or some CSV was moved |
| Files.MoveIdempotent | vturb/files.py:4-12 | a second move changes nothing, creating the destination again included |
| Files.FileSystem.constructor | vturb/files.py:4 | the folders as given |
| Files.FileSystem.MakeDestination | vturb/files.py:9 | `os.makedirs(..., exist_ok=True)`: succeeds exactly when the folder already exists or can be created, and the folder exists afterwards exactly then |
| Files.FileSystem.MoveFile | vturb/files.py:10-12 | `shutil.move`: fails exactly for a file that cannot be moved, and then changes nothing; otherwise the file leaves the source for the destination |
| Files.CsvUpToMembers | vturb/files.py:5-8 | the CSVs among the first `i` names of the listing are exactly the CSV names at positions below `i` |
| Files.CsvUpToAll | vturb/files.py:5-8 | the CSVs of the whole listing are the CSVs of the source folder |
| Files.FirstFailure | vturb/files.py:7-12 | the position of the first CSV whose folder creation or move fails, or the length of the listing when none does |
| Files.Moved | vturb/files.py:7-12 | moving a set of names out of the source keeps every name in one of the two folders and keeps the folders consistent |
| Files.MovedAll | vturb/files.py:4-12 | moving every CSV of the source is the transition `AfterMove` |
| Files.FailureKeepsRest | vturb/files.py:7-12 | after a failure at position `k`, every name from `k` on is still in the source |
| Files.FileSystem.MoveEntry | vturb/files.py:8-12 | one listed name: a CSV is moved after the destination is made, any other name is skipped; it fails exactly for a CSV when the folder cannot be made or the file cannot be moved, and a failed move leaves only the made folder behind |
| Files.FileSystem.MoveCsvFiles | vturb/files.py:4-12 | an unreadable listing fails and changes nothing; otherwise the CSVs before the first failing one are moved, the folder is created when that failure is a move, success is exactly no failure, and on success the new state is `AfterMove` of the old |
| Api.CodeClass | vturb/api.py:35 | "success" exactly for a code starting with 2, "error" exactly for 4 or 5, "neutral" otherwise |
| Api.CodeClassRanges | vturb/api.py:35 | on three digits: success is 200-299, error is 400-599, neutral is the rest |
| Api.StatusAt | vturb/api.py:34 | a status text is recognised only where one of the three statuses stands |
| Api.CodeMatch | vturb/api.py:34 | a match is three digits, a space and one of the three status texts |
| Api.StatusAtComplete | vturb/api.py:34 | a status text is recognised exactly where one of the three statuses starts |
| Api.CodeMatchComplete | vturb/api.py:34 | a match is found exactly where three digits, a space and "OK", "Not Found" or "Internal Server Error" start |
| Api.MarkCodesSkip | vturb/api.py:33-37 | where no match starts before a place, the text up to that place is copied |
| Api.MarkCodesAt | vturb/api.py:33-37 | a match is replaced by the span of its code's class around the code, then the status, and marking resumes after the match |
| Api.MarkCodesFirst | vturb/api.py:33-37 | the text before the first match is kept, and the first match is marked as `MarkCodesAt` says |
| Api.MarkCodesNoMatch | vturb/api.py:33-37 | text in which no match starts is left as it is |
| Api.MarkCodesNoPattern | vturb/api.py:33-37 | text in which the code pattern starts nowhere is left as it is |
| Api.MarkCodesDigitFree | vturb/api.py:33-37 | text without digits is left as it is |
| Api.ReplaceLeavesNone | vturb/api.py:40 | under the conditions the styled tag meets, replacing leaves no occurrence of the pattern |
| Api.StyleTablesComplete | vturb/api.py:40 | no bare `<table>` survives the styling |
| Api.StyleTablesKeepsText | vturb/api.py:40 | without `<table>` the HTML is unchanged; otherwise the text before the first tag is kept, the tag is styled, and styling resumes after it |
| Api.TocItemsAppend | vturb/api.py:54-55 | the items of two runs of headings are the items of each, in order |
| Api.TocItemsEach | vturb/api.py:54-55 | each heading contributes exactly its own item, at its place in document order |
| Api.BuildToc | vturb/api.py:53-56 | the loop yields the opening, one item per heading in order, and the closing |
| Api.TocOffset | vturb/api.py:59 | right after the first `</h1>`; with no `</h1>`, `find` gives -1 and the offset is 4, or the whole text when it is shorter |
| Api.InsertAtRemovable | vturb/api.py:60 | the table of contents sits at the offset, and taking it out gives the HTML back |
| Api.AddToc | vturb/api.py:52-60 | no headings, no change; otherwise the table of contents is inserted at the offset |
| Api.ProcessMarkdown | vturb/api.py:19-62 | the five rewriting steps in their order |
| Api.Basename | vturb/api.py:117 | the result has no `/`, ends the path, and follows its last `/` |
| Api.BasenameOfName | vturb/api.py:117 | a name without `/` is its own basename |
| Api.Resolve | vturb/api.py:118-121 | `./analytics/<name>` as the lookup as written sees it: "" and "." are the analytics folder, ".." its parent, any other name a direct sub-folder when it is one |
| Api.ResolveChild | vturb/api.py:118-121 | the intended lookup: a folder is found exactly when the name is a folder directly under `./analytics` |
| Api.CsvNames | vturb/api.py:125 | the glob yields exactly the names ending in `.csv` |
| Api.CsvNamesAppend | vturb/api.py:125 | the glob works name by name, so its result follows the listing order |
| Api.FirstCsv | vturb/api.py:131 | the CSV served is the first `.csv` name in listing order |
| Api.GetCsvFileAsWritten | vturb/api.py:116-138 | a CSV is served exactly when the basename resolves to a folder holding a CSV; it is then the first `.csv` name of that folder's listing, under the basename, with media type `text/csv` |
| Api.ParentEscapes | vturb/api.py:117-138 | "..": the lookup as written serves a CSV from the parent of `./analytics` |
| Api.GetCsvFile | vturb/api.py:116-138 | a file is served only from a folder named by the basename, which has no `/` |
| Api.GetCsvFileCases | vturb/api.py:121-138 | 404 when the folder is missing or not a folder, 404 when it holds no CSV, otherwise its first CSV, with media type `text/csv` |
| Api.GetCsvFileAgrees | vturb/api.py:116-138 | for every name other than "", "." and ".." both versions answer alike |
| Api.FoldersOf | vturb/api.py:149-152 | exactly the listed names that are folders, at most as many as listed |
| Api.FoldersOfSnoc | vturb/api.py:149-152 | one more listed name is added at the end exactly when it is a folder |
| Api.FoldersOfAppend | vturb/api.py:149-152 | the comprehension works name by name, so the folders keep their listing order |
| Api.ListAvailableVideos | vturb/api.py:148-155 | a server error exactly when the folder cannot be listed; otherwise the count is the number of folders |
| App.RowParts | vturb/app.py:100-101 | newlines become " - ", then the text splits into at least one field, none holding a space |
| App.SplitRow | vturb/app.py:101-106 | no split exactly when there are fewer than two fields; views and downloads are single fields |
| App.SplitRowRejoins | vturb/app.py:72-76 | name, views and downloads joined by spaces give the row text back |
| App.SingleField | vturb/app.py:101-102 | text without space or newline is a single field and has no split |
| App.ListingsDisagreeOnShortRows | vturb/app.py:70-112 | both listings show the name of a row with two fields or more, and "N/A" for an unreadable one; a single-field row is "N/A" in the first listing and its own text in the repeated one |
| App.Hms | vturb/app.py:381-384 | h·3600 + m·60 + s is the whole number of seconds, m and s below 60, h not negative for a non-negative total |
| App.TimeSummaryValue | vturb/app.py:381-384 | the summary is at least two digits of hours, "h ", two digits of minutes, "m ", two digits of seconds and "s", which together read back as the whole seconds of the total |
| App.HmsUnique | vturb/app.py:382-384 | that decomposition is the only one with minutes and seconds below 60 |
| App.BackSteps | vturb/app.py:352-366 | three pages back, and a fourth exactly when the analytics link and the Download button both still show |
| App.VideosFrom | vturb/app.py:165-303 | a folder's videos abort the run only with an abort as their last event |
| App.VideoStep | vturb/app.py:165-370 | one video of the loop: a missing video adds its event and the loop goes on; a failed UTM step ends the events with the abort; a processed video adds its destination and back steps and the loop goes on |
| App.VisitVideos | vturb/app.py:165-370 | the loop over the videos counted in a folder yields the events and the abort of `VideosFrom` |
| App.WalkFrom | vturb/app.py:83-141 | the walk aborts only with an abort as its last event |
| App.WalkStep | vturb/app.py:83-377 | one folder of the loop: its events come first, and the walk goes on after it unless it stopped |
| App.Walk | vturb/app.py:83-377 | the folder loop over the count fixed before it yields the trace and the abort of `WalkFrom` |
| App.VideosFromShape | vturb/app.py:165-303 | one event per video, in index order, each decided by that video alone; only the last event can be an abort, and without an abort every video has its event |
| App.VideosAbortIff | vturb/app.py:286-303 | a folder's videos abort the run exactly when a listed video fails the UTM step |
| App.StopsIff | vturb/app.py:114-141 | the folder loop stops at a folder exactly when it is not listed or a video aborts; an empty folder does not stop it |
| App.WalkReaches | vturb/app.py:83-141 | a folder is reached when no earlier folder stopped: the walk is the events of the earlier folders, then the walk from it |
| App.WalkShape | vturb/app.py:64-119 | every event names a folder below the count fixed before the loop, in order; a missing folder or an abort can only be the last event; the walk aborted exactly when its last event is an abort |
| App.FolderShape | vturb/app.py:114-196 | a folder's events all name it, and only a stopping folder ends with a missing-folder event or an abort |
| App.AllGoodProcessesAll | vturb/app.py:83-377 | when every folder and video shows up and the UTM step works, the walk does not abort and processes every video of every folder |
| App.CloseFailureRegistersTwice | vturb/app.py:392-402 | a completed run whose browser fails to close adds a success and then a failure |
| App.RegistrationsAsWritten | vturb/app.py:392-402 | the first registration says whether the run completed; a second one, a failure, comes exactly when a completed run's browser fails to close |
| App.Registrations | vturb/app.py:392-402 | one registration, with whether the run completed |
| App.RegistrationsAgree | vturb/app.py:392-402 | the two versions agree exactly unless the close fails after completion, and even then the gate answers alike |
| App.Outcome | vturb/app.py:29-395 | the run completes exactly when the setup goes through and the walk does not abort |
| App.Execute | vturb/app.py:29-402 | the walk runs when the setup goes through; the total timer is stopped and the summary built only on completion; the records added carry the end time: a success, followed by a failure when the close fails, or else a single failure |
| App.Run | vturb/app.py:15-402 | records older than seven days are cleared first; a refused start changes nothing else; an allowed one has the trace, the records and the summary of `Execute` |
| App.CompletedRunBlocksPeriod | vturb/app.py:23-402 | after a completed run registered in the current period, a later start in that period is refused, even after the next clearing and whether or not a failed close added a failure |
| App.FailedRunRetried | vturb/app.py:23-402 | after a failed run, the next start is decided as if that run had not happened |
| Text.Find | vturb/api.py:59 | `str.find`: the first place the pattern occurs, or -1 exactly when it occurs nowhere |
| Text.ReplaceAbsent | vturb/api.py:40 | `str.replace` leaves text without the pattern unchanged |
| Text.ReplaceFirst | vturb/api.py:40 | `str.replace` keeps the text before the first occurrence, replaces the occurrence and resumes after it |
| Text.JoinSplit | vturb/app.py:73-76 | splitting on a character and joining with it gives the text back |
| Text.SplitJoin | vturb/app.py:73-76 | joining fields that lack the separator and splitting again gives the fields back |
| Text.NatToStringValue | vturb/logger.py:152 | the decimal text of a number is all digits and reads back as the number |
| Text.Pad2Value | vturb/app.py:384 | `:02d` of a value below 100 is two digits that read back as the value |

## Left out

- `vturb/browser.py` is not part of this model. Everything the browser
  does appears only through what it shows: `VideoObs` and `FolderObs`,
  plus the `setupOk` flag for loading the environment, opening the browser
  and logging in (`app.py:31-80`).
- The retries of `app.py:213-270` and the download menu, CSV option and
  download wait of `app.py:308-328`. They only log, and they never stop
  the walk, so the model has no event for them.
- Clicks on elements that were found (the double clicks, the analytics
  and traffic links), the page loads `browser.visit` (`app.py:140`,
  `app.py:375`) and the history jumps `window.history.go(-3)` and
  `window.history.go(-1)` (`app.py:354`, `app.py:365`) are taken to
  succeed. An exception from any of them would end the run through the
  outer handler like the UTM failures do; the observations have no field
  for it.
- The CSV move inside the walk: the model records the destination folder
  in the `Processed` event. The move itself is `Files.FileSystem.MoveCsvFiles`,
  and `Run` does not call it. Its errors are caught and logged
  (`app.py:342-349`); the CSVs moved before the error stay moved.
- `App.Run`: the log lines of the walk and the timers other than
  `execucao_total` are not modelled. Its contract says nothing about
  `startTimes` beyond that one timer.
- Real time: `datetime.now`, `time.time`, sleeps and waits. Clock readings
  are parameters. Elapsed times are whole hundredths of a second, not
  floats.
- `Logging.Seconds2`: the `:.2f` text is modelled for whole hundredths,
  with a minus sign for negative values. Rounding of other floats is not
  modelled.
- The float path of `format_number` (`logger.py:153-155`) and its fallback
  for text that is not a number. `Logging.FormatInteger` covers the path
  for whole numbers only.
- TinyDB storage, its JSON file and its `Query` objects. The table is a
  sequence in memory.
  - Dates are day numbers. The source compares ISO date strings, which
    order the same way.
  - The `timestamp` field of a record is never read, so it is left out.
- `Executions.ExecutionManager.RegisterExecution`: the date and time are
  parameters rather than read from the clock.
- The regex substitutions for HTTP blocks and parameters (`api.py:25-30`,
  `43-48`) are passed to `Api.ProcessMarkdown` as functions. The heading
  search (`api.py:51`) is passed as the list of headings it yields.
- `read_root` and `markdown2`, the template file and FastAPI routing
  (`api.py:64-103`). `HTTPException` and `FileResponse` are replaced by
  the `Response` datatype.
- The file system behind `os.path.exists`, `isdir`, `listdir` and the glob.
  They are given as an `Analytics` value. Whether the listing can be read
  is a flag. The `./analytics` folder itself is taken to exist: when it is
  missing, the source answers 404 "Pasta '<name>' não encontrada" for "", "."
  and ".." as for every name (`api.py:121-122`), where `Api.Resolve`
  still resolves "" and "." to the analytics folder and ".." to its
  parent.
- `Files.FileSystem.MoveCsvFiles`: the error raised is not modelled, only
  that one was raised; a listing that cannot be read is the flag `listed`.
- `print` and terminal colours (`logger.py:31-40`, `107`; `files.py:13`).
- Creating the `logs` folder and the log-file name from the clock
  (`logger.py:7-12`, `158-163`).
- `Logging.LimitLogFiles`: `glob` and `os.path.getmtime` are inputs. The
  files that cannot be removed are given as a set. Error messages are not
  modelled.
- `Executions.OncePerPeriod`: requires every run to end on the day and in
  the period it started in. A run is registered with the clock reading at
  its end, so one that crosses 17:00, 05:00 or midnight counts for the
  later period. `Executions.LateEndSecondSuccess` shows such a day with two
  afternoon successes; once per period is not promised there.
- `Executions.ParseClock` accepts only two-digit fields. `strptime` also
  accepts one-digit fields such as `5:0:0`. The table only holds texts
  written by `strftime('%H:%M:%S')`, which always have two digits.
- `Api.CodeMatch` takes `\d` as the ASCII digits 0-9. Python's `\d` on a
  `str` also matches the other Unicode decimal digits.
- `Api.ResolveChild`: the intended lookup, which refuses "", "." and "..".
  The lookup as written, `Api.Resolve`, resolves them to the analytics
  folder and its parent; `Api.GetCsvFileAsWritten` uses it and
  `Api.GetCsvFile` uses `Api.ResolveChild` (see Findings).
- `App.Registrations`: one registration per run, as intended. `App.Execute`
  and `App.Run` follow the code as written, `App.RegistrationsAsWritten`.
- `App.Execute`: when the browser fails to close, both records carry the
  same end time. The code reads the clock again for the second one.
- `Logging.Oldest`: the intended selection. `Logging.LimitLogFiles`
  follows the slice as written, `Logging.OldestAsWritten`, which agrees
  with it for every positive limit.
- `Text.Lower`/`Text.Upper` map ASCII letters only. Python's full Unicode
  case mapping is not modelled. This matters for `title.upper()` in
  headers and `file.lower()` in the CSV test.

## Findings

| source | as written | input that shows it | evidently intended | confidence | as-written member | corrected member |
|---|---|---|---|---|---|---|
| vturb/logger.py:21 | `log_files[:-max_files]` selects the files to delete | `max_files = 0` with log files present: `[:-0]` is `[:0]`, so nothing is deleted | with a limit of 0 every file is deleted, as for every other limit the count minus the limit | medium (the caller passes 10); not executed | Logging.ZeroLimitKeepsEverything | Logging.Oldest |
| vturb/api.py:117-121 | `basename` is taken as enough to stay inside `./analytics` | `video_name = ".."`: its basename is "..", so the folder is `./analytics/..` and its first CSV is served | only direct sub-folders of `./analytics` are served | high; not executed | Api.ParentEscapes | Api.GetCsvFile |
| vturb/app.py:392-402 | `register_execution(success=True)` comes before `browser.close()` inside the `try` | a run that completes and whose `browser.close()` raises | each run registered exactly once | medium (the extra record is a failure, which the gate ignores); not executed | App.CloseFailureRegistersTwice | App.Registrations |
