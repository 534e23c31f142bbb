# Calendar file creator — a verified model

`CalendarFileCreator` keeps a folder tree of daily markdown notes, one per
category (work, note, workout, youtube, news) per day, under
`<root>/<year>/<MM>-<Month>/<DD>-<Weekday>/<category>.md`. Each run first
deletes notes from past days that were never filled in. Then it creates fresh
notes, each holding a one-line title, from now until Dec 31 of the later of
the latest year folder and the current year. Environment settings switch creation and deletion on per category.

This project models that logic as pure Dafny over:

- proleptic Gregorian dates in Python's range 1..9999;
- date-times as a date plus microseconds since midnight, so the loops'
  full date-time comparison is exact;
- a settings map from variable name to text;
- a filesystem as a map from path (a sequence of segments) to file text;
- a clock reading `now` and a listing of the root folder, both given as inputs.

Modules, leaf first:

- `Dates`: validity, next day, ordinals, weekday and month names.
- `Text`: `str(n)`, `f"{n:02d}"`, `int(s)`, `strip()`, `lower()` and `capitalize()`.
- `Settings`: the categories, the setting names and the flag reading.
- `Layout`: the folder scheme, the title and the title-only recogniser.
- `Policy`: the creation gate, the deletion of an empty past note, and one `_create_file` step.
- `Ranges`: the dates a `while current <= end` loop visits.
- `Calendar`: whole passes over dates and categories, and what they preserve.
- `Creator`: the loops as methods, the latest-year scan, `clean_empty_files`, `create_files_for_range` and `main`.

Two ways a run ends with an exception are modelled, as a `Status`.
`OverflowError` comes from stepping past 9999-12-31.
`datetime(y, 12, 31)` for a year folder outside 1..9999 raises `ValueError`, or
`OverflowError` for a year of 2^31 or more; both end the run with nothing changed.

Where the code differs from its obvious reading, the model follows the code:

- Inside `_create_file`, the deletion of an empty past note runs only after the
  creation gate has passed. With the gate closed, a stale note stays
  (`Policy.ClosedGateKeepsStale`). With it open, the stale note is rewritten
  with the current title (`Policy.CreateFileRewritesStale`).
- The range loops compare full date-times. `main` starts at the current
  date-time and ends at midnight on Dec 31, so the last day is visited only
  when the run starts exactly at midnight. A run on Dec 31 after midnight,
  with no later year folder, creates nothing (`Creator.CreationLastDay`,
  `Creator.DecemberLastRunCreatesNothing`).
- The year folder is `str(year)`, with no padding to four digits.

## Model

| member | source | states |
|---|---|---|
| Dates.NextDay | calendar_files_creator.py:182 | adding one day gives a valid date strictly later than the given one, with no valid date in between |
| Dates.MakeDate | calendar_files_creator.py:187-189 | `datetime(y, m, d)`: a date exactly when the year is in 1..9999, the month in 1..12 and the day within the month, and otherwise the case where Python raises |
| Dates.OrdinalNextDay | calendar_files_creator.py:182 | one day forward is exactly one ordinal (days since 0001-01-01) forward, across month, year and leap-year ends |
| Dates.WeekdayNextDay | calendar_files_creator.py:72 | the weekday used for `%A` advances cyclically by one per day |
| Dates.BeforeIffOrdinal | calendar_files_creator.py:113 | the date comparison used for "past" is exactly the order of ordinals |
| Dates.OrdinalInjective | calendar_files_creator.py:113 | distinct valid dates have distinct ordinals |
| Dates.WeekdayExample | calendar_files_creator.py:72 | the weekday computation agrees with the calendar on a known date: 15 March 2024 is a Friday |
| Dates.Weekday | calendar_files_creator.py:72 | the weekday index of `date.weekday()`, Monday 0 to Sunday 6, from the day count since 0001-01-01 |
| Dates.WeekdayName | calendar_files_creator.py:72 | `strftime('%A')`: the English weekday name |
| Dates.MonthName | calendar_files_creator.py:71 | `strftime('%B')`: the English month name |
| Text.ParseDigits | calendar_files_creator.py:35 | `int(x.name)` on a name of ASCII digits, leading zeros allowed |
| Text.NatToString | calendar_files_creator.py:70 | `str(year)` is a non-empty digit string without leading zero that parses back to the year |
| Text.NatToStringInjective | calendar_files_creator.py:70 | distinct years give distinct year folder names |
| Text.Pad2 | calendar_files_creator.py:71-72 | `f"{n:02d}"` is two digits whose value is n |
| Text.Strip | calendar_files_creator.py:86 | the stripped text neither starts nor ends with whitespace, and is empty exactly when the input is all whitespace |
| Text.StripSurrounded | calendar_files_creator.py:86 | stripping a trimmed text wrapped in whitespace gives back exactly that text |
| Text.Lower | calendar_files_creator.py:42 | lowering keeps the length and lowers each character |
| Text.Capitalize | calendar_files_creator.py:94 | the first character is upper-cased and the rest lower-cased |
| Settings.CategoryListed | calendar_files_creator.py:12-18 | every category is in the creator's table of five |
| Settings.FlagOnSpelling | calendar_files_creator.py:41-67 | a setting is on exactly when it is present and reads "true" in any mix of letter cases; an unset setting is off |
| Settings.FlagOn | calendar_files_creator.py:41-67 | a setting is on when it is set and its value lowers to "true"; an unset setting reads as "false" |
| Settings.CreationSetting | calendar_files_creator.py:44-67 | the creation setting of a category: `CAN_CREATE_FUTURE_<CAT>_FILES` for a future date, `CAN_CREATE_<CAT>_FILES` otherwise |
| Settings.DeletionSetting | calendar_files_creator.py:19-25 | the deletion setting of a category, `CAN_DELETE_EMPTY_PAST_<CAT>_FILES` |
| Layout.FolderPath | calendar_files_creator.py:69-77 | the three segments are the year in decimal, the zero-padded month then `-` and the month name, and the zero-padded day then `-` and the weekday name |
| Layout.FilePathInjective | calendar_files_creator.py:69-77 | distinct (date, category) pairs under one root never share a file path |
| Layout.FilePath | calendar_files_creator.py:150-154 | a note's path: the root, the three folders of its date, then `<category>.md` |
| Layout.DayText | calendar_files_creator.py:93 | the day text: unpadded day, weekday name, month name and year, separated by single spaces |
| Layout.Title | calendar_files_creator.py:164-165 | the content of a new note: `# `, the day text, ` - ` and the capitalized category name |
| Layout.LegacyTitle | calendar_files_creator.py:97 | the older title without the category suffix |
| Layout.TitleOnly | calendar_files_creator.py:84-102 | the recogniser on a file's text: after stripping, nothing is left, or the title, or the legacy title |
| Layout.TitleRecognised | calendar_files_creator.py:79-102 | the title `_create_file` writes, even wrapped in whitespace, counts as empty for the same date and category |
| Layout.LegacyTitleRecognised | calendar_files_creator.py:96-99 | the legacy title without the category suffix, even wrapped in whitespace, counts as empty |
| Layout.BlankRecognised | calendar_files_creator.py:86-90 | all-whitespace text, including no text, counts as empty |
| Layout.TitleInjective | calendar_files_creator.py:164-165 | the written title determines its date and category |
| Layout.TitleNotLegacy | calendar_files_creator.py:94-97 | a current title never equals a legacy title |
| Layout.TitleOnlyExact | calendar_files_creator.py:79-102 | a written title counts as empty for exactly its own date and category and for no other pair |
| Layout.DayTextInjective | calendar_files_creator.py:93 | the day text, followed by anything that does not start with a digit, determines the date |
| Policy.IsFileEmpty | calendar_files_creator.py:79-102 | `_is_file_empty`: a missing file is never empty; an existing one is when its text is title-only |
| Policy.CreationAllowed | calendar_files_creator.py:135-147 | by bucket, comparing dates only: a past date needs both the past setting and `CAN_CREATE_<CAT>_FILES`; today needs only `CAN_CREATE_<CAT>_FILES`; a future date needs only `CAN_CREATE_FUTURE_<CAT>_FILES` |
| Policy.DeleteEmptyPastFile | calendar_files_creator.py:107-131 | only the note's own path can change; it disappears exactly when it exists, its date is strictly before today, the deletion setting is on and it is empty or title-only; a missing note is never deleted |
| Policy.CreateFile | calendar_files_creator.py:133-172 | no other path changes; a closed gate changes nothing; an open gate leaves a file at the path; no file is removed; the file holds its old text or the title; a note that is not title-only keeps its text; a present note not due for deletion (dated today or later, deletion setting off, or not title-only) is kept byte-identical; a missing note receives exactly the title |
| Policy.CreateFileRewritesStale | calendar_files_creator.py:156-165 | with the gate open, a due title-only note is deleted and written again with the current title |
| Policy.ClosedGateKeepsStale | calendar_files_creator.py:138-157 | with the past setting off, a due title-only past note survives the creation step but not the deletion check alone |
| Ranges.DatesInRange | calendar_files_creator.py:178-182 | the dates `while current <= end` visits from `start`, stepping one day, with the start's time of day carried along; the walk stops after 9999-12-31 |
| Ranges.RangeShape | calendar_files_creator.py:178-182 | nothing is visited exactly when start is after end; the first visited date is the start's; every visited date is within the bound at the start's time of day; consecutive visits are consecutive days |
| Ranges.RangeAscending | calendar_files_creator.py:178-182 | visited dates strictly increase, so no date is visited twice |
| Ranges.RangeComplete | calendar_files_creator.py:178-182 | every date from the start's date on that is within the bound at the start's time of day is visited |
| Calendar.Step | calendar_files_creator.py:174-176 | one (date, category) step: `_create_file` when creating, `_delete_empty_past_file` when cleaning |
| Calendar.ForCategories | calendar_files_creator.py:174-176 | the steps for one date over a list of categories, in order |
| Calendar.ForDates | calendar_files_creator.py:178-197 | the steps for a list of dates, each over all five categories, in order |
| Calendar.StepLocal | calendar_files_creator.py:133-172 | one step changes nothing outside its own note |
| Calendar.StepSettles | calendar_files_creator.py:107-172 | after one step, a second identical step would change nothing |
| Calendar.PassIdempotent | calendar_files_creator.py:184-197 | running a creation or cleaning pass twice over the same dates gives the same filesystem as running it once |
| Calendar.PassKeepsNotDue | calendar_files_creator.py:107-172 | a present note that is not due for deletion is left unchanged by any pass |
| Calendar.PassLocal | calendar_files_creator.py:174-197 | a pass changes no path outside the notes of its dates |
| Calendar.CleaningShrinks | calendar_files_creator.py:184-197 | a cleaning pass never creates a file and never changes a file's text |
| Calendar.CleaningRemovesDue | calendar_files_creator.py:184-197 | after cleaning, the note of a visited date and category exists exactly when it existed and was not due for deletion |
| Calendar.CreatingGrows | calendar_files_creator.py:174-182 | a creation pass never removes a file for good |
| Calendar.CreatingFillsAllowed | calendar_files_creator.py:174-182 | after a creation pass, every visited note whose gate is open exists |
| Calendar.CreatingOnlyAllowed | calendar_files_creator.py:135-147 | a creation pass never creates a note whose gate is closed; with the past setting off, no note appears for a date before today |
| Calendar.CreatingWritesOnlyTitles | calendar_files_creator.py:149-170 | after a creation pass, each note holds its original text or the current title |
| Creator.MaxYearDir | calendar_files_creator.py:34-38 | the result is absent exactly when no entry is an all-digit directory; otherwise it is the value of one of them and at least every other one |
| Creator.LatestYear | calendar_files_creator.py:31-39 | the latest year is the largest all-digit directory name, even when that is below the current year; it is the current year only when there is no such directory |
| Creator.ProcessDate | calendar_files_creator.py:174-176 | one step per category, in the order work, note, workout, youtube, news |
| Creator.ProcessRange | calendar_files_creator.py:178-182 | the loop processes exactly the visited dates in order, and raises exactly when 9999-12-31 is among them |
| Creator.YearEnd | calendar_files_creator.py:189 | `datetime(y, 12, 31)` is a valid midnight in year y, at or after the midnight of every date of that year |
| Creator.YearEndMade | calendar_files_creator.py:189 | `datetime(y, 12, 31)` raises exactly for years outside 1..9999, and otherwise gives the Dec 31 midnight that bounds the cleanup |
| Creator.CleanEmptyFiles | calendar_files_creator.py:184-197 | default bounds are 2000-01-01 and Dec 31 of the latest year, and a year for which `datetime(y, 12, 31)` raises ends the call before any deletion; the result is the cleaning pass over the visited dates; cleaning never adds or rewrites a file; cleaning the result again changes nothing |
| Creator.CreateFilesForRange | calendar_files_creator.py:178-182 | the result is the creation pass over the visited dates; no file is lost; every visited note whose gate is open exists; no note whose gate is closed is created |
| Creator.CreationEnd | calendar_files_creator.py:208-212 | the creation range ends at midnight on Dec 31 of the later of the latest year and the current year |
| Creator.CreationCovers | calendar_files_creator.py:208-214 | every date from today up to the day before that Dec 31 is visited by the creation loop |
| Creator.CreationLastDay | calendar_files_creator.py:208-214 | the final Dec 31 is visited exactly when the run starts at midnight |
| Creator.DecemberLastRunCreatesNothing | calendar_files_creator.py:208-214 | on Dec 31 after midnight, with no later year folder, the creation range is empty |
| Creator.Run | calendar_files_creator.py:199-214 | an unusable latest year raises with nothing changed; otherwise the run is the cleaning pass, then, unless that raised, the creation pass from now to the creation end |

## Left out

- Settings loading (`load_dotenv`, `os.getenv`) becomes a map from name to
  text. An unset name reads as off, as the `'false'` default does.
- `str.lower()` and `str.capitalize()` are modelled on ASCII letters only.
  `str.isdigit()` is modelled on the ASCII digits only, so non-ASCII digit names
  of directories are not modelled.
- `strftime('%B')` and `strftime('%A')` are assumed to give English names.
- The clock is read once per run, as `now` in `Env`. The source calls
  `datetime.now()` at every check, so a run that crosses midnight is not
  modelled.
- `_find_latest_year` is called twice, in `main` and at the start of
  `clean_empty_files`. The model scans one listing for both: nothing touches
  the filesystem between the two calls, because the second runs before the
  cleanup loop starts.
- A failing `mkdir` in `_create_folder_structure` is not modelled. It is
  outside any `try`, so a `FileExistsError` (a regular file where a folder
  should be) or a `PermissionError` there ends the run.
- Directory creation is not modelled: `mkdir` at startup, in
  `_create_folder_structure` and, as a side effect, for every date the cleanup
  visits. The filesystem holds files only.
- Read, write and delete failures are not modelled. The source catches them,
  prints them and carries on. A failed read or delete leaves the file as it
  was. A write that fails after `open(file_path, 'w')` has created the file
  leaves an empty or partial note behind, which the model does not represent.
- The `print` logging is output only and is left out.
- The missing-flag branch of `_delete_empty_past_file` is not modelled. Every
  category has a deletion setting, so that branch never runs.
- The `dateutil` import is unused and is left out.
- `clean_empty_files` called with explicit bounds is modelled for date-time
  bounds only, not for plain `date` values.
