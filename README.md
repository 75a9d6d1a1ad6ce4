# writelightly, modelled in Dafny

writelightly is a curses journal: one text entry per day, shown on a
month calendar. Every edit of an entry leaves a reverse patch in a diff
directory, so any earlier version can be rebuilt. Per-month statistics
(lines, words, tags, size, edit history) are kept in a metadata file, and
a tag listing is built from them. This project models the parts of the
program that decide what is stored and shown, and proves what they
promise:

- **Revision log** (`revisions.dfy`, `journal.dfy`):
  - how diff files are named, listed (`get_edits`) and replayed
    backwards (`save_tmp_version`);
  - the file-system effects of `edit_date` and `clean_tmp`;
  - the theorem that replaying the stored patches from the current entry
    gives back the text right after every earlier edit.
- **Month metadata** (`metadata.dfy`):
  - line, word and tag counting;
  - the edit summary;
  - the tag index, the dirty flag, the text panel, and the registry of
    one object per month.
- **Utilities** (`utils.dfy`): `lastday`, `format_size`,
  `get_all_months`, `parse_date` and `get_char`.
  - They rest on `dates.dfy`, the proleptic Gregorian calendar of
    Python's `datetime.date`.
  - They also rest on `strings.dfy`, Python 2 string operations: strip,
    split, join, `'%d'` and `int()`.
- **Calendar** (`calendar.dfy`): the Monday-first grid of weeks and the
  selection the arrow keys move.
- **Scrollable list** (`scrolllist.dfy`).
- **Prompt text input** (`textinput.dfy`).
- **Screen column layout and resize loop** (`screen.dfy`).
- **Configuration** (`conf.dfy`).
- **Tag listing** (`tags.dfy`).

`sorting.dfy` is a stable insertion sort. Its lemmas show that a sorted
permutation is unique, which is what makes Python's `sorted` a function
of the set being sorted. `wrappers.dfy` holds `Option`, `Result` and the
Python exceptions the model reports.

The repository carries older copies of several modules. Where a copy does
what the newer file does, the same member models it. The table cites the
newer file; the older copies map to the members as follows:

- `calendar.py`:
  - `lastday` (4-15) is `Utils.LastDay`;
  - the grid of `draw` (28-48) is `MonthCalendar.BuildGrid`, with the
    offsets `x0` and `y0`;
  - its selection (50-58) is `MonthCalendar.FindDay`;
  - `_move` (71-78) is `MonthCalendar.Calendar.Move`;
  - `move_left` (80-89) and `move_right` (91-100) are
    `MonthCalendar.LeftDay` and `MonthCalendar.RightDay`;
  - `move_up` (102-110) and `move_down` (112-118) are
    `MonthCalendar.UpDayLemma` and `MonthCalendar.DownDayLemma`;
  - `get_current_date` (120-123) is `MonthCalendar.Calendar.CurrentDate`;
  - `set_entry_exists_for_current_day` (125-129) is
    `MonthCalendar.SetFlag`.
- `wl.py`:
  - `lastday` (17-20) is `Utils.LastDay` on one date;
  - the grid (27-47) is `MonthCalendar.BuildGrid`;
  - the keys (72-99) are `MonthCalendar.KeyTargetDay`;
  - Enter (100-106) refreshes a flag as `MonthCalendar.SetFlag` does;
  - the move (107-110) is `MonthCalendar.Calendar.Move`;
  - `parse_date` (112-124) is `Utils.ParseDate`.
- `cal.py`:
  - `lastday` (8-11) is `Utils.LastDay`;
  - the grid (14-33) is `MonthCalendar.BuildGrid` without flags;
  - the keys (57-84) are `MonthCalendar.KeyTargetDay`;
  - the move (85-88) is `MonthCalendar.Calendar.Move`.
- `textinput.py`:
  - `__init__` (5-12) is `TextInput.TextInput.constructor`;
  - `do_command` (14-47) is `TextInput.TextInput.DoCommand`, with
    `TextInput.CommandKeepsPrefix` about it;
  - `gather` (55-56) is `TextInput.TextInput.GatherValue`.
- `conf.py`:
  - `_process_value` (76-81) is `Config.ProcessValue`;
  - `__init__` (62-74) is `Config.ConfigManager.constructor`;
  - `__getattr__` (83-87) is `Config.ConfigManager.GetAttr`.
- `edit.py`:
  - `get_edits` (65-76) is `Revisions.GetEdits`;
  - `save_tmp_version` (78-95) is `Journal.Journal.SaveTmpVersion`, and
    `Revisions.Reconstructs` holds for it;
  - `clean_tmp` (97-103) is `Journal.Journal.CleanTmp`;
  - the diff step of `edit_date` (45-57) is `Journal.StoreOutcomeCases`.

Where an older copy differs, it has its own member:
- `Journal.Journal.EditDateLegacy`: the older `edit_date` makes the diff
  directory only after the editor has run.
- `Config.LoadLegacy` and `Config.LegacyDirsFixed`: the older
  configuration derives no directories from the user's `data_dir`.
- `MonthCalendar.KeyTarget`: the key dispatch of `wl.py` and `cal.py`.

How outside effects are modelled:
- **Files.** A directory tree is a `map<string, Node>`.
- **Diff library.** The model never interprets the diff library
  (`diff_match_patch`). It is a value `Codec` holding two functions:
  `diff`, which is `get_diff`, and `apply`, which is `patch_apply`. Every
  theorem that depends on it takes the predicate `Sound(c)`:
  - applying `diff(one, two)` to `one` gives `two`;
  - the empty patch changes nothing;
  - equal texts have an empty diff.

  `Revisions.SoundCodecExists` shows that such a codec exists.
- **Parameters.** The clock (`now`, `today`), the editor's result
  (`after`), the window size, the environment and the user's settings are
  all passed in as parameters.
- **Errors.** Exceptions are `Err` results.

## Model

| member | source | states |
|---|---|---|
| Utils.MonthArgs | writelightly/utils.py:20-27 | `lastday` accepts exactly one date or two ints; any other argument list is `TypeError` |
| Utils.LastDay | writelightly/utils.py:11-30 | a bad argument list is `TypeError`; any other failure is `ValueError` or `OverflowError`; a result is always 28..31 |
| Utils.LastDayIsMonthLength | writelightly/utils.py:28-30 | for every representable month before December 9999, `lastday` is that month's length (December rolls over to January) |
| Utils.LastDayExamples | writelightly/utils.py:15-18 | the documented examples `lastday(2011, 11) == 30`, `lastday(date(2011, 2, 1)) == 28`, leap February, December, and the three `TypeError` cases |
| Utils.LastDayMaxYear | writelightly/utils.py:28-30 | as written, `lastday(9999, 12)` is `ValueError` although December 9999 has a last day (31) |
| Utils.LastDayOfMonth | writelightly/utils.py:11-30 | corrected `lastday`: defined exactly for representable months, is the month's length, the last valid day of the month |
| Utils.FormatSize | writelightly/utils.py:38-44 | a size up to 1024 is written `'<n> B'`; larger sizes take the KiB branch |
| Utils.FormatSizeParses | writelightly/utils.py:44 | the number in front of `" B"` parses back to the size |
| Utils.LexLeTotalOrder | writelightly/utils.py:60 | Python's tuple comparison is a total order |
| Utils.MonthTuples | writelightly/utils.py:57-58 | each listed name becomes the integers of its `-`-separated fields, in order, or `ValueError` |
| Utils.GetAllMonths | writelightly/utils.py:49-60 | strictly ascending, no repeats, exactly the tuples of the names, every tuple has at least two numbers; errors are `ValueError` (not numbers) or `IndexError` (one number) |
| Utils.AllMonthsOfEntries | writelightly/utils.py:49-60 | over month directories named by `strftime('%Y-%m')`, the result is exactly the `(year, month)` pairs of those dates |
| Utils.FirstMatch | writelightly/utils.py:68-72 | a match captures four digits of year and two each of month and day |
| Utils.ParseDate | writelightly/utils.py:62-75 | `today` is today and `yesterday` the day before; a date is always valid; `None` exactly when neither keyword nor any pattern matches; errors are `ValueError`, or `OverflowError` for `yesterday` on 0001-01-01 |
| Utils.ParseIsoFormat | writelightly/utils.py:68 | every date written as an ISO 8601 calendar date (`YYYY-MM-DD`) reads back as itself |
| Utils.ParseUsFormat | writelightly/utils.py:69 | every date written `MM/DD/YYYY` reads back as itself |
| Utils.ParseDottedFormat | writelightly/utils.py:70 | every date written `DD.MM.YYYY`, with any separator but a newline or a slash, reads back as itself |
| Utils.ParseDateIgnoresRest | writelightly/utils.py:71 | matching is anchored at the start only: text after a recognised date is ignored |
| Utils.FirstPatternWins | writelightly/utils.py:68-74 | `03/04/2011` is March 4th: the second pattern wins over the third, which would read April 3rd |
| Utils.DottedPattern | writelightly/utils.py:70 | the unescaped `.` of the third pattern accepts any separator (`04.03.2011`) |
| Utils.ParseDateInvalid | writelightly/utils.py:74 | a match naming no date (`2011-02-30`) raises `ValueError` |
| Utils.ParseDateNoMatch | writelightly/utils.py:75 | a string no pattern matches gives `None` |
| Utils.Window.GetCh | writelightly/utils.py:85 | `getch` returns the next code and consumes it; `-1` once there are none |
| Utils.Continuations | writelightly/utils.py:93-108 | lead bytes 194-223, 224-239 and 240-244 announce 1, 2 and 3 continuation bytes, anything else none |
| Utils.ReadKey | writelightly/utils.py:77-110 | a character is its lead byte plus exactly the announced continuation bytes; a code is returned alone; it fails, with `UnicodeError` only, exactly when a lead byte announces continuation bytes and one of them is not one, consuming the codes up to that one |
| Utils.ReadKeyUtf8 | writelightly/utils.py:92-110 | a UTF-8 sequence (section 3 of RFC 3629) beyond ASCII is read as its bytes and nothing after them |
| Utils.ReadKeyAscii | writelightly/utils.py:93-94 | an ASCII code is returned as it is, consuming one code |
| Utils.ReadKeyLoose | writelightly/utils.py:84-89 | continuation bytes are not checked against the lead: an overlong form is accepted, a non-continuation byte raises |
| Utils.GetCheckNextByte | writelightly/utils.py:84-89 | returns the next code if it is 128..191, else `UnicodeError`; the code is consumed either way |
| Utils.GetChar | writelightly/utils.py:77-110 | returns what `ReadKey` reads and consumes exactly the codes it read |
| Dates.MakeDate | writelightly/utils.py:74 | `datetime.date(y, m, d)` succeeds exactly for an existing date of years 1..9999 |
| Dates.DayBefore | writelightly/utils.py:67 | the day before is a valid date; `OverflowError` only for 0001-01-01 |
| Dates.DayBeforeOrdinal | writelightly/utils.py:67 | the day before is exactly one day number earlier |
| Dates.DayBeforeWeekday | writelightly/utils.py:67 | the day before falls on the previous weekday |
| Dates.OrdinalInjective | writelightly/utils.py:28-30 | distinct valid dates have distinct day numbers |
| Dates.Weekday | writelightly/calendar.py:41-42 | `weekday()` is 0..6 |
| Dates.MonthName | writelightly/edit.py:32-33 | `strftime('%Y-%m')` succeeds exactly from 1900 on, else `ValueError` |
| Dates.DayName | writelightly/edit.py:41 | `strftime('%d')` is two digits whose value is the day |
| Dates.MonthNameParses | writelightly/utils.py:58 | a month directory's name splits into its year and month again |
| Strings.StripEmptyIffBlank | metadata.py:58 | `not line.strip()` holds exactly for blank lines |
| Strings.SplitJoin | writelightly/edit.py:82 | joining the fields of `split(sep)` with `sep` gives the string back |
| Strings.PyIntNatToDec | writelightly/edit.py:52 | `int('%d' % n) == n` |
| Strings.IntToDecParses | writelightly/edit.py:82 | `int('%d' % i) == i` for negative numbers too |
| Strings.PathJoinEnds | writelightly/edit.py:42 | `os.path.join(a, b)` ends with `b`, and an absolute `b` replaces `a` |
| Sorting.SortElements | writelightly/edit.py:86 | sorting keeps the length and exactly the elements |
| Sorting.SortedUnique | writelightly/edit.py:86 | two sorted permutations of the same elements under a total order are equal |
| MonthCalendar.RowsBounds | writelightly/calendar.py:49-58 | a month takes 4 to 6 weeks, just enough for the padding and its days |
| MonthCalendar.ShowsDayAt | writelightly/calendar.py:39-59 | in a built grid, day `k` is shown exactly at `PosOf(lead, k)` |
| MonthCalendar.ColumnIsWeekday | writelightly/calendar.py:41-42 | every day is shown in the column of its weekday, Monday first |
| MonthCalendar.BuildGrid | writelightly/calendar.py:39-59 | the loop builds whole weeks of seven slots: `weekday(first)` empty slots, day `k` at `x = x0 + 3 * column`, `y = y0 + 1 + row`, with its flag, then empty slots |
| MonthCalendar.FindDay | calendar.py:50-58 | the selection loop finds the slot showing the day, if any |
| MonthCalendar.FoundPosOf | writelightly/calendar.py:66-75 | in a month's grid a slot is found exactly for a day of the month, at `PosOf` |
| MonthCalendar.LeftDay | writelightly/calendar.py:97-111 | left selects the previous day and stays on the 1st |
| MonthCalendar.RightDay | writelightly/calendar.py:113-127 | right selects the next day and stays on the last |
| MonthCalendar.UpDay | writelightly/calendar.py:129-141 | same weekday, a week earlier, or from the first week the month's last such day |
| MonthCalendar.DownDay | writelightly/calendar.py:143-153 | same weekday, a week later, or from the last week the month's first such day |
| MonthCalendar.UpDayLemma | writelightly/calendar.py:129-141 | `move_up`'s target slot shows `UpDay`, never an empty slot |
| MonthCalendar.DownDayLemma | writelightly/calendar.py:143-153 | `move_down`'s target slot shows `DownDay`, never an empty slot |
| MonthCalendar.UpWrap | writelightly/calendar.py:137-140 | from the top, up lands on the last week holding the same weekday |
| MonthCalendar.DownWrap | writelightly/calendar.py:151-152 | from the bottom, down lands on the first week holding the same weekday |
| MonthCalendar.UpDownInverse | writelightly/calendar.py:129-153 | away from the edges, up undoes down and down undoes up |
| MonthCalendar.KeyDay | wl.py:72-99 | every key leaves the selected day within the month |
| MonthCalendar.KeyTargetDay | wl.py:72-99 | the slot a key of wl.py selects shows the day `KeyDay` names |
| MonthCalendar.SetFlag | writelightly/calendar.py:168-173 | only the selected cell's flag changes |
| MonthCalendar.SetFlagShaped | calendar.py:125-129 | changing a flag keeps the grid a month's grid |
| MonthCalendar.NextPrevInverse | writelightly/calendar.py:185-196 | next and previous month roll December and January over the year and undo each other |
| MonthCalendar.Calendar.constructor | writelightly/calendar.py:18-60 | the initial day is today's when none is given and at most the month's last day; every slot of the grid is the one `Expected` names, as `BuildGrid` builds it; nothing selected |
| MonthCalendar.Calendar.EnoughSpace | writelightly/calendar.py:175-176 | `enough_space(y, x)` exactly when `y` is at least the weeks plus one and `x >= 20` |
| MonthCalendar.Calendar.SevenLinesSuffice | writelightly/calendar.py:60 | every month fits 7 lines by 20 columns, none fits 4 lines |
| MonthCalendar.Calendar.CurrentDay | writelightly/calendar.py:155-161 | a day exactly when something is selected: a day of the month, shown at the selection |
| MonthCalendar.Calendar.CurrentDate | writelightly/calendar.py:163-166 | the selected date is a valid date of this month, or `None` |
| MonthCalendar.Calendar.Draw | writelightly/calendar.py:62-76 | keeps a selection, or else selects the initial day |
| MonthCalendar.Calendar.Move | writelightly/calendar.py:80-95 | called with a selection and a target that are both filled slots, as `_change` unpacks them; selects the target and reports `True` exactly when the selection changed |
| MonthCalendar.Calendar.MoveLeft | writelightly/calendar.py:97-111 | the previous day; `False` exactly on the 1st |
| MonthCalendar.Calendar.MoveRight | writelightly/calendar.py:113-127 | the next day; `False` exactly on the last day |
| MonthCalendar.Calendar.MoveUp | writelightly/calendar.py:129-141 | the day `UpDay` names; the selection always changes |
| MonthCalendar.Calendar.MoveDown | writelightly/calendar.py:143-153 | the day `DownDay` names; the selection always changes |
| MonthCalendar.Calendar.SetActive | writelightly/calendar.py:168-173 | the grid changes by `SetFlag` on the selected cell only; the selection stays |
| MonthCalendar.Calendar.NextCalendar | writelightly/calendar.py:185-189 | a new calendar of the following month on the given day, or the 1st |
| MonthCalendar.Calendar.PreviousCalendar | writelightly/calendar.py:191-196 | a new calendar of the preceding month on the given day, or its last day |
| Revisions.SoundCodecExists | writelightly/edit.py:66-72 | the properties assumed of the diff library can all hold at once |
| Revisions.DiffNameParses | writelightly/edit.py:52 | a diff file's name `<dd>_<ts>` gives its time back and passes the filter of its day |
| Revisions.DiffNameInjective | writelightly/edit.py:52 | diff files of one day written at different times have different names |
| Revisions.DayFiles | writelightly/edit.py:82-83 | keeps exactly the names that start with the day and do not end in `.tmp` |
| Revisions.ParseStamps | writelightly/edit.py:82 | each kept name gives its time, in order, or the error of a name that has none |
| Revisions.Sizes | writelightly/edit.py:84-85 | the size of each timestamp's diff file; `OSError` exactly when one is missing |
| Revisions.GetEdits | writelightly/edit.py:74-86 | `InvalidDataDir` exactly when the directory cannot be listed; otherwise sorted, one edit per kept name and no other |
| Revisions.UnsortedEdits | writelightly/edit.py:82-86 | the unsorted list exists exactly when every kept name yields an edit, and then lists them in order |
| Revisions.GetEditsOrderIndependent | writelightly/edit.py:78-86 | the result does not depend on the order `os.listdir` returns |
| Revisions.Pending | writelightly/edit.py:103 | the patches applied are those of `edits[index+1:]`, newest first |
| Revisions.PendingAreNewer | writelightly/edit.py:103 | with distinct times, exactly the later edits are applied; the creation marker never is |
| Revisions.RebuildLast | writelightly/edit.py:101-108 | for the last edit nothing is applied: the current text |
| Revisions.ListsHistory | writelightly/edit.py:74-86 | on a recorded history, `get_edits` lists each revision once, oldest first, the creation marker with size 0 |
| Revisions.Reconstructs | writelightly/edit.py:99-108 | replaying the patches after edit `k` from the current text gives the text right after revision `k` |
| Revisions.RecordStep | writelightly/edit.py:52-64 | an edit of an existing entry stores the patch back to the old text, unless it is empty |
| Revisions.FirstRecord | writelightly/edit.py:53-54 | a new entry's empty creation marker records a one-revision history |
| Revisions.NextRecord | writelightly/edit.py:55-63 | a later changing edit's patch records one more revision and keeps the earlier ones |
| Revisions.ReplayRecords | writelightly/edit.py:26-64 | after any sequence of editor sessions, the entry holds the last text and the diff files record the whole history |
| Revisions.SessionsReconstruct | writelightly/edit.py:26-108 | after any sequence of sessions, `get_edits` lists one edit per revision and rebuilding edit `k` gives revision `k` |
| Journal.MakeDirs | writelightly/edit.py:34-39 | `makedirs` keeps an existing directory, creates a missing one, and raises `InvalidDataDir` for a file in the way; nothing else changes |
| Journal.CleanedLookup | writelightly/edit.py:113-120 | after cleaning, a path exists exactly when it did and does not name a `.tmp` file; files keep their text, directories stay |
| Journal.CleanedIdempotent | writelightly/edit.py:113-120 | cleaning twice is cleaning once |
| Journal.CleanedFiles | writelightly/edit.py:119-120 | a directory keeps exactly its files not ending in `.tmp`, unchanged |
| Journal.CleanKeepsRecords | writelightly/edit.py:113-120 | cleaning never loses a recorded revision |
| Journal.CacheKeepsRecords | writelightly/edit.py:109-111 | a cached version is not an edit file and leaves the record as it was |
| Journal.Journal.constructor | writelightly/edit.py:12 | the journal starts from the configured entries and diffs directories, their contents and the diff library |
| Journal.Journal.BackupAndEdit | writelightly/edit.py:41-50 | an existing entry is copied to `.tmp`, replacing a file of that name or going inside a directory of that name, and then holds what the editor left; copying from or onto a directory is `IOError` before anything changes |
| Journal.Journal.StoreDiff | writelightly/edit.py:52-64 | reads the edited entry and its backup, stores the diff file and removes the backup, as `StoreOutcome` says |
| Journal.Journal.EditDate | writelightly/edit.py:26-64 | `ValueError` before 1900; `InvalidDataDir` for a month or diff path that is a file, before editing; otherwise the month changes as `EditOutcome` says. It succeeds exactly when both directories can be made, the backup is a file, `Record` has a next state and the diff name is free; the day then changes exactly as `Record` says, the backup is removed, and the month's other entries and every other month stay |
| Journal.Journal.EditDateLegacy | edit.py:19-57 | where both directories can be made, the same outcome as `EditDate`, with the same success condition, removal of the backup and frame; a diff path that is a file is reported after the editor has changed the entry, with the backup in place |
| Journal.Journal.MakeDiffDir | edit.py:38-43 | `makedirs` of the diff directory, `InvalidDataDir` for a file |
| Journal.Journal.EditMonthLegacy | edit.py:27-57 | a failed backup changes nothing; a diff path that is a file is `InvalidDataDir` after the edit; otherwise the month changes as `EditOutcome` says, so on success the backup is removed and the other entries stay |
| Journal.Journal.EditMonth | writelightly/edit.py:41-64 | once both directories exist, the month changes as `EditOutcome` says; on success the day changes as `Record` says, the backup is removed and the month's other entries stay |
| Journal.Journal.SaveTmpVersion | writelightly/edit.py:88-111 | an existing cache file is returned untouched; else the current entry (or `IOError`) is replayed as `Rebuild` says and cached in `<dd>_<ts>.tmp`; entries never change |
| Journal.Journal.CleanTmp | writelightly/edit.py:113-120 | the diffs tree becomes `Cleaned` of itself; entries unchanged |
| Journal.ApplyPending | writelightly/edit.py:103-108 | the loop applies the pending patches in order, as `ApplyPatches` says |
| Journal.CleanDir | writelightly/edit.py:115-120 | the recursive loop gives `Cleaned`, whatever the listing order |
| Journal.StoreOutcome | writelightly/edit.py:53-64 | the backup of an existing entry is removed and the entry is not touched; the diff directory changes only in the new diff file |
| Journal.StoreOutcomeCases | writelightly/edit.py:52-64 | fails exactly when the edited entry is gone, the backup is not a file, or the diff name is a directory, naming the first of these; otherwise the diff files gain the patch, written for a new entry or a non-empty patch |
| Journal.BackupOutcomeCases | writelightly/edit.py:43-50 | the copy fails exactly when the entry is a directory or it would land on a directory inside the directory `.tmp`; otherwise the entry holds the edited text, the backup (the file `.tmp`, or the copy inside the directory `.tmp`) the old one, and nothing else changes |
| Journal.Edited | writelightly/edit.py:50 | the editor changes only the entry file |
| Journal.EditOutcomeFacts | writelightly/edit.py:41-64 | succeeds exactly when the backup can be a file, `Record` has a next state and the diff name is free; the day then changes as `Record` says, the backup is removed and nothing else in the month changes. A failure stores no diff; after the copy the editor's text stays, and a directory `.tmp` makes reading the backup fail after the edit |
| MonthMetadata.TallyCounts | metadata.py:54-65 | `lines` counts the lines that are neither blank nor tag lines, `words` their words, `tags` the stripped fields of the tag lines |
| MonthMetadata.WordsAtLeastLines | metadata.py:64-65 | there are never fewer words than counted lines |
| MonthMetadata.Metadata.CountLines | metadata.py:54-65 | the loop computes `Tally` of the lines |
| MonthMetadata.EditsSummary | metadata.py:74-81 | `None` for no edits, one element for one edit, three for more |
| MonthMetadata.SummaryOfSorted | metadata.py:77-81 | on `get_edits`' sorted list: the earliest time, the latest time, and the number of later edits |
| MonthMetadata.SizeText | metadata.py:70 | the size up to 1 KiB is `format_size`'s `'<n> B'` |
| MonthMetadata.DayRecord | metadata.py:49-72 | `ValueError` for a date that does not exist or is before 1900; nothing when the entry cannot be read; a stored summary exactly when `get_edits` lists edits |
| MonthMetadata.InvertedKeys | metadata.py:83-90 | a tag is in the index exactly when some day carries it |
| MonthMetadata.InvertedUnique | metadata.py:83-90 | the index is determined by the records, up to the order of each list |
| MonthMetadata.TagDays | metadata.py:83-90 | each day of the records counted once per occurrence of the tag in its record, and no other day |
| MonthMetadata.InvertedTagDays | metadata.py:83-90 | an inverted index lists, for a tag, exactly the days `TagDays` counts, as many times |
| MonthMetadata.LoadedRecords | metadata.py:38-41 | records built by `load_day` over days 1 to `lastday` without an error are exactly the days 1 to `lastday` whose entry can be read, each with its `DayRecord` |
| MonthMetadata.FirstFailureUnique | metadata.py:39-40 | the loop stops at the first failing day, so a month has at most one error to raise |
| MonthMetadata.FirstFailureExists | metadata.py:39-40 | when some day's record fails, there is a first such day and its error |
| MonthMetadata.EditsLineOfSummary | metadata.py:109-114 | `Created: <time>`, plus the number of later edits and the last time when there are any |
| MonthMetadata.PathOfParses | metadata.py:30-31 | `'%d-%d' % (year, month)` gives the year and month back |
| MonthMetadata.Metadata.constructor | metadata.py:11-15 | empty records, empty index, not dirty |
| MonthMetadata.Metadata.DataForDay | metadata.py:43-47 | the day's record, `None` exactly when there is none |
| MonthMetadata.Metadata.LoadDay | metadata.py:49-72 | an error or a missing entry changes nothing; a read entry stores its record and sets the dirty flag |
| MonthMetadata.Metadata.LoadTags | metadata.py:83-90 | afterwards `tags[t]` lists each day once per occurrence of `t` in its record, and nothing else, whatever the order of the days |
| MonthMetadata.Metadata.IndexDay | metadata.py:86-90 | appends the day once per occurrence of each of its tags, and nothing else |
| MonthMetadata.Metadata.Load | metadata.py:33-41 | the saved file when there is one; otherwise the record of every day of the month and an inverted index, or the error of the first day whose record fails |
| MonthMetadata.Metadata.LoadDays | metadata.py:39-40 | `load_day` of every day in turn: every record stored and the dirty flag set exactly when one was, or the error of the first day whose record fails, every earlier day being readable |
| MonthMetadata.Metadata.Write | metadata.py:92-101 | saves the records and a fresh index only when dirty; afterwards not dirty |
| MonthMetadata.Metadata.TextLines | metadata.py:103-123 | the date line first; `No entry for selected date` without a record; otherwise the statistics line (`<lines> lines, <words> words, <size>`), `Tags: ` and the joined tags when there are any, and the edits line; `ValueError` or `IndexError` as the source raises them |
| MonthMetadata.Metadata.Text | metadata.py:103-123 | the lines joined, starting with the date |
| MonthMetadata.Registry.constructor | metadata.py:10 | no instances |
| MonthMetadata.Registry.Get | metadata.py:18-23 | the same object for a known month; otherwise a new one, registered once, holding the saved file's data and tags when there is one, else the record of every day of the month and its inverted tag index; an error, with nothing registered, only when the month has no file and `lastday` fails or the first day whose record fails does so with that error |
| TagList.RemoveFirst | tags.py:17-20 | `remove` drops the first occurrence, if any, and ignores its absence |
| TagList.RemoveFirstGone | tags.py:17-20 | a listing names each file once, so `metadata` is gone afterwards |
| TagList.MonthOf | tags.py:24 | one or two numbers from the first two fields, or `ValueError` |
| TagList.MonthOfMonthName | tags.py:24 | a `%Y-%m` directory name reads back as its month |
| TagList.MonthsOf | tags.py:22-24 | the set holds exactly the months of the names; `ValueError` when a name has none |
| TagList.CollectMonths | tags.py:22-24 | the loop builds `MonthsOf` |
| TagList.DataDirListingFails | tags.py:12-24 | as written, the data directory of `conf.py` (`entries`, `diffs`, `metadata`) makes the listing fail with `ValueError` |
| TagList.EntriesDirListingMonths | tags.py:22-24 | a listing of month directories gives exactly their months |
| TagList.SortMonths | tags.py:26 | ascending by year then month, a permutation; `IndexError` exactly when a tuple has one number |
| TagList.SortMonthsAnyOrder | tags.py:26 | strictly ascending, and independent of the order the set hands the months over |
| TagList.AddMonth | tags.py:32-36 | each tag's count grows by the month's days for it; new tags start at that number |
| TagList.CountTags | tags.py:27-36 | the counts are the totals over all months |
| TagList.TotalsKeys | tags.py:27-36 | a tag is counted exactly when some month lists it, and then, every listed tag having a day, its total is positive |
| TagList.DaysTagged | tags.py:32-36 | a month adds the number of its days carrying the tag |
| TagList.ItemLeTotalOrder | tags.py:38-39 | count descending, then name ascending, is a total order |
| TagList.Ordered | tags.py:38-39 | a permutation of the items, by count descending and then by name |
| TagList.Format | tags.py:40 | `'%s (%d)'` starts with the tag and ends with `)` |
| TagList.FormatParses | tags.py:40 | a line gives its tag and its count back |
| TagList.ListingAnyOrder | tags.py:38-40 | the listing does not depend on the order of the dictionary's items |
| TagList.MonthIndex | tags.py:30-31 | as `MonthIndexed` says: a month with a metadata file never fails, keeps the files and gives the file's index; a month without one gives the inverted index of every day's record and saves both under `'%d-%d'` unless the month has no records; a failure leaves the files alone and happens only when the month has no file and `lastday` fails or the first day whose record fails does so with that error |
| TagList.MonthIndexedFacts | metadata.py:92-101 | the index given is the one the month's file holds afterwards; when every saved file holds the index of its own records, so does every file afterwards, and the index given is the inverted index of the month's records |
| TagList.MonthTagDays | tags.py:30-36 | under the same condition, the month's list for a tag has one element per occurrence of the tag among the month's day records, and no list is empty |
| TagList.MonthIndexes | tags.py:29-31 | every month in turn: the metadata files go through one state per month done, each reached from the previous one as `MonthIndexed` says for that month, and the final files are the last state; on failure the first month not done is the one whose metadata failed with that error, the first failing day's |
| TagList.ChainTotals | tags.py:27-36 | when every saved file holds the index of its own records, a tag's total over the months done is the number of its occurrences in those months' day records |
| TagList.ChainSaved | metadata.py:92-101 | under the same condition, every file still holds the index of its own records after the months done, and no month's index has an empty list |
| TagList.SortedMonths | tags.py:22-26 | `ValueError` when a name is not a month, `IndexError` when a month has a single number, success exactly otherwise; then exactly the months of the names, strictly ascending, all pairs |
| TagList.Show | tags.py:38-40 | the listing of the items of the counts, in some order |
| TagList.ListTags | tags.py:17-40 | `ValueError` when a name is not a month, `IndexError` when a month has a single number, and the metadata files unchanged; otherwise the months ascending and each month's index in turn as `MonthIndexes` says, failing only at a month whose metadata fails with that error, the first failing day's, else the ordered, formatted totals; when every saved file holds the index of its own records, a tag is listed exactly when some day of some month carries it, with the number of its occurrences in the day records of all months |
| Config.ProcessValue | writelightly/conf.py:85-91 | in a `_keys` section, the words of the value; elsewhere `yes`/`no` become flags and anything else is kept as written |
| Config.ProcessValueRoundTrip | writelightly/conf.py:86-90 | key names joined by blanks read back as the list; `yes` and `no` read back as their flags |
| Config.SplitJoinWords | writelightly/conf.py:88 | splitting words joined by a blank gives the words back |
| Config.KeyNameInjective | writelightly/conf.py:66 | different sections have different `_keys` names |
| Config.KeySectionsAdd | writelightly/conf.py:65-66 | each turn adds one key section under its `_keys` name |
| Config.MergeGet | writelightly/conf.py:70-75 | a parameter is the processed value the file sets last for it, or else the default |
| Config.MergeSections | writelightly/conf.py:72-73 | the sections are the default ones plus those the file names |
| Config.DirNameNotDataDir | writelightly/conf.py:80-81 | no derived directory overwrites `data_dir` |
| Config.StepSpec | writelightly/conf.py:81-83 | one pass adds only its own directory below `data_dir`; `KeyError` or `AttributeError` when `data_dir` is missing or a flag |
| Config.StepsErr | writelightly/conf.py:78-83 | the loop fails exactly when a directory is missing and `data_dir` is not a string |
| Config.StepsOk | writelightly/conf.py:78-83 | otherwise it adds the missing directories below `data_dir` and changes nothing else |
| Config.Dynamic | writelightly/conf.py:78-83 | `_add_dynamic_values`: keeps every setting and sets each unset directory to `data_dir/<label>`, or fails as `StepsErr` says |
| Config.DynamicIdempotent | writelightly/conf.py:78-83 | deriving the directories twice changes nothing |
| Config.ConfigManager.constructor | writelightly/conf.py:63-75 | the defaults, then the key sections, then the user's lines in order |
| Config.ConfigManager.AddKeySections | writelightly/conf.py:64-66 | adds every key section, in any order of the dictionary |
| Config.ConfigManager.ReadUser | writelightly/conf.py:70-75 | applies the user's lines as `Merge` says |
| Config.ConfigManager.AddDynamicValues | writelightly/conf.py:78-83 | replaces the general section by `Dynamic` of it; on an error, or `AttributeError` without a general section, nothing changes |
| Config.ConfigManager.GetAttr | writelightly/conf.py:93-97 | the section of that name, or `AttributeError` |
| Config.Load | writelightly/conf.py:99 | the defaults merged with the user's file, with the directories derived |
| Config.LoadLegacy | conf.py:89 | the older defaults merged with the user's file |
| Config.DefaultDirs | conf.py:6-16 | the older defaults fix the directories below the built-in data directory; the newer ones set none |
| Config.DirsFollowDataDir | writelightly/conf.py:78-83 | the directories follow a `data_dir` the user sets, unless set themselves |
| Config.DirsFollow | writelightly/conf.py:78-83 | same, for any defaults leaving the directory unset |
| Config.LegacyDirsFixed | conf.py:6-16 | in conf.py the directories stay below the built-in data directory whatever `data_dir` the user sets |
| Config.KeySectionsAvailable | writelightly/conf.py:64-75 | every default key section is available under its `_keys` name, each binding as the file last sets it, or else the default |
| Screen.WidthsSum | writelightly/screen.py:47-53 | the widths of the columns add up to the screen width |
| Screen.OffsetIsSum | writelightly/screen.py:54-58 | each column starts at the sum of the widths before it |
| Screen.OffsetEnd | writelightly/screen.py:54-58 | the last column ends at the right edge |
| Screen.Layout | writelightly/screen.py:32-66 | one coordinate per area |
| Screen.LayoutWithin | writelightly/screen.py:59-65 | every laid-out area has full height, `y0 = 0`, and lies within the screen, the first at the left edge and the last at the right edge |
| Screen.LayoutAdjacent | writelightly/screen.py:54-65 | consecutive laid-out areas are adjacent columns |
| Screen.AllExcluded | writelightly/screen.py:48-53 | with every area excluded there is no error and every coordinate is `None` |
| Screen.Replaced | writelightly/screen.py:78-89 | the area takes the slot and the old one is pushed on that slot's stack; nothing else changes |
| Screen.Restored | writelightly/screen.py:105-108 | succeeds exactly when the slot's stack is not empty; `KeyError` or `IndexError` otherwise |
| Screen.LastWindow | writelightly/screen.py:91-103 | a window exactly when something was put aside at that slot |
| Screen.RestoreUndoesReplace | writelightly/screen.py:78-108 | restoring after replacing gives back every slot and every stack |
| Screen.ReplacedLastWindow | writelightly/screen.py:91-103 | after a replacement the last window is the replaced area's |
| Screen.ScreenManager.constructor | writelightly/screen.py:29-30 | no areas and nothing put aside |
| Screen.ScreenManager.Calc | writelightly/screen.py:32-66 | the coordinates become `Layout`; nothing else changes |
| Screen.ScreenManager.AddArea | writelightly/screen.py:68-76 | the area is appended, its index `len(areas) - 1` returned, and all areas laid out again |
| Screen.ScreenManager.ReplaceArea | writelightly/screen.py:78-89 | the slots change as `Replaced` says; the layout and the hidden flags stay |
| Screen.ScreenManager.GetLastWindow | writelightly/screen.py:91-103 | `LastWindow` of the current slots |
| Screen.ScreenManager.RestoreArea | writelightly/screen.py:105-108 | the slots change as `Restored` says, or the error is reported and nothing changes |
| Screen.ScreenManager.Resize | writelightly/screen.py:122-149 | terminates; every laid-out area has enough space and is shown, every excluded one is hidden, and each excluded area was the first misfit of the layout without the ones excluded before it |
| Screen.ScreenManager.Scan | writelightly/screen.py:134-146 | shows each laid-out area that fits, up to the first that does not, which is hidden and returned as the first area of the layout without enough space; areas after it keep their flags |
| Screen.Present | writelightly/screen.py:43-45 | the areas laid out are exactly those not excluded |
| Screen.ColumnWidths | writelightly/screen.py:47-53 | the loop computes `Widths`: equal shares, the remainder to the first |
| Screen.ColumnOffsets | writelightly/screen.py:54-58 | the loop computes the running sums |
| Screen.Place | writelightly/screen.py:59-65 | the columns are handed out in order to the present areas |
| ScrollList.Initial | scrollable_list.py:4-11 | `top = current = 0` and the viewport invariant holds |
| ScrollList.Down | scrollable_list.py:26-35 | the next line, stopping at the last; invariant and height kept |
| ScrollList.Up | scrollable_list.py:37-46 | the previous line, stopping at the first; invariant and height kept |
| ScrollList.Scrolled | scrollable_list.py:48-54 | nothing at the end; otherwise the window moves one line and `current` is at least `top` |
| ScrollList.ScrolledBack | scrollable_list.py:56-62 | nothing at the start; otherwise the window moves back one line and `current` is at most `bottom` |
| ScrollList.ToBottom | scrollable_list.py:70-76 | `current = bottom = last`, `top = max(0, last - ysize + 1)` |
| ScrollList.DownUp | scrollable_list.py:26-46 | up undoes down unless down could not move |
| ScrollList.UpDown | scrollable_list.py:26-46 | down undoes up unless up could not move |
| ScrollList.DownNCurrent | scrollable_list.py:26-35 | `n` presses of down advance `n` lines, stopping at the last |
| ScrollList.UpNCurrent | scrollable_list.py:37-46 | `n` presses of up go back `n` lines, stopping at the first |
| ScrollList.ScrollableList.constructor | scrollable_list.py:4-11 | the viewport is `Initial` |
| ScrollList.ScrollableList.Shown | scrollable_list.py:13-19 | `draw` shows one window of lines, the current one among them |
| ScrollList.ScrollableList.MoveDown | scrollable_list.py:26-35 | the viewport becomes `Down` of itself |
| ScrollList.ScrollableList.MoveUp | scrollable_list.py:37-46 | the viewport becomes `Up` of itself |
| ScrollList.ScrollableList.ScrollDown | scrollable_list.py:48-54 | the viewport becomes `Scrolled` of itself |
| ScrollList.ScrollableList.ScrollUp | scrollable_list.py:56-62 | the viewport becomes `ScrolledBack` of itself |
| ScrollList.ScrollableList.MoveToTop | scrollable_list.py:64-68 | the viewport becomes `Initial` |
| ScrollList.ScrollableList.MoveToBottom | scrollable_list.py:70-76 | the viewport becomes `ToBottom` |
| TextInput.Chars1 | writelightly/textinput.py:18 | one element per character of the prefix |
| TextInput.Insert | writelightly/textinput.py:30 | `list.insert` at the cursor, appending past the end |
| TextInput.Pop | writelightly/textinput.py:46 | `list.pop` removes the element at the index, `IndexError` past the end |
| TextInput.Command | writelightly/textinput.py:23-59 | the only exceptions are `IndexError`, exactly for a backspace with the cursor past both the prefix and the end of the value, which leaves the cursor one place back and the value as it was, and `TypeError`, exactly for an empty string or a printable one-character string that would be typed, which changes nothing |
| TextInput.InitialEditing | writelightly/textinput.py:13-21 | a new field holds exactly the prefix with the cursor after it |
| TextInput.GatherStartsWithPrefix | writelightly/textinput.py:69-71 | while the prefix is intact, the text starts with it |
| TextInput.CommandKeepsPrefix | writelightly/textinput.py:23-59 | no edit reaches into the prefix; only a backspace on the bare prefix empties the field |
| TextInput.TypedGather | writelightly/textinput.py:28-36 | typing puts the character into the text at the cursor |
| TextInput.BackspaceUndoesTyping | writelightly/textinput.py:33-46 | backspace undoes typing a printable character |
| TextInput.TextInput.constructor | writelightly/textinput.py:13-21 | the field is the prefix with the cursor after it |
| TextInput.TextInput.DoCommand | writelightly/textinput.py:23-60 | the exception raised and the field afterwards are those of `Command` |
| TextInput.TextInput.GatherValue | writelightly/textinput.py:69-71 | the joined value, starting with the prefix while it is intact |

## Left out

- The diff library's algorithm (`diff_main`, `diff_cleanupSemantic`, the patch functions) is not modelled. It is the `Codec` value, constrained only by `Sound`.
- The UTF-8 decoding and encoding of entry text in `get_diff` and `save_tmp_version` is not modelled. Text is `seq<char>`.
- `edit_file`, the editor subprocess, is not modelled. Its effect is the parameter `after`: the entry's new text, or `None` when the editor removed the file.
- `time.time()` and `datetime.date.today()` are the parameters `now` and `today`.
- Two sessions in the same second overwrite each other's diff file. The model does not capture this: the revision theorems assume strictly increasing times.
- `format_date`, `format_time` and the KiB branch of `format_size` (floating point) are not modelled. They are the parameter `Formats`.
- yaml loading and dumping are not modelled. A metadata file is a `Snapshot` value.
- `Metadata.write_all` (metadata.py:25-28) is not modelled. It only calls `write` on every instance.
- `write`'s `os.mkdir` of the metadata directory is not modelled.
- `utils.entry_exists` (writelightly/utils.py:32-36) is not modelled separately. It is `Registry.Get` followed by `DataForDay`.
- `entry_exists` and `edit_date` of wl.py (wl.py:22-24, 126-155) are not modelled. They belong to an earlier single-file layout outside the modelled journal. Their effect on the grid is the flag `SetFlag` sets.
- The curses side is not modelled: `draw`, `_change`, `update`, `move_to_new_window`, `draw_all`, `init`'s screen set-up, `resize` and `move` of a window, and the key loop of tags.py (tags.py:41-58).
- `ScreenManager.get_coords` is not a separate member. The model reads the `coords` field directly.
- `ConfigParser` reading of `~/.writelightlyrc` is not modelled. The user's settings are a sequence of `(section, param, value)` lines.
- `os.path.expanduser` and the environment are parameters.
- Dictionary aliasing is not modelled. The source's `self.config = default_config` shares the module-level dictionary, and the model copies it.
- ScrollList.ScrollableList.constructor requires a window of at least one line. A zero-line window makes `bottom` -1 with `current` 0, and `draw` then fails.
- ScrollList.ScrollableList.MoveToBottom requires a non-empty list. On an empty list the source sets `current` to -1, and `draw` then raises `IndexError`.
- TextInput.TextInput.DoCommand takes a key as either a multi-byte string or a code. The case `type(ch) is str and len(ch) <= 1` is modelled as a string of at most one character: `isprint` raises `TypeError` on an empty one, and `chr` on a printable one when the cursor is inside the window.
- ScrollList.ScrollableList.MoveToTop sets `current` to 0 on an empty list, as the source does. The `IndexError` that `draw` then raises is not modelled, as drawing is not.
- Screen.ScreenManager.ReplaceArea keeps the `hidden` flag per slot, where the source keeps it on each area object. A replacing area therefore takes over the slot's flag, and a restored one does not bring its own back.
- MonthMetadata.Metadata takes the tag label as the parameter `tagsLabel`. As written, metadata.py:60 reads `conf.tags_label`, but writelightly/conf.py defines `tags_label` only inside `default_config['general']` (line 12), so that attribute lookup fails.
- MonthCalendar.Calendar.constructor uses the corrected `lastday` (`Utils.LastDayOfMonth`, see the Findings). For December 9999 writelightly/calendar.py:31 and 43 call the `lastday` as written, which raises `ValueError`; the model builds the 31-day month.
- MonthCalendar.Calendar.NextCalendar builds December 9999 from November 9999 with the corrected `lastday`, where the source's constructor raises `ValueError` (writelightly/calendar.py:31).
- MonthMetadata.Metadata.Load uses the corrected `lastday` when there is no saved file. For December 9999 metadata.py:39 raises `ValueError`; the model loads the 31 days.
- MonthMetadata.Disk: metadata.py:31, 51 and 94 read `conf.metadata_dir` and `conf.entries_dir` from the module `writelightly.conf` (imported at metadata.py:5), which defines neither; only tests/metadata.py:38-39 assigns them. The model takes the metadata directory (`MetadataDir`) and the entries tree (`Disk.entries`) as given.
- MonthMetadata.Disk: the field `edits` stands for `writelightly.edit.get_edits` (metadata.py:6) and is an unconstrained parameter. It is not defined through `Revisions.GetEdits`, which models that function on a month's diff listing, so the metadata members hold for any edit lists the parameter gives.
- Journal.FilesOf and Journal.Listing keep only the plain files of a directory. `os.listdir` in `get_edits` (writelightly/edit.py:78-83) also returns subdirectories: a directory `14_99` would be listed as an edit of the 14th, and a directory `14` would make `fn.split('_')[1]` raise `IndexError` at line 82. The model does not capture either.
- Utils.GetAllMonths orders tuples that share year and month (from `2012-05` and `2012-05-01`, say) by their remaining numbers. The two stable key sorts at writelightly/utils.py:60 leave such tuples in the set's iteration order, which the model does not capture.
- Journal.Journal.CleanTmp assumes the diffs directory exists. Before the first edit creates it, `os.listdir` at writelightly/edit.py:115 raises `OSError`; the model does not capture that failure.
- TagList.ListTags proves the tag totals only when every saved metadata file holds the inverted index of its own records, as `write` leaves them. A file written by other means, such as a hand-edited one, is not covered.
- The `Area` objects of the screen manager are reduced to their identity and window. Their `enough_space` is the parameter `enough`.
- MonthCalendar.Calendar.CurrentDate models the `None` result of writelightly/calendar.py. The older calendar.py has no such check: called with nothing selected, it fails to unpack the empty tuple. The model does not capture that failure.
- MonthCalendar.Calendar.NextCalendar requires the next month's year to be at most 9999, and MonthCalendar.Calendar.PreviousCalendar requires the previous month's year to be at least 1. Past either end, `datetime.date` raises.

## Findings

| source | as written | input that shows it | evidently intended | confidence | as-written member | corrected member |
|---|---|---|---|---|---|---|
| writelightly/utils.py:28-30 | `lastday` builds the first of the next month and steps back a day | `lastday(9999, 12)` builds January 10000 and raises `ValueError` | 31, the last day of December 9999 | not executed | Utils.LastDayMaxYear | Utils.LastDayOfMonth |
| tags.py:9-24 | lists `conf.data_dir` and parses every name except `metadata` as a month | with the layout of conf.py, the listing `entries`, `diffs`, `metadata` reaches `int('entries')` and raises `ValueError` | the months of the entries directory | not executed | TagList.DataDirListingFails | TagList.EntriesDirListingMonths |
