# Gestor Escolar, modelled in Dafny

A Dafny model of the core of a school-administration system. The system has a
React front end (`App.tsx` and its views) and a PHP API. The model covers:

- the turnstile import, both in the browser (`handleImportTurnstile` in `App.tsx`)
  and on the server (`sistema_escolar_api/import_turnstile.php`), and the line
  parsing both share (`utils/parsing.ts`). Both match a line to a student,
  decide whether the passage falls in the student's shift window, record one
  attendance per student and day, and mark inactive students absent on days
  their shift was active. The result is then merged into the attendance table;
- the attendance handlers and the attendance screen's filters;
- the roster's visibility, the status toggles and the student save;
- the student list, the student detail view and the dashboard counters;
- the CSV student import and the parent-phone import;
- the pedagogical and coordination forms;
- the grade-permission checkboxes of the user form;
- the grade, shift and period constants;
- the make-up exam and health-document lists;
- the breadcrumbs;
- the week-metadata helpers of `test_week_logic.js`;
- the date-order verdict of `verification/verify_history_sort.py`.

Each core source file has its own module:

| module | file |
|---|---|
| `TurnstileParsing` | turnstile_parsing.dfy |
| `ClientTurnstile` | client_turnstile.dfy |
| `ServerTurnstile` | server_turnstile.dfy |
| `Domain` | domain.dfy |
| `Attendance` | attendance.dfy |
| `Roster` | roster.dfy |
| `StudentViews` | student_views.dfy |
| `Dashboard` | dashboard.dfy |
| `CsvImport` | csv_import.dfy |
| `PhoneImport` | phone_import.dfy |
| `Pedagogical` | pedagogical.dfy |
| `Coordination` | coordination.dfy |
| `Constants` | constants.dfy |
| `UserEdit` | user_edit.dfy |
| `WeekLogic` | week.dfy |
| `HistorySort` | history_sort.dfy |
| `Exams` | exams.dfy |
| `Health` | health.dfy |
| `Breadcrumbs` | breadcrumbs.dfy |

Four helper modules are shared:

- `Wrappers` holds `Option`.
- `Text` holds the string primitives of JavaScript, PHP and Python that the
  code relies on: `trim`, `split`, `padStart`, `parseInt` (decimal, and
  without a radix, where "0x" means hexadecimal), `includes`, and
  lexicographic order.
- `Folds` and `Sorting` hold generic filters, counts, de-duplication and a
  stable sort.

Code that mutates state step by step is modelled imperatively: the import
loops, the React handlers over component state, and the loops in the two
scripts. These become methods, or classes with `modifies` clauses, and each
is proved against a specification function. The derived lists and display
rules are functions, with lemmas stating what they promise.

Several things outside the program are passed in as parameters:

- the current date;
- the random ids, as a `newId` function or a fresh id;
- the database rows the server reads;


## Model

| member | source | states |
|---|---|---|
| TurnstileParsing.ParseFeedDate | utils/parsing.ts:28-42 | a date holding a slash is accepted exactly when it splits into three parts, any other date exactly when it has eight characters; an accepted date is never empty |
| TurnstileParsing.FormatTime | utils/parsing.ts:48-51 | a four-character time without a colon gets a colon after its second character and keeps its four characters around it; any other time is kept as it is |
| TurnstileParsing.ParseLine | utils/parsing.ts:15-60 | a blank line and a line of fewer than six fields give no record; a record keeps the trimmed line, has a non-empty date, and its time is the formatted fifth field |
| TurnstileParsing.ParseAll | utils/parsing.ts:14-61 | at most one record per line |
| TurnstileParsing.ParseAllFromLines | utils/parsing.ts:14-61 | every record keeps the trimmed text of one of the non-blank input lines |
| TurnstileParsing.ParseTopData | utils/parsing.ts:10-63 | the loop over the file's lines returns exactly the records of the accepted lines, in order |
| TurnstileParsing.ParseAllAppend | utils/parsing.ts:14-61 | parsing two runs of lines one after the other gives the two lists of records concatenated |
| TurnstileParsing.SlashedFeedDate | utils/parsing.ts:30-34 | a date made of three slash-free pieces joined by slashes reads as the pieces in reverse order joined by dashes, whatever their lengths |
| TurnstileParsing.FeedDateRoundTrip | utils/parsing.ts:30-39 | DD/MM/YYYY and DDMMYYYY of the same day both read as the same YYYY-MM-DD |
| TurnstileParsing.FormatTimeKeepsClockValue | utils/parsing.ts:45-51 | a formatted HHMM time reads back as the clock value of the raw time, both with the browser's parseInt and with PHP's integer cast |
| TurnstileParsing.FeedLineFields | utils/parsing.ts:18-26 | a line written from six fields without separators splits back into those six fields |
| TurnstileParsing.ParseLineOfFeedLine | utils/parsing.ts:10-63 | a well-formed feed line (DDMMYYYY date, HHMM time) parses to its registration and code, the ISO date, the HH:MM time and the time's decimal value |
| ClientTurnstile.BuildStudentMap | App.tsx:995-1010 | the `forEach` that fills `studentMap` yields the map of the students' keys, a later student overwriting an earlier one |
| ClientTurnstile.StudentMapKeys | App.tsx:997-1010 | the map's keys are exactly the students' normalized and exact registrations |
| ClientTurnstile.StudentMapLastWins | App.tsx:994-1008 | the student stored under a key owns that key, and no later student of the list owns it |
| ClientTurnstile.Lookup | App.tsx:1032-1041 | a student found for a feed registration is one of the map's students |
| ClientTurnstile.FindStudent | App.tsx:1032-1041 | the exact lookup, then the lookup of the integer form, finds what Lookup finds |
| ClientTurnstile.DigitRegistrationKey | App.tsx:999-1000 | an all-digit registration is stored under its form without leading zeros |
| ClientTurnstile.LeadingZerosTolerated | App.tsx:1032-1041 | a digit feed registration equal to a student's digit registration up to leading zeros always finds a student: the exact key's when it is stored, else the one under the form without zeros |
| ClientTurnstile.ClassifyLine | App.tsx:1016-1071 | the checks on one line (blank, fewer than six fields, unknown registration, unreadable date, another day) classify it as the loop's `continue`s do |
| ClientTurnstile.Outcomes | App.tsx:1016-1130 | one outcome per line of the file |
| ClientTurnstile.AddNote | App.tsx:1115-1123 | the observation after a passage holds the passage's note, starts with the old observation, and is unchanged when the note was already there |
| ClientTurnstile.AddNoteIdempotent | App.tsx:1117-1120 | noting the same passage twice changes the observation once |
| ClientTurnstile.AddNoteKeeps | App.tsx:1117-1123 | a note never removes text from the observation |
| ClientTurnstile.TrackPresence | App.tsx:1073-1090 | the presence set and the shift flags of today after a passage, per the spec function Track |
| ClientTurnstile.RecordPassage | App.tsx:1097-1127 | the pending record after a passage (copied from the stored record or created Present, then noted) is the spec function Record |
| ClientTurnstile.ProcessLine | App.tsx:1016-1130 | one turn of the loop moves the state as Step does for the line's outcome |
| ClientTurnstile.ProcessLines | App.tsx:1016-1130 | the loop over the lines leaves the state Run gives for the lines' outcomes |
| ClientTurnstile.RunCounters | App.tsx:980-1129 | after the loop, processed and success both count today's passages, notFound the unknown registrations, skippedDate the lines of other days |
| ClientTurnstile.RunPending | App.tsx:1097-1127 | after the loop every pending record sits under its own (student, date), is for today and is Present |
| ClientTurnstile.RunDays | App.tsx:1067-1077 | the presence map only ever holds today, and holds it exactly when some line was a passage of today |
| ClientTurnstile.StepPending | App.tsx:1097-1127 | a passage puts a Present record holding its note under the student's key for today and leaves every other key alone; any other line changes no record |
| ClientTurnstile.RecordPending | App.tsx:1097-1127 | the record stage alone: the key is added, Present, noted, and no other record changes |
| ClientTurnstile.RunPresent | App.tsx:1073-1127 | a student is in today's presence set, and has a pending record, exactly when some line was a passage of that student |
| ClientTurnstile.RunFlags | App.tsx:1079-1090 | today's morning flag is up exactly when some passage read at most 1240, the afternoon flag exactly when some passage read more |
| ClientTurnstile.NoHitNoShift | App.tsx:1079-1090 | without passages neither shift is active |
| ClientTurnstile.RunHitRecorded | App.tsx:1097-1127 | every passage leaves its student's record for today Present with the passage's note in the observation |
| ClientTurnstile.ShouldProcess | App.tsx:1141-1145 | `shouldProcess` is true exactly when the trimmed, lower-cased shift is a morning name with morning activity or an afternoon name with afternoon activity |
| ClientTurnstile.CheckAbsence | App.tsx:1147-1168 | one student's check is the spec function AbsenceStep |
| ClientTurnstile.AbsencesForDate | App.tsx:1139-1170 | the loop over the students for one date is AbsencesOn |
| ClientTurnstile.AutoAbsences | App.tsx:1136-1171 | the loop over the dates met, in insertion order, is the absence pass |
| ClientTurnstile.AbsencesAdd | App.tsx:1136-1171 | the absence pass keeps every pending record, adds only Absent records with the automatic note for keys that had no stored record, and counts exactly what it adds |
| ClientTurnstile.AbsencesOnCover | App.tsx:1139-1168 | on one date, a student of an active shift who was not met and has no stored record gets a pending record |
| ClientTurnstile.AbsencesOnNew | App.tsx:1139-1168 | on one date, a key the pass adds is that date's, for a student of an active shift who was not met |
| ClientTurnstile.AbsencesCover | App.tsx:1136-1171 | over all dates, every student of a shift active on a date, not met that day and without a stored record, gets a pending record for it |
| ClientTurnstile.AbsencesNew | App.tsx:1136-1171 | over all dates, a key the pass adds belongs to one of the dates and to a student of a shift active that day who was not met |
| ClientTurnstile.AbsenceStepKeeps | App.tsx:1147-1168 | one check keeps every pending key and gives an eligible student one |
| ClientTurnstile.AbsenceStepNew | App.tsx:1147-1168 | the only key one check adds is the checked student's for the date, when the shift is active and the student was not met |
| ClientTurnstile.MergeOneSpec | App.tsx:1180-1185 | after merging one record it is in the list, the list grows only for a new id, the ids are the old ones plus its id, and every record with another id stays in place |
| ClientTurnstile.MergeAllKeeps | App.tsx:1178-1188 | the merge never shrinks the list, its ids are the old ones and the merged ones, and records whose id no merged record has stay in place |
| ClientTurnstile.MergeAllHolds | App.tsx:1178-1188 | every merged record whose id no later merged record has is in the final list |
| ClientTurnstile.Merge | App.tsx:1178-1188 | the `forEach` over the pending records is MergeAll |
| ClientTurnstile.PendingRecords | App.tsx:1173 | the pending records, one per key, in insertion order |
| ClientTurnstile.ClientImportWellKeyed | App.tsx:968-1171 | the import's records sit under their own keys, each key once in the insertion order, all for today |
| ClientTurnstile.ImportTurnstile | App.tsx:968-1188 | the whole handler after the file is read: the pending records and counters of the line loop and the absence pass, merged into the attendance list |
| ClientTurnstile.ClientImportRecords | App.tsx:968-1171 | for each student on today's date: a passage gives a Present record; otherwise an active shift and no stored record give the automatic Absent record; otherwise a stored record is left alone |
| ClientTurnstile.ClientNotice | App.tsx:1190-1196 | the summary warns about other days exactly when some line was of another day, with that count, and about an empty day exactly when no line was of today or of another day |
| ClientTurnstile.TodayFeedDate | App.tsx:987-990 | today's date written either way in the feed reads as `todayISO` |
| ClientTurnstile.DisplayOfIso | App.tsx:1193 | an ISO date of three dash-free parts is shown as day/month/year |
| ClientTurnstile.TodayDisplay | App.tsx:1193-1195 | the warning shows today as DD/MM/YYYY |
| ServerTurnstile.BuildStudentMap | sistema_escolar_api/import_turnstile.php:67-78 | the `foreach` that fills `$studentMap` yields the map of the students' trimmed registrations and, for digit registrations, their integer forms, a later student overwriting an earlier one |
| ServerTurnstile.StudentMapKeys | sistema_escolar_api/import_turnstile.php:67-78 | the map's keys are exactly the students' keys |
| ServerTurnstile.Lookup | sistema_escolar_api/import_turnstile.php:137-145 | a student found is one of the map's students, and a stored key finds its own student |
| ServerTurnstile.FindStudent | sistema_escolar_api/import_turnstile.php:137-145 | `isset` on the raw registration, then `ctype_digit` and the integer form, finds what Lookup finds |
| ServerTurnstile.LeadingZerosTolerated | sistema_escolar_api/import_turnstile.php:67-145 | a digit feed registration equal to a student's digit registration up to leading zeros always finds a student, under the integer form when the raw key is not stored |
| ServerTurnstile.UnknownRegistration | sistema_escolar_api/import_turnstile.php:137-150 | a registration that is not stored and is not all digits finds no one |
| ServerTurnstile.PostedTime | sistema_escolar_api/import_turnstile.php:102-106 | a window end is absent exactly when the posted field is PHP-`empty` |
| ServerTurnstile.InWindows | sistema_escolar_api/import_turnstile.php:186-204 | a line is dropped exactly when some window is set and the time lies in neither window |
| ServerTurnstile.MarkActivity | sistema_escolar_api/import_turnstile.php:208-214 | a date gains morning activity exactly when the time is at most 1240 or in the morning window, afternoon activity exactly when it is over 1240 or in the afternoon window |
| ServerTurnstile.NoWindows | sistema_escolar_api/import_turnstile.php:186-214 | without windows every line is kept and the shift follows 12:40 alone |
| ServerTurnstile.ClassifyLine | sistema_escolar_api/import_turnstile.php:123-166 | the checks on one line (blank, fewer than five fields, unknown registration, unreadable date) classify it as the loop's `continue`s do |
| ServerTurnstile.Outcomes | sistema_escolar_api/import_turnstile.php:122-240 | one outcome per line of the file |
| ServerTurnstile.Noted | sistema_escolar_api/import_turnstile.php:233-237 | the observation after a later passage of a key holds the formatted time, starts with the old observation, and is unchanged when the time was already in it |
| ServerTurnstile.NoteHasTime | sistema_escolar_api/import_turnstile.php:230 | a passage's note holds its formatted time |
| ServerTurnstile.MarkPresent | sistema_escolar_api/import_turnstile.php:169-175 | tracking a date and the presence mark, per the spec function Mark |
| ServerTurnstile.SaveRecord | sistema_escolar_api/import_turnstile.php:208-239 | the activity flags and `$recordsToSave[$key]` for a kept line, per the spec function Save |
| ServerTurnstile.ProcessLine | sistema_escolar_api/import_turnstile.php:122-240 | one turn of the loop moves the state as Step does for the line's outcome |
| ServerTurnstile.ProcessLines | sistema_escolar_api/import_turnstile.php:122-240 | the `fgets` loop leaves the state Run gives for the lines' outcomes |
| ServerTurnstile.NoteFirst | sistema_escolar_api/import_turnstile.php:224-232 | the first kept line of a key adds exactly that key, with the line's time, and leaves other records alone |
| ServerTurnstile.NoteAgain | sistema_escolar_api/import_turnstile.php:233-238 | a later kept line of a key adds no key, keeps the observation at the front, and leaves other records alone |
| ServerTurnstile.StepPresent | sistema_escolar_api/import_turnstile.php:169-175 | only a matched, dated line changes the presence map, by its mark |
| ServerTurnstile.StepKeeps | sistema_escolar_api/import_turnstile.php:122-240 | one step keeps the records under their own keys and Present; a kept line adds its key with its time and extends an existing observation; a dropped line changes no record |
| ServerTurnstile.RunKeeps | sistema_escolar_api/import_turnstile.php:122-240 | after the loop every record sits under its own key, is Present, and its student is present on its date |
| ServerTurnstile.RunCounters | sistema_escolar_api/import_turnstile.php:90-239 | after the loop `processed` counts the kept lines, `notFound` the unmatched ones and `present` the keys recorded |
| ServerTurnstile.RunPresent | sistema_escolar_api/import_turnstile.php:169-175 | a student is present on a date exactly when some matched line of the student carries the date, and a date is tracked exactly when some matched line carries it |
| ServerTurnstile.RunRecordKeys | sistema_escolar_api/import_turnstile.php:202-239 | a key is recorded exactly when some kept line is the student's on that date |
| ServerTurnstile.StepActivity | sistema_escolar_api/import_turnstile.php:208-214 | one step adds to a date's activity exactly what a kept line of that date brings |
| ServerTurnstile.RunActivity | sistema_escolar_api/import_turnstile.php:202-214 | a date had morning activity exactly when a kept line on it read at most 1240 or fell in the morning window; the afternoon likewise |
| ServerTurnstile.RunObservation | sistema_escolar_api/import_turnstile.php:217-238 | the record of every kept line holds that line's formatted time |
| ServerTurnstile.RejectedLineMarksPresent | sistema_escolar_api/import_turnstile.php:169-204 | a line the windows drop still marks its student present on its date |
| ServerTurnstile.ShouldProcess | sistema_escolar_api/import_turnstile.php:249-277 | `$shouldProcess` for one student: a set window of the student's shift, or else that shift's activity when the other window is unset |
| ServerTurnstile.CheckAbsence | sistema_escolar_api/import_turnstile.php:279-308 | one student's check is the spec function AbsenceStep |
| ServerTurnstile.AbsencesForDate | sistema_escolar_api/import_turnstile.php:248-310 | the loop over the students for one date is AbsencesOn |
| ServerTurnstile.AutoAbsences | sistema_escolar_api/import_turnstile.php:245-311 | the loop over the dates of `$shiftActivityByDate` is the absence pass |
| ServerTurnstile.AbsencesAdd | sistema_escolar_api/import_turnstile.php:245-311 | the absence pass keeps every record, adds only Absent records with the automatic note, and counts exactly what it adds |
| ServerTurnstile.AbsenceStepKeeps | sistema_escolar_api/import_turnstile.php:279-308 | one check keeps every key and gives a checked student who was not present a key for the date |
| ServerTurnstile.AbsenceStepNew | sistema_escolar_api/import_turnstile.php:279-308 | the only key one check adds is the checked student's for the date, when the student was not present |
| ServerTurnstile.AbsencesOnCover | sistema_escolar_api/import_turnstile.php:248-310 | on one date, every checked student who was not present has a record afterwards |
| ServerTurnstile.AbsencesOnNew | sistema_escolar_api/import_turnstile.php:248-310 | on one date, a key the pass adds is that date's, for a checked student who was not present |
| ServerTurnstile.AbsencesCover | sistema_escolar_api/import_turnstile.php:245-311 | over all dates, every checked student who was not present on a date has a record for it afterwards |
| ServerTurnstile.AbsencesNew | sistema_escolar_api/import_turnstile.php:245-311 | over all dates, a key the pass adds is for one of the dates and a student checked that day who was not present |
| ServerTurnstile.JoinObservation | sistema_escolar_api/import_turnstile.php:353 | the stored observation, then " \| " when it was not empty, then the incoming one, and nothing else |
| ServerTurnstile.KeysWithStatus | sistema_escolar_api/import_turnstile.php:339-345 | the keys of the Present records, or of the others, each taken from the saved order |
| ServerTurnstile.SplitByStatus | sistema_escolar_api/import_turnstile.php:336-345 | the loop that fills `$presentRecords` and `$absentRecords` |
| ServerTurnstile.UpsertPresents | sistema_escolar_api/import_turnstile.php:348-364 | the loop over `$presentRecords` runs the upsert once per key, in order |
| ServerTurnstile.InsertAbsents | sistema_escolar_api/import_turnstile.php:368-386 | the loop over `$absentRecords` runs INSERT IGNORE once per key, in order |
| ServerTurnstile.Persist | sistema_escolar_api/import_turnstile.php:314-396 | the transaction is the split followed by the two loops |
| ServerTurnstile.UpsertAllOther | sistema_escolar_api/import_turnstile.php:348-364 | the upserts leave a key none of them names as it was |
| ServerTurnstile.UpsertAllAt | sistema_escolar_api/import_turnstile.php:349-362 | with each key named once, a named key holds the upsert of its record |
| ServerTurnstile.InsertIgnoreAllOther | sistema_escolar_api/import_turnstile.php:368-386 | the inserts leave a key none of them names as it was |
| ServerTurnstile.InsertIgnoreAllAt | sistema_escolar_api/import_turnstile.php:374-385 | with each key named once, a named key keeps its row if it had one and gets its record otherwise |
| ServerTurnstile.PersistedRow | sistema_escolar_api/import_turnstile.php:314-396 | key by key: a key with nothing to save is untouched; a Present record is upserted; an Absent record lands only where no row was |
| ServerTurnstile.MergedPresent | sistema_escolar_api/import_turnstile.php:349-353 | an upserted row is Present and holds the line's time; on an existing row it keeps that row's id and observation at the front |
| ServerTurnstile.ImportTurnstile | sistema_escolar_api/import_turnstile.php:16-406 | the request: the student map, the windows, the line loop, the absence pass, the transaction and the reply |
| ServerTurnstile.CollectedFacts | sistema_escolar_api/import_turnstile.php:122-311 | the line loop leaves a well-kept state and the absence pass only adds automatic absences to it |
| ServerTurnstile.Sizes | sistema_escolar_api/import_turnstile.php:398-405 | a well-kept state has one record per saved key and one activity entry per date |
| ServerTurnstile.ServerSummary | sistema_escolar_api/import_turnstile.php:398-405 | the reply: `processed` counts kept lines, `notFound` unmatched ones, `present` plus `absent` is every record saved, and `datesProcessed` counts exactly the dates of matched lines |
| ServerTurnstile.KeptIsPassage | sistema_escolar_api/import_turnstile.php:147-204 | a kept line is a matched, dated line |
| ServerTurnstile.CollectedKept | sistema_escolar_api/import_turnstile.php:217-311 | a kept line's record survives the absence pass as Present, holding the line's time |
| ServerTurnstile.ServerKeptRow | sistema_escolar_api/import_turnstile.php:16-406 | after the import, a kept line's row is Present and holds the line's time; a row that was there keeps its id and its observation at the front |
| ServerTurnstile.ServerRejectedRow | sistema_escolar_api/import_turnstile.php:16-406 | a student whose every line on a date falls outside the windows gets neither a presence nor an absence: the row stays as it was |
| ServerTurnstile.CollectedAbsent | sistema_escolar_api/import_turnstile.php:245-311 | a checked student with no line on a date that has lines gets the automatic absence record |
| ServerTurnstile.ServerAbsentRow | sistema_escolar_api/import_turnstile.php:16-406 | such a student ends with the Absent row, unless the table already had a row for the key, which then stays as it was |
| ServerTurnstile.ServerKeepsRows | sistema_escolar_api/import_turnstile.php:16-406 | the import never overwrites a row with an absence: a row stays as it was or becomes Present with its id and observation kept at the front |
| Domain.FindRecord | App.tsx:512-514 | the position of the first record of the (student, date) key, or -1 when there is none |
| Folds.FirstIndex | App.tsx:795 | `findIndex` by a key: -1 when no element has the key, otherwise the position of the first element that has it; it is the lookup of a student (`Domain.StudentIndex`), an exam (`Exams.ExamIndex`) and an attendance record (`ClientTurnstile.FindById`) by id |
| Attendance.FindRecordUnique | App.tsx:512-514 | with one record per key, the key's record is found wherever it sits |
| Attendance.AttendanceBook.constructor | App.tsx:511-580 | the handlers' state starts with the given attendance list and selected date |
| Attendance.AttendanceBook.Store | App.tsx:528-534 | the record replaces the key's first record in place, or is appended when the key has none; the date stays |
| Attendance.AttendanceBook.UpdateStatus | App.tsx:511-535 | `handleAttendanceUpdate`: the list becomes the status update of the selected date's record |
| Attendance.AttendanceBook.UpdateObservation | App.tsx:561-581 | `handleAttendanceObservation`: the list becomes the observation update of the selected date's record |
| Attendance.AttendanceBook.RemoveRecord | App.tsx:537-550 | `handleRemoveAttendanceRecord`, once confirmed: every record of the key on the selected date goes |
| Attendance.SavedShape | App.tsx:528-534 | a save puts the record at the key's first position (the end when there was none), grows the list only for a new key, and keeps every other position |
| Attendance.SavedOtherKey | App.tsx:528-534 | a save for one key leaves where every other key is found and what is found there |
| Attendance.SavedOnePerKey | App.tsx:528-534 | a save keeps the list at one record per (student, date) |
| Attendance.StatusUpdate | App.tsx:511-535 | after a status update the student shows the new status on the date and keeps the shown observation; only a new key grows the list; one record per key is kept; every other key shows what it showed |
| Attendance.ObservationUpdate | App.tsx:561-581 | after an observation update the student shows the new observation and keeps the shown status; one record per key is kept; every other key shows what it showed |
| Attendance.RemovedSpec | App.tsx:537-550 | after a removal the key has no record and shows Present again, and exactly the records of other keys remain |
| Attendance.RemovedOnePerKey | App.tsx:545 | a removal keeps the list at one record per key |
| Attendance.NameOrderTotal | components/views/AttendanceView.tsx:72 | the name comparison orders any two students |
| Attendance.AttendanceListSpec | components/views/AttendanceView.tsx:59-72 | the screen lists exactly the students that pass the class, shift and status filters (a student without a record counting as Present), each as often as in the roster, sorted by name |
| Attendance.DefaultPresent | components/views/AttendanceView.tsx:64-66 | a student without a record on the selected date shows Present and an empty observation, and the Present filter lists them as no filter does |
| Attendance.BlurSyncs | components/views/AttendanceView.tsx:228-238 | whether or not leaving the text box sends an update, afterwards the stored observation is the card's text |
| Attendance.AbsentTodayIsEffective | components/views/StudentListView.tsx:236-240 | with one record per key, the list's absence flag is exactly the status the attendance screen shows for today |
| Attendance.StaleDateToggle | App.tsx:552-559 | with another date selected, marking a student absent from the list stores the absence on the old date and the student is still not absent today |
| Attendance.ToggleFlips | App.tsx:552-559 | the toggle acting on today's record flips the absence flag and keeps one record per key |
| Roster.VisibleSpec | App.tsx:289-294 | no user sees nobody, an Admin sees the whole roster, anyone else exactly the students of their allowed grades, in roster order |
| Roster.VisibleGradesSpec | App.tsx:296-299 | a non-Admin user is offered exactly the known grades they are allowed |
| Text.ParseAutoHexThen | App.tsx:315-316 | `parseInt` without a radix reads "0x" or "0X" and hexadecimal digits as their base-16 value, whatever follows the digits |
| Text.ParseAutoNegativeHexThen | App.tsx:315-316 | the same behind a minus sign gives the negated value |
| Text.ParseAutoHexWithoutDigits | App.tsx:315-316 | "0x" with no hexadecimal digit after it is NaN |
| Text.ParseAutoDigitsThen | App.tsx:315-316 | decimal digits that do not open "0x" read as their decimal value, a leading zero included |
| Text.LeadingHexDigitsStops | App.tsx:315-316 | the hexadecimal digits read stop at the first character that is not one |
| Text.ParseAutoHexExample | App.tsx:315-316 | "0x10" reads as 16 |
| Text.ParseAutoNaNExample | App.tsx:315-316 | "0xZ" reads as NaN |
| Roster.RosterOrderTotal | App.tsx:314-328 | the roster comparator orders any two students |
| Roster.RosterOrderTransitive | App.tsx:314-328 | the roster comparator is transitive |
| Roster.RosterOrdered | App.tsx:314-328 | in a list ordered by the comparator, numbered students come first by number, then the others by name; a number is what `parseInt` without a radix reads, so "0x10" is sixteen and "0xZ" is no number |
| Roster.HexNumberOrder | App.tsx:315-326 | a student numbered "0x10" sorts after one numbered "9", and one numbered "0xZ" sorts after both |
| Roster.RosterListSpec | App.tsx:301-329 | the roster lists exactly the visible students every filter accepts, each as often as in the visible list, numbered students first in number order (numbers read by `parseInt` without a radix, hexadecimal after "0x"), the rest by name |
| Roster.BookStep | App.tsx:478-484 | a click moves a book status one step around the four-step cycle |
| Roster.BookCycleSpec | App.tsx:478-484 | any status outside the cycle restarts it, every click lands in the cycle, and four clicks come back |
| Roster.PeStep | App.tsx:492-498 | a click moves a certificate status one step around its four-step cycle |
| Roster.PeCycleSpec | App.tsx:492-498 | any status outside the cycle restarts it, every click lands in the cycle, and four clicks come back |
| Roster.ToggleSpec | App.tsx:476-509 | a book, certificate or turnstile click changes only the clicked student's entries (the status moves one step, the flag flips) and keeps the roster's length |
| Roster.TurnstileToggleTwice | App.tsx:504-509 | two turnstile clicks give the roster back |
| Roster.ToSave | App.tsx:408-415 | an existing student is saved as edited; a new one takes the fresh id, and a photo it has is kept |
| Roster.AcceptedHasNoClash | App.tsx:393-405 | a save that passes the guards has no other student sharing its non-blank trimmed registration |
| Roster.SaveKeepsUnique | App.tsx:392-426 | an accepted save keeps registrations unique, puts the saved student in the roster, and only happens with a name and a grade |
| StudentViews.StatusCountsSum | components/views/StudentDetailView.tsx:27-31 | the absence, presence and excused counts and the count of any other status add up to the student's records |
| StudentViews.CountsAddUp | components/views/StudentDetailView.tsx:27-31 | with only the three known statuses, the three counts add up to the total |
| StudentViews.FrequencySpec | components/views/StudentDetailView.tsx:27-32 | without records the page shows 100; otherwise the rate is presences plus excused over a non-zero total, and it is full exactly when no record is an absence or an unknown status |
| StudentViews.NewestFirstIsOrder | components/views/StudentDetailView.tsx:167 | newest-first by date orders any two records and is transitive |
| StudentViews.RecentHistorySpec | components/views/StudentDetailView.tsx:166-168 | the history shows min(5, total) of the student's records, newest first, and no record left out is newer than one shown |
| StudentViews.HistoryCardSpec | components/views/StudentDetailView.tsx:166-189 | the "see all" link shows exactly when rows were left out, the empty message exactly when there are no rows |
| StudentViews.StatusBadgeSpec | components/views/StudentDetailView.tsx:173-174 | any status other than Present and Absent reads "Justificado", and Present and Absent read differently |
| StudentViews.BadgeSpec | components/views/StudentListView.tsx:242-254 | an unknown book or certificate status shows itself on a slate badge, a known book status never on slate, and a certificate badge always reads its status |
| StudentViews.WhatsAppSpec | components/views/StudentDetailView.tsx:37-42 | a phone gets a link exactly when it has at least ten digits, and the link is the wa.me prefix followed by exactly those digits |
| StudentViews.InitialFilterTypeSpec | components/views/StudentListView.tsx:73-77 | the selector starts empty exactly when no filter is set, else on the first set filter among book, certificate and turnstile |
| StudentViews.FilterSelector.constructor | components/views/StudentListView.tsx:71-77 | the selector starts on the initial filter type, with the filters as given |
| StudentViews.FilterSelector.ChangeFilterType | components/views/StudentListView.tsx:79-84 | choosing a type selects it and clears all three filters |
| Dashboard.NewestPrefix | components/views/DashboardView.tsx:33-41 | the first k records, newest first, are among the student's records, and none left out is newer |
| Dashboard.FlaggedSpec | components/views/DashboardView.tsx:31-45 | a student with fewer records than the threshold is never listed; a listed student's newest records, threshold many, are all absences, and no other record is newer |
| Dashboard.ThresholdMonotone | components/views/DashboardView.tsx:31-45 | lowering the threshold never drops a listed student, and only visible students are listed |
| Dashboard.PresentTodayCountsStudents | components/views/DashboardView.tsx:29 | with one record per key, the presences counted today are the number of students present today |
| Dashboard.BumpSpec | components/views/DashboardView.tsx:188-191 | counting one student adds one to the total and to their grade's count alone, and keeps each grade listed once with a positive count |
| Dashboard.DistributionSpec | components/views/DashboardView.tsx:188-192 | the counts add up to the visible students, each grade is listed once with a positive count, a grade's count is the number of its students, and exactly the grades present are listed |
| CsvImport.UnquoteSpec | App.tsx:743 | a quoted cell loses its surrounding quotes, and a cell without a quote at either end is kept |
| CsvImport.GradeOfSpec | App.tsx:753 | a grade code maps to a known grade, and to "Não Identificado" exactly when the code is not in the import map |
| CsvImport.ShiftOfSpec | App.tsx:754-757 | the shift is always Manhã or Tarde, and Tarde exactly when the trimmed, upper-cased cell is T or TARDE |
| CsvImport.BirthDateSpec | App.tsx:758-764 | DD/MM/YYYY becomes YYYY-MM-DD, and a date without a slash is kept |
| CsvImport.BirthDateTwoParts | App.tsx:760-761 | a date with only one slash puts "undefined" in the year, as the destructuring does |
| CsvImport.RegistrationIndexSpec | App.tsx:739-740 | a registration is in the index exactly when some student has it, and it leads to the last such student |
| CsvImport.RowStudentSpec | App.tsx:745-781 | a row's student has the row's registration, a known grade or "Não Identificado", a known shift; an existing student keeps its id, e-mail, father's phone, turnstile flag and non-empty statuses; a new one gets the fresh id and the default statuses |
| CsvImport.CollectSpec | App.tsx:742-789 | collecting rows gives one student per accepted line, each built from some line |
| CsvImport.ImportRowSpec | App.tsx:743-788 | a line gives a student exactly when it has at least eight cells, with the third cell as registration |
| CsvImport.ImportedRowsSpec | App.tsx:742-789 | the students processed are as many as the lines of eight or more cells, each with the registration of such a line |
| CsvImport.ImportRows | App.tsx:742-789 | the loop over the data lines: the students processed, successCount their number, and successCount plus failCount the number of lines |
| CsvImport.IdsMember | App.tsx:795 | an id is among the roster's ids exactly when some student has it |
| CsvImport.MergeOneShape | App.tsx:795-800 | merging one student puts it in the list, grows the list only for a new id, and keeps every student with another id in place |
| CsvImport.MergeOneIds | App.tsx:795-800 | merging one student adds its id to the ids |
| CsvImport.MergeAllKeeps | App.tsx:792-803 | the merge never shrinks the roster, its ids are the old ones and the imported ones, and students whose id was not imported stay in place |
| CsvImport.MergeAllHolds | App.tsx:792-803 | an imported student that no later imported student shares an id with is in the merged roster |
| CsvImport.MergeAllSpec | App.tsx:792-803 | the merge never shrinks the roster, keeps the old ids and adds the imported ones, leaves students whose id was not imported in place, and holds the last imported student of every imported id |
| CsvImport.MergeProcessed | App.tsx:792-803 | the `forEach` over the processed students is MergeAll |
| CsvImport.ImportCsv | App.tsx:723-813 | the handler: the roster after the merge of the processed students, successCount the number of lines of eight or more cells, successCount plus failCount the number of data lines |
| PhoneImport.TrimEach | App.tsx:845 | trimming each cell keeps the number of cells |
| PhoneImport.TrimEachFixed | App.tsx:845 | cells without surrounding blanks are left as they are |
| PhoneImport.ParseLineOf | App.tsx:840-860 | reading a line is reading its pipe columns |
| PhoneImport.PipeColumnsOfJoin | App.tsx:845-851 | trimmed cells joined by pipes split back into the same cells |
| PhoneImport.PipeColumnsOfPipeJoin | App.tsx:845-851 | the same behind a leading pipe, which is shifted away |
| PhoneImport.JoinNotSkipped | App.tsx:842 | a table row whose first cell is not a header or rule is not skipped |
| PhoneImport.ParseJoined | App.tsx:839-860 | a row of at least four cells reads as its registration and its fourth and fifth cells (empty when missing) |
| PhoneImport.ParseLeadingPipe | App.tsx:839-860 | the same for a row that starts with a pipe |
| PhoneImport.AddPhoneSpec | App.tsx:879-897 | recording a phone keeps each phone listed once, adds exactly that phone, and keeps every registration recorded known |
| PhoneImport.FoundKeeps | App.tsx:864-917 | a known student's line keeps the scan invariant: every student to save is a known student with only its phones changed, to valid phones; each phone listed once; every recorded registration known |
| PhoneImport.AddPhoneRecords | App.tsx:878-903 | recording a phone under a registration lists that registration under that phone and keeps every pair listed before |
| PhoneImport.FoundApplies | App.tsx:864-917 | a known student's line lists each of its usable phones under its registration, queues the student with those phones when one differs from the stored one, and drops nothing gathered before |
| PhoneImport.ScanSound | App.tsx:839-921 | the loop keeps the scan invariant, and notFound counts exactly the lines naming an unknown registration |
| PhoneImport.ScanApplied | App.tsx:839-921 | after the loop, every line naming a known registration has its usable phones listed under that registration and, when one differs from the stored phone, the student with the line's phones queued |
| PhoneImport.ScanSpec | App.tsx:839-921 | the scan invariant holds (only known students, only phones changed, each phone listed once), notFound counts exactly the unknown registrations, and every known line has its usable phones listed under its registration and its changed student queued |
| PhoneImport.ScanAll | App.tsx:839-921 | the loop over the lines is ScanLines |
| PhoneImport.ReportSound | App.tsx:929-935 | one report line per shared phone, each naming a phone of the map and its distinct registrations |
| PhoneImport.ReportComplete | App.tsx:929-935 | every phone listed under more than one distinct registration has its report line |
| PhoneImport.ReportSpec | App.tsx:929-935 | the report has exactly one line per phone shared by more than one distinct registration: every such phone gets its line, naming its registrations once each, and no other line appears |
| PhoneImport.BuildReport | App.tsx:930-935 | the `forEach` over the phone map is Report |
| PhoneImport.Shown | App.tsx:949-952 | the alert shows the first ten report lines (all of them when there are fewer) and says so exactly when some were left out |
| PhoneImport.ImportPhones | App.tsx:815-966 | the handler: the students to save and notFound of the scan, updatedCount their number, and the report of the phone map |
| PhoneImport.LastUpdateId | App.tsx:942 | the last update found for an id has that id |
| PhoneImport.FirstUpdateWins | App.tsx:938-946 | two lines for one student: the local list keeps the first update while the server keeps the second |
| PhoneImport.TwoLinesTwoUpdates | App.tsx:862-917 | two lines of one student with different phones queue two updates for the same id, in line order |
| PhoneImport.LocalUpdatedIsSaved | App.tsx:924-946 | taking the last update per id gives the local list the server holds after the saves |
| Pedagogical.AddMissedClassSpec | components/views/PedagogicalView.tsx:101-118 | adding a missed class lowers the given hours by its hours, never below zero, keeps the planned hours and earlier entries, and appends exactly the new entry |
| Pedagogical.WithoutIndexSpec | components/views/PedagogicalView.tsx:120-125 | filtering by index deletes exactly the entry at a valid index and changes nothing for an index out of range |
| Pedagogical.RemoveMissedClassSpec | components/views/PedagogicalView.tsx:120-125 | removing a missed class deletes only that entry, keeps the others in order, and does not give its hours back |
| Pedagogical.AddThenRemoveMissedClass | components/views/PedagogicalView.tsx:101-125 | removing a missed class just added restores the list but leaves the deducted hours deducted |
| Pedagogical.AddChecklistItemSpec | components/views/PedagogicalView.tsx:85-92 | a non-blank item is added under its typed name as unticked and nothing else changes; a blank one is refused |
| Pedagogical.RemoveChecklistItemSpec | components/views/PedagogicalView.tsx:94-99 | removal deletes only that key and keeps every other item's tick |
| Pedagogical.AddThenRemoveChecklistItem | components/views/PedagogicalView.tsx:85-99 | adding a new item then removing it gives the checklist back |
| Pedagogical.OpenedSpec | components/views/PedagogicalView.tsx:50-74 | an existing record opens unchanged except that an empty checklist gets the three default items unticked; a new record gets the fresh id, the current week, zero hours and no missed classes; the checklist is never empty |
| Pedagogical.PedagogicalForm.constructor | components/views/PedagogicalView.tsx:29-40 | the form starts with an empty id, empty names, the default checklist, zero hours, no missed classes, empty inputs and the modal closed |
| Pedagogical.PedagogicalForm.OpenModal | components/views/PedagogicalView.tsx:50-74 | the form holds the opened record and the modal is open; the item inputs are untouched |
| Pedagogical.PedagogicalForm.AddMissedClass | components/views/PedagogicalView.tsx:101-118 | the alert is raised exactly when the date or the time is missing, and then nothing changes; otherwise the entry is added and the input reset |
| Pedagogical.PedagogicalForm.RemoveMissedClass | components/views/PedagogicalView.tsx:120-125 | the form loses the entry at the index and nothing else changes |
| Pedagogical.PedagogicalForm.AddChecklistItem | components/views/PedagogicalView.tsx:85-93 | a non-blank name becomes an unticked item and clears the input; a blank name changes nothing |
| Pedagogical.PedagogicalForm.RemoveChecklistItem | components/views/PedagogicalView.tsx:95-99 | the form loses only that checklist key |
| Pedagogical.PedagogicalForm.Save | components/views/PedagogicalView.tsx:76-83 | the record is handed on exactly when the teacher name and the week are present, and the modal then closes; otherwise nothing is saved and the modal stays as it was |
| Pedagogical.FilteredRecordsSpec | components/views/PedagogicalView.tsx:42-48 | the list holds exactly the records matching the teacher search and the week filter, in their order; with both empty it is every record |
| Pedagogical.RowSpec | components/views/PedagogicalView.tsx:226-235 | the hours cell parses back (as parseInt would) to the given hours, it is red exactly when fewer hours were given than planned, and the missed-class badge appears exactly when there are missed classes and begins with their count |
| Coordination.AddedEntrySpec | components/views/CoordinationView.tsx:56-65 | a grade or subject is appended exactly when it is non-empty and not yet listed, after all earlier entries; a list without repeats stays without repeats |
| Coordination.RemovedSpec | components/views/CoordinationView.tsx:67-74 | deleting removes every occurrence of the name and keeps every other entry in order; with no configured grades the default grade list is the one filtered |
| Coordination.TeacherClassSpec | components/views/CoordinationView.tsx:111-132 | a class is added only when grade and subject are both chosen, at the end; removal by id keeps every other class in order; removing a class just added under a fresh id restores the classes |
| Coordination.CollapseBlanksSpec | components/views/CoordinationView.tsx:141-143 | the collapsed name contains no blank |
| Coordination.CollapseWords | components/views/CoordinationView.tsx:141-143 | words separated by single spaces come out joined by dots |
| Coordination.GeneratedEmailSpec | components/views/CoordinationView.tsx:141-143 | the generated address ends in the teachers' domain; its local part is the registration when there is one and otherwise contains no blank |
| Coordination.SavedTeacherSpec | components/views/CoordinationView.tsx:134-166 | a teacher is saved only with a name, always with the Teacher role and the form's name, registration, grades and classes; a new teacher gets the fresh id, the generated address and password 123; an edited one keeps its id, address and password |
| Coordination.OpenThenSave | components/views/CoordinationView.tsx:96-166 | opening an existing teacher and saving without edits gives the same teacher back |
| Coordination.TeacherEditor.constructor | components/views/CoordinationView.tsx:40-45 | the editor starts with an empty teacher form, a blank new class on the morning shift, no teacher being edited and the modal closed |
| Coordination.TeacherEditor.OpenTeacherModal | components/views/CoordinationView.tsx:96-109 | the form holds the opened teacher, the edited teacher is recorded, the new-class input is blank and the modal is open |
| Coordination.TeacherEditor.AddTeacherClass | components/views/CoordinationView.tsx:111-125 | with grade and subject chosen the class is appended and the input reset; otherwise nothing changes |
| Coordination.TeacherEditor.RemoveTeacherClass | components/views/CoordinationView.tsx:127-132 | the form loses the classes with that id and nothing else changes |
| Coordination.TeacherEditor.SaveTeacher | components/views/CoordinationView.tsx:134-166 | the user handed to the server is the saved teacher of the old form; the modal closes exactly when something was saved |
| Coordination.FindUserSpec | components/views/CoordinationView.tsx:327 | the lookup finds nothing exactly when no user has the id, and otherwise the first user with it |
| Coordination.DistinctValues | components/views/CoordinationView.tsx:330 | the de-duplicated values of the classes hold no repeats |
| Coordination.OptionsSpec | components/views/CoordinationView.tsx:321-367 | for a selected teacher with classes: the grade options are exactly the distinct grades of those classes; when the chosen grade leaves at least one class, the shift and subject options are exactly the distinct shifts (a missing shift read as morning) and subjects of those classes, and when it leaves none they are both shifts and the subject catalogue; with no teacher, an unknown one or one without classes every list falls back (grades in use, both shifts, catalogue); there is always a shift option |
| Coordination.StatusColours | components/views/CoordinationView.tsx:436-440 | of the five statuses the record form offers, the badge is green exactly for the three on-time or early ones; the default status is green |
| Constants.Flatten | constants.ts:10-15 | the flattened list contains every grade of every group |
| Constants.GroupGrades | constants.ts:3-8 | a group's grades all belong to the flat grade list |
| Constants.GradesListIsGroupsInOrder | constants.ts:3-15 | the flat grade list is the four groups concatenated in declaration order and holds 16 distinct grades |
| Constants.GroupsDisjoint | constants.ts:3-8 | no grade belongs to two groups |
| Constants.ImportGradeMapIndexed | constants.ts:17-34 | the import codes, in order, map onto the flat grade list position by position |
| Constants.ImportGradeMapCodes | constants.ts:17-34 | the map has no code outside the list of import codes |
| Constants.ImportGradeMapIsBijection | constants.ts:17-34 | every code maps into the grade list, distinct codes map to distinct grades, and every grade has a code |
| Constants.ShiftsAndPeriods | constants.ts:36-37 | the shifts are morning and afternoon; the eight academic periods are distinct and alternate stage and bimester |
| UserEdit.AddMissingSpec | components/views/UserEditView.tsx:28-32 | checking a group keeps the earlier grades in front, adds only grades of the group, leaves every grade of the group allowed, and adds no duplicate |
| UserEdit.WithoutGroupSpec | components/views/UserEditView.tsx:33-34 | unchecking a group allows exactly the earlier grades outside it, in their order |
| UserEdit.ToggleGroupAccess | components/views/UserEditView.tsx:24-36 | the loop pushing missing grades ends with the checked-group result, and unchecking gives the filtered list |
| UserEdit.GroupToggleSpec | components/views/UserEditView.tsx:24-36 | after checking, the group's box shows checked; after unchecking a non-empty group it shows unchecked; checking then unchecking equals unchecking alone |
| UserEdit.ToggleGradeSpec | components/views/UserEditView.tsx:106-112 | checking a grade appends it and keeps the rest; unchecking leaves exactly the other grades |
| WeekLogic.ParseWeek | test_week_logic.js:3-17 | the loop over comma-separated parts computes the specified week map |
| WeekLogic.LastGivenSpec | test_week_logic.js:6-15 | the reference "date of the last part naming the day" is absent exactly when no part names the day, and otherwise comes from a part naming it after which no part names it |
| WeekLogic.EnterAllSpec | test_week_logic.js:6-15 | entering the parts keeps the earlier keys and adds exactly the weekdays some part names; a named weekday takes the date of the last part naming it, other keys keep their dates |
| WeekLogic.WeekOfSpec | test_week_logic.js:3-17 | an empty field gives an empty map; otherwise a day is a key exactly when it is a weekday that some comma-separated part names, and its date is that of the last part naming it |
| WeekLogic.EditOneDay | test_week_logic.js:19-25 | setting, re-dating or removing one weekday changes only that day's part of the written field |
| WeekLogic.RenderedShape | test_week_logic.js:23 | a rendered day has no blank at either end, no comma and no line break |
| WeekLogic.MatchRendered | test_week_logic.js:7-10 | the regular expression splits a rendered day back into its day and date |
| WeekLogic.MatchBehindBlank | test_week_logic.js:7-10 | any white-space character, a line break included, may separate a weekday from its parenthesised date |
| WeekLogic.MatchAcrossLineBreak | test_week_logic.js:7 | "Segunda\n(23)" is read as Segunda on "23" |
| WeekLogic.LineBreakInDay | test_week_logic.js:7 | a line break inside the day text makes the match fail |
| WeekLogic.RoundTrip | test_week_logic.js:3-25 | parsing what updateWeekMetadata writes gives back any map of weekdays whose dates hold no comma or line break |
| WeekLogic.ExampleParsed | test_week_logic.js:1-28 | the script's field parses as Segunda on 2023-10-23 and Quarta without a date |
| WeekLogic.ExampleAddSexta | test_week_logic.js:30-33 | checking Sexta writes the field with ", Sexta" appended |
| HistorySort.ParseFormatted | verification/verify_history_sort.py:105-109 | a valid date shown as DD/MM/YYYY parses back to that date |
| HistorySort.ParseAllSpec | verification/verify_history_sort.py:105-109 | all cells parse exactly when each one does, and then the i-th date is the i-th cell's |
| HistorySort.ParseDates | verification/verify_history_sort.py:105-109 | the parsing loop computes the all-or-error parse of the cells |
| HistorySort.ParseAllPrefix | verification/verify_history_sort.py:105-109 | once a prefix of the cells fails to parse, the whole list fails |
| HistorySort.SortedIsDescending | verification/verify_history_sort.py:113 | adjacent non-increasing dates are non-increasing throughout |
| HistorySort.VerdictSpec | verification/verify_history_sort.py:99-126 | the verdict is the exception exactly when a 2024 cell does not parse, SUCCESS exactly when at least three parsed dates are sorted, WARNING exactly when fewer than three, FAIL otherwise, and FAIL exhibits an adjacent increasing pair |
| HistorySort.SuccessMeansDescending | verification/verify_history_sort.py:113-116 | under SUCCESS there are at least three dates, in non-increasing order throughout |
| HistorySort.OtherYearsIgnored | verification/verify_history_sort.py:99 | a cell without 2024 does not change the verdict |
| Exams.FilteredExamsSpec | components/views/ExamView.tsx:90-98 | the list keeps the exams' order and holds exactly the exams whose first matching student passes the grade and shift filters; exams of unknown students never appear; with no filters every exam of a known student appears |
| Exams.ButtonRequestSpec | components/views/ExamView.tsx:224-243 | each button requests a status change for its own exam, the three buttons request the three distinct statuses |
| Exams.UpdateExamStatusSpec | App.tsx:615-622 | the list keeps its length and order, exams with other ids are unchanged, exams with the id become the first such exam with the new status, and an unknown id changes nothing |
| Health.FilteredDocsSpec | components/views/HealthView.tsx:45-55 | the list keeps the documents' order and holds exactly the documents of a known student passing the name search and the grade, shift and type filters; with no search and no filters every document of a known student appears |
| Health.SearchByOwnName | components/views/HealthView.tsx:49 | searching for the owning student's name keeps the document when the other filters are empty |
| Breadcrumbs.RenderSpec | components/features/Breadcrumbs.tsx:25-71 | nothing is rendered exactly on the dashboard; the third crumb appears exactly when a student is selected or a student or user is being edited, the view crumb is disabled exactly when it does not, and the third crumb's text prefers student editing, then user editing, then the selected student's name |
| Breadcrumbs.ClickSpec | components/features/Breadcrumbs.tsx:43-56 | after the root crumb nothing is rendered and user editing is left as it was; after the view crumb only the view label is shown, disabled; clicking either crumb twice equals clicking it once |

## Left out

- API and persistence (`services/api.ts`, the PHP CRUD endpoints, sql.js, localStorage, `fetch`): these are foreign calls and asynchronous I/O. Each handler is modelled up to the value it hands to the API, and the API is assumed to accept it.
- The import transaction in `sistema_escolar_api/import_turnstile.php` is modelled as updates to a map keyed by (student, date). The PDO statements, the rollback and the HTTP responses are not modelled. A NULL observation is the empty string.
- Record ids from `Math.random()` and `uniqid()`, and the current date from `new Date()`, are parameters. Nothing is claimed about their uniqueness beyond what each lemma requires.
- The `${studentId}_${date}` keys are modelled as pairs. A student id containing `_` could make two different keys collide in the source; the model cannot show that collision.
- JavaScript objects used as dictionaries are maps. Prototype keys and the insertion order of `Object.entries` are not modelled.
- `localeCompare` and `Date` ordering are the code-point order `Text.LexLe`. ICU collation and time zones are not modelled.
- String lengths count code points. JavaScript counts UTF-16 units and PHP's `strlen` counts bytes; these agree only for ASCII.
- Integer widths are not modelled: JavaScript numbers and PHP integers are unbounded here.
- Text.PhpIntCast: reads only the leading run of digits after blanks and a sign. PHP 7.1 and later read a leading decimal or exponent numeral as a float and truncate it, so `(int)"1e3"` is 1000 and `(int)"12.7"` is 12; here they give 1 and 12. That float path, including its rounding and its capping at the integer range, is floating point and is not modelled. The two differ only when an exponent follows the digits (with or without a fraction between them), as in a registration or time field such as `1e3` or `1.5e3`.
- `toLowerCase` covers ASCII and Latin-1 letters only, and the CSV shift column is upper-cased over ASCII only.
- `WeekLogic.RoundTrip` requires dates without a comma or a line break: a comma splits the field, and the regular expression's `.` does not match a line terminator.
- Python's `int()`: underscores and non-ASCII digits are not modelled. The whitespace it strips is approximated by a fixed set (`HistorySort.PyBlanks`).
- The Playwright steps of `verification/verify_history_sort.py` are not modelled: the browser, the page, the screenshots and the printed messages. Only the verdict over the cell texts is.
- `test_week_logic.js` also removes Segunda and re-dates Quarta. These two scenarios have no concrete lemma of their own; `WeekLogic.EditOneDay` covers both cases for any map.
- Floating point: the frequency `toFixed(1)` and the dashboard bar widths. The frequency is kept as the rational attended/total.
- Printing, CSV export, the phone-template download, NetworkDiagnosticsView, the polling and theme effects, and rendering-only components: these are DOM, Blob and timing code.
- Photo uploads, student deletion, the coordination delivery-record handlers (including `handleImportDefaultGrades`, which only sends the flat grade list of `Constants.GradesListIsGroupsInOrder`), and the save and delete handlers and modals of the exam and health screens: these are API calls with no logic of their own.
- Confirmation dialogs (`confirm`) are taken as accepted.
- `CsvImport`: `saveStudent` is taken to return the student unchanged. The guardians list is not built.
- `PhoneImport`: the text of the final alert is not modelled, beyond the counts and the duplicate report. The unused "Responsável" column is ignored, as in the source.
- `ServerTurnstile`: `$skippedDateCount` is declared but never updated or reported, so it is not modelled. The integers `$startTimeInt` and `$endTimeInt` are computed but never read, so they are also left out.
- `Pedagogical`: the display order of the checklist entries is not modelled. Neither is the sharing of the checklist object between an opened record and the form, which is JavaScript aliasing. The row shows "given / planned", in that order, as the code writes it.
- `Coordination`: the source reads `classes` on a user, but `types.ts` declares neither it nor `TeacherClass`. The model gives the user that field. An edited teacher with an empty id or e-mail gets the fresh id or the generated address, as `||` does in the source.
- `UserEdit.ToggleGroupAccess` requires a known group name. The checkboxes only ever pass one; any other name makes the source throw.
- `Breadcrumbs`: `viewLabels` has no entry for the coordination screen, so its crumb label is None, as the source renders nothing there. Clicking the root crumb leaves `isEditingUser` as it was, as the source does.

## Findings

| source | as written | input that shows it | evidently intended | confidence | as-written member | corrected member |
|---|---|---|---|---|---|---|
| App.tsx:552-559 | `handleToggleAbsence` calls `setAttendanceDate(today)` and then `handleAttendanceUpdate`, which still reads the previously selected `attendanceDate`; the removal also acts on that date | attendance screen on 2024-03-01, today 2024-03-02, student s1 with no records: the absence is written for 2024-03-01 and s1 is still not absent today | the toggle in the student list flips today's absence | not executed | Attendance.StaleDateToggle | Attendance.ToggleFlips |
| App.tsx:938-946 | the local student list takes the first entry of `studentsToUpdate` with the student's id, while the saves in order leave the last one on the server | two lines for the same registration, the mother's phone 11111111 then 22222222: the screen shows 11111111, the server holds 22222222 | the local list shows what was saved, the last update | not executed | PhoneImport.FirstUpdateWins | PhoneImport.LocalUpdatedIsSaved |
