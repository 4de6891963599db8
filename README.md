# Pet health assistant: the record lists, verified

This project models, in Dafny, the logic of the pet-care tracker that sits
under its forms: three list managers, one each for pet profiles, health
records and reminders. Each handler reads the whole list stored under a fixed
key (an absent key reads as the empty list), changes it (append, replace at
the index of an id, filter out an id, flip `completed`) and writes the whole
list back; a write can fail. Beside them are the display orders (health
records newest first, reminders earliest first, never written back), the
reminder validation, the decision whether to arm a reminder notification, and
the two badge helpers for a health record's type.

Modules, one per source file or shared concern:

- `Wrappers` (`wrappers.dfy`): `Option` and `Result`.
- `Text` (`text.dfy`): JavaScript's `trim`, ASCII upper-casing, `split` and `join`.
- `Storage` (`storage.dfy`): the key-value store as a `map<string, seq<E>>`, with a
  `Store` class whose `Save` may be refused.
- `Lists` (`lists.dfy`): `findIndex`, `find`, `filter` on the id and replacement at
  the index found, with their list laws.
- `Sorting` (`sorting.dfy`): the in-place sort on an `array`, by insertion.
- `Profiles`, `HealthRecords`, `Reminders`: the three list managers.
- `Scenarios` (`scenarios.dfy`): short runs of handlers in the role of the page
  (add then display, toggle then display, delete twice), checked from the
  handlers' contracts alone.

Environment, as parameters: the clock is an integer `now` (milliseconds);
`new Date(text)` is a function `parse: string -> Option<int>` (`None` for NaN);
whether the storage medium takes a write is a boolean `accepted`; a photo is
the data URL the file reader produced (`None` when no file was chosen); the
`confirm()` answer is a boolean `confirmed`; the notification permission is a
`Permission` value. A handler that edits works in two steps, as the page does:
`BeginEdit` (the click on the edit button, which loads the list and finds the
entry) and `SubmitEdit` (the form's submit handler, which writes back the list
kept from the click).

Three details of the code that the model keeps as they are: a reminder due
exactly now is accepted, since only `selectedDate < now` is refused
(reminders.js:52); a health record's type is only checked for being
non-empty, not against the five known types (healthRecords.js:25); and the
edits validate nothing, nor do they report an edited id that is no longer
stored. An edit also writes back the list loaded when the edit began, not a
list reloaded at submission (see "## Findings").

## Model

| member | source | states |
|---|---|---|
| Text.TrimStart | pet-health-assistant/js/profiles.js:65 | the result is the longest suffix of the input whose first character is not white space; everything cut is white space |
| Text.TrimEnd | pet-health-assistant/js/profiles.js:65 | the result is the longest prefix of the input whose last character is not white space; everything cut is white space |
| Text.TrimCutsOnlyWhiteSpace | pet-health-assistant/js/profiles.js:65-72 | `trim` returns a contiguous piece of the input with no white space at either end, and removes only white space around it |
| Text.BlankIffAllWhiteSpace | pet-health-assistant/js/profiles.js:41-43 | `!s.trim()` holds exactly when every character of `s` is white space |
| Text.TrimIdempotent | pet-health-assistant/js/reminders.js:58 | trimming a trimmed value changes nothing |
| Text.ToUpper | pet-health-assistant/js/healthRecords.js:196 | `a`..`z` map to `A`..`Z`; every other character is unchanged |
| Text.Split | pet-health-assistant/js/healthRecords.js:195 | `split` yields at least one piece and no piece contains the separator |
| Text.JoinSplit | pet-health-assistant/js/healthRecords.js:195-197 | joining the pieces of a split on the same separator gives back the string |
| Text.SplitJoin | pet-health-assistant/js/healthRecords.js:195-197 | splitting the join of separator-free pieces gives back the pieces |
| Storage.Load | pet-health-assistant/js/app.js:122-130 | `load` yields a list exactly when the key holds one, and then that list |
| Storage.LoadOrEmpty | pet-health-assistant/js/profiles.js:77 | an absent key reads as the empty list, a present one as its list |
| Storage.Saved | pet-health-assistant/js/app.js:112-120 | after an accepted save the key reads back the saved list; a refused save changes nothing; other keys never change |
| Storage.Store.Save | pet-health-assistant/js/app.js:112-120 | reports whether the write was taken and changes the store exactly as `Saved` says |
| Lists.FirstIndexOf | pet-health-assistant/js/reminders.js:148 | `findIndex` is `None` (-1) exactly when no entry has the id, and otherwise the first index whose entry has it |
| Lists.FindById | pet-health-assistant/js/profiles.js:188-189 | `find` returns the entry at the first index with the id, and nothing exactly when no entry has it |
| Lists.SameIdsSameIndex | pet-health-assistant/js/reminders.js:148 | lists with the same ids position by position give the same `findIndex` |
| Lists.Without | pet-health-assistant/js/profiles.js:274 | the filtered list is no longer than the input and holds no entry with the id |
| Lists.WithoutCounts | pet-health-assistant/js/profiles.js:274 | every entry with another id is kept as many times as it occurs; entries with the id are all dropped |
| Lists.WithoutConcat | pet-health-assistant/js/reminders.js:164 | the filter distributes over concatenation, so kept entries stay in their relative order |
| Lists.WithoutAbsent | pet-health-assistant/js/healthRecords.js:173 | filtering out an id no entry has returns the same list |
| Lists.WithoutIdempotent | pet-health-assistant/js/healthRecords.js:173 | deleting an id twice gives the same list as deleting it once |
| Lists.WithoutKeepsUniqueIds | pet-health-assistant/js/reminders.js:164 | deleting keeps the ids of a list unique |
| Lists.ReplaceFirstChangesOneRecord | pet-health-assistant/js/profiles.js:253-254 | assignment at the found index keeps the length, puts the new entry at that index and leaves every other entry; when no index is found the saved list is unchanged |
| Lists.ReplaceFirstKeepsIds | pet-health-assistant/js/healthRecords.js:151-152 | replacement keeps the ids position by position, hence keeps them unique |
| Lists.ReplaceFirstKeepsOthers | pet-health-assistant/js/profiles.js:253-256 | every entry of the list being written back, other than the replaced id, is in the list saved |
| Lists.ReplaceFirstAddsOnly | pet-health-assistant/js/healthRecords.js:151-152 | every entry of a replacement is the new entry or was in the list |
| Lists.AppendKeepsUniqueIds | pet-health-assistant/js/profiles.js:77-78 | appending an entry with a new id keeps ids unique |
| Sorting.SortInPlace | pet-health-assistant/js/reminders.js:101 | the in-place sort leaves the array ordered by the comparator and a permutation of what it held |
| Sorting.SortedCopy | pet-health-assistant/js/healthRecords.js:71 | the sorted list is ordered by the comparator and holds the same entries as the input |
| Profiles.NewProfileFields | pet-health-assistant/js/profiles.js:63-75 | a new profile takes id and both stamps from the clock, keeps the photo given (none without a file), trims every text field, and has a non-empty name exactly when the name was not blank |
| Profiles.AddKeepsIdsUnique | pet-health-assistant/js/profiles.js:64 | with a clock past every stored id, adding keeps ids unique |
| Profiles.AddProfile | pet-health-assistant/js/profiles.js:33-88 | a blank name is refused with its message and stores nothing; otherwise exactly one new profile is appended to the loaded-or-empty list and saved; a refused save reports "Failed to save pet profile" and stores nothing |
| Profiles.BeginEdit | pet-health-assistant/js/profiles.js:186-191 | an id not in the list yields no edit and writes nothing; otherwise the edit keeps the loaded list and the first profile with the id |
| Profiles.EditedProfileFields | pet-health-assistant/js/profiles.js:223-244 | an edit keeps id, `createdAt` and, without a new file, the photo; it trims the text fields, stamps `updatedAt` and never removes a photo |
| Profiles.SubmitEdit | pet-health-assistant/js/profiles.js:252-267 | the edited profile replaces the first entry with its id in the list kept from the click, that list is saved, and a refused save stores nothing and ends in an uncaught "Failed to update pet profile" error, which the page never shows (returned here as a `Failure`) |
| Profiles.StaleEditRestoresDeleted | pet-health-assistant/js/profiles.js:252-256 | as written, a profile deleted between the click and the submission is stored again |
| Profiles.SubmitEditReloaded | pet-health-assistant/js/profiles.js:252-256 | the intended edit replaces the profile in the list stored at submission, and writes nothing when the profile is gone |
| Profiles.ReloadedEditAddsNothing | pet-health-assistant/js/profiles.js:252-256 | the intended edit stores only profiles already stored and the edited one |
| Profiles.DeleteProfile | pet-health-assistant/js/profiles.js:270-284 | without confirmation nothing changes; with it the loaded list filtered of the id is saved |
| HealthRecords.NewRecordFields | pet-health-assistant/js/healthRecords.js:29-35 | a new record keeps date and type as given, trims the notes, has `createdAt` and no `updatedAt` |
| HealthRecords.AddHealthRecord | pet-health-assistant/js/healthRecords.js:13-51 | an empty date is refused before an empty type is; otherwise exactly one record is appended to the loaded-or-empty list and saved; a refused save reports "Failed to save health record" and stores nothing |
| HealthRecords.NewestFirstIsTotalPreorder | pet-health-assistant/js/healthRecords.js:71 | the display comparator orders any two records consistently (total and transitive) |
| HealthRecords.DisplayOrder | pet-health-assistant/js/healthRecords.js:57-71 | the displayed list is a permutation of the stored list with later dates first, and the store is not written |
| HealthRecords.BeginEdit | pet-health-assistant/js/healthRecords.js:118-123 | an id not in the list yields no edit and writes nothing; otherwise the edit keeps the loaded list and the first record with the id |
| HealthRecords.EditedRecordFields | pet-health-assistant/js/healthRecords.js:143-149 | an edit keeps id and `createdAt`, takes date and type as given, trims the notes and adds `updatedAt` |
| HealthRecords.SubmitEdit | pet-health-assistant/js/healthRecords.js:140-162 | the edited record replaces the first entry with its id in the list kept from the click and that list is saved |
| HealthRecords.StaleEditRestoresDeleted | pet-health-assistant/js/healthRecords.js:151-154 | as written, a record deleted between the click and the submission is stored again |
| HealthRecords.SubmitEditReloaded | pet-health-assistant/js/healthRecords.js:151-154 | the intended edit replaces the record in the list stored at submission, and writes nothing when the record is gone |
| HealthRecords.ReloadedEditAddsNothing | pet-health-assistant/js/healthRecords.js:151-154 | the intended edit stores only records already stored and the edited one |
| HealthRecords.DeleteHealthRecord | pet-health-assistant/js/healthRecords.js:169-183 | without confirmation nothing changes; with it the loaded list filtered of the id is saved |
| HealthRecords.CapitalizeAll | pet-health-assistant/js/healthRecords.js:196 | the map keeps the number of words |
| HealthRecords.FormatRecordTypeAt | pet-health-assistant/js/healthRecords.js:194-198 | the label has the length of the type, a space for every dash, and the first character of each dash-separated word upper-cased, all else unchanged |
| HealthRecords.FormatRecordTypeWords | pet-health-assistant/js/healthRecords.js:194-198 | for a type without spaces, splitting the label on spaces gives the capitalized words, as many as the type has |
| HealthRecords.GetTypeStyles | pet-health-assistant/js/healthRecords.js:200-209 | each of the five known types gets its own classes; any other string gets those of `other` |
| HealthRecords.TypeStylesAgreeOffPrototype | pet-health-assistant/js/healthRecords.js:208 | the lookup as written agrees with the intended one on every string that is not an inherited member's name |
| HealthRecords.TypeStylesConstructorCounterexample | pet-health-assistant/js/healthRecords.js:208 | as written, the type "constructor" yields an inherited member instead of the `other` classes |
| HealthRecords.KnownTypesHaveDistinctStyles | pet-health-assistant/js/healthRecords.js:201-207 | two different known types get different classes |
| Reminders.ValidateReminder | pet-health-assistant/js/reminders.js:37-54 | the checks run in order (blank title, empty date-and-time, unparsable, earlier than now), each with its message; success means all passed and yields the parsed instant |
| Reminders.ValidationBoundary | pet-health-assistant/js/reminders.js:52-54 | an instant equal to now is accepted; the same instant a millisecond later is refused as past |
| Reminders.NewReminderFields | pet-health-assistant/js/reminders.js:56-62 | a new reminder is not completed, is not due before now, and has a non-empty trimmed title and trimmed notes |
| Reminders.ScheduleNotification | pet-health-assistant/js/reminders.js:198-223 | permission is requested only while undecided; a timer is armed only with permission granted and a target strictly after now, and then the delay it asks `setTimeout` for is positive and equals target minus now (what the timer actually waits is `TimerWait` of it) |
| Reminders.TimerWait | pet-health-assistant/js/reminders.js:214-220 | a requested delay within the signed 32-bit range is waited as asked; a delay above 2147483647 and below 2^32 reads as negative and is not waited at all |
| Reminders.ThirtyDaysAheadFiresAtOnce | pet-health-assistant/js/reminders.js:214-220 | a reminder 30 days ahead asks for 2592000000 ms, which the timer does not wait: the notification fires at once |
| Reminders.TimerChain | pet-health-assistant/js/reminders.js:214-220 | the intended wait as a chain of timers: each within what a timer honours, waited exactly as asked, together adding up to the requested delay |
| Reminders.ChainedTimerFiresOnTime | pet-health-assistant/js/reminders.js:210-222 | with the chain in place of the single timer, every armed notification fires exactly at the reminder's time |
| Reminders.DueNowIsNeverNotified | pet-health-assistant/js/reminders.js:52-74 | a reminder accepted for exactly the instant of submission never gets a timer |
| Reminders.AddReminder | pet-health-assistant/js/reminders.js:28-81 | validation failures store nothing; otherwise one reminder is appended to the loaded-or-empty list and saved; the notification is decided only after a successful save; a refused save reports "Failed to save reminder" and stores nothing |
| Reminders.DisplayOrder | pet-health-assistant/js/reminders.js:87-101 | the displayed list is a permutation of the stored list ordered by date and time, earliest first, and the store is not written |
| Reminders.ToggleChangesOneFlag | pet-health-assistant/js/reminders.js:147-151 | a toggle flips `completed` on the first reminder with the id and changes nothing else; an absent id leaves the list |
| Reminders.ToggleTwiceRestores | pet-health-assistant/js/reminders.js:148-151 | toggling the same id twice restores the list |
| Reminders.ToggleKeepsUniqueIds | pet-health-assistant/js/reminders.js:151 | a toggle keeps ids unique |
| Reminders.ToggleReminder | pet-health-assistant/js/reminders.js:145-159 | an absent id writes nothing; otherwise the toggled list is saved |
| Reminders.DeleteReminder | pet-health-assistant/js/reminders.js:161-173 | the loaded list filtered of the id is saved, without confirmation |

## Left out

- Rendering: the `innerHTML` lists, form population and reset, `scrollIntoView`, the registration of handlers on `window`, navigation and the menu. `loadProfiles` only renders the stored list in its order, so it has no member.
- Reading a photo file (`FileReader`) is asynchronous browser I/O; the model takes its result as a parameter.
- `confirm()`, `showNotification`, `setTimeout` and `new Notification`: the model returns the message and the scheduling decision instead.
- JSON text and `localStorage` are replaced by the map of lists; text that does not parse reads as an absent key.
- Date parsing and locale formatting (`formatDate`, `formatDateTime`, `initDateTimeInput`) are library behaviour; instants are integers and parsing is a parameter.
- The advice page and its own copy of the title-casing, which `FormatRecordType` covers.
- The submit-handler wiring of the forms: the model treats an add and an edit submission as separate operations, so `Profiles.SubmitEdit` and `HealthRecords.SubmitEdit` describe the edit closure alone, not what one press of the submit button does on the page. The add handler stays attached with `addEventListener` (profiles.js:10, healthRecords.js:8), and the edit click only sets `form.onsubmit` (profiles.js:217, healthRecords.js:140), which runs after it. So on the page, an edit submission first runs the add handler. It appends a copy of the entry under a new id and resets the form (profiles.js:82 when no photo file is chosen, healthRecords.js:43). The edit closure then reads the emptied inputs (profiles.js:220-231, healthRecords.js:145-147) and writes back the list from the click with that entry's text fields emptied, which drops the copy. After a successful edit, `form.onsubmit` is set to the add handler (profiles.js:262, healthRecords.js:159), so every later add runs twice. None of this is modelled.
- Text.ToUpper: upper-cases only `a`..`z`; JavaScript's full Unicode case mapping (which can lengthen a string) is not modelled.
- HealthRecords.NewestFirstIsTotalPreorder: a date that does not parse makes the source's comparator return NaN, which gives no consistent order; the model places such records after all dated ones.
- Sorting.SortInPlace: does not state stability (records with equal dates keep their stored order in the source's sort).
- The several clock reads of one handler (`Date.now()` and each `new Date()`) are one instant `now`; the reminder notification decision has its own instant.
- The error a failed save raises inside the file reader's callback escapes the handler's `try`, so that message is never shown; the model returns it like the others. The same holds for every refused save on the profile edit path, with or without a photo file: the edit closure (profiles.js:217-245) runs from the submit event, after `handleEditProfile`'s `try` has exited, so the error thrown at profiles.js:266 is never caught and "Failed to update pet profile" is never shown. `Profiles.SubmitEdit` and `Profiles.SubmitEditReloaded` return that message as a `Failure` to mark the uncaught error.

## Findings

| source | as written | input that shows it | evidently intended | confidence | as-written member | corrected member |
|---|---|---|---|---|---|---|
| pet-health-assistant/js/profiles.js:252-256 | the edit writes back the list loaded when the edit button was clicked | click edit on profile A, delete profile B, submit the edit: B is stored again | apply the edit to the list stored at submission | high, not executed | Profiles.StaleEditRestoresDeleted | Profiles.SubmitEditReloaded |
| pet-health-assistant/js/healthRecords.js:151-154 | the edit writes back the list loaded when the edit button was clicked | click edit on record A, delete record B, submit the edit: B is stored again | apply the edit to the list stored at submission | high, not executed | HealthRecords.StaleEditRestoresDeleted | HealthRecords.SubmitEditReloaded |
| pet-health-assistant/js/healthRecords.js:208 | `styles[type]` also finds the members the object inherits | a stored record whose type is "constructor" gets the `Object` function as its classes | any type without an own entry gets the `other` classes | medium, not executed; the form's select offers only the five known types | HealthRecords.TypeStylesConstructorCounterexample | HealthRecords.GetTypeStyles |
| pet-health-assistant/js/reminders.js:214-220 | one `setTimeout` for `notificationTime - now`, which the browser reads as a signed 32-bit integer | a reminder 30 days ahead with permission granted: 2592000000 ms reads as a negative delay and the notification fires at once | fire at the reminder's time however far ahead it lies | high, not executed | Reminders.ThirtyDaysAheadFiresAtOnce | Reminders.TimerChain |
