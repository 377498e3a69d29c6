# Task board workflow engine, in Dafny

This project models the workflow engine of a browser task board for tasks
that travel a fixed route of statuses. A task starts on the front route
(qmow, swo, anav, reo). It is released through the transmit section
(released, qm-xmit, swo-xmit, awaiting-ack) and comes back along the back
route (qm-br, swo-br, anav-br, reo-br). When the back route completes, the
task lands in a lifecycle bucket (approved, active or wasp-deletions)
chosen from its operation window. From wasp-deletions it may later be moved
to filed by hand.

The model covers:

- `js/flowRules.js`: the status groups, the legality table of manual moves,
  the lifecycle bucket, the in-place status change with its history entry
  and back-route completion, and the periodic lifecycle sweep.
- `js/priority.js`: the three-way priority classifier and its severity
  classes.
- `js/utils.js`: the date-time-group (DTG) parser `DDHHMMZMMMYY` and the
  `MI-NNN` id allocator with its global counter.
- `js/modals.js`, its data logic only: the status dropdown with its
  return-to-QMOW feedback gate, the save of an edited unit, operation and
  DTG, and the creation of a task with its attachment records.
- The `FRONT_ROUTE_STATUSES` constant of `js/data.js`.

Modules and their shape:

- `Common`: an `Option` type, JavaScript truthiness of an optional
  instant, and the string operations the code calls: `trim`,
  `toUpperCase`, `replace(/\s+/g, "")`, `padStart` and `toString`.
- `Calendar`: the ECMAScript time-value arithmetic behind `Date.UTC`,
  `getUTCDate` and `getUTCMonth`, written out on integers and proved
  against the civil calendar.
- `Utils`: the DTG parser, and the id format with its round trip.
- `Data`:
  - the `Task` class, whose status, group, metadata, clock and history
    fields are updated in place;
  - the `Board` class, which holds `ALL_TASKS` and `nextTaskIdNumber`.
- `FlowRules`, `Priority`, `Modals`: the operations. Each operation that
  changes a task is a method. It is proved to leave the task in the state
  that a specification function of the old state computes. Lemmas then
  state what the code promises about those functions.

Conventions:

- Instants are integers, in milliseconds since the epoch.
- The current time is a parameter `now`.
- An ISO string is given as the instant it parses to. It is `None` when the
  string is empty, missing or unparseable.
- A missing status or option is the empty string.

## Model

| member | source | states |
|---|---|---|
| Data.FindTaskIndex | js/modals.js:348 | `findIndex`: the first position holding the id, or -1 when no task has it |
| Data.Board.constructor | js/data.js:4 | the board starts empty with the counter at 5 and satisfies the id invariant |
| Data.Board.GetNextTaskId | js/utils.js:58-62 | returns the id for the counter's current value, increments the counter by exactly one, leaves the task list alone and keeps the id invariant |
| Data.ValidAfterCreate | js/modals.js:559-602 | appending a task whose id was just drawn from the counter keeps every id parseable, below the counter and distinct |
| Data.ValidTasksDistinct | js/flowRules.js:171-172 | on a board with distinct ids, two positions hold two different task objects, so updating one leaves the others alone |
| FlowRules.GroupForStatus | js/flowRules.js:8-23 | each group label is returned exactly for the statuses of its list, and "Unknown" exactly for a status in none of them |
| FlowRules.IsTransitionAllowed | js/flowRules.js:28-82 | an allowed move always has a target, and staying at a given status is always allowed; TransitionTable states the full table |
| FlowRules.TransitionTable | js/flowRules.js:28-82 | a move is allowed iff the target is non-empty and is either the current status, one of the sixteen manual moves, or one of the two full-back-route moves of a flagged task |
| FlowRules.NoManualExit | js/flowRules.js:28-82 | approved, active, filed, reo-br and unknown statuses allow only staying put; an empty target is refused even from an empty status |
| FlowRules.BackRouteGate | js/flowRules.js:62-72 | swo-br→anav-br and anav-br→reo-br are allowed exactly when the flag is set; swo-br has no other exit |
| FlowRules.DetermineLifecycleStatus | js/flowRules.js:88-96 | approved iff a (non-zero) start exists and now is before it; active iff start ≤ now and there is no end or now ≤ end; wasp-deletions otherwise, including a missing start |
| FlowRules.LifecycleMonotone | js/flowRules.js:88-96 | as time passes the bucket only moves forward: approved, then active, then wasp-deletions |
| FlowRules.LifecycleBucketGroup | js/flowRules.js:99-104 | every bucket chosen belongs to the Lifecycle group |
| FlowRules.StatusEntry | js/flowRules.js:147-159 | the entry's keys are timestamp, action, type when an event type is given, and the meta keys; meta values win over the others, and the rest hold the instant, the reason or default text, and the type |
| FlowRules.StatusChangeRefusal | js/flowRules.js:137-140 | the change reports success exactly when the move is allowed; a refused move leaves the task untouched |
| FlowRules.StatusChangeEffect | js/flowRules.js:98-165 | after an allowed move: the old history is a prefix, the status entry comes next, a back-route completion entry follows exactly when the move completes the back route (history grows by 1 or 2), the status is the new one or the lifecycle bucket, the group matches the status, the clock is now, metadata is untouched, and the task never rests at swo-br unflagged or reo-br flagged |
| FlowRules.SameStatusMove | js/flowRules.js:28-161 | moving to the current non-empty status succeeds, keeps the status and appends one entry, except at swo-br without the flag or reo-br with it, where the move completes the back route |
| FlowRules.HandleBackRouteCompletion | js/flowRules.js:98-112 | the task moves to its lifecycle bucket and group, its clock is reset and the completion entry is appended |
| FlowRules.HandlePostStatusTransition | js/flowRules.js:117-129 | the group follows the new status, and the back route completes at swo-br with the flag off or reo-br with the flag on |
| FlowRules.ApplyStatusChange | js/flowRules.js:134-165 | the result and the new task state are those of the status-change specification, whose properties the two lemmas above prove |
| FlowRules.AutoMoveEffect | js/flowRules.js:171-191 | the sweep changes a task iff it is approved or active and its bucket differs; a changed task moves to the bucket with its group and exactly one entry; an approved or active task is left in its right bucket |
| FlowRules.AutoMoveIdempotent | js/flowRules.js:171-191 | a second sweep at the same instant changes nothing |
| FlowRules.AutoMoveForward | js/flowRules.js:171-191 | a task that was in its right bucket earlier only moves forward |
| FlowRules.AutoMoveTask | js/flowRules.js:172-190 | one task after the forEach callback is the sweep specification applied to it |
| FlowRules.EnforceLifecycleAutoMoves | js/flowRules.js:171-191 | every task on the board is replaced by the sweep specification of its old state, each exactly once |
| Priority.CalculatePriority | js/priority.js:9-25 | ShortNotice iff a start exists and 0 < start − now < 72 h; NoActionTaken iff not ShortNotice, the status is on the front route and more than 72 h have passed since creation (0 when unknown); Routine otherwise |
| Priority.GetPriorityClass | js/priority.js:30-34 | high iff ShortNotice, medium iff NoActionTaken, low for anything else |
| Priority.PriorityCategories | js/priority.js:9-34 | the category is one of exactly three values and its class one of three severities |
| Priority.ShortNoticeIsApproved | js/priority.js:16-18 | a ShortNotice task has not started: its lifecycle bucket is approved |
| Priority.NoActionTakenOnFrontRoute | js/priority.js:20-22 | only a front-route task can be NoActionTaken |
| Priority.OverduePersists | js/priority.js:13-22 | an overdue task stays non-Routine as time passes |
| Priority.ShortNoticeWindow | js/priority.js:16 | for a start s, ShortNotice holds exactly for s − 72 h < now < s, strict at both ends |
| Priority.ShortNoticeExample | js/priority.js:16-34 | a start ten minutes ahead gives ShortNotice, shown as high |
| Priority.NoActionTakenExample | js/priority.js:20-34 | a front-route task four days old, starting in a week, gives NoActionTaken, shown as medium |
| Utils.MatchDtg | js/utils.js:27-32 | the pattern matches exactly the twelve-character texts made of six digits, Z, three upper-case letters and two digits; its day, time, month and year groups are the slices at positions 0-2, 2-6, 7-10 and 10-12 |
| Utils.CleanDtgForm | js/utils.js:26 | the cleaned text is no longer than the input and holds neither white space nor a lower-case letter |
| Utils.FieldsOfText | js/utils.js:27-39 | fields are read iff the pattern matches and the month token is a key of MONTH_MAP; day, hour and minute are the numbers written in the day group and the two halves of the time group, the month is MONTH_MAP's number and the year 2000 + YY |
| Utils.DtgFieldsOf | js/utils.js:24-39 | an empty input gives null; any other input gives the fields read from its cleaned text (trimmed, upper-cased, white space removed) |
| Utils.ValidateAndConvertDtg | js/utils.js:23-52 | an instant is returned only for text that fits the pattern and names a month of MONTH_MAP |
| Utils.DtgInputForms | js/utils.js:24-26 | the empty input is refused, and two non-empty inputs with the same cleaned text give the same result |
| Utils.DtgFieldRules | js/utils.js:4-37 | a cleaned text the pattern does not match, or whose month token is not a key of MONTH_MAP, gives null |
| Utils.InstantOf | js/utils.js:40-51 | an instant is returned only when its UTC date and month read back as the day and month written |
| Utils.InstantOfValid | js/utils.js:40-49 | the read-back check passes iff the day exists in the month and hour·60 + minute < 1440, and the instant is Date.UTC of the fields |
| Utils.DtgAcceptance | js/utils.js:23-52 | a DTG is accepted iff it parses and names a real day and a time within it; the instant then reads back as the year, month, date, hour and minute written, minutes past 59 rolling into the hour |
| Utils.InstantOfReadBack | js/utils.js:40-51 | an accepted instant's UTC year, month, date, hour and minute are the fields written |
| Utils.DtgExampleValid | js/utils.js:40-51 | the fields of 101330Z DEC 25 give 2025-12-10T13:30:00Z (1765373400000 ms) |
| Utils.DtgMatchExample | js/utils.js:27-32 | the pattern splits 101330ZDEC25 into 10, 1330, DEC and 25 |
| Utils.DtgTextExample | js/utils.js:27-39 | the text 101330ZDEC25 names day 10, 13:30, December 2025 |
| Utils.DtgTextAcceptedExample | js/utils.js:27-51 | the text 101330ZDEC25 converts to 2025-12-10T13:30:00Z |
| Utils.DtgExampleApril31 | js/utils.js:44-49 | 31 April is refused |
| Utils.DtgExampleHour24 | js/utils.js:44-49 | hour 24 is refused |
| Utils.DtgExampleMinute99 | js/utils.js:40-49 | 99 minutes roll into the hour and are accepted |
| Utils.TaskIdFor | js/utils.js:59 | the id is "MI-" followed by the decimal counter left-padded with zeros to three digits: max(3, digit count) digits, the counter's decimal text at the end and only zeros before it |
| Utils.TaskIdRoundTrip | js/utils.js:59 | the counter value is read back from the id it produced |
| Utils.TaskIdsDistinct | js/utils.js:58-62 | different counter values give different ids, so successive ids are distinct |
| Utils.TaskIdExamples | js/utils.js:59 | 5, 42 and 1234 give MI-005, MI-042 and MI-1234 |
| Calendar.DayFromYearFormula | js/utils.js:40-42 | the year-by-year day count of Date.UTC equals the closed leap-year formula |
| Calendar.CalendarRoundTrip | js/utils.js:40-49 | a real date with a time inside its day reads back as the same year, month and date |
| Calendar.CrossCheck | js/utils.js:40-49 | Date.UTC of two-digit fields reads back as the date and month written iff the day exists and the time stays within it |
| Calendar.InstantDate | js/utils.js:40-49 | the instant Date.UTC builds for a real date reads back as that date |
| Calendar.InstantClock | js/utils.js:40-42 | that instant's hour and minute are the time written, minutes past 59 rolling into the hour |
| Calendar.FebruaryLength | js/utils.js:44-49 | February has 29 days in Gregorian leap years and 28 otherwise |
| Common.RemoveWhitespace | js/utils.js:26 | the result holds no white space, only characters of the input, and every non-white-space character of the input |
| Common.RemoveWhitespaceChar | js/utils.js:26 | one character is dropped iff it is white space |
| Common.RemoveWhitespaceAppend | js/utils.js:26 | removal works piecewise, so the kept characters stay in their order |
| Common.RemoveWhitespaceNone | js/utils.js:26 | a text without white space is left as it is |
| Common.TrimStartDropsWhitespace | js/utils.js:26 | trimStart drops only white space, up to the first other character |
| Common.TrimEndDropsWhitespace | js/utils.js:26 | trimEnd drops only white space, after the last other character |
| Common.Trim | js/modals.js:133 | the trimmed text is empty or starts and ends with a non-space character |
| Common.TrimKeepsInner | js/modals.js:133 | the trimmed text is a contiguous slice of the input, and everything before and after that slice is white space |
| Modals.FeedbackOf | js/modals.js:105-138 | submit goes through iff the trimmed text is non-empty, with that trimmed text as feedback |
| Modals.DropdownChange | js/modals.js:345-417 | the outcome is SameStatus iff the status picked is the current one; any outcome but Applied leaves the task as it was; Applied shows the task's new status and history has grown |
| Modals.DropdownSameStatus | js/modals.js:355 | picking the current status changes nothing |
| Modals.ReturnToQmowEntry | js/modals.js:373-378 | a move back to QMOW records a return_to_qmow event with the from, to, feedback and source keys, stamped now, whose action embeds the feedback |
| Modals.ReturnToQmowGate | js/modals.js:367-396 | a move to qmow changes the task iff the prompt is submitted with non-blank text and the task is at anav, swo or reo; it then lands at qmow in the Front-Route group with exactly the return_to_qmow entry appended; cancel changes nothing |
| Modals.ManualDropdownMove | js/modals.js:399-416 | any other move is applied iff the workflow allows it; a refused move changes nothing; an applied one appends the dropdown's reason and shows the resulting status |
| Modals.HandleStatusChange | js/modals.js:345-417 | an unknown id changes nothing; otherwise the found task, and only it, ends in the dropdown specification's state, with its outcome |
| Modals.MetadataSaveEffect | js/modals.js:451-483 | the names are always written; the save is refused iff the upper-cased DTG differs and is invalid; a save that goes through writes the DTG and its instant when it differs and keeps both when it does not, appends one entry stamped now when anything differs and none otherwise, and never touches status, group or clock |
| Modals.MetadataSaveAsWritten | js/modals.js:451-483 | the save is refused iff the upper-cased DTG differs and is invalid, and the new names are written in either case |
| Modals.MetadataSaveEntry | js/modals.js:451-483 | the entry appended holds exactly the instant and the action "Metadata updated:" followed by the unit, operation and DTG changes, each only when it differs, in that order |
| Modals.InvalidDtgPartialSave | js/modals.js:454-471 | an invalid new DTG keeps DTG, instant and history, but the new names stay written |
| Modals.PartialSaveExample | js/modals.js:454-471 | a new unit name with an emptied DTG field is refused, yet the task has changed |
| Modals.MetadataSaveAtomic | js/modals.js:451-483 | the corrected save is refused exactly when the as-written one is, and a refused save leaves the task as it was |
| Modals.AtomicSaveAllOrNothing | js/modals.js:451-483 | the corrected save is refused exactly when the DTG is invalid, and then leaves the task as it was; accepted, it equals the code's result |
| Modals.ApplyNameEdits | js/modals.js:451-464 | the unit and operation end as given, the rest of the task is untouched, and a change is reported iff either name differed |
| Modals.SaveMetadataEdit | js/modals.js:451-483 | the outcome and new task state are those of the as-written save specification |
| Modals.IsoInstant | js/modals.js:534-535 | toISOString yields an instant exactly for a parsed date-time value |
| Modals.AttachmentFor | js/modals.js:568-577 | file type txt iff the lower-cased name ends in .txt (doc otherwise), editable iff txt, path task-id_name |
| Modals.ItemAttachments | js/modals.js:566-577 | a list item yields one record iff it has a name element whose trimmed text is non-empty, and that record is the one for the trimmed name |
| Modals.AttachmentsFor | js/modals.js:562-578 | the records are no more than the items, each for a non-blank trimmed name with the type, editability and path above |
| Modals.AttachmentsCover | js/modals.js:562-578 | every item with a non-blank name yields the record for its trimmed name |
| Modals.AttachmentsAppend | js/modals.js:562-578 | the list is read in order: the records of two lists in a row are those of the first followed by those of the second |
| Modals.BuildAttachments | js/modals.js:562-578 | the loop builds exactly the records specified, in list order |
| Modals.NewTaskShape | js/modals.js:580-598 | a new task is at qmow in the Front-Route group with the DTG upper-cased and one history entry stamped with its creation instant, which is also its clock |
| Modals.CreateTask | js/modals.js:559-602 | draws the next id, appends exactly one fresh task with that id, the form's fields, the attachments and the new-task state, and keeps the ids on the board distinct |
| Modals.HandleNewTaskSubmit | js/modals.js:509-602 | an invalid DTG, a start that is blank or not a date, or an end that is given but not a date, adds nothing and draws no id; otherwise exactly one task is appended as above |

## Left out

- The DOM and UI: rendering, dialogs opening and closing, listener wiring, alerts and the dropdown's displayed value. The outcome datatypes record only which branch was taken.
- The reason prompt is asynchronous in the code: the change happens in a callback after the user answers. The model takes the answer as a parameter and applies it in the same call.
- `handleStatusChange`'s fallback when `applyStatusChange` is not loaded is left out, because the engine is always part of this model.
- The defensive reset of a non-array `task.history` is left out: history is always a sequence here.
- The meta option is a map, so the `typeof meta === "object"` test for other kinds of values is left out.
- `formatTimestampForHistory` and other locale formatting are left out, as are the display strings `opStartDisplay`/`opEndDisplay`.
- The clock is the `now` parameter. Each operation reads it once, while the code reads it several times, milliseconds apart.
- Parsing ISO and datetime-local strings is left out. That includes the local-time zone a datetime-local value is read in. Such a value is given as the instant it parses to.
- `toUpperCase` and `toLowerCase` are modelled on ASCII letters only. White space is the ASCII and common Unicode space characters listed in `Common.IsWhitespace`.
- `Date.UTC`'s mapping of years 0-99 to 1900-1999 and its time-clip range are left out. DTG years are always 2000-2099, so neither applies.
- The DTG examples are stated on cleaned text ("101330ZDEC25") and on parsed fields. Examples on raw input with spaces and lower case ("101330z dec 25") are left out. Unfolding the white-space functions character by character on a literal costs too much to prove. Utils.DtgInputForms covers such input in general.
- The seed records of `js/data.js`, the older `js/kanban_app.js`, the root copies `priority.js` and `drag-drop.js`, `js/drag-drop.js`, `attachments.js` and the render files are not part of this model.
- The loop body of `enforceLifecycleAutoMoves` is a separate method, `FlowRules.AutoMoveTask`, as the forEach callback is a separate function in the code. The construction step of `handleNewTaskSubmit` (`Modals.CreateTask`) and the name steps of the metadata save (`Modals.ApplyNameEdits`) are also separate methods. Each keeps the code's order of writes.

## Findings

| source | as written | input that shows it | evidently intended | confidence | as-written member | corrected member |
|---|---|---|---|---|---|---|
| js/modals.js:454-471 | the save writes the new unit and operation names before validating the new DTG; on an invalid DTG it alerts "Changes were NOT saved." and returns, leaving the names written | a task with a non-empty DTG, a new unit name and the DTG field emptied | nothing is written when the save is refused | not executed | Modals.PartialSaveExample | Modals.MetadataSaveAtomic |

`Modals.SaveMetadataEdit` follows the code as written. The corrected save is
`Modals.MetadataSaveAtomic`, proved all-or-nothing by
`Modals.AtomicSaveAllOrNothing`.
