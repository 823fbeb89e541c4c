# Study planner core in Dafny

A model of the state logic of a single-user study planner (a React app).
It covers the following:

- **Shared state.** The application context holds routines, study plans, daily tasks, notes and the list of reminder keys already sent. Each of its mutators is a pure function from state to state.
- **Materialisation.** Every routine, and every study plan scheduled on the day's weekday, gets one task instance per date.
- **Rollover.** Calendar rollover resets the reminder bookkeeping.
- **Dashboard.** The dashboard's agenda, active, missed and upcoming classification and the once-per-key reminder tick.
- **Task lists.** The Tasks and Study Planner pages' active, missed and archive lists, plus their add, edit, delete and selection handlers.
- **Analytics.** Weekly counts, the consistency percentage, the streak and the distribution by source.
- **Notes.** The notes page's search, save, open and delete.

The clock, the calendar, id generation from `Date.now()` and the weekday of a date are all parameters. Times of day are the subset type `TimeOfDay.Time` of well-formed `"HH:mm"` strings.

Modules, one per file:

- Generic:
  - `Wrappers`: `Option`.
  - `Seqs`: filter, count, subsequence and no-duplicates.
  - `Sorting`: a stable insertion sort with a total-preorder comparator, standing in for `Array.prototype.sort`.
  - `Text`: decimal rendering, `trim`, ASCII lower-casing and ordinal string order, standing in for `localeCompare`.
  - `TimeOfDay`: minutes since midnight, `addMinutesToTime`, 12-hour display and the countdown.
- Application:
  - `Types`: the app's records.
  - `Materialize`: task ids and generation.
  - `AppContext`: the context's mutators.
  - `Reminders`: the notification tick.
  - `Dashboard`.
  - `TaskViews`: the three lists shared by both task pages.
  - `TasksPage`.
  - `StudyPlanner`.
  - `Selection`: the multi-select toggle.
  - `Analytics`.
  - `Notes`.

## Model

| member | source | states |
|---|---|---|
| Types.StartLePreorder | components/Dashboard.tsx:97-99 | Comparing start minutes is a total preorder, so sorting by start time is well defined. |
| Sorting.SortBy | components/Dashboard.tsx:97-99 | The sort is ordered by the comparator, is a permutation, and keeps elements with the same key in their original order, as the stable `Array.prototype.sort` does. |
| TimeOfDay.TimeToMinutes | components/Dashboard.tsx:23-26 | The minutes since midnight of a well-formed time lie in 0..1439. |
| TimeOfDay.TimeToMinutesSplit | components/Dashboard.tsx:23-26 | Divided by 60 the minute count gives the hour, and modulo 60 it gives the minute. |
| TimeOfDay.FormatTimeOfMinutes | context/AppContext.tsx:40-45 | Formatting the minute count of a time gives back the same "HH:mm" string. |
| TimeOfDay.TimeToMinutesInjective | components/Dashboard.tsx:23-26 | Two times have equal minute counts exactly when they are the same string. |
| TimeOfDay.AddMinutesToTime | context/AppContext.tsx:40-45 | The result's minute count is the input's plus the offset, modulo one day. Without wrap-around it is the plain sum. |
| TimeOfDay.AddMinutesCompose | context/AppContext.tsx:40-45 | Adding a minutes then b minutes is the same as adding a + b. |
| TimeOfDay.AddFullDay | context/AppContext.tsx:40-45 | Adding 1440 minutes returns the same time. |
| TimeOfDay.AddMinutesWrapExample | context/AppContext.tsx:40-45 | 23:30 plus 60 minutes wraps around to 00:30. |
| TimeOfDay.Hour12 | components/Dashboard.tsx:32-33 | The displayed hour is between 1 and 12, and with 12 added for PM it gives back the 24-hour hour. |
| TimeOfDay.Display12Reads | components/Dashboard.tsx:28-35 | The 12-hour rendering of h:m has the suffix PM exactly when h >= 12. Its hour is h mod 12, or 12 at midnight and noon, written without padding; its minute is two digits. Read back, it gives h*60+m. |
| TimeOfDay.FormatDisplayTime | components/Dashboard.tsx:28-35 | An empty string stays empty. 24-hour mode returns the input unchanged. 12-hour mode writes the hour (1..12) without padding, the minute as two digits and the right suffix, and the result reads back to the same minute count. |
| TimeOfDay.ClockText | components/Dashboard.tsx:134-138 | A positive number of seconds under a day is written as two-digit hours, minutes and seconds that read back as the same number. |
| TimeOfDay.FormatCountdown | components/Dashboard.tsx:128-139 | The countdown is "HH:MM:SS" with minutes and seconds below 60. Once the target has passed it is "00:00:00". Otherwise it spells the exact number of seconds left. |
| Text.Decimal | components/StudyPlanner.tsx:58 | `n.toString()` gives decimal digits only, with no leading zero, and reads back as n. |
| Text.Trim | components/Tasks.tsx:58 | `trim` removes only whitespace, from both ends. What remains neither starts nor ends with whitespace. It is empty exactly when the input is all whitespace. |
| Text.TrimIdempotent | components/Notes.tsx:21-25 | Trimming twice is the same as trimming once. |
| Text.ToLower | components/Notes.tsx:16-18 | Lower-casing keeps the length and maps exactly the letters A-Z to a-z. |
| Text.ToLowerIdempotent | components/Notes.tsx:16-18 | Lower-casing twice is the same as lower-casing once. |
| Text.StrLeTotal | components/Tasks.tsx:51 | Ordinal string comparison is total. |
| Text.StrLeTransitive | components/Tasks.tsx:51 | Ordinal string comparison is transitive. |
| Text.StrLeAntisymmetric | components/Tasks.tsx:51 | Two strings that each compare no greater than the other are equal. |
| Materialize.RoutineTaskIdInjective | context/AppContext.tsx:148-150 | Different routines get different "routine-<id>-<date>" ids on the same date. |
| Materialize.StudyTaskIdInjective | context/AppContext.tsx:163-166 | Different plans get different "study-<id>-<date>" ids on the same date. |
| Materialize.RoutineStudyIdsDiffer | context/AppContext.tsx:146-177 | No routine instance id equals a study instance id. |
| Materialize.NewRoutineTasks | context/AppContext.tsx:146-159 | The new routine instances are the instances of the routines whose id for the date is not yet taken: one per such routine, in routine order, and no others. None are added when every id is taken. |
| Materialize.NewStudyTasks | context/AppContext.tsx:161-177 | The new study instances are the instances of the plans that are scheduled on the weekday and whose id is not yet taken: one per such plan, in plan order, and no others. Each ends `duration` minutes after its start, modulo one day. |
| Materialize.GenerateTasks | context/AppContext.tsx:137-181 | The result is the old list followed by the missing routine instances in routine order, then the missing scheduled-plan instances in plan order (`Materialize.Missing`). Every added task is Pending, on the date, and has a fresh id. Afterwards every routine and every scheduled plan has its id on the date. |
| Materialize.GenerateIdempotent | context/AppContext.tsx:143-179 | Generating a second time for the same date adds nothing. |
| Materialize.GenerateOtherDatesUnchanged | context/AppContext.tsx:137-181 | The tasks of every other date are unchanged, in content and order. |
| Materialize.NewRoutineIdsDistinct | context/AppContext.tsx:146-159 | Routines with distinct ids produce instances with distinct ids. |
| Materialize.NewStudyIdsDistinct | context/AppContext.tsx:161-177 | Plans with distinct ids produce instances with distinct ids. |
| Materialize.GenerateKeepsIdsUnique | context/AppContext.tsx:137-181 | If the ids on a date were unique before generation, they are still unique after it, on every date. |
| AppContext.MarkAsNotified | context/AppContext.tsx:133-135 | The key is recorded and nothing else is added. Earlier keys keep their order. The list stays free of duplicates. |
| AppContext.MarkAsNotifiedIdempotent | context/AppContext.tsx:133-135 | Marking the same key twice is the same as marking it once. |
| AppContext.Rollover | context/AppContext.tsx:90-99 | The date becomes today. A new date clears the sent reminder keys. The same date changes nothing. No other field changes. |
| AppContext.RolloverIdempotent | context/AppContext.tsx:90-99 | Rolling over twice to the same day is the same as rolling over once. |
| AppContext.GenerateTasksForToday | context/AppContext.tsx:137-181 | Only the task list changes. It becomes the old list followed by the missing instances for the target day (`currentDate` when no date is given): routines in order, then the plans scheduled on that day's weekday, in order. All of them are Pending. Afterwards every routine and every scheduled plan has its instance id on that day. |
| AppContext.NewDayMaterialises | context/AppContext.tsx:183-187 | After rollover to a new day and generation: the date is the new day, no reminder keys remain, and old tasks are kept. Every routine has an instance on the new day. |
| AppContext.AddRoutine | context/AppContext.tsx:189 | Appends the routine and changes nothing else. |
| AppContext.DeleteAddedRoutine | context/AppContext.tsx:189-190 | Deleting a routine just added under a new id gives back the state before the add. |
| AppContext.AddedRoutineMaterialises | context/AppContext.tsx:137-189 | After a routine is added, generating the target day's tasks gives that routine its instance on the day. |
| AppContext.DeleteRoutine | context/AppContext.tsx:190 | Keeps exactly the routines with another id, in order and with their multiplicities, and changes nothing else. |
| AppContext.AddStudyPlan | context/AppContext.tsx:192-194 | Appends the plan and changes nothing else. |
| AppContext.UpdateStudyPlan | context/AppContext.tsx:196-198 | Every plan with the id takes each field the patch supplies and keeps the others. All other plans are unchanged. |
| AppContext.UpdateStudyPlanEmptyPatch | context/AppContext.tsx:196-198 | A patch that supplies no field leaves the state unchanged. |
| AppContext.UpdateStudyPlanTwice | context/AppContext.tsx:196-198 | Sending the same patch twice is the same as sending it once, when the patch keeps the id. |
| AppContext.DeleteStudyPlan | context/AppContext.tsx:200-203 | Drops exactly the plans with the id and keeps the others in order and with their multiplicities. Drops exactly the tasks whose id contains "study-<id>" and keeps the rest, in order and with their multiplicities. |
| AppContext.DeleteAddedPlan | context/AppContext.tsx:192-203 | Deleting a plan just added under a new id gives back the state before the add, when no task id contains its "study-<id>" marker. |
| AppContext.DeleteStudyPlanRemovesAllInstances | context/AppContext.tsx:200-203 | No instance of the deleted plan survives, on any date. |
| AppContext.DeleteStudyPlanOverreaches | context/AppContext.tsx:202 | Deleting plan "1" also deletes the instances of plan "12", because "study-1" is a substring of "study-12-…". |
| AppContext.AddTask | context/AppContext.tsx:205 | Appends the task and changes nothing else. |
| AppContext.UpdateTask | context/AppContext.tsx:206-208 | Every task with the id takes each field the patch supplies and keeps the others. All other tasks are unchanged, in place. |
| AppContext.EditKeepsStatus | context/AppContext.tsx:206-208 | An edit of the title and times leaves every task's status unchanged. |
| AppContext.DeleteTask | context/AppContext.tsx:209 | Keeps exactly the tasks with another id, in order and with their multiplicities. An unknown id changes nothing. |
| AppContext.DeleteAddedTask | context/AppContext.tsx:205-209 | Deleting a task just added under a new id gives back the state before the add. |
| AppContext.DeleteMultipleTasks | context/AppContext.tsx:211-213 | Keeps exactly the tasks whose id is not listed, in order. A list of unknown ids changes nothing. |
| AppContext.DeleteSingletonBatch | context/AppContext.tsx:209-213 | Deleting the batch [id] is the same as deleting id. |
| AppContext.ToggleTaskStatus | context/AppContext.tsx:215-222 | Only the status changes, and only of tasks with the id, which become Done. A Done task is never changed back. |
| AppContext.ToggleIdempotent | context/AppContext.tsx:215-222 | Toggling twice is the same as toggling once. |
| AppContext.AddNote | context/AppContext.tsx:224 | Puts the note first and changes nothing else. |
| AppContext.UpdateNote | context/AppContext.tsx:225-227 | Every note with the id takes the patch's title and content and is stamped with the current time. All other notes are unchanged. |
| AppContext.DeleteNote | context/AppContext.tsx:228 | Keeps exactly the notes with another id, in order and with their multiplicities. |
| AppContext.DeleteAddedNote | context/AppContext.tsx:224-228 | Deleting a note just added under a new id gives back the state before the add. |
| Reminders.NotifyKeyInjective | components/Dashboard.tsx:60-81 | Different (task id, moment) pairs give different "-pre", "-start" and "-end" keys. |
| Reminders.TaskReminders | components/Dashboard.tsx:60-81 | One task sends exactly the reminders (pre, start, end) whose moment is due now and whose key is unsent. |
| Reminders.DueReminders | components/Dashboard.tsx:55-83 | A reminder is sent exactly for a Pending task of today whose moment is exactly now and whose key is unsent. Nothing is sent when every due key has been sent. |
| Reminders.MarkAll | components/Dashboard.tsx:65-81 | Recording a list of keys adds exactly those keys. Earlier keys are kept, and the list stays free of duplicates. |
| Reminders.Tick | components/Dashboard.tsx:45-88 | Nothing happens unless notifications are enabled and granted. When they are, the reminders sent are exactly the due unsent ones. Each sent reminder's key was unsent before and is recorded after, and nothing else is recorded. |
| Reminders.TickTwiceFiresOnce | components/Dashboard.tsx:45-88 | A second tick in the same minute, with the updated keys, sends nothing. |
| Reminders.PreReminderNeedsFiveMinutes | components/Dashboard.tsx:60-66 | A pre-reminder is only sent for a task of today that starts at 00:05 or later, exactly five minutes before its start. |
| Reminders.DueRemindersDistinct | components/Dashboard.tsx:55-83 | With unique ids among today's tasks, one tick never sends the same key twice. |
| Reminders.RunFiresEachKeyOnce | components/Dashboard.tsx:45-88 | Over any sequence of ticks on one day, with unique ids, no key is sent twice. No key that was already sent is sent again. Every sent key ends up recorded. |
| Dashboard.PendingAgenda | components/Dashboard.tsx:92-101 | Exactly today's Pending tasks, with the same multiplicities, sorted by ascending start. Tasks with the same start keep their order in the task list. |
| Dashboard.ActiveTasks | components/Dashboard.tsx:103-108 | Exactly today's Pending tasks that have started and not ended, with their multiplicities, in agenda order. |
| Dashboard.PrimaryActiveTask | components/Dashboard.tsx:97-110 | Absent exactly when no agenda task is active. When present it is active, and no active task starts earlier. Among the active tasks that start at the same minute, it is the first in the task list, because the sort is stable. |
| Dashboard.MissedCount | components/Dashboard.tsx:112-115 | The number of today's Pending tasks whose end time has passed. |
| Dashboard.UpcomingTask | components/Dashboard.tsx:97-120 | Absent exactly when no agenda task starts after now. When present it starts after now, and no such task starts earlier. Among such tasks that start at the same minute, it is the first in the task list. |
| Dashboard.SortedAgenda | components/Dashboard.tsx:122-126 | The active tasks come first. After them come exactly the agenda tasks whose id is not an active id, with their multiplicities, in agenda order. |
| Dashboard.SortedAgendaIsPermutation | components/Dashboard.tsx:122-126 | With unique ids on today, the reordered agenda is a permutation of the agenda. |
| Dashboard.ClassesPartitionAgenda | components/Dashboard.tsx:103-120 | If no task ends before it starts, each agenda task is exactly one of active, missed or upcoming, and the three counts add up to the agenda length. |
| Dashboard.OvernightTaskDoublyClassified | components/Dashboard.tsx:112-120 | A 23:00–01:00 task at 02:00 counts as both missed and upcoming. |
| Selection.ToggleSelect | components/Tasks.tsx:92-94 | Flips the id's membership and keeps every other id. An absent id is appended. A present id is removed in place. The selection stays free of duplicates. |
| Selection.ToggleSelectTwice | components/StudyPlanner.tsx:156 | Toggling twice restores the selection as a set, and exactly when the id was absent. |
| TaskViews.ArchiveLePreorder | components/Tasks.tsx:51 | The archive comparator (newer date first, then later start) is a total preorder. |
| TaskViews.ViewItems | components/Tasks.tsx:42-54 | Each list holds exactly the tasks of its view, with their multiplicities. The archive is sorted by the archive comparator and the other two by start time. Tasks the order cannot tell apart keep their original order. |
| TaskViews.ViewsPartition | components/Tasks.tsx:44-51 | If no task of today has status Missed, each task is in exactly one of the three lists, and the lengths add up to the number of tasks. |
| TasksPage.ListItems | components/Tasks.tsx:38-55 | The chosen list holds exactly the non-study tasks of its view, with their multiplicities, sorted as that view requires. Tasks with equal sort keys keep their task-list order. |
| TasksPage.ManualTaskIdDistinct | components/Tasks.tsx:60 | Adds at different milliseconds get different ids. A manual id never equals a routine or study instance id. |
| TasksPage.HandleAddTask | components/Tasks.tsx:57-71 | A blank title (after trimming) changes nothing. Otherwise it appends one Pending, Manual task for today with the untrimmed title and the form's times, and resets the form. |
| TasksPage.AddedTaskIsListed | components/Tasks.tsx:38-71 | A newly added task appears in the active list if its end is after now, and in the missed list otherwise. |
| TasksPage.SaveEditing | components/Tasks.tsx:73-76 | The edited task takes the buffer's title and times, and every other field (id, status, date, source) is kept. Other tasks are untouched, and editing ends. |
| TasksPage.HandleDeleteSingle | components/Tasks.tsx:78-83 | With a pending confirmation, deletes exactly the tasks with that id. Every other task keeps its multiplicity and order, and the confirmation is cleared. Without one, nothing changes. |
| TasksPage.HandleDeleteBatch | components/Tasks.tsx:85-90 | Deletes exactly the selected ids' tasks and keeps the rest, in order. It clears the selection, select mode and the confirmation. |
| StudyPlanner.ListItems | components/StudyPlanner.tsx:37-53 | The chosen list holds exactly the study tasks of its view, with their multiplicities, sorted as that view requires. Tasks with equal sort keys keep their task-list order. |
| StudyPlanner.PlanDuration | components/StudyPlanner.tsx:61 | A missing or zero duration becomes 60, and any other value is kept. |
| StudyPlanner.HandleAddPlan | components/StudyPlanner.tsx:55-68 | An empty subject changes nothing. Otherwise it appends one daily plan with the ms-timestamp id, the start time (16:00 by default) and the duration, then closes and resets the form. |
| StudyPlanner.AddedPlanMaterialises | components/StudyPlanner.tsx:55-68 | A newly added plan gets an instance on every date that is generated next. |
| StudyPlanner.OnConfirmDelete | components/StudyPlanner.tsx:70-79 | "batch" deletes the selected tasks and clears the selection. Another id deletes that id's tasks. In both cases every kept task keeps its multiplicity and order. Nothing is deleted without a confirmation. The confirmation is always cleared. |
| Analytics.LastDays | components/Analytics.tsx:22-26 | n dates, oldest first, ending today, each one day apart. |
| Analytics.DayCounts | components/Analytics.tsx:28-37 | A date's total is its number of tasks and its completed count is the number of those that are Done. The name is the weekday's name. |
| Analytics.WeeklyData | components/Analytics.tsx:20-39 | Seven entries for consecutive days ending today. Each holds its weekday name and its total and completed counts, with completed <= total. |
| Analytics.Consistency | components/Analytics.tsx:45 | With no tasks it is 0. Otherwise it is the integer nearest to 100·completed/total, rounding halves up, between 0 and 100. |
| Analytics.ConsistencyUnique | components/Analytics.tsx:45 | Any integer within half a unit of the percentage, rounding halves up, is the consistency. |
| Analytics.CompletedDates | components/Analytics.tsx:48-52 | Exactly the dates with a Done task, each once, in strictly descending order. |
| Analytics.CurrentStreak | components/Analytics.tsx:54-71 | 0 unless today or yesterday has a Done task. Otherwise it counts the consecutive days back from the start date that have one, stopping at the first gap and never exceeding the number of completed dates. |
| Analytics.ComputeStats | components/Analytics.tsx:42-74 | Totals count all tasks and the Done ones. Consistency is the rounded percentage of Done tasks. When today or yesterday has a Done task, the streak counts the consecutive completed days back from the start day and stops at the first day without one. Otherwise it is 0. |
| Analytics.SourceCounts | components/Analytics.tsx:78-85 | Study, routine and manual counts, one per source, adding up to the number of tasks. |
| Analytics.Distribution | components/Analytics.tsx:77-87 | Exactly the sources with a positive count, in the fixed order, with values adding up to the number of tasks. |
| Notes.FilteredNotes | components/Notes.tsx:16-18 | Exactly the notes whose lower-cased title contains the lower-cased term, with their multiplicities, in order. An empty term keeps every note. |
| Notes.SearchIgnoresTermCase | components/Notes.tsx:16-18 | Searching for the lower-cased term gives the same result as searching for the term. |
| Notes.PrefixTitleFound | components/Notes.tsx:16-18 | A note is found by any prefix of its title. |
| Notes.HandleSave | components/Notes.tsx:20-38 | A blank title (after trimming) changes nothing. In add mode it prepends a note with the trimmed title. In edit mode with an id it updates that note in place, trimmed and time-stamped. In either case it returns to the list with a blank draft. |
| Notes.SavedTitleIsTrimmed | components/Notes.tsx:20-28 | A saved new note has a non-empty title without surrounding whitespace. |
| Notes.OpenAdd | components/Notes.tsx:62 | Add mode with an empty draft and no id. |
| Notes.Open | components/Notes.tsx:40-43 | View or edit mode with the note's id, title and content in the draft. |
| Notes.StartEditing | components/Notes.tsx:113 | Switches from the viewer to the editor, keeping the draft. |
| Notes.Back | components/Notes.tsx:98 | Returns to the list, keeping the draft. |
| Notes.EditUnchangedKeepsNotes | components/Notes.tsx:20-43 | Saving an opened, unchanged note only re-stamps it. No other note changes. |
| Notes.HandleDelete | components/Notes.tsx:45-50 | With a pending confirmation, deletes exactly the notes with that id. Every other note keeps its multiplicity and order, and the confirmation is cleared. Without one, nothing changes. |

## Left out

- Persistence in `localStorage`, login, logout, the profile and theme settings, and the layout: these are storage and presentation, not planning logic.
- The browser Notification API and the permission request: `Reminders.Tick` takes "enabled" and "granted" as booleans and returns the reminders instead of showing them.
- Timers (`setInterval`, React effects and memoisation):
  - a tick is one call of `Reminders.Tick`;
  - `Reminders.Run` folds a sequence of ticks.
- The clock, the calendar and id generation are parameters:
  - today's date, now in minutes, seconds or milliseconds;
  - the day before a date;
  - the weekday of a date.
  Time zones (UTC dates from `toISOString` against local hours) and daylight-saving shifts are therefore not modelled.
- Malformed time strings: `TimeOfDay.Time` admits only "HH:mm" with hours 00–23 and minutes 00–59, so `NaN` arithmetic from a bad string is not modelled.
- The `newGenerated.length > 0` check that keeps the old array reference: `AppContext.GenerateTasksForToday` returns an equal state when nothing is new, and reference identity has no counterpart in the model.
- The Dashboard's `saveEdit` and `handleDelete` (components/Dashboard.tsx:141-151) are the same operations as `TasksPage.SaveEditing` and `TasksPage.HandleDeleteSingle`, so they are not modelled twice.
- Rendering, animations, modals and the form inputs themselves: the page state (`TasksPage.TasksUi`, `StudyPlanner.PlannerUi`, `Notes.NotesUi`) holds only what the handlers read.
- Analytics.Consistency: computes `Math.round` on exact rationals. Floating-point rounding of `completed / total * 100` near .5 is not modelled.
- Text.ToLower: only ASCII letters are lower-cased, because full Unicode case mapping is out of scope.
- Text.StrLeTotal: `localeCompare` is modelled as ordinal comparison. The dates ("YYYY-MM-DD") and times ("HH:mm") it compares here are fixed-width digit strings, on which the two orders agree.
- TaskViews.ViewsPartition: requires that no task of today has status Missed. The application never sets that status, and a Missed task of today would be in no list.
- Dashboard.ClassesPartitionAgenda: requires start <= end. An overnight task is both missed and upcoming (see `Dashboard.OvernightTaskDoublyClassified`).
- Analytics.WeeklyData: requires the weekday function to return 0–6, as `getDay` does.
- Notes.HandleSave: the draft's content is always a string. The source's `content || ''` fallback for an undefined content is not modelled.
- Analytics.CurrentStreak: the start date is today when the newest completed date is today, and yesterday otherwise, as in the source. The loop's date arithmetic is the `dayBefore` parameter.
