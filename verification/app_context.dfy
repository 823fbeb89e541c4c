/** The application state of context/AppContext.tsx and its mutators,
    each a pure function from the old state to the new one. Persistence
    to local storage, login and theme switching are not modelled. */
module AppContext {
  import opened Types
  import opened Wrappers
  import opened Seqs
  import Materialize

  datatype AppState = AppState(
    routines: seq<RoutineItem>,
    studyPlans: seq<StudyPlanItem>,
    dailyTasks: seq<DailyTask>,
    notes: seq<Note>,
    notifiedIds: seq<string>,
    currentDate: string)

  /** `markAsNotified`: records `key` unless it is already recorded. */
  function MarkAsNotified(notified: seq<string>, key: string): (r: seq<string>)
    ensures key in r
    ensures forall k :: k in r <==> k in notified || k == key
    ensures NoDup(notified) ==> NoDup(r)
    ensures |notified| <= |r| <= |notified| + 1 && r[..|notified|] == notified
  {
    if key in notified then notified else notified + [key]
  }

  /** Marking the same key twice is marking it once. */
  lemma MarkAsNotifiedIdempotent(notified: seq<string>, key: string)
    ensures MarkAsNotified(MarkAsNotified(notified, key), key) == MarkAsNotified(notified, key)
  {
  }

  /** The day-rollover step of the 10-second poll: a new calendar date
      becomes the current one and forgets every sent reminder; the same
      date changes nothing. */
  function Rollover(s: AppState, today: string): (r: AppState)
    ensures r.currentDate == today
    ensures today != s.currentDate ==> r.notifiedIds == []
    ensures today == s.currentDate ==> r == s
    ensures r == s.(currentDate := r.currentDate, notifiedIds := r.notifiedIds)
  {
    if today != s.currentDate then s.(currentDate := today, notifiedIds := []) else s
  }

  /** A second poll on the same date is a no-op. */
  lemma RolloverIdempotent(s: AppState, today: string)
    ensures Rollover(Rollover(s, today), today) == Rollover(s, today)
  {
  }

  /** The date `generateTasksForToday(targetDate)` works on: the target
      unless it is missing or empty, then the current date. */
  function TargetDay(s: AppState, targetDate: Option<string>): string {
    if targetDate.Some? && targetDate.value != "" then targetDate.value else s.currentDate
  }

  /** `generateTasksForToday`, with `weekdayOf` giving the weekday (0 is
      Sunday) of a date string. */
  function GenerateTasksForToday(s: AppState, targetDate: Option<string>,
                                 weekdayOf: string -> int): (r: AppState)
    ensures r == s.(dailyTasks := r.dailyTasks)
    ensures r.dailyTasks == s.dailyTasks + Materialize.Missing(s.dailyTasks, s.routines, s.studyPlans,
                              TargetDay(s, targetDate), weekdayOf(TargetDay(s, targetDate)))
    ensures |r.dailyTasks| >= |s.dailyTasks| && r.dailyTasks[..|s.dailyTasks|] == s.dailyTasks
    ensures forall i :: |s.dailyTasks| <= i < |r.dailyTasks| ==>
      r.dailyTasks[i].status == Pending && r.dailyTasks[i].date == TargetDay(s, targetDate)
    ensures forall rt :: rt in s.routines ==>
      Materialize.RoutineTaskId(rt.id, TargetDay(s, targetDate)) in IdsOn(r.dailyTasks, TargetDay(s, targetDate))
    ensures forall sp :: sp in s.studyPlans
                         && Materialize.IsScheduled(sp, weekdayOf(TargetDay(s, targetDate))) ==>
      Materialize.StudyTaskId(sp.id, TargetDay(s, targetDate)) in IdsOn(r.dailyTasks, TargetDay(s, targetDate))
  {
    var today := TargetDay(s, targetDate);
    s.(dailyTasks := Materialize.GenerateTasks(s.dailyTasks, s.routines, s.studyPlans,
                                               today, weekdayOf(today)))
  }

  /** A day change followed by the materialisation it triggers: the new
      day starts with no reminders sent, every routine has its instance
      for the new day, and the older tasks are kept as they were. */
  lemma NewDayMaterialises(s: AppState, today: string, weekdayOf: string -> int)
    requires today != s.currentDate
    ensures var r := GenerateTasksForToday(Rollover(s, today), None, weekdayOf);
      && r.currentDate == today
      && r.notifiedIds == []
      && r.dailyTasks[..|s.dailyTasks|] == s.dailyTasks
      && forall rt :: rt in s.routines ==>
           Materialize.RoutineTaskId(rt.id, today) in IdsOn(r.dailyTasks, today)
  {
  }

  /** `addRoutine`: the routine goes last. */
  function AddRoutine(s: AppState, item: RoutineItem): (r: AppState)
    ensures r.routines == s.routines + [item]
    ensures r == s.(routines := r.routines)
  {
    s.(routines := s.routines + [item])
  }

  /** `deleteRoutine`: drops the routine; its tasks stay (there is no
      cascade for routines). */
  function DeleteRoutine(s: AppState, id: string): (r: AppState)
    ensures forall x :: x in r.routines <==> x in s.routines && x.id != id
    ensures forall x :: multiset(r.routines)[x] == if x.id != id then multiset(s.routines)[x] else 0
    ensures IsSubsequence(r.routines, s.routines)
    ensures r == s.(routines := r.routines)
  {
    s.(routines := Filter(s.routines, (x: RoutineItem) => x.id != id))
  }

  /** Deleting a routine just added under a new id restores the state. */
  lemma DeleteAddedRoutine(s: AppState, item: RoutineItem)
    requires forall x :: x in s.routines ==> x.id != item.id
    ensures DeleteRoutine(AddRoutine(s, item), item.id) == s
  {
    FilterDropsLast(s.routines, item, (x: RoutineItem) => x.id != item.id);
  }

  /** A routine added and then materialised has its instance on the
      target day: routines recur every day. */
  lemma AddedRoutineMaterialises(s: AppState, item: RoutineItem, targetDate: Option<string>,
                                 weekdayOf: string -> int)
    ensures var day := TargetDay(s, targetDate);
      Materialize.RoutineTaskId(item.id, day)
        in IdsOn(GenerateTasksForToday(AddRoutine(s, item), targetDate, weekdayOf).dailyTasks, day)
  {
    assert item in AddRoutine(s, item).routines;
  }

  /** `addStudyPlan`: the plan goes last. */
  function AddStudyPlan(s: AppState, plan: StudyPlanItem): (r: AppState)
    ensures r.studyPlans == s.studyPlans + [plan]
    ensures r == s.(studyPlans := r.studyPlans)
  {
    s.(studyPlans := s.studyPlans + [plan])
  }

  /** `updateStudyPlan`: merges the patch into every plan with that id. */
  function UpdateStudyPlan(s: AppState, id: string, patch: PlanPatch): (r: AppState)
    ensures |r.studyPlans| == |s.studyPlans|
    ensures forall i :: 0 <= i < |s.studyPlans| && s.studyPlans[i].id != id ==>
      r.studyPlans[i] == s.studyPlans[i]
    ensures forall i :: 0 <= i < |s.studyPlans| && s.studyPlans[i].id == id ==>
      && r.studyPlans[i].subject == patch.subject.GetOr(s.studyPlans[i].subject)
      && r.studyPlans[i].startTime == patch.startTime.GetOr(s.studyPlans[i].startTime)
      && r.studyPlans[i].duration == patch.duration.GetOr(s.studyPlans[i].duration)
      && r.studyPlans[i].frequency == patch.frequency.GetOr(s.studyPlans[i].frequency)
      && r.studyPlans[i].daysOfWeek == patch.daysOfWeek.GetOr(s.studyPlans[i].daysOfWeek)
      && r.studyPlans[i].id == patch.id.GetOr(id)
    ensures r == s.(studyPlans := r.studyPlans)
  {
    s.(studyPlans := seq(|s.studyPlans|, i requires 0 <= i < |s.studyPlans| =>
         if s.studyPlans[i].id == id then ApplyPlanPatch(s.studyPlans[i], patch)
         else s.studyPlans[i]))
  }

  /** A patch that sets no field leaves the state as it is. */
  lemma UpdateStudyPlanEmptyPatch(s: AppState, id: string)
    ensures UpdateStudyPlan(s, id, PlanPatch(None, None, None, None, None, None)) == s
  {
    var r := UpdateStudyPlan(s, id, PlanPatch(None, None, None, None, None, None));
    assert r.studyPlans == s.studyPlans;
  }

  /** Sending the same patch twice is sending it once, as long as the
      patch keeps the plan's id. */
  lemma UpdateStudyPlanTwice(s: AppState, id: string, patch: PlanPatch)
    requires patch.id.None? || patch.id == Some(id)
    ensures UpdateStudyPlan(UpdateStudyPlan(s, id, patch), id, patch) == UpdateStudyPlan(s, id, patch)
  {
    var once := UpdateStudyPlan(s, id, patch);
    var twice := UpdateStudyPlan(once, id, patch);
    assert twice.studyPlans == once.studyPlans;
  }

  /** The marker `deleteStudyPlan` looks for inside task ids. */
  function StudyMarker(id: string): string {
    "study-" + id
  }

  /** `deleteStudyPlan`: drops the plan, and every task on any date whose
      id contains "study-<id>" anywhere; all other tasks stay, in order. */
  function DeleteStudyPlan(s: AppState, id: string): (r: AppState)
    ensures forall p :: p in r.studyPlans <==> p in s.studyPlans && p.id != id
    ensures forall p :: multiset(r.studyPlans)[p] == if p.id != id then multiset(s.studyPlans)[p] else 0
    ensures IsSubsequence(r.studyPlans, s.studyPlans)
    ensures forall t :: t in r.dailyTasks <==> t in s.dailyTasks && !Contains(t.id, StudyMarker(id))
    ensures forall t: DailyTask ::
              multiset(r.dailyTasks)[t]
              == (if Contains(t.id, StudyMarker(id)) then 0 else multiset(s.dailyTasks)[t])
    ensures IsSubsequence(r.dailyTasks, s.dailyTasks)
    ensures r == s.(studyPlans := r.studyPlans, dailyTasks := r.dailyTasks)
  {
    s.(studyPlans := OtherPlans(s.studyPlans, id), dailyTasks := UnmarkedTasks(s.dailyTasks, id))
  }

  /** The plans with another id, in order. */
  function OtherPlans(plans: seq<StudyPlanItem>, id: string): (r: seq<StudyPlanItem>)
    ensures forall p :: p in r <==> p in plans && p.id != id
    ensures forall p :: multiset(r)[p] == if p.id != id then multiset(plans)[p] else 0
    ensures IsSubsequence(r, plans)
  {
    Filter(plans, (p: StudyPlanItem) => p.id != id)
  }

  /** The tasks whose id does not contain the marker of plan `id`, in
      order. */
  function UnmarkedTasks(tasks: seq<DailyTask>, id: string): (r: seq<DailyTask>)
    ensures forall t :: t in r <==> t in tasks && !Contains(t.id, StudyMarker(id))
    ensures forall t: DailyTask ::
              multiset(r)[t] == (if Contains(t.id, StudyMarker(id)) then 0 else multiset(tasks)[t])
    ensures IsSubsequence(r, tasks)
  {
    Filter(tasks, (t: DailyTask) => !Contains(t.id, StudyMarker(id)))
  }

  /** Deleting a plan just added under a new id restores the state, when
      no task id mentions the plan's marker. */
  lemma DeleteAddedPlan(s: AppState, plan: StudyPlanItem)
    requires forall p :: p in s.studyPlans ==> p.id != plan.id
    requires forall t :: t in s.dailyTasks ==> !Contains(t.id, StudyMarker(plan.id))
    ensures DeleteStudyPlan(AddStudyPlan(s, plan), plan.id) == s
  {
    FilterDropsLast(s.studyPlans, plan, (x: StudyPlanItem) => x.id != plan.id);
    assert forall i :: 0 <= i < |s.dailyTasks| ==> s.dailyTasks[i] in s.dailyTasks;
    FilterAll(s.dailyTasks, (t: DailyTask) => !Contains(t.id, StudyMarker(plan.id)));
  }

  /** Cascade integrity: after deleting a plan, no instance of it is left
      on any date. */
  lemma DeleteStudyPlanRemovesAllInstances(s: AppState, id: string, date: string)
    ensures forall t :: t in DeleteStudyPlan(s, id).dailyTasks ==>
      t.id != Materialize.StudyTaskId(id, date)
  {
    var sid := Materialize.StudyTaskId(id, date);
    assert sid == StudyMarker(id) + ("-" + date);
    PrefixContained(sid, StudyMarker(id));
  }

  /** The cascade matches by substring, so deleting plan "1" also removes
      the tasks of plan "12". */
  lemma DeleteStudyPlanOverreaches(s: AppState, t: DailyTask)
    requires t in s.dailyTasks && t.id == Materialize.StudyTaskId("12", "2024-06-01")
    ensures t !in DeleteStudyPlan(s, "1").dailyTasks
  {
    assert t.id[..|StudyMarker("1")|] == StudyMarker("1");
    PrefixContained(t.id, StudyMarker("1"));
  }

  /** `addTask`: the task goes last. */
  function AddTask(s: AppState, task: DailyTask): (r: AppState)
    ensures r.dailyTasks == s.dailyTasks + [task]
    ensures r == s.(dailyTasks := r.dailyTasks)
  {
    s.(dailyTasks := s.dailyTasks + [task])
  }

  /** `updateTask`: merges the patch into every task with that id; all
      other tasks are unchanged and the list keeps its order. */
  function UpdateTask(s: AppState, id: string, patch: TaskPatch): (r: AppState)
    ensures |r.dailyTasks| == |s.dailyTasks|
    ensures forall i :: 0 <= i < |s.dailyTasks| && s.dailyTasks[i].id != id ==>
      r.dailyTasks[i] == s.dailyTasks[i]
    ensures forall i :: 0 <= i < |s.dailyTasks| && s.dailyTasks[i].id == id ==>
      && r.dailyTasks[i].title == patch.title.GetOr(s.dailyTasks[i].title)
      && r.dailyTasks[i].startTime == patch.startTime.GetOr(s.dailyTasks[i].startTime)
      && r.dailyTasks[i].endTime == patch.endTime.GetOr(s.dailyTasks[i].endTime)
      && r.dailyTasks[i].status == patch.status.GetOr(s.dailyTasks[i].status)
      && r.dailyTasks[i].date == patch.date.GetOr(s.dailyTasks[i].date)
      && r.dailyTasks[i].sourceType == patch.sourceType.GetOr(s.dailyTasks[i].sourceType)
      && r.dailyTasks[i].id == patch.id.GetOr(id)
    ensures r == s.(dailyTasks := r.dailyTasks)
  {
    s.(dailyTasks := seq(|s.dailyTasks|, i requires 0 <= i < |s.dailyTasks| =>
         if s.dailyTasks[i].id == id then ApplyTaskPatch(s.dailyTasks[i], patch)
         else s.dailyTasks[i]))
  }

  /** The editors send only title and times, so an edit never changes a
      task's status: completion survives editing. */
  lemma EditKeepsStatus(s: AppState, id: string, title: string, start: TimeOfDay.Time,
                        end: TimeOfDay.Time)
    ensures var r := UpdateTask(s, id, TaskPatch(None, Some(title), Some(start), Some(end),
                                                 None, None, None));
            forall i :: 0 <= i < |s.dailyTasks| ==>
              r.dailyTasks[i].status == s.dailyTasks[i].status
  {
  }

  /** `deleteTask`: removes every task with that id, keeping the rest in
      order; an unknown id changes nothing. */
  function DeleteTask(s: AppState, id: string): (r: AppState)
    ensures forall t :: t in r.dailyTasks <==> t in s.dailyTasks && t.id != id
    ensures forall t: DailyTask :: t.id != id ==> multiset(r.dailyTasks)[t] == multiset(s.dailyTasks)[t]
    ensures IsSubsequence(r.dailyTasks, s.dailyTasks)
    ensures id !in Ids(s.dailyTasks) ==> r == s
    ensures r == s.(dailyTasks := r.dailyTasks)
  {
    UnknownIdKeepsTasks(s.dailyTasks, id);
    s.(dailyTasks := Filter(s.dailyTasks, (t: DailyTask) => t.id != id))
  }

  /** Deleting a task just added under a new id restores the state. */
  lemma DeleteAddedTask(s: AppState, task: DailyTask)
    requires task.id !in Ids(s.dailyTasks)
    ensures DeleteTask(AddTask(s, task), task.id) == s
  {
    FilterAppendNone(s.dailyTasks, [task], (t: DailyTask) => t.id != task.id);
    UnknownIdKeepsTasks(s.dailyTasks, task.id);
  }

  /** Dropping an id no task has keeps the list as it is. */
  lemma UnknownIdKeepsTasks(tasks: seq<DailyTask>, id: string)
    ensures id !in Ids(tasks) ==> Filter(tasks, (t: DailyTask) => t.id != id) == tasks
  {
    if id !in Ids(tasks) {
      assert forall i :: 0 <= i < |tasks| ==> tasks[i] in tasks;
      FilterAll(tasks, (t: DailyTask) => t.id != id);
    }
  }

  /** `deleteMultipleTasks`: removes exactly the tasks whose id is listed,
      keeping the rest in order; ids matching no task are ignored. */
  function DeleteMultipleTasks(s: AppState, ids: seq<string>): (r: AppState)
    ensures forall t :: t in r.dailyTasks <==> t in s.dailyTasks && t.id !in ids
    ensures forall t: DailyTask :: t.id !in ids ==> multiset(r.dailyTasks)[t] == multiset(s.dailyTasks)[t]
    ensures IsSubsequence(r.dailyTasks, s.dailyTasks)
    ensures (forall k :: k in ids ==> k !in Ids(s.dailyTasks)) ==> r == s
    ensures r == s.(dailyTasks := r.dailyTasks)
  {
    UnknownIdsKeepTasks(s.dailyTasks, ids);
    s.(dailyTasks := Filter(s.dailyTasks, (t: DailyTask) => t.id !in ids))
  }

  /** Dropping ids no task has keeps the list as it is. */
  lemma UnknownIdsKeepTasks(tasks: seq<DailyTask>, ids: seq<string>)
    ensures (forall k :: k in ids ==> k !in Ids(tasks)) ==>
              Filter(tasks, (t: DailyTask) => t.id !in ids) == tasks
  {
    if forall k :: k in ids ==> k !in Ids(tasks) {
      assert forall i :: 0 <= i < |tasks| ==> tasks[i] in tasks;
      FilterAll(tasks, (t: DailyTask) => t.id !in ids);
    }
  }

  /** Deleting one id as a batch of one is deleting it singly. */
  lemma DeleteSingletonBatch(s: AppState, id: string)
    ensures DeleteMultipleTasks(s, [id]) == DeleteTask(s, id)
  {
    FilterCongruent(s.dailyTasks, (t: DailyTask) => t.id !in [id], (t: DailyTask) => t.id != id);
  }

  /** `toggleTaskStatus`: a matching task that is not DONE becomes DONE;
      nothing ever goes back from DONE, and no other field or task
      changes. */
  function ToggleTaskStatus(s: AppState, id: string): (r: AppState)
    ensures |r.dailyTasks| == |s.dailyTasks|
    ensures forall i :: 0 <= i < |s.dailyTasks| ==>
      && r.dailyTasks[i] == s.dailyTasks[i].(status := r.dailyTasks[i].status)
      && (s.dailyTasks[i].id == id ==> r.dailyTasks[i].status == Done)
      && (s.dailyTasks[i].id != id ==> r.dailyTasks[i] == s.dailyTasks[i])
      && (s.dailyTasks[i].status == Done ==> r.dailyTasks[i] == s.dailyTasks[i])
    ensures r == s.(dailyTasks := r.dailyTasks)
  {
    s.(dailyTasks := seq(|s.dailyTasks|, i requires 0 <= i < |s.dailyTasks| =>
         if s.dailyTasks[i].id == id && s.dailyTasks[i].status != Done
         then s.dailyTasks[i].(status := Done)
         else s.dailyTasks[i]))
  }

  /** Toggling twice is toggling once: the toggle is one-way. */
  lemma ToggleIdempotent(s: AppState, id: string)
    ensures ToggleTaskStatus(ToggleTaskStatus(s, id), id) == ToggleTaskStatus(s, id)
  {
  }

  /** `addNote`: the new note goes first. */
  function AddNote(s: AppState, note: Note): (r: AppState)
    ensures r.notes == [note] + s.notes
    ensures r == s.(notes := r.notes)
  {
    s.(notes := [note] + s.notes)
  }

  /** `updateNote`: merges the patch into every note with that id and
      stamps it with `nowMs`. */
  function UpdateNote(s: AppState, id: string, patch: NotePatch, nowMs: int): (r: AppState)
    ensures |r.notes| == |s.notes|
    ensures forall i :: 0 <= i < |s.notes| && s.notes[i].id != id ==> r.notes[i] == s.notes[i]
    ensures forall i :: 0 <= i < |s.notes| && s.notes[i].id == id ==>
      && r.notes[i].id == id
      && r.notes[i].title == patch.title.GetOr(s.notes[i].title)
      && r.notes[i].content == patch.content.GetOr(s.notes[i].content)
      && r.notes[i].updatedAt == nowMs
    ensures r == s.(notes := r.notes)
  {
    s.(notes := seq(|s.notes|, i requires 0 <= i < |s.notes| =>
         if s.notes[i].id == id
         then s.notes[i].(title := patch.title.GetOr(s.notes[i].title),
                          content := patch.content.GetOr(s.notes[i].content),
                          updatedAt := nowMs)
         else s.notes[i]))
  }

  /** `deleteNote`: drops every note with that id, keeping the rest in
      order. */
  function DeleteNote(s: AppState, id: string): (r: AppState)
    ensures forall n :: n in r.notes <==> n in s.notes && n.id != id
    ensures forall n :: multiset(r.notes)[n] == if n.id != id then multiset(s.notes)[n] else 0
    ensures IsSubsequence(r.notes, s.notes)
    ensures r == s.(notes := r.notes)
  {
    s.(notes := Filter(s.notes, (n: Note) => n.id != id))
  }

  /** Deleting a note just added under a new id restores the state. */
  lemma DeleteAddedNote(s: AppState, note: Note)
    requires forall n :: n in s.notes ==> n.id != note.id
    ensures DeleteNote(AddNote(s, note), note.id) == s
  {
    FilterDropsFirst(note, s.notes, (n: Note) => n.id != note.id);
  }
}
