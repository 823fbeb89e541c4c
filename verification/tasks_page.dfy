/** The tasks page (components/Tasks.tsx): the three lists over every
    task that does not come from a study plan, the add form, single and
    batch deletion, and in-place editing. */
module TasksPage {
  import opened Types
  import opened TimeOfDay
  import opened Text
  import opened Seqs
  import opened Sorting
  import opened Wrappers
  import opened TaskViews
  import AppContext
  import Materialize

  predicate IsGeneral(t: DailyTask) {
    t.sourceType != StudyPlan
  }

  /** `listItems`: the chosen list over the tasks not owned by the study
      planner. */
  function ListItems(tasks: seq<DailyTask>, view: ListView, today: string, now: int)
    : (r: seq<DailyTask>)
    ensures forall t :: t in r <==> t in tasks && IsGeneral(t) && InView(t, view, today, now)
    ensures forall t :: multiset(r)[t]
                        == if IsGeneral(t) && InView(t, view, today, now) then multiset(tasks)[t] else 0
    ensures view.ArchiveView? ==> SortedBy(r, ArchiveLe)
    ensures !view.ArchiveView? ==> SortedBy(r, StartLe)
    ensures forall e ::
              Filter(r, SameKey(ViewOrder(view), e))
              == Filter(Filter(Filter(tasks, IsGeneral), InViewP(view, today, now)), SameKey(ViewOrder(view), e))
  {
    var src := Filter(tasks, IsGeneral);
    assert forall t :: multiset(src)[t] == if IsGeneral(t) then multiset(tasks)[t] else 0;
    ViewItems(src, view, today, now)
  }

  datatype NewTaskForm = NewTaskForm(title: string, startTime: Time, endTime: Time)

  /** The form as it opens and as it is reset after an add. */
  const BlankForm := NewTaskForm("", "09:00", "10:00")

  /** The fields the inline editor sends to `updateTask`. */
  datatype EditBuffer = EditBuffer(title: string, startTime: Time, endTime: Time)

  datatype TasksUi = TasksUi(
    isAdding: bool,
    form: NewTaskForm,
    editingId: Option<string>,
    editBuffer: EditBuffer,
    selected: seq<string>,
    selectMode: bool,
    confirmId: Option<string>,
    confirmBatch: bool)

  datatype Page = Page(app: AppContext.AppState, ui: TasksUi)

  /** `manual-<milliseconds>`. */
  function ManualTaskId(nowMs: nat): string {
    "manual-" + Decimal(nowMs)
  }

  /** Adds made at different milliseconds get different ids, and a manual
      id never equals a materialised one. */
  lemma ManualTaskIdDistinct(a: nat, b: nat, id: string, date: string)
    ensures ManualTaskId(a) == ManualTaskId(b) ==> a == b
    ensures ManualTaskId(a) != Materialize.RoutineTaskId(id, date)
    ensures ManualTaskId(a) != Materialize.StudyTaskId(id, date)
  {
    if ManualTaskId(a) == ManualTaskId(b) {
      assert Decimal(a) == ManualTaskId(a)[7..] == ManualTaskId(b)[7..] == Decimal(b);
    }
    assert ManualTaskId(a)[0] == 'm';
    assert Materialize.RoutineTaskId(id, date)[0] == 'r';
    assert Materialize.StudyTaskId(id, date)[0] == 's';
  }

  /** `handleAddTask`: a title that is blank after trimming changes
      nothing; otherwise one pending manual task for today is appended
      (with the title as typed) and the form closes and resets. */
  function HandleAddTask(p: Page, nowMs: nat): (r: Page)
    ensures Trim(p.ui.form.title) == "" ==> r == p
    ensures Trim(p.ui.form.title) != "" ==>
      && r.app == p.app.(dailyTasks := r.app.dailyTasks)
      && |r.app.dailyTasks| == |p.app.dailyTasks| + 1
      && r.app.dailyTasks[..|p.app.dailyTasks|] == p.app.dailyTasks
      && r.ui == p.ui.(isAdding := false, form := BlankForm)
      && (var t := r.app.dailyTasks[|p.app.dailyTasks|];
          && t.id == ManualTaskId(nowMs) && t.title == p.ui.form.title
          && t.startTime == p.ui.form.startTime && t.endTime == p.ui.form.endTime
          && t.status == Pending && t.date == p.app.currentDate && t.sourceType == Manual)
  {
    if Trim(p.ui.form.title) == "" then p
    else
      var f := p.ui.form;
      var t := DailyTask(ManualTaskId(nowMs), f.title, f.startTime, f.endTime, Pending,
                         p.app.currentDate, Manual);
      var app := AppContext.AddTask(p.app, t);
      assert app.dailyTasks[..|p.app.dailyTasks|] == p.app.dailyTasks;
      Page(app, p.ui.(isAdding := false, form := BlankForm))
  }

  /** A task added before its end time shows in the current list, and
      after it in the missed list. */
  lemma AddedTaskIsListed(p: Page, nowMs: nat, now: int)
    requires Trim(p.ui.form.title) != ""
    ensures var r := HandleAddTask(p, nowMs);
      var t := r.app.dailyTasks[|p.app.dailyTasks|];
      && (TimeToMinutes(p.ui.form.endTime) > now ==>
            t in ListItems(r.app.dailyTasks, ActiveView, p.app.currentDate, now))
      && (TimeToMinutes(p.ui.form.endTime) <= now ==>
            t in ListItems(r.app.dailyTasks, MissedView, p.app.currentDate, now))
  {
    var r := HandleAddTask(p, nowMs);
    var t := r.app.dailyTasks[|p.app.dailyTasks|];
    assert t in r.app.dailyTasks && IsGeneral(t);
    var today := p.app.currentDate;
    if TimeToMinutes(p.ui.form.endTime) > now {
      Listed(r.app.dailyTasks, t, ActiveView, today, now);
    } else {
      Listed(r.app.dailyTasks, t, MissedView, today, now);
    }
  }

  /** A non-study task of a view is on that view's list. */
  lemma Listed(tasks: seq<DailyTask>, t: DailyTask, view: ListView, today: string, now: int)
    requires t in tasks && IsGeneral(t) && InView(t, view, today, now)
    ensures t in ListItems(tasks, view, today, now)
  {
  }

  /** `saveEditing`: merges title and times into the task with that id
      and closes the editor; statuses are untouched. */
  function SaveEditing(p: Page, id: string): (r: Page)
    ensures |r.app.dailyTasks| == |p.app.dailyTasks|
    ensures forall i :: 0 <= i < |p.app.dailyTasks| ==>
      && (p.app.dailyTasks[i].id != id ==> r.app.dailyTasks[i] == p.app.dailyTasks[i])
      && (p.app.dailyTasks[i].id == id ==>
            r.app.dailyTasks[i] == p.app.dailyTasks[i].(title := p.ui.editBuffer.title,
                                                        startTime := p.ui.editBuffer.startTime,
                                                        endTime := p.ui.editBuffer.endTime))
    ensures r.app == p.app.(dailyTasks := r.app.dailyTasks)
    ensures r.ui == p.ui.(editingId := None)
  {
    var b := p.ui.editBuffer;
    var patch := TaskPatch(None, Some(b.title), Some(b.startTime), Some(b.endTime), None, None, None);
    Page(AppContext.UpdateTask(p.app, id, patch), p.ui.(editingId := None))
  }

  /** `handleDeleteSingle`: with a pending confirmation deletes that id
      and clears it; without one (or with an empty id) does nothing. */
  function HandleDeleteSingle(p: Page): (r: Page)
    ensures p.ui.confirmId.None? || p.ui.confirmId == Some("") ==> r == p
    ensures p.ui.confirmId.Some? && p.ui.confirmId.value != "" ==>
      && (forall t :: t in r.app.dailyTasks <==>
            t in p.app.dailyTasks && t.id != p.ui.confirmId.value)
      && (forall t: DailyTask :: t.id != p.ui.confirmId.value ==>
            multiset(r.app.dailyTasks)[t] == multiset(p.app.dailyTasks)[t])
      && IsSubsequence(r.app.dailyTasks, p.app.dailyTasks)
      && r.app == p.app.(dailyTasks := r.app.dailyTasks)
      && r.ui == p.ui.(confirmId := None)
  {
    if p.ui.confirmId.Some? && p.ui.confirmId.value != "" then
      Page(AppContext.DeleteTask(p.app, p.ui.confirmId.value), p.ui.(confirmId := None))
    else p
  }

  /** `handleDeleteBatch`: deletes exactly the selected ids, then clears
      the selection and leaves select mode. */
  function HandleDeleteBatch(p: Page): (r: Page)
    ensures forall t :: t in r.app.dailyTasks <==> t in p.app.dailyTasks && t.id !in p.ui.selected
    ensures forall t: DailyTask :: t.id !in p.ui.selected ==>
      multiset(r.app.dailyTasks)[t] == multiset(p.app.dailyTasks)[t]
    ensures IsSubsequence(r.app.dailyTasks, p.app.dailyTasks)
    ensures r.app == p.app.(dailyTasks := r.app.dailyTasks)
    ensures r.ui == p.ui.(selected := [], selectMode := false, confirmBatch := false)
  {
    Page(AppContext.DeleteMultipleTasks(p.app, p.ui.selected),
         p.ui.(selected := [], selectMode := false, confirmBatch := false))
  }
}
