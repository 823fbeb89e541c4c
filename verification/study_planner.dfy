/** The study planner page (components/StudyPlanner.tsx): the three
    lists over the tasks materialised from study plans, the add-plan
    form with its defaults, and deletion by confirmation. */
module StudyPlanner {
  import opened Types
  import opened TimeOfDay
  import opened Text
  import opened Seqs
  import opened Sorting
  import opened Wrappers
  import opened TaskViews
  import AppContext
  import Materialize

  predicate IsStudy(t: DailyTask) {
    t.sourceType == StudyPlan
  }

  /** `listItems`: the chosen list over the study tasks only. */
  function ListItems(tasks: seq<DailyTask>, view: ListView, today: string, now: int)
    : (r: seq<DailyTask>)
    ensures forall t :: t in r <==> t in tasks && IsStudy(t) && InView(t, view, today, now)
    ensures forall t :: multiset(r)[t]
                        == if IsStudy(t) && InView(t, view, today, now) then multiset(tasks)[t] else 0
    ensures view.ArchiveView? ==> SortedBy(r, ArchiveLe)
    ensures !view.ArchiveView? ==> SortedBy(r, StartLe)
    ensures forall e ::
              Filter(r, SameKey(ViewOrder(view), e))
              == Filter(Filter(Filter(tasks, IsStudy), InViewP(view, today, now)), SameKey(ViewOrder(view), e))
  {
    var src := Filter(tasks, IsStudy);
    assert forall t :: multiset(src)[t] == if IsStudy(t) then multiset(tasks)[t] else 0;
    ViewItems(src, view, today, now)
  }

  /** The add form; `None` stands for a cleared field (an empty time
      input, an empty or non-numeric duration). */
  datatype PlanForm = PlanForm(subject: string, startTime: Option<Time>, duration: Option<int>)

  const BlankPlanForm := PlanForm("", Some("16:00"), Some(60))

  datatype PlannerUi = PlannerUi(
    showAddPlan: bool,
    form: PlanForm,
    selected: seq<string>,
    selectMode: bool,
    confirmId: Option<string>)

  datatype Planner = Planner(app: AppContext.AppState, ui: PlannerUi)

  /** `duration || 60`: a cleared or zero duration becomes an hour. */
  function PlanDuration(d: Option<int>): (r: int)
    ensures r != 0
    ensures d.Some? && d.value != 0 ==> r == d.value
    ensures r != 60 ==> d == Some(r)
  {
    if d.Some? && d.value != 0 then d.value else 60
  }

  /** `handleAddPlan`: an empty subject changes nothing (a blank but
      non-empty subject is accepted: it is not trimmed); otherwise one
      daily plan is appended and the form closes and resets. */
  function HandleAddPlan(p: Planner, nowMs: nat): (r: Planner)
    ensures p.ui.form.subject == "" ==> r == p
    ensures p.ui.form.subject != "" ==>
      && r.app == p.app.(studyPlans := r.app.studyPlans)
      && |r.app.studyPlans| == |p.app.studyPlans| + 1
      && r.app.studyPlans[..|p.app.studyPlans|] == p.app.studyPlans
      && r.ui == p.ui.(showAddPlan := false, form := BlankPlanForm)
      && (var plan := r.app.studyPlans[|p.app.studyPlans|];
          && plan.id == Decimal(nowMs) && plan.subject == p.ui.form.subject
          && plan.startTime == p.ui.form.startTime.GetOr("16:00")
          && plan.duration == PlanDuration(p.ui.form.duration)
          && plan.frequency == Daily && plan.daysOfWeek == [])
  {
    if p.ui.form.subject == "" then p
    else
      var f := p.ui.form;
      var plan := StudyPlanItem(Decimal(nowMs), f.subject, f.startTime.GetOr("16:00"),
                                PlanDuration(f.duration), Daily, []);
      var app := AppContext.AddStudyPlan(p.app, plan);
      assert app.studyPlans[..|p.app.studyPlans|] == p.app.studyPlans;
      Planner(app, p.ui.(showAddPlan := false, form := BlankPlanForm))
  }

  /** A plan added from the page is daily, so the next materialisation
      of any date gives it an instance on that date. */
  lemma AddedPlanMaterialises(p: Planner, nowMs: nat, date: string, weekday: int)
    requires p.ui.form.subject != ""
    ensures var r := HandleAddPlan(p, nowMs);
      var tasks := Materialize.GenerateTasks(r.app.dailyTasks, r.app.routines,
                                             r.app.studyPlans, date, weekday);
      Materialize.StudyTaskId(Decimal(nowMs), date) in IdsOn(tasks, date)
  {
    var r := HandleAddPlan(p, nowMs);
    assert r.app.studyPlans[|p.app.studyPlans|] in r.app.studyPlans;
  }

  /** `onConfirmDelete`: "batch" deletes the selected tasks and clears
      the selection; any other non-empty id deletes that one task; the
      confirmation is cleared either way. */
  function OnConfirmDelete(p: Planner): (r: Planner)
    ensures r.ui.confirmId.None?
    ensures r.app == p.app.(dailyTasks := r.app.dailyTasks)
    ensures p.ui.confirmId == Some("batch") ==>
      && (forall t :: t in r.app.dailyTasks <==> t in p.app.dailyTasks && t.id !in p.ui.selected)
      && (forall t: DailyTask :: t.id !in p.ui.selected ==>
            multiset(r.app.dailyTasks)[t] == multiset(p.app.dailyTasks)[t])
      && IsSubsequence(r.app.dailyTasks, p.app.dailyTasks)
      && r.ui == p.ui.(selected := [], selectMode := false, confirmId := None)
    ensures p.ui.confirmId.Some? && p.ui.confirmId.value !in {"", "batch"} ==>
      && (forall t :: t in r.app.dailyTasks <==>
            t in p.app.dailyTasks && t.id != p.ui.confirmId.value)
      && (forall t: DailyTask :: t.id != p.ui.confirmId.value ==>
            multiset(r.app.dailyTasks)[t] == multiset(p.app.dailyTasks)[t])
      && IsSubsequence(r.app.dailyTasks, p.app.dailyTasks)
      && r.ui == p.ui.(confirmId := None)
    ensures p.ui.confirmId.None? || p.ui.confirmId == Some("") ==>
      r == p.(ui := p.ui.(confirmId := None))
  {
    match p.ui.confirmId
    case Some(id) =>
      if id == "batch" then
        Planner(AppContext.DeleteMultipleTasks(p.app, p.ui.selected),
                p.ui.(selected := [], selectMode := false, confirmId := None))
      else if id != "" then
        Planner(AppContext.DeleteMultipleTasks(p.app, [id]), p.ui.(confirmId := None))
      else p.(ui := p.ui.(confirmId := None))
    case None => p.(ui := p.ui.(confirmId := None))
  }
}
