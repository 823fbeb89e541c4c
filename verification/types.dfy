/** The records of types.ts: routine and study-plan templates, dated task
    instances and notes. Ids, titles and dates are strings; dates are
    opaque "YYYY-MM-DD" values compared only for equality and ordinal
    order. */
module Types {
  import opened TimeOfDay
  import opened Wrappers
  import Sorting

  datatype TaskStatus = Done | Pending | Missed

  datatype SourceType = Routine | StudyPlan | Manual

  datatype Frequency = Daily | Weekly

  datatype RoutineCategory = Morning | Afternoon | Evening | Night

  datatype RoutineKind = Study | Rest | Work | Personal

  /** A routine recurs every day with fixed start and end times. */
  datatype RoutineItem = RoutineItem(
    id: string,
    title: string,
    startTime: Time,
    endTime: Time,
    category: RoutineCategory,
    kind: RoutineKind)

  /** A study plan recurs daily, or weekly on the listed weekdays (0 is
      Sunday); its sessions last `duration` minutes. */
  datatype StudyPlanItem = StudyPlanItem(
    id: string,
    subject: string,
    startTime: Time,
    duration: int,
    frequency: Frequency,
    daysOfWeek: seq<int>)

  /** A concrete task on one date. */
  datatype DailyTask = DailyTask(
    id: string,
    title: string,
    startTime: Time,
    endTime: Time,
    status: TaskStatus,
    date: string,
    sourceType: SourceType)

  datatype Note = Note(id: string, title: string, content: string, updatedAt: int)

  /** `Partial<DailyTask>`: the fields an update overwrites. */
  datatype TaskPatch = TaskPatch(
    id: Option<string>,
    title: Option<string>,
    startTime: Option<Time>,
    endTime: Option<Time>,
    status: Option<TaskStatus>,
    date: Option<string>,
    sourceType: Option<SourceType>)

  /** `{ ...t, ...updates }` for a task. */
  function ApplyTaskPatch(t: DailyTask, p: TaskPatch): DailyTask {
    DailyTask(
      p.id.GetOr(t.id), p.title.GetOr(t.title), p.startTime.GetOr(t.startTime),
      p.endTime.GetOr(t.endTime), p.status.GetOr(t.status), p.date.GetOr(t.date),
      p.sourceType.GetOr(t.sourceType))
  }

  /** `Partial<StudyPlan>`. */
  datatype PlanPatch = PlanPatch(
    id: Option<string>,
    subject: Option<string>,
    startTime: Option<Time>,
    duration: Option<int>,
    frequency: Option<Frequency>,
    daysOfWeek: Option<seq<int>>)

  function ApplyPlanPatch(s: StudyPlanItem, p: PlanPatch): StudyPlanItem {
    StudyPlanItem(
      p.id.GetOr(s.id), p.subject.GetOr(s.subject), p.startTime.GetOr(s.startTime),
      p.duration.GetOr(s.duration), p.frequency.GetOr(s.frequency),
      p.daysOfWeek.GetOr(s.daysOfWeek))
  }

  /** `Partial<Note>` as the editor sends it (the context stamps
      `updatedAt` itself). */
  datatype NotePatch = NotePatch(title: Option<string>, content: Option<string>)

  function StartMinutes(t: DailyTask): int {
    TimeToMinutes(t.startTime)
  }

  function EndMinutes(t: DailyTask): int {
    TimeToMinutes(t.endTime)
  }

  /** The "may precede" relation of the sort by ascending start time. */
  predicate StartLe(a: DailyTask, b: DailyTask) {
    StartMinutes(a) <= StartMinutes(b)
  }

  lemma StartLePreorder()
    ensures Sorting.TotalPreorder(StartLe)
  {
  }

  /** The id of each kind of record, for listing ids with `Seqs.Map`. */
  function TaskId(t: DailyTask): string { t.id }

  function RoutineId(r: RoutineItem): string { r.id }

  function PlanId(p: StudyPlanItem): string { p.id }

  /** Ids of the tasks on `date`. */
  function IdsOn(tasks: seq<DailyTask>, date: string): set<string> {
    set t | t in tasks && t.date == date :: t.id
  }

  function Ids(tasks: seq<DailyTask>): set<string> {
    set t | t in tasks :: t.id
  }

  /** At most one task per id on `date` (the materialisation invariant). */
  predicate UniqueIdsOn(tasks: seq<DailyTask>, date: string) {
    forall i, j :: 0 <= i < j < |tasks| && tasks[i].date == date && tasks[j].date == date
                   ==> tasks[i].id != tasks[j].id
  }
}
