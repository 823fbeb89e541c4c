/** Materialisation (`generateTasksForToday`, context/AppContext.tsx):
    routine and study-plan templates become PENDING tasks of one date,
    each keyed by a deterministic id so that re-running adds nothing. */
module Materialize {
  import opened Types
  import opened TimeOfDay
  import opened Seqs

  /** `routine-<id>-<date>` */
  function RoutineTaskId(id: string, date: string): string {
    "routine-" + id + "-" + date
  }

  /** `study-<id>-<date>` */
  function StudyTaskId(id: string, date: string): string {
    "study-" + id + "-" + date
  }

  /** Splicing different ids between a fixed prefix and suffix gives
      different strings. */
  lemma SpliceInjective(pre: string, a: string, b: string, post: string)
    requires pre + a + post == pre + b + post
    ensures a == b
  {
    var x := pre + a + post;
    assert |a| == |b|;
    assert a == x[|pre|..|pre| + |a|];
  }

  lemma RoutineTaskIdInjective(a: string, b: string, date: string)
    requires RoutineTaskId(a, date) == RoutineTaskId(b, date)
    ensures a == b
  {
    SpliceInjective("routine-", a, b, "-" + date);
    assert "routine-" + a + "-" + date == "routine-" + a + ("-" + date);
    assert "routine-" + b + "-" + date == "routine-" + b + ("-" + date);
  }

  lemma StudyTaskIdInjective(a: string, b: string, date: string)
    requires StudyTaskId(a, date) == StudyTaskId(b, date)
    ensures a == b
  {
    SpliceInjective("study-", a, b, "-" + date);
    assert "study-" + a + "-" + date == "study-" + a + ("-" + date);
    assert "study-" + b + "-" + date == "study-" + b + ("-" + date);
  }

  /** Routine and study ids never collide: they differ in the first letter. */
  lemma RoutineStudyIdsDiffer(a: string, b: string, date: string)
    ensures RoutineTaskId(a, date) != StudyTaskId(b, date)
  {
    assert RoutineTaskId(a, date)[0] == 'r';
    assert StudyTaskId(b, date)[0] == 's';
  }

  /** The instance of a routine on `date`: its title and times verbatim. */
  function RoutineInstance(r: RoutineItem, date: string): DailyTask {
    DailyTask(RoutineTaskId(r.id, date), r.title, r.startTime, r.endTime, Pending, date, Routine)
  }

  /** The instance of a study plan on `date`: it ends `duration` minutes
      after it starts, on a 24-hour clock. */
  function StudyInstance(s: StudyPlanItem, date: string): DailyTask {
    DailyTask(StudyTaskId(s.id, date), s.subject, s.startTime,
              AddMinutesToTime(s.startTime, s.duration), Pending, date, StudyPlan)
  }

  /** A plan has a session on a day of the given weekday. */
  predicate IsScheduled(s: StudyPlanItem, weekday: int) {
    s.frequency == Daily || weekday in s.daysOfWeek
  }

  /** A routine still lacks its instance on `date`. */
  function RoutineUntaken(date: string, existing: set<string>): RoutineItem -> bool {
    (rt: RoutineItem) => RoutineTaskId(rt.id, date) !in existing
  }

  /** A plan is scheduled on `weekday` and still lacks its instance on `date`. */
  function StudyDue(date: string, weekday: int, existing: set<string>): StudyPlanItem -> bool {
    (s: StudyPlanItem) => StudyTaskId(s.id, date) !in existing && IsScheduled(s, weekday)
  }

  function RoutineInstanceOn(date: string): RoutineItem -> DailyTask {
    (rt: RoutineItem) => RoutineInstance(rt, date)
  }

  function StudyInstanceOn(date: string): StudyPlanItem -> DailyTask {
    (s: StudyPlanItem) => StudyInstance(s, date)
  }

  /** What one materialisation of `date` should append to `tasks`: one
      instance per routine lacking one, in routine order, then one per
      scheduled plan lacking one, in plan order. */
  function Missing(tasks: seq<DailyTask>, routines: seq<RoutineItem>, plans: seq<StudyPlanItem>,
                   date: string, weekday: int): seq<DailyTask>
  {
    Map(Filter(routines, RoutineUntaken(date, IdsOn(tasks, date))), RoutineInstanceOn(date))
    + Map(Filter(plans, StudyDue(date, weekday, IdsOn(tasks, date))), StudyInstanceOn(date))
  }

  /** The instances of the routines whose id for `date` is not taken yet. */
  function NewRoutineTasks(routines: seq<RoutineItem>, date: string, existing: set<string>)
    : (r: seq<DailyTask>)
    ensures r == Map(Filter(routines, RoutineUntaken(date, existing)), RoutineInstanceOn(date))
    ensures |r| <= |routines|
    ensures forall t :: t in r <==>
      exists rt :: rt in routines && RoutineTaskId(rt.id, date) !in existing
                   && t == RoutineInstance(rt, date)
    ensures (forall rt :: rt in routines ==> RoutineTaskId(rt.id, date) in existing) ==> r == []
    decreases |routines|
  {
    if |routines| == 0 then []
    else
      var rt := routines[0];
      var rest := NewRoutineTasks(routines[1..], date, existing);
      MapFilterStep(routines, RoutineUntaken(date, existing), RoutineInstanceOn(date), rest);
      MapFilterFacts(routines, RoutineUntaken(date, existing), RoutineInstanceOn(date));
      if RoutineTaskId(rt.id, date) !in existing then [RoutineInstance(rt, date)] + rest
      else rest
  }

  /** The instances of the plans scheduled on `weekday` whose id for `date`
      is not taken yet. */
  function NewStudyTasks(plans: seq<StudyPlanItem>, date: string, weekday: int,
                         existing: set<string>): (r: seq<DailyTask>)
    ensures r == Map(Filter(plans, StudyDue(date, weekday, existing)), StudyInstanceOn(date))
    ensures |r| <= |plans|
    ensures forall t :: t in r <==>
      exists s :: s in plans && StudyTaskId(s.id, date) !in existing && IsScheduled(s, weekday)
                  && t == StudyInstance(s, date)
    ensures (forall s :: s in plans && IsScheduled(s, weekday) ==> StudyTaskId(s.id, date) in existing)
            ==> r == []
    decreases |plans|
  {
    if |plans| == 0 then []
    else
      var s := plans[0];
      var rest := NewStudyTasks(plans[1..], date, weekday, existing);
      MapFilterStep(plans, StudyDue(date, weekday, existing), StudyInstanceOn(date), rest);
      MapFilterFacts(plans, StudyDue(date, weekday, existing), StudyInstanceOn(date));
      if StudyTaskId(s.id, date) !in existing && IsScheduled(s, weekday) then
        [StudyInstance(s, date)] + rest
      else rest
  }

  /** `generateTasksForToday(date)` with `weekday` the weekday of `date`:
      appends the missing instances of `date` after the existing tasks. */
  function GenerateTasks(tasks: seq<DailyTask>, routines: seq<RoutineItem>,
                         plans: seq<StudyPlanItem>, date: string, weekday: int)
    : (r: seq<DailyTask>)
    ensures r == tasks + Missing(tasks, routines, plans, date, weekday)
    ensures |r| >= |tasks| && r[..|tasks|] == tasks
    ensures forall i :: |tasks| <= i < |r| ==>
      && r[i].status == Pending && r[i].date == date
      && r[i].id !in IdsOn(tasks, date)
      && ((exists rt :: rt in routines && r[i] == RoutineInstance(rt, date))
          || (exists s :: s in plans && IsScheduled(s, weekday) && r[i] == StudyInstance(s, date)))
    ensures forall rt :: rt in routines ==> RoutineTaskId(rt.id, date) in IdsOn(r, date)
    ensures forall s :: s in plans && IsScheduled(s, weekday) ==>
      StudyTaskId(s.id, date) in IdsOn(r, date)
  {
    var existing := IdsOn(tasks, date);
    var added := NewRoutineTasks(routines, date, existing)
                 + NewStudyTasks(plans, date, weekday, existing);
    var r := tasks + added;
    AppendedShape(tasks, routines, plans, date, weekday, r);
    RoutinesCovered(tasks, routines, date, added);
    StudiesCovered(tasks, plans, date, weekday, added);
    r
  }

  /** Every new instance is a pending task of `date` with an id not yet
      taken, made from a routine or from a plan scheduled on `weekday`. */
  lemma NewTasksShape(routines: seq<RoutineItem>, plans: seq<StudyPlanItem>, date: string,
                      weekday: int, existing: set<string>)
    ensures forall t :: t in NewRoutineTasks(routines, date, existing)
                        + NewStudyTasks(plans, date, weekday, existing) ==>
      && t.status == Pending && t.date == date && t.id !in existing
      && ((exists rt :: rt in routines && t == RoutineInstance(rt, date))
          || (exists s :: s in plans && IsScheduled(s, weekday) && t == StudyInstance(s, date)))
  {
    var nr := NewRoutineTasks(routines, date, existing);
    var ns := NewStudyTasks(plans, date, weekday, existing);
    forall t: DailyTask | t in nr + ns
      ensures && t.status == Pending && t.date == date && t.id !in existing
              && ((exists rt :: rt in routines && t == RoutineInstance(rt, date))
                  || (exists s :: s in plans && IsScheduled(s, weekday) && t == StudyInstance(s, date)))
    {
      if t in nr {
        var rt :| rt in routines && RoutineTaskId(rt.id, date) !in existing
                  && t == RoutineInstance(rt, date);
      } else {
        var s :| s in plans && StudyTaskId(s.id, date) !in existing && IsScheduled(s, weekday)
                 && t == StudyInstance(s, date);
      }
    }
  }

  /** The entries after the old list are new instances of `date`. */
  lemma AppendedShape(tasks: seq<DailyTask>, routines: seq<RoutineItem>,
                      plans: seq<StudyPlanItem>, date: string, weekday: int,
                      r: seq<DailyTask>)
    requires r == tasks + (NewRoutineTasks(routines, date, IdsOn(tasks, date))
                           + NewStudyTasks(plans, date, weekday, IdsOn(tasks, date)))
    ensures forall i :: |tasks| <= i < |r| ==>
      && r[i].status == Pending && r[i].date == date
      && r[i].id !in IdsOn(tasks, date)
      && ((exists rt :: rt in routines && r[i] == RoutineInstance(rt, date))
          || (exists s :: s in plans && IsScheduled(s, weekday) && r[i] == StudyInstance(s, date)))
  {
    var existing := IdsOn(tasks, date);
    var added := NewRoutineTasks(routines, date, existing)
                 + NewStudyTasks(plans, date, weekday, existing);
    NewTasksShape(routines, plans, date, weekday, existing);
    forall i | |tasks| <= i < |r|
      ensures && r[i].status == Pending && r[i].date == date && r[i].id !in existing
              && ((exists rt :: rt in routines && r[i] == RoutineInstance(rt, date))
                  || (exists s :: s in plans && IsScheduled(s, weekday) && r[i] == StudyInstance(s, date)))
    {
      assert r[i] == added[i - |tasks|];
      assert added[i - |tasks|] in added;
    }
  }

  /** A routine whose id was missing on `date` and whose instance is
      appended has its id on `date` afterwards; so does one whose id was
      there already. */
  lemma RoutinesCovered(tasks: seq<DailyTask>, routines: seq<RoutineItem>, date: string,
                        added: seq<DailyTask>)
    requires forall rt :: rt in routines && RoutineTaskId(rt.id, date) !in IdsOn(tasks, date) ==>
      RoutineInstance(rt, date) in added
    ensures forall rt :: rt in routines ==> RoutineTaskId(rt.id, date) in IdsOn(tasks + added, date)
  {
    forall rt | rt in routines ensures RoutineTaskId(rt.id, date) in IdsOn(tasks + added, date) {
      if RoutineTaskId(rt.id, date) !in IdsOn(tasks, date) {
        assert RoutineInstance(rt, date) in tasks + added;
      } else {
        var t :| t in tasks && t.date == date && t.id == RoutineTaskId(rt.id, date);
        assert t in tasks + added;
      }
    }
  }

  /** The same for the plans scheduled on `weekday`. */
  lemma StudiesCovered(tasks: seq<DailyTask>, plans: seq<StudyPlanItem>, date: string,
                       weekday: int, added: seq<DailyTask>)
    requires forall s :: s in plans && IsScheduled(s, weekday)
                         && StudyTaskId(s.id, date) !in IdsOn(tasks, date) ==>
      StudyInstance(s, date) in added
    ensures forall s :: s in plans && IsScheduled(s, weekday) ==>
      StudyTaskId(s.id, date) in IdsOn(tasks + added, date)
  {
    forall s | s in plans && IsScheduled(s, weekday)
      ensures StudyTaskId(s.id, date) in IdsOn(tasks + added, date)
    {
      if StudyTaskId(s.id, date) !in IdsOn(tasks, date) {
        assert StudyInstance(s, date) in tasks + added;
      } else {
        var t :| t in tasks && t.date == date && t.id == StudyTaskId(s.id, date);
        assert t in tasks + added;
      }
    }
  }

  /** Running materialisation a second time for the same date returns the
      list unchanged. */
  lemma GenerateIdempotent(tasks: seq<DailyTask>, routines: seq<RoutineItem>,
                           plans: seq<StudyPlanItem>, date: string, weekday: int)
    ensures var once := GenerateTasks(tasks, routines, plans, date, weekday);
            GenerateTasks(once, routines, plans, date, weekday) == once
  {
    var once := GenerateTasks(tasks, routines, plans, date, weekday);
    var existing := IdsOn(once, date);
    var nr := NewRoutineTasks(routines, date, existing);
    var ns := NewStudyTasks(plans, date, weekday, existing);
    assert once + (nr + ns) == once;
  }

  /** Materialisation touches no date but its own: the tasks of every
      other date are exactly those before. */
  lemma GenerateOtherDatesUnchanged(tasks: seq<DailyTask>, routines: seq<RoutineItem>,
                                    plans: seq<StudyPlanItem>, date: string, weekday: int,
                                    other: string)
    requires other != date
    ensures var r := GenerateTasks(tasks, routines, plans, date, weekday);
            Filter(r, (t: DailyTask) => t.date == other)
            == Filter(tasks, (t: DailyTask) => t.date == other)
  {
    var r := GenerateTasks(tasks, routines, plans, date, weekday);
    var p := (t: DailyTask) => t.date == other;
    FilterAppendNone(tasks, r[|tasks|..], p);
    assert r == tasks + r[|tasks|..];
  }

  /** Prepending a task whose id is new keeps ids distinct. */
  lemma ConsDistinctIds(x: DailyTask, rest: seq<DailyTask>)
    requires NoDup(Map(rest, TaskId))
    requires forall t :: t in rest ==> t.id != x.id
    ensures NoDup(Map([x] + rest, TaskId))
  {
    var r := [x] + rest;
    forall i, j | 0 <= i < j < |r| ensures r[i].id != r[j].id {
      assert r[j] == rest[j - 1];
      if i > 0 {
        assert r[i] == rest[i - 1];
        assert Map(rest, TaskId)[i - 1] != Map(rest, TaskId)[j - 1];
      } else {
        assert r[j] in rest;
      }
    }
  }

  /** Concatenating lists with distinct, disjoint ids keeps ids distinct. */
  lemma AppendDistinctIds(a: seq<DailyTask>, b: seq<DailyTask>)
    requires NoDup(Map(a, TaskId)) && NoDup(Map(b, TaskId))
    requires forall t, u :: t in a && u in b ==> t.id != u.id
    ensures NoDup(Map(a + b, TaskId))
  {
    var r := a + b;
    forall i, j | 0 <= i < j < |r| ensures r[i].id != r[j].id {
      if j < |a| {
        assert r[i] == a[i] && r[j] == a[j];
        assert Map(a, TaskId)[i] != Map(a, TaskId)[j];
      } else if i >= |a| {
        assert r[i] == b[i - |a|] && r[j] == b[j - |a|];
        assert Map(b, TaskId)[i - |a|] != Map(b, TaskId)[j - |a|];
      } else {
        assert r[i] == a[i] && r[j] == b[j - |a|];
        assert r[i] in a && r[j] in b;
      }
    }
  }

  /** A later routine's instance never takes the first routine's id. */
  lemma RoutineHeadIdFresh(routines: seq<RoutineItem>, date: string, existing: set<string>)
    requires |routines| > 0 && NoDup(Map(routines, RoutineId))
    ensures forall t :: t in NewRoutineTasks(routines[1..], date, existing) ==>
                        t.id != RoutineTaskId(routines[0].id, date)
  {
    forall t | t in NewRoutineTasks(routines[1..], date, existing)
      ensures t.id != RoutineTaskId(routines[0].id, date)
    {
      var rt :| rt in routines[1..] && RoutineTaskId(rt.id, date) !in existing
                && t == RoutineInstance(rt, date);
      var k :| 0 <= k < |routines[1..]| && routines[1..][k] == rt;
      assert Map(routines, RoutineId)[k + 1] == rt.id;
      assert Map(routines, RoutineId)[0] == routines[0].id;
      if t.id == RoutineTaskId(routines[0].id, date) {
        RoutineTaskIdInjective(rt.id, routines[0].id, date);
      }
    }
  }

  /** A later plan's instance never takes the first plan's id. */
  lemma StudyHeadIdFresh(plans: seq<StudyPlanItem>, date: string, weekday: int,
                         existing: set<string>)
    requires |plans| > 0 && NoDup(Map(plans, PlanId))
    ensures forall t :: t in NewStudyTasks(plans[1..], date, weekday, existing) ==>
                        t.id != StudyTaskId(plans[0].id, date)
  {
    forall t | t in NewStudyTasks(plans[1..], date, weekday, existing)
      ensures t.id != StudyTaskId(plans[0].id, date)
    {
      var s :| s in plans[1..] && StudyTaskId(s.id, date) !in existing && IsScheduled(s, weekday)
               && t == StudyInstance(s, date);
      var k :| 0 <= k < |plans[1..]| && plans[1..][k] == s;
      assert Map(plans, PlanId)[k + 1] == s.id;
      assert Map(plans, PlanId)[0] == plans[0].id;
      if t.id == StudyTaskId(plans[0].id, date) {
        StudyTaskIdInjective(s.id, plans[0].id, date);
      }
    }
  }

  /** With distinct routine ids, the new routine instances have distinct
      ids. */
  lemma {:induction false} NewRoutineIdsDistinct(routines: seq<RoutineItem>, date: string,
                                                 existing: set<string>)
    requires NoDup(Map(routines, RoutineId))
    ensures NoDup(Map(NewRoutineTasks(routines, date, existing), TaskId))
    decreases |routines|
  {
    if |routines| > 0 {
      assert Map(routines[1..], RoutineId) == Map(routines, RoutineId)[1..];
      NewRoutineIdsDistinct(routines[1..], date, existing);
      if RoutineTaskId(routines[0].id, date) !in existing {
        RoutineHeadIdFresh(routines, date, existing);
        ConsDistinctIds(RoutineInstance(routines[0], date),
                        NewRoutineTasks(routines[1..], date, existing));
      }
    }
  }

  /** With distinct plan ids, the new study instances have distinct ids. */
  lemma {:induction false} NewStudyIdsDistinct(plans: seq<StudyPlanItem>, date: string,
                                               weekday: int, existing: set<string>)
    requires NoDup(Map(plans, PlanId))
    ensures NoDup(Map(NewStudyTasks(plans, date, weekday, existing), TaskId))
    decreases |plans|
  {
    if |plans| > 0 {
      assert Map(plans[1..], PlanId) == Map(plans, PlanId)[1..];
      NewStudyIdsDistinct(plans[1..], date, weekday, existing);
      if StudyTaskId(plans[0].id, date) !in existing && IsScheduled(plans[0], weekday) {
        StudyHeadIdFresh(plans, date, weekday, existing);
        ConsDistinctIds(StudyInstance(plans[0], date),
                        NewStudyTasks(plans[1..], date, weekday, existing));
      }
    }
  }

  /** Given distinct template ids, materialisation keeps "at most one task
      per id on each date": in particular at most one instance per
      (template, date) pair. */
  lemma GenerateKeepsIdsUnique(tasks: seq<DailyTask>, routines: seq<RoutineItem>,
                               plans: seq<StudyPlanItem>, date: string, weekday: int,
                               d: string)
    requires NoDup(Map(routines, RoutineId)) && NoDup(Map(plans, PlanId))
    requires UniqueIdsOn(tasks, d)
    ensures UniqueIdsOn(GenerateTasks(tasks, routines, plans, date, weekday), d)
  {
    var r := GenerateTasks(tasks, routines, plans, date, weekday);
    var existing := IdsOn(tasks, date);
    var nr := NewRoutineTasks(routines, date, existing);
    var ns := NewStudyTasks(plans, date, weekday, existing);
    NewRoutineIdsDistinct(routines, date, existing);
    NewStudyIdsDistinct(plans, date, weekday, existing);
    forall t, u | t in nr && u in ns ensures t.id != u.id {
      var rt :| rt in routines && RoutineTaskId(rt.id, date) !in existing
                && t == RoutineInstance(rt, date);
      var s :| s in plans && StudyTaskId(s.id, date) !in existing && IsScheduled(s, weekday)
               && u == StudyInstance(s, date);
      RoutineStudyIdsDiffer(rt.id, s.id, date);
    }
    AppendDistinctIds(nr, ns);
    var added := nr + ns;
    assert r == tasks + added;
    UniqueAfterAppend(tasks, added, date, d);
  }

  /** Appending tasks of `date` with distinct ids not already used on
      `date` keeps every date's ids unique. */
  lemma UniqueAfterAppend(tasks: seq<DailyTask>, added: seq<DailyTask>, date: string, d: string)
    requires UniqueIdsOn(tasks, d)
    requires NoDup(Map(added, TaskId))
    requires forall t :: t in added ==> t.date == date && t.id !in IdsOn(tasks, date)
    ensures UniqueIdsOn(tasks + added, d)
  {
    var r := tasks + added;
    var n := |tasks|;
    forall i, j | 0 <= i < j < |r| && r[i].date == d && r[j].date == d
      ensures r[i].id != r[j].id
    {
      if j < n {
        assert r[i] == tasks[i] && r[j] == tasks[j];
      } else if i < n {
        assert r[i] == tasks[i] && r[j] == added[j - n];
        assert r[j] in added;
        assert r[i] in tasks;
      } else {
        assert r[i] == added[i - n] && r[j] == added[j - n];
        assert Map(added, TaskId)[i - n] != Map(added, TaskId)[j - n];
      }
    }
  }
}
