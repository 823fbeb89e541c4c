/** The dashboard's derived views (components/Dashboard.tsx): today's
    pending agenda in start order, the tasks running now, the missed
    count, the next task to start, and the agenda with running tasks
    first. "Now" is a minute of the day, passed in. */
module Dashboard {
  import opened Types
  import opened Seqs
  import opened Sorting
  import opened Wrappers

  predicate IsPendingToday(t: DailyTask, today: string) {
    t.date == today && t.status == Pending
  }

  /** Running now: started and not yet ended. */
  predicate IsActive(t: DailyTask, now: int) {
    StartMinutes(t) <= now && EndMinutes(t) > now
  }

  predicate IsMissed(t: DailyTask, now: int) {
    EndMinutes(t) <= now
  }

  predicate IsUpcoming(t: DailyTask, now: int) {
    StartMinutes(t) > now
  }

  function PendingTodayP(today: string): DailyTask -> bool {
    t => IsPendingToday(t, today)
  }

  function ActiveP(now: int): DailyTask -> bool {
    t => IsActive(t, now)
  }

  function MissedP(now: int): DailyTask -> bool {
    t => IsMissed(t, now)
  }

  function UpcomingP(now: int): DailyTask -> bool {
    t => IsUpcoming(t, now)
  }

  /** Today's pending tasks sorted by ascending start (stable). */
  function PendingAgenda(tasks: seq<DailyTask>, today: string): (r: seq<DailyTask>)
    ensures SortedBy(r, StartLe)
    ensures forall t :: t in r <==> t in tasks && IsPendingToday(t, today)
    ensures multiset(r) == multiset(Filter(tasks, PendingTodayP(today)))
    ensures forall e :: Filter(r, SameKey(StartLe, e))
                        == Filter(Filter(tasks, PendingTodayP(today)), SameKey(StartLe, e))
  {
    var onDate: DailyTask -> bool := (t: DailyTask) => t.date == today;
    var pending: DailyTask -> bool := (t: DailyTask) => t.status == Pending;
    FilterFilter(tasks, onDate, pending);
    FilterCongruent(tasks, And(onDate, pending), PendingTodayP(today));
    var f := Filter(Filter(tasks, onDate), pending);
    assert f == Filter(tasks, PendingTodayP(today));
    StartLePreorder();
    var r := SortBy(f, StartLe);
    assert forall t :: t in r <==> t in multiset(f);
    r
  }

  /** The tasks running now, in ascending start order; the first one is
      the task the dashboard shows as "NOW". */
  function ActiveTasks(tasks: seq<DailyTask>, today: string, now: int): (r: seq<DailyTask>)
    ensures forall t :: t in r <==> t in tasks && IsPendingToday(t, today) && IsActive(t, now)
    ensures forall t :: multiset(r)[t]
                        == if IsPendingToday(t, today) && IsActive(t, now) then multiset(tasks)[t] else 0
    ensures SortedBy(r, StartLe)
    ensures IsSubsequence(r, PendingAgenda(tasks, today))
  {
    var agenda := PendingAgenda(tasks, today);
    SortedFilter(agenda, StartLe, ActiveP(now));
    ActiveOfAgenda(tasks, agenda, today, now);
    Filter(agenda, ActiveP(now))
  }

  /** How often a task runs now in the agenda: as often as it occurs in
      the task list when it is pending today and running, else never. */
  lemma ActiveOfAgenda(tasks: seq<DailyTask>, agenda: seq<DailyTask>, today: string, now: int)
    requires multiset(agenda) == multiset(Filter(tasks, PendingTodayP(today)))
    ensures forall t :: multiset(Filter(agenda, ActiveP(now)))[t]
                        == if IsPendingToday(t, today) && IsActive(t, now) then multiset(tasks)[t] else 0
  {
  }

  /** `activeTasks[0]`: a running task that started no later than any
      other running task, or none when nothing runs. */
  function PrimaryActiveTask(tasks: seq<DailyTask>, today: string, now: int): (r: Option<DailyTask>)
    ensures r.None? <==> forall t :: t in tasks && IsPendingToday(t, today) ==> !IsActive(t, now)
    ensures r.Some? ==> r.value in tasks && IsPendingToday(r.value, today) && IsActive(r.value, now)
    ensures r.Some? ==> forall t :: t in tasks && IsPendingToday(t, today) && IsActive(t, now) ==>
      StartMinutes(r.value) <= StartMinutes(t)
    ensures r.Some? ==>
      Find(tasks, And(PendingTodayP(today), And(SameKey(StartLe, r.value), ActiveP(now)))) == r
  {
    var active := ActiveTasks(tasks, today, now);
    if |active| == 0 then None
    else
      assert active[0] in active;
      FilterHeadIsFind(PendingAgenda(tasks, today), ActiveP(now));
      FirstTied(tasks, today, ActiveP(now), active[0]);
      StartLePreorder();
      assert forall t :: t in active ==> StartLe(active[0], t) by {
        forall t | t in active ensures StartLe(active[0], t) {
          HeadPrecedesAll(active, StartLe, t);
        }
      }
      Some(active[0])
  }

  /** The number of today's pending tasks whose end has passed. */
  function MissedCount(tasks: seq<DailyTask>, today: string, now: int): (r: nat)
    ensures r == Count(tasks, And(PendingTodayP(today), MissedP(now)))
  {
    var agenda := PendingAgenda(tasks, today);
    CountPermutation(agenda, Filter(tasks, PendingTodayP(today)), MissedP(now));
    FilterFilter(tasks, PendingTodayP(today), MissedP(now));
    |Filter(agenda, MissedP(now))|
  }

  /** The first agenda task that has not started: the pending task of
      today with the smallest start after now, or none. */
  function UpcomingTask(tasks: seq<DailyTask>, today: string, now: int): (r: Option<DailyTask>)
    ensures r.None? <==> forall t :: t in tasks && IsPendingToday(t, today) ==> !IsUpcoming(t, now)
    ensures r.Some? ==> r.value in tasks && IsPendingToday(r.value, today) && IsUpcoming(r.value, now)
    ensures r.Some? ==> forall t :: t in tasks && IsPendingToday(t, today) && IsUpcoming(t, now) ==>
      StartMinutes(r.value) <= StartMinutes(t)
    ensures r.Some? ==>
      Find(tasks, And(PendingTodayP(today), And(SameKey(StartLe, r.value), UpcomingP(now)))) == r
  {
    var agenda := PendingAgenda(tasks, today);
    StartLePreorder();
    FindLeast(agenda, StartLe, UpcomingP(now));
    var r := Find(agenda, UpcomingP(now));
    assert forall t :: t in tasks && IsPendingToday(t, today) ==>
      t in agenda && UpcomingP(now)(t) == IsUpcoming(t, now);
    if r.Some? then
      FirstTied(tasks, today, UpcomingP(now), r.value);
      r
    else r
  }

  /** Ties keep list order: the first agenda task satisfying `q` is,
      among today's pending tasks that start when it starts, the first
      in the task list to satisfy `q`. */
  lemma FirstTied(tasks: seq<DailyTask>, today: string, q: DailyTask -> bool, x: DailyTask)
    requires Find(PendingAgenda(tasks, today), q) == Some(x)
    ensures Find(tasks, And(PendingTodayP(today), And(SameKey(StartLe, x), q))) == Some(x)
  {
    StartLePreorder();
    AgendaTies(tasks, today, x);
    FindThroughFilters(PendingAgenda(tasks, today), tasks, PendingTodayP(today),
                       SameKey(StartLe, x), q, x);
  }

  /** The agenda holds the tasks that start when `e` starts in their
      list order: the sort is stable. */
  lemma AgendaTies(tasks: seq<DailyTask>, today: string, e: DailyTask)
    ensures Filter(PendingAgenda(tasks, today), SameKey(StartLe, e))
            == Filter(Filter(tasks, PendingTodayP(today)), SameKey(StartLe, e))
  {
  }

  /** The ids of a list of tasks. */
  function IdSet(tasks: seq<DailyTask>): (r: set<string>)
    ensures forall id :: id in r <==> exists t :: t in tasks && t.id == id
  {
    set t | t in tasks :: t.id
  }

  /** The agenda with running tasks first, then every other agenda task
      whose id is not among the running ones. */
  function SortedAgenda(tasks: seq<DailyTask>, today: string, now: int): (r: seq<DailyTask>)
    ensures var active := ActiveTasks(tasks, today, now);
      |r| >= |active| && r[..|active|] == active
    ensures var active := ActiveTasks(tasks, today, now);
      var agenda := PendingAgenda(tasks, today);
      var rest := r[|active|..];
      && (forall t :: t in rest <==> t in agenda && t.id !in IdSet(active))
      && (forall t :: multiset(rest)[t] == if t.id !in IdSet(active) then multiset(agenda)[t] else 0)
      && IsSubsequence(rest, agenda)
      && SortedBy(rest, StartLe)
    ensures forall t :: t in r ==> t in PendingAgenda(tasks, today)
  {
    var active := ActiveTasks(tasks, today, now);
    var activeIds := IdSet(active);
    var agenda := PendingAgenda(tasks, today);
    var others := Filter(agenda, NotAmong(activeIds));
    OthersOfAgenda(agenda, activeIds, others);
    var r := active + others;
    assert r[..|active|] == active && r[|active|..] == others;
    r
  }

  /** The agenda tasks whose id is not among `ids`, in agenda order. */
  lemma OthersOfAgenda(agenda: seq<DailyTask>, ids: set<string>, others: seq<DailyTask>)
    requires SortedBy(agenda, StartLe)
    requires others == Filter(agenda, NotAmong(ids))
    ensures forall t :: t in others <==> t in agenda && t.id !in ids
    ensures forall t :: multiset(others)[t] == if t.id !in ids then multiset(agenda)[t] else 0
    ensures IsSubsequence(others, agenda)
    ensures SortedBy(others, StartLe)
  {
    SortedFilter(agenda, StartLe, NotAmong(ids));
  }

  /** The tasks whose id is not in `ids`. */
  function NotAmong(ids: set<string>): DailyTask -> bool {
    (t: DailyTask) => t.id !in ids
  }

  /** Two of today's tasks with the same id are the same task, once ids
      are unique per day. */
  lemma SameIdSameTask(tasks: seq<DailyTask>, today: string, t: DailyTask, u: DailyTask)
    requires UniqueIdsOn(tasks, today)
    requires t in tasks && u in tasks && t.date == today && u.date == today && t.id == u.id
    ensures t == u
  {
    var i :| 0 <= i < |tasks| && tasks[i] == t;
    var j :| 0 <= j < |tasks| && tasks[j] == u;
    assert tasks[i].id == tasks[j].id;
    assert i == j;
  }

  /** With unique ids per day the reordered agenda is a permutation of
      the agenda: every agenda task appears exactly as often. */
  lemma SortedAgendaIsPermutation(tasks: seq<DailyTask>, today: string, now: int)
    requires UniqueIdsOn(tasks, today)
    ensures multiset(SortedAgenda(tasks, today, now)) == multiset(PendingAgenda(tasks, today))
  {
    var agenda := PendingAgenda(tasks, today);
    var active := ActiveTasks(tasks, today, now);
    var activeIds := IdSet(active);
    var others := Filter(agenda, NotAmong(activeIds));
    ActiveIdsMatch(tasks, today, now);
    SplitRejoins(agenda, active, others, now);
    assert SortedAgenda(tasks, today, now) == active + others;
  }

  /** With unique ids per day, an agenda task's id is among the running
      tasks' ids exactly when the task itself runs now. */
  lemma ActiveIdsMatch(tasks: seq<DailyTask>, today: string, now: int)
    requires UniqueIdsOn(tasks, today)
    ensures forall t :: t in PendingAgenda(tasks, today) ==>
      ((t.id !in IdSet(ActiveTasks(tasks, today, now))) == !IsActive(t, now))
  {
    var active := ActiveTasks(tasks, today, now);
    forall t | t in PendingAgenda(tasks, today)
      ensures (t.id !in IdSet(active)) == !IsActive(t, now)
    {
      if t.id in IdSet(active) {
        var u :| u in active && u.id == t.id;
        SameIdSameTask(tasks, today, t, u);
      }
    }
  }

  /** The running tasks of the agenda and the non-running rest together
      hold every agenda task as often as the agenda does. */
  lemma SplitRejoins(agenda: seq<DailyTask>, active: seq<DailyTask>, others: seq<DailyTask>,
                     now: int)
    requires forall t :: multiset(active)[t] == if IsActive(t, now) then multiset(agenda)[t] else 0
    requires forall t :: multiset(others)[t] == if IsActive(t, now) then 0 else multiset(agenda)[t]
    ensures multiset(active + others) == multiset(agenda)
  {
    assert forall t :: multiset(active + others)[t] == multiset(agenda)[t];
  }

  /** With every pending task of today starting no later than it ends,
      running, missed and upcoming partition the agenda. */
  lemma ClassesPartitionAgenda(tasks: seq<DailyTask>, today: string, now: int)
    requires forall t :: t in tasks && IsPendingToday(t, today) ==> StartMinutes(t) <= EndMinutes(t)
    ensures forall t :: t in PendingAgenda(tasks, today) ==>
      ExactlyOne(IsActive(t, now), IsMissed(t, now), IsUpcoming(t, now))
    ensures |ActiveTasks(tasks, today, now)| + MissedCount(tasks, today, now)
            + Count(PendingAgenda(tasks, today), UpcomingP(now))
            == |PendingAgenda(tasks, today)|
  {
    var agenda := PendingAgenda(tasks, today);
    assert forall i :: 0 <= i < |agenda| ==>
      ExactlyOne(IsActive(agenda[i], now), IsMissed(agenda[i], now), IsUpcoming(agenda[i], now)) by {
      forall i | 0 <= i < |agenda|
        ensures ExactlyOne(IsActive(agenda[i], now), IsMissed(agenda[i], now), IsUpcoming(agenda[i], now))
      {
        assert agenda[i] in agenda;
      }
    }
    CountThreeWay(agenda, ActiveP(now), MissedP(now), UpcomingP(now));
    CountPermutation(agenda, Filter(tasks, PendingTodayP(today)), MissedP(now));
    FilterFilter(tasks, PendingTodayP(today), MissedP(now));
  }

  /** A task that runs past midnight (23:00 to 01:00) is, at 02:00, both
      missed and upcoming: the three classes need start <= end. */
  lemma OvernightTaskDoublyClassified(t: DailyTask)
    requires t.startTime == "23:00" && t.endTime == "01:00"
    ensures IsMissed(t, 120) && IsUpcoming(t, 120) && !IsActive(t, 120)
  {
    assert StartMinutes(t) == 23 * 60;
    assert EndMinutes(t) == 60;
  }
}
