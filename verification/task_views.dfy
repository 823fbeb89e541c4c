/** The three task lists shared by the tasks page and the study planner
    (components/Tasks.tsx, components/StudyPlanner.tsx): today's pending
    tasks that have not ended, today's pending tasks that have ended,
    and the archive of completed tasks and tasks of other days. */
module TaskViews {
  import opened Types
  import opened Seqs
  import opened Sorting
  import opened Text

  datatype ListView = ActiveView | MissedView | ArchiveView

  predicate InView(t: DailyTask, view: ListView, today: string, now: int) {
    match view
    case ActiveView => t.date == today && t.status == Pending && EndMinutes(t) > now
    case MissedView => t.date == today && t.status == Pending && EndMinutes(t) <= now
    case ArchiveView => t.status == Done || t.date != today
  }

  function InViewP(view: ListView, today: string, now: int): DailyTask -> bool {
    t => InView(t, view, today, now)
  }

  /** The archive comparator: newer dates first, and on the same date
      later start times first (ordinal comparison of the fixed-width
      strings). `ArchiveLe(a, b)` when the comparator does not put `b`
      strictly before `a`. */
  predicate ArchiveLe(a: DailyTask, b: DailyTask) {
    StrLt(b.date, a.date) || (a.date == b.date && StrLe(b.startTime, a.startTime))
  }

  lemma ArchiveLeTotal(a: DailyTask, b: DailyTask)
    ensures ArchiveLe(a, b) || ArchiveLe(b, a)
  {
    StrLeTotal(a.date, b.date);
    StrLeTotal(a.startTime, b.startTime);
  }

  lemma ArchiveLeTransitive(a: DailyTask, b: DailyTask, c: DailyTask)
    requires ArchiveLe(a, b) && ArchiveLe(b, c)
    ensures ArchiveLe(a, c)
  {
    StrLeTotal(a.date, a.date);
    StrLeTotal(b.date, b.date);
    assert StrLe(b.date, a.date) && StrLe(c.date, b.date);
    StrLeTransitive(c.date, b.date, a.date);
    if a.date == b.date && b.date == c.date {
      StrLeTransitive(c.startTime, b.startTime, a.startTime);
    } else if c.date == a.date {
      StrLeAntisymmetric(a.date, b.date);
    }
  }

  lemma ArchiveLePreorder()
    ensures TotalPreorder(ArchiveLe)
  {
    forall a, b ensures ArchiveLe(a, b) || ArchiveLe(b, a) {
      ArchiveLeTotal(a, b);
    }
    forall a, b, c | ArchiveLe(a, b) && ArchiveLe(b, c) ensures ArchiveLe(a, c) {
      ArchiveLeTransitive(a, b, c);
    }
  }

  /** The order a view is sorted in: the archive newest first, the
      other two by ascending start. */
  function ViewOrder(view: ListView): (DailyTask, DailyTask) -> bool {
    if view.ArchiveView? then ArchiveLe else StartLe
  }

  /** The tasks of `src` in the view, sorted stably: tasks the view's
      order cannot tell apart stay in their order in `src`. */
  function ViewItems(src: seq<DailyTask>, view: ListView, today: string, now: int)
    : (r: seq<DailyTask>)
    ensures forall t :: t in r <==> t in src && InView(t, view, today, now)
    ensures multiset(r) == multiset(Filter(src, InViewP(view, today, now)))
    ensures view.ArchiveView? ==> SortedBy(r, ArchiveLe)
    ensures !view.ArchiveView? ==> SortedBy(r, StartLe)
    ensures forall e :: Filter(r, SameKey(ViewOrder(view), e))
                        == Filter(Filter(src, InViewP(view, today, now)), SameKey(ViewOrder(view), e))
  {
    var items := Filter(src, InViewP(view, today, now));
    ArchiveLePreorder();
    StartLePreorder();
    var r := SortBy(items, ViewOrder(view));
    assert multiset(r) == multiset(items);
    assert forall t :: t in r <==> t in multiset(items);
    r
  }

  /** While no task of today carries the MISSED status (nothing in the
      application sets it), every task lies in exactly one of the three
      lists and their lengths add up to the number of tasks. */
  lemma {:induction false} ViewsPartition(src: seq<DailyTask>, today: string, now: int)
    requires forall t :: t in src && t.date == today ==> t.status != Missed
    ensures forall t :: t in src ==>
      ExactlyOne(t in ViewItems(src, ActiveView, today, now),
                 t in ViewItems(src, MissedView, today, now),
                 t in ViewItems(src, ArchiveView, today, now))
    ensures |ViewItems(src, ActiveView, today, now)| + |ViewItems(src, MissedView, today, now)|
            + |ViewItems(src, ArchiveView, today, now)| == |src|
  {
    var pa, pm, pr := InViewP(ActiveView, today, now), InViewP(MissedView, today, now),
                      InViewP(ArchiveView, today, now);
    assert forall i :: 0 <= i < |src| ==> ExactlyOne(pa(src[i]), pm(src[i]), pr(src[i])) by {
      forall i | 0 <= i < |src| ensures ExactlyOne(pa(src[i]), pm(src[i]), pr(src[i])) {
        assert src[i] in src;
      }
    }
    CountThreeWay(src, pa, pm, pr);
    ViewLength(src, ActiveView, today, now);
    ViewLength(src, MissedView, today, now);
    ViewLength(src, ArchiveView, today, now);
  }

  lemma ViewLength(src: seq<DailyTask>, view: ListView, today: string, now: int)
    ensures |ViewItems(src, view, today, now)| == Count(src, InViewP(view, today, now))
  {
    var r := ViewItems(src, view, today, now);
    assert |multiset(r)| == |multiset(Filter(src, InViewP(view, today, now)))|;
  }
}
