/** The statistics page (components/Analytics.tsx): per-day counts for
    the last seven days, the overall completion rate, the streak of
    consecutive days with a completed task, and the tasks per source.
    Calendar arithmetic enters as `dayBefore` and `weekdayOf`. */
module Analytics {
  import opened Types
  import opened Seqs
  import opened Sorting
  import opened Text

  predicate IsDone(t: DailyTask) {
    t.status == Done
  }

  function OnDateP(date: string): DailyTask -> bool {
    (t: DailyTask) => t.date == date
  }

  /** `date`, then `n` days back from it. */
  function Back(date: string, n: nat, dayBefore: string -> string): string
    decreases n
  {
    if n == 0 then date else dayBefore(Back(date, n - 1, dayBefore))
  }

  /** The `n` days ending with `today`, oldest first. */
  function LastDays(today: string, n: nat, dayBefore: string -> string): (r: seq<string>)
    ensures |r| == n
    ensures forall i :: 0 <= i < n ==> r[i] == Back(today, n - 1 - i, dayBefore)
    decreases n
  {
    if n == 0 then []
    else
      var older := LastDays(dayBefore(today), n - 1, dayBefore);
      BackShift(today, n - 1, dayBefore);
      assert forall k :: 0 <= k < n - 1 ==> Back(dayBefore(today), k, dayBefore) == Back(today, k + 1, dayBefore) by {
        forall k | 0 <= k < n - 1 ensures Back(dayBefore(today), k, dayBefore) == Back(today, k + 1, dayBefore) {
          BackShift(today, k, dayBefore);
        }
      }
      older + [today]
  }

  /** Stepping back once and then `n` times is stepping back `n + 1` times. */
  lemma {:induction false} BackShift(date: string, n: nat, dayBefore: string -> string)
    ensures Back(dayBefore(date), n, dayBefore) == Back(date, n + 1, dayBefore)
    decreases n
  {
    if n > 0 {
      BackShift(date, n - 1, dayBefore);
    }
  }

  const DayNames: seq<string> := ["Sun", "Mon", "Tue", "Wed", "Thu", "Fri", "Sat"]

  datatype DayEntry = DayEntry(name: string, fullDate: string, completed: nat, total: nat)

  /** One bar of the weekly chart. */
  function DayCounts(tasks: seq<DailyTask>, date: string, weekday: int): (e: DayEntry)
    requires 0 <= weekday < 7
    ensures e.fullDate == date && e.name == DayNames[weekday]
    ensures e.total == Count(tasks, OnDateP(date))
    ensures e.completed == Count(tasks, And(OnDateP(date), IsDone))
    ensures e.completed <= e.total
  {
    var onDate := Filter(tasks, OnDateP(date));
    FilterFilter(tasks, OnDateP(date), IsDone);
    DayEntry(DayNames[weekday], date, |Filter(onDate, IsDone)|, |onDate|)
  }

  /** `weeklyData`: the seven days ending today, oldest first, each with
      the number of its tasks and of its completed tasks. */
  function WeeklyData(tasks: seq<DailyTask>, today: string, dayBefore: string -> string,
                      weekdayOf: string -> int): (r: seq<DayEntry>)
    requires forall d :: 0 <= weekdayOf(d) < 7
    ensures |r| == 7
    ensures r[6].fullDate == today
    ensures forall i :: 0 <= i < 6 ==> r[i].fullDate == dayBefore(r[i + 1].fullDate)
    ensures forall i :: 0 <= i < 7 ==>
      && r[i].name == DayNames[weekdayOf(r[i].fullDate)]
      && r[i].total == Count(tasks, OnDateP(r[i].fullDate))
      && r[i].completed == Count(tasks, And(OnDateP(r[i].fullDate), IsDone))
      && r[i].completed <= r[i].total
  {
    var days := LastDays(today, 7, dayBefore);
    assert forall i :: 0 <= i < 6 ==> days[i] == dayBefore(days[i + 1]);
    seq(7, i requires 0 <= i < 7 => DayCounts(tasks, days[i], weekdayOf(days[i])))
  }

  /** `Math.round(100 * completed / total)`, or 0 without tasks, on exact
      rationals: the integer nearest to the percentage, halves rounded up. */
  function Consistency(completed: nat, total: nat): (r: int)
    requires completed <= total
    ensures total == 0 ==> r == 0
    ensures total > 0 ==> -(total as int) <= 2 * (100 * completed - r * total) < total
    ensures 0 <= r <= 100
  {
    if total == 0 then 0
    else
      var r := (200 * completed + total) / (2 * total);
      RoundBounds(completed, total);
      r
  }

  lemma RoundBounds(completed: nat, total: nat)
    requires completed <= total && total > 0
    ensures var r := (200 * completed + total) / (2 * total);
      && -(total as int) <= 2 * (100 * completed - r * total) < total
      && 0 <= r <= 100
  {
    var n, d := 200 * completed + total, 2 * total;
    var r := n / d;
    assert n == d * r + n % d && 0 <= n % d < d;
    assert d * r == 2 * (r * total);
    if r > 100 {
      MulLe(101, r, total);
    }
  }

  lemma MulLe(a: int, b: int, k: nat)
    requires a <= b
    ensures a * k <= b * k
  {
  }

  /** The integer nearest to 100 * completed / total is the one the
      inequality of `Consistency` allows: it names a single value. */
  lemma ConsistencyUnique(completed: nat, total: nat, x: int)
    requires completed <= total && total > 0
    requires -(total as int) <= 2 * (100 * completed - x * total) < total
    ensures x == Consistency(completed, total)
  {
    var r := Consistency(completed, total);
    if x < r {
      assert (x + 1) * total == x * total + total;
      MulLe(x + 1, r, total);
    } else if x > r {
      assert (r + 1) * total == r * total + total;
      MulLe(r + 1, x, total);
    }
  }

  /** Overall counters: every task, and the completed ones. */
  datatype Stats = Stats(totalTasks: nat, completedTasks: nat, consistency: int, currentStreak: nat)

  /** Drops repeated elements, keeping first occurrences in order
      (`Array.from(new Set(...))`). */
  function Dedup(s: seq<string>): (r: seq<string>)
    ensures forall x :: x in r <==> x in s
    ensures NoDup(r)
    decreases |s|
  {
    if |s| == 0 then []
    else
      var rest := Dedup(s[..|s| - 1]);
      assert forall x :: x in s <==> x in s[..|s| - 1] || x == s[|s| - 1];
      if s[|s| - 1] in rest then rest
      else
        NoDupAppend(rest, [s[|s| - 1]]);
        rest + [s[|s| - 1]]
  }

  function Reverse(s: seq<string>): (r: seq<string>)
    ensures |r| == |s| && forall i :: 0 <= i < |s| ==> r[i] == s[|s| - 1 - i]
  {
    seq(|s|, i requires 0 <= i < |s| => s[|s| - 1 - i])
  }

  lemma StrLePreorder()
    ensures TotalPreorder(StrLe)
  {
    forall a, b ensures StrLe(a, b) || StrLe(b, a) {
      StrLeTotal(a, b);
    }
    forall a, b, c | StrLe(a, b) && StrLe(b, c) ensures StrLe(a, c) {
      StrLeTransitive(a, b, c);
    }
  }

  function DoneDates(tasks: seq<DailyTask>): (r: seq<string>)
    ensures |r| == |Filter(tasks, IsDone)|
    ensures forall d :: d in r <==> exists t :: t in tasks && IsDone(t) && t.date == d
  {
    var done := Filter(tasks, IsDone);
    var r := seq(|done|, i requires 0 <= i < |done| => done[i].date);
    DatesMembers(done, r);
    r
  }

  /** The dates read off a list of tasks, one per task. */
  lemma DatesMembers(done: seq<DailyTask>, r: seq<string>)
    requires |r| == |done| && forall i :: 0 <= i < |done| ==> r[i] == done[i].date
    ensures forall d :: d in r <==> exists t :: t in done && t.date == d
  {
    forall d ensures d in r <==> exists t :: t in done && t.date == d {
      if exists t :: t in done && t.date == d {
        var t :| t in done && t.date == d;
        var i :| 0 <= i < |done| && done[i] == t;
        assert r[i] == d;
      }
    }
  }

  /** The distinct dates with a completed task, latest first. */
  function CompletedDates(tasks: seq<DailyTask>): (r: seq<string>)
    ensures forall d :: d in r <==> exists t :: t in tasks && IsDone(t) && t.date == d
    ensures NoDup(r)
    ensures forall i, j :: 0 <= i < j < |r| ==> StrLt(r[j], r[i])
  {
    StrLePreorder();
    var dates := Dedup(DoneDates(tasks));
    var sorted := SortBy(dates, StrLe);
    NoDupPermutation(dates, sorted);
    assert forall x :: x in sorted <==> x in dates by {
      forall x ensures x in sorted <==> x in dates {
        assert x in sorted <==> x in multiset(sorted);
        assert x in dates <==> x in multiset(dates);
      }
    }
    ReverseSorted(sorted);
    var r := Reverse(sorted);
    assert forall x :: x in r <==> x in DoneDates(tasks);
    r
  }

  /** Reversing an ascending duplicate-free list gives a strictly
      descending one with the same elements. */
  lemma ReverseSorted(s: seq<string>)
    requires SortedBy(s, StrLe) && NoDup(s)
    ensures forall x :: x in Reverse(s) <==> x in s
    ensures NoDup(Reverse(s))
    ensures forall i, j :: 0 <= i < j < |s| ==> StrLt(Reverse(s)[j], Reverse(s)[i])
  {
    var r := Reverse(s);
    forall x | x in s ensures x in r {
      var k :| 0 <= k < |s| && s[k] == x;
      assert r[|s| - 1 - k] == x;
    }
    forall i, j | 0 <= i < j < |s| ensures StrLt(r[j], r[i]) && r[i] != r[j] {
      assert r[j] == s[|s| - 1 - j] && r[i] == s[|s| - 1 - i];
    }
  }

  /** A permutation of a duplicate-free list is duplicate-free. */
  lemma NoDupPermutation(a: seq<string>, b: seq<string>)
    requires NoDup(a) && multiset(a) == multiset(b)
    ensures NoDup(b)
  {
    forall i, j | 0 <= i < j < |b| ensures b[i] != b[j] {
      if b[i] == b[j] {
        TwoOccurrences(b, i, j);
        NoDupCountsOne(a, b[i]);
      }
    }
  }

  lemma TwoOccurrences(b: seq<string>, i: int, j: int)
    requires 0 <= i < j < |b| && b[i] == b[j]
    ensures multiset(b)[b[i]] >= 2
  {
    assert b == b[..i] + [b[i]] + b[i + 1..j] + [b[j]] + b[j + 1..];
  }

  lemma {:induction false} NoDupCountsOne(s: seq<string>, x: string)
    requires NoDup(s)
    ensures multiset(s)[x] <= 1
    decreases |s|
  {
    if |s| > 0 {
      assert s == [s[0]] + s[1..];
      assert NoDup(s[1..]) by {
        forall i, j | 0 <= i < j < |s[1..]| ensures s[1..][i] != s[1..][j] {
          assert s[1..][i] == s[i + 1] && s[1..][j] == s[j + 1];
        }
      }
      NoDupCountsOne(s[1..], x);
      if s[0] == x {
        assert x !in s[1..] by {
          forall k | 0 <= k < |s[1..]| ensures s[1..][k] != x {
            assert s[1..][k] == s[k + 1];
          }
        }
      }
    }
  }

  /** Where the streak count starts: today when the latest completed date
      is today, otherwise yesterday. */
  function StreakStart(dates: seq<string>, today: string, yesterday: string): string {
    if |dates| > 0 && dates[0] == today then today else yesterday
  }

  /** The streak loop: no streak unless today or yesterday has a completed
      task; otherwise the number of consecutive days back from the start
      that have one, but at most the number of such dates. */
  method CurrentStreak(dates: seq<string>, today: string, yesterday: string,
                       dayBefore: string -> string) returns (streak: nat)
    ensures today !in dates && yesterday !in dates ==> streak == 0
    ensures streak <= |dates|
    ensures today in dates || yesterday in dates ==>
      var start := StreakStart(dates, today, yesterday);
      && (forall i :: 0 <= i < streak ==> Back(start, i, dayBefore) in dates)
      && (streak == |dates| || Back(start, streak, dayBefore) !in dates)
  {
    streak := 0;
    if today in dates || yesterday in dates {
      var start := StreakStart(dates, today, yesterday);
      var check := start;
      var i := 0;
      while i < |dates|
        invariant 0 <= i <= |dates| && streak == i
        invariant check == Back(start, i, dayBefore)
        invariant forall k :: 0 <= k < i ==> Back(start, k, dayBefore) in dates
      {
        if check in dates {
          streak := streak + 1;
          check := dayBefore(check);
          i := i + 1;
        } else {
          break;
        }
      }
    }
  }

  /** `stats`: counters, completion rate and streak, with today's and
      yesterday's date strings and the day arithmetic as inputs. */
  method ComputeStats(tasks: seq<DailyTask>, today: string, yesterday: string,
                      dayBefore: string -> string) returns (s: Stats)
    ensures s.totalTasks == |tasks| && s.completedTasks == Count(tasks, IsDone)
    ensures s.completedTasks <= s.totalTasks
    ensures s.consistency == Consistency(s.completedTasks, s.totalTasks)
    ensures 0 <= s.consistency <= 100
    ensures s.currentStreak <= |CompletedDates(tasks)|
    ensures s.currentStreak > 0 ==>
      exists t :: t in tasks && IsDone(t) && (t.date == today || t.date == yesterday)
    ensures var dates := CompletedDates(tasks);
      today in dates || yesterday in dates ==>
        var start := StreakStart(dates, today, yesterday);
        && (forall i :: 0 <= i < s.currentStreak ==> Back(start, i, dayBefore) in dates)
        && (s.currentStreak == |dates| || Back(start, s.currentStreak, dayBefore) !in dates)
  {
    var completed := Count(tasks, IsDone);
    var dates := CompletedDates(tasks);
    var streak := CurrentStreak(dates, today, yesterday, dayBefore);
    if streak > 0 {
      assert today in dates || yesterday in dates;
    }
    s := Stats(|tasks|, completed, Consistency(completed, |tasks|), streak);
  }

  /** One slice of the distribution chart. */
  datatype Slice = Slice(source: SourceType, value: nat)

  function FromSource(source: SourceType): DailyTask -> bool {
    (t: DailyTask) => t.sourceType == source
  }

  function SumValues(slices: seq<Slice>): nat
    decreases |slices|
  {
    if |slices| == 0 then 0 else slices[0].value + SumValues(slices[1..])
  }

  /** Dropping empty slices keeps the total. */
  lemma {:induction false} SumWithoutEmpty(slices: seq<Slice>)
    ensures SumValues(Filter(slices, (sl: Slice) => sl.value > 0)) == SumValues(slices)
    decreases |slices|
  {
    if |slices| > 0 {
      SumWithoutEmpty(slices[1..]);
      var p := (sl: Slice) => sl.value > 0;
      if p(slices[0]) {
        assert Filter(slices, p) == [slices[0]] + Filter(slices[1..], p);
        assert ([slices[0]] + Filter(slices[1..], p))[1..] == Filter(slices[1..], p);
      }
    }
  }

  function SourceIndex(k: SourceType): (i: nat)
    ensures i < 3
  {
    match k
    case StudyPlan => 0
    case Routine => 1
    case Manual => 2
  }

  /** The three slices before empty ones are dropped. */
  function SourceCounts(tasks: seq<DailyTask>): (r: seq<Slice>)
    ensures |r| == 3
    ensures forall k :: r[SourceIndex(k)] == Slice(k, Count(tasks, FromSource(k)))
    ensures forall sl :: sl in r ==> sl.value == Count(tasks, FromSource(sl.source))
    ensures SumValues(r) == |tasks|
  {
    var cs, cr, cm := Count(tasks, FromSource(StudyPlan)), Count(tasks, FromSource(Routine)),
                      Count(tasks, FromSource(Manual));
    SourcesCoverAll(tasks);
    SumThree(Slice(StudyPlan, cs), Slice(Routine, cr), Slice(Manual, cm));
    [Slice(StudyPlan, cs), Slice(Routine, cr), Slice(Manual, cm)]
  }

  /** Every task has exactly one source, so the three counts add up to
      the number of tasks. */
  lemma SourcesCoverAll(tasks: seq<DailyTask>)
    ensures Count(tasks, FromSource(StudyPlan)) + Count(tasks, FromSource(Routine))
            + Count(tasks, FromSource(Manual)) == |tasks|
  {
    assert forall i :: 0 <= i < |tasks| ==>
      ExactlyOne(FromSource(StudyPlan)(tasks[i]), FromSource(Routine)(tasks[i]),
                 FromSource(Manual)(tasks[i]));
    CountThreeWay(tasks, FromSource(StudyPlan), FromSource(Routine), FromSource(Manual));
  }

  lemma SumThree(a: Slice, b: Slice, c: Slice)
    ensures SumValues([a, b, c]) == a.value + b.value + c.value
  {
    assert [a, b, c][1..] == [b, c];
    assert [b, c][1..] == [c];
    assert [c][1..] == [];
    assert SumValues([c]) == c.value;
    assert SumValues([b, c]) == b.value + c.value;
  }

  /** `distributionData`: tasks per source in the order study, routine,
      manual, without empty slices; the slices add up to every task. */
  function Distribution(tasks: seq<DailyTask>): (r: seq<Slice>)
    ensures forall sl :: sl in r ==> sl.value > 0 && sl.value == Count(tasks, FromSource(sl.source))
    ensures forall k :: Count(tasks, FromSource(k)) > 0 ==> Slice(k, Count(tasks, FromSource(k))) in r
    ensures IsSubsequence(r, SourceCounts(tasks))
    ensures SumValues(r) == |tasks|
  {
    var all := SourceCounts(tasks);
    SumWithoutEmpty(all);
    assert forall k :: all[SourceIndex(k)] in all;
    Filter(all, (sl: Slice) => sl.value > 0)
  }
}
