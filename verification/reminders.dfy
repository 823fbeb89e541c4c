/** The reminder check of the dashboard's one-second tick
    (components/Dashboard.tsx): for today's pending tasks, a reminder
    fires five minutes before the start, at the start and at the end,
    each at most once, as recorded in the notified keys. The browser
    notification itself is modelled as the emitted `Reminder` value. */
module Reminders {
  import opened Types
  import opened Seqs
  import opened TimeOfDay
  import AppContext

  datatype Moment = Pre | Start | End

  /** What the tick hands to the notification API. */
  datatype Reminder = Reminder(taskId: string, title: string, moment: Moment)

  function Suffix(m: Moment): string {
    match m
    case Pre => "-pre"
    case Start => "-start"
    case End => "-end"
  }

  /** `<task id>-pre|start|end`, the key recorded once a reminder fired. */
  function NotifyKey(id: string, m: Moment): string {
    id + Suffix(m)
  }

  /** Different (task, moment) pairs have different keys: the three
      suffixes end in different letters. */
  lemma NotifyKeyInjective(a: string, ma: Moment, b: string, mb: Moment)
    requires NotifyKey(a, ma) == NotifyKey(b, mb)
    ensures a == b && ma == mb
  {
    var k := NotifyKey(a, ma);
    assert k[|k| - 1] == Suffix(ma)[|Suffix(ma)| - 1] == Suffix(mb)[|Suffix(mb)| - 1];
    assert ma == mb;
    assert a == k[..|a|];
  }

  function KeyOf(r: Reminder): string {
    NotifyKey(r.taskId, r.moment)
  }

  function Keys(fired: seq<Reminder>): (r: seq<string>)
    ensures |r| == |fired| && forall i :: 0 <= i < |fired| ==> r[i] == KeyOf(fired[i])
  {
    seq(|fired|, i requires 0 <= i < |fired| => KeyOf(fired[i]))
  }

  function ReminderOf(t: DailyTask, m: Moment): Reminder {
    Reminder(t.id, t.title, m)
  }

  /** Only today's pending tasks are checked. */
  predicate Watched(t: DailyTask, today: string) {
    t.date == today && t.status == Pending
  }

  /** The exact minute a moment is due (strict equality, no window). */
  predicate IsDue(t: DailyTask, m: Moment, now: int) {
    match m
    case Pre => now == StartMinutes(t) - 5
    case Start => now == StartMinutes(t)
    case End => now == EndMinutes(t)
  }

  /** A reminder of `t` that this tick sends. */
  predicate Fires(t: DailyTask, m: Moment, today: string, now: int, notified: seq<string>) {
    Watched(t, today) && IsDue(t, m, now) && NotifyKey(t.id, m) !in notified
  }

  /** The reminders one task sends: pre, start, end, in that order. */
  function TaskReminders(t: DailyTask, today: string, now: int, notified: seq<string>)
    : (r: seq<Reminder>)
    ensures forall rem :: rem in r <==> exists m :: Fires(t, m, today, now, notified)
                                                   && rem == ReminderOf(t, m)
  {
    var r := (if Fires(t, Pre, today, now, notified) then [ReminderOf(t, Pre)] else [])
             + (if Fires(t, Start, today, now, notified) then [ReminderOf(t, Start)] else [])
             + (if Fires(t, End, today, now, notified) then [ReminderOf(t, End)] else []);
    assert forall rem :: rem in r ==> Fires(t, rem.moment, today, now, notified)
                                      && rem == ReminderOf(t, rem.moment);
    r
  }

  /** The reminders of a list of tasks, every check against the same
      notified keys (the tick reads the keys as they were when it began). */
  function DueReminders(tasks: seq<DailyTask>, today: string, now: int, notified: seq<string>)
    : (r: seq<Reminder>)
    ensures forall rem :: rem in r <==>
      exists t, m :: t in tasks && Fires(t, m, today, now, notified) && rem == ReminderOf(t, m)
    ensures (forall t, m :: t in tasks && Watched(t, today) && IsDue(t, m, now) ==>
               NotifyKey(t.id, m) in notified) ==> r == []
    decreases |tasks|
  {
    if |tasks| == 0 then []
    else
      var rest := DueReminders(tasks[1..], today, now, notified);
      var t := tasks[0];
      assert forall x :: x in tasks <==> x == t || x in tasks[1..];
      var own := TaskReminders(t, today, now, notified);
      own + rest
  }

  /** Marks every key in turn (`markAsNotified` once per fired reminder). */
  function MarkAll(notified: seq<string>, keys: seq<string>): (r: seq<string>)
    ensures forall k :: k in r <==> k in notified || k in keys
    ensures NoDup(notified) ==> NoDup(r)
    ensures |r| >= |notified| && r[..|notified|] == notified
    decreases |keys|
  {
    if |keys| == 0 then notified
    else
      assert forall k :: k in keys <==> k == keys[0] || k in keys[1..];
      var step := AppContext.MarkAsNotified(notified, keys[0]);
      var r := MarkAll(step, keys[1..]);
      assert r[..|notified|] == r[..|step|][..|notified|];
      r
  }

  datatype TickResult = TickResult(fired: seq<Reminder>, notified: seq<string>)

  /** One tick at minute `now`: nothing unless notifications are enabled
      and permitted; otherwise every due reminder whose key is unrecorded
      fires, and its key is recorded. */
  function Tick(enabled: bool, granted: bool, tasks: seq<DailyTask>, today: string, now: int,
                notified: seq<string>): (r: TickResult)
    requires 0 <= now < MinutesPerDay
    ensures !(enabled && granted) ==> r.fired == [] && r.notified == notified
    ensures forall rem :: rem in r.fired <==>
      enabled && granted &&
      exists t, m :: t in tasks && Fires(t, m, today, now, notified) && rem == ReminderOf(t, m)
    ensures forall rem :: rem in r.fired ==> KeyOf(rem) !in notified && KeyOf(rem) in r.notified
    ensures forall k :: k in r.notified <==> k in notified || k in Keys(r.fired)
    ensures NoDup(notified) ==> NoDup(r.notified)
    ensures |r.notified| >= |notified| && r.notified[..|notified|] == notified
  {
    if !(enabled && granted) then TickResult([], notified)
    else
      var fired := DueReminders(tasks, today, now, notified);
      assert forall rem :: rem in fired ==> KeyOf(rem) in Keys(fired) by {
        forall rem | rem in fired ensures KeyOf(rem) in Keys(fired) {
          var i :| 0 <= i < |fired| && fired[i] == rem;
          assert Keys(fired)[i] == KeyOf(rem);
        }
      }
      TickResult(fired, MarkAll(notified, Keys(fired)))
  }

  /** Fire-once within a minute: a second tick on the keys the first one
      left sends nothing. */
  lemma TickTwiceFiresOnce(enabled: bool, granted: bool, tasks: seq<DailyTask>, today: string,
                           now: int, notified: seq<string>)
    requires 0 <= now < MinutesPerDay
    ensures var first := Tick(enabled, granted, tasks, today, now, notified);
            Tick(enabled, granted, tasks, today, now, first.notified).fired == []
  {
    var first := Tick(enabled, granted, tasks, today, now, notified);
    if enabled && granted {
      forall t, m | t in tasks && Watched(t, today) && IsDue(t, m, now)
        ensures NotifyKey(t.id, m) in first.notified
      {
        if NotifyKey(t.id, m) !in notified {
          assert ReminderOf(t, m) in first.fired;
          assert KeyOf(ReminderOf(t, m)) == NotifyKey(t.id, m);
        }
      }
    }
  }

  /** A task starting before 00:05 never gets the pre-start reminder:
      every pre-start reminder sent comes from a task of today starting
      at 00:05 or later, five minutes ahead of it. */
  lemma PreReminderNeedsFiveMinutes(enabled: bool, granted: bool, tasks: seq<DailyTask>,
                                    today: string, now: int, notified: seq<string>)
    requires 0 <= now < MinutesPerDay
    ensures forall rem :: rem in Tick(enabled, granted, tasks, today, now, notified).fired
                          && rem.moment == Pre ==>
      exists t :: t in tasks && t.id == rem.taskId && t.date == today
                  && StartMinutes(t) >= 5 && now == StartMinutes(t) - 5
  {
    var r := Tick(enabled, granted, tasks, today, now, notified);
    forall rem | rem in r.fired && rem.moment == Pre
      ensures exists t :: t in tasks && t.id == rem.taskId && t.date == today
                          && StartMinutes(t) >= 5 && now == StartMinutes(t) - 5
    {
      var u, m :| u in tasks && Fires(u, m, today, now, notified) && rem == ReminderOf(u, m);
      assert m == Pre;
    }
  }

  lemma KeysAppend(a: seq<Reminder>, b: seq<Reminder>)
    ensures Keys(a + b) == Keys(a) + Keys(b)
  {
    assert forall i :: 0 <= i < |a + b| ==> Keys(a + b)[i] == (Keys(a) + Keys(b))[i];
  }

  /** One task's reminders carry its id, are sent only when it is
      watched, and have distinct keys. */
  lemma TaskRemindersDistinct(t: DailyTask, today: string, now: int, notified: seq<string>)
    ensures forall rem :: rem in TaskReminders(t, today, now, notified) ==>
      rem.taskId == t.id && Watched(t, today)
    ensures NoDup(Keys(TaskReminders(t, today, now, notified)))
  {
    var own := TaskReminders(t, today, now, notified);
    forall i, j | 0 <= i < j < |own| ensures Keys(own)[i] != Keys(own)[j] {
      assert own[i].moment != own[j].moment;
      if Keys(own)[i] == Keys(own)[j] {
        NotifyKeyInjective(own[i].taskId, own[i].moment, own[j].taskId, own[j].moment);
      }
    }
  }

  lemma UniqueIdsOnTail(tasks: seq<DailyTask>, today: string)
    requires |tasks| > 0 && UniqueIdsOn(tasks, today)
    ensures UniqueIdsOn(tasks[1..], today)
    ensures forall u :: u in tasks[1..] && u.date == today && tasks[0].date == today ==>
      u.id != tasks[0].id
  {
    forall i, j | 0 <= i < j < |tasks[1..]| ensures
      tasks[1..][i].date == today && tasks[1..][j].date == today ==> tasks[1..][i].id != tasks[1..][j].id
    {
      assert tasks[1..][i] == tasks[i + 1] && tasks[1..][j] == tasks[j + 1];
    }
    forall u | u in tasks[1..] && u.date == today && tasks[0].date == today ensures u.id != tasks[0].id {
      var k :| 0 <= k < |tasks[1..]| && tasks[1..][k] == u;
      assert tasks[k + 1] == u;
    }
  }

  /** With at most one task per id today, one tick fires every key at
      most once. */
  lemma {:induction false} DueRemindersDistinct(tasks: seq<DailyTask>, today: string, now: int,
                                                notified: seq<string>)
    requires UniqueIdsOn(tasks, today)
    ensures NoDup(Keys(DueReminders(tasks, today, now, notified)))
    decreases |tasks|
  {
    if |tasks| > 0 {
      var t := tasks[0];
      var rest := DueReminders(tasks[1..], today, now, notified);
      var own := TaskReminders(t, today, now, notified);
      UniqueIdsOnTail(tasks, today);
      DueRemindersDistinct(tasks[1..], today, now, notified);
      TaskRemindersDistinct(t, today, now, notified);
      forall k | k in Keys(own) ensures k !in Keys(rest) {
        var i :| 0 <= i < |own| && Keys(own)[i] == k;
        assert own[i] in own;
        if k in Keys(rest) {
          var j :| 0 <= j < |rest| && Keys(rest)[j] == k;
          assert rest[j] in rest;
          var u, m :| u in tasks[1..] && Fires(u, m, today, now, notified) && rest[j] == ReminderOf(u, m);
          NotifyKeyInjective(own[i].taskId, own[i].moment, rest[j].taskId, rest[j].moment);
        }
      }
      NoDupAppend(Keys(own), Keys(rest));
      KeysAppend(own, rest);
    }
  }

  /** The inputs of one tick within a day. */
  datatype TickInput = TickInput(enabled: bool, granted: bool, tasks: seq<DailyTask>, now: int)

  /** A day's run of ticks from the given keys: every reminder sent, in
      order, and the keys at the end. */
  function Run(today: string, notified: seq<string>, ticks: seq<TickInput>): (r: TickResult)
    requires forall i :: 0 <= i < |ticks| ==> 0 <= ticks[i].now < MinutesPerDay
    decreases |ticks|
  {
    if |ticks| == 0 then TickResult([], notified)
    else
      var x := ticks[0];
      var first := Tick(x.enabled, x.granted, x.tasks, today, x.now, notified);
      var rest := Run(today, first.notified, ticks[1..]);
      TickResult(first.fired + rest.fired, rest.notified)
  }

  /** Each reminder fires at most once per day: over any run of ticks
      (tasks and time may change between ticks, the date does not), the
      keys of the reminders sent are pairwise distinct, none was recorded
      before the run, and all are recorded after it. */
  lemma {:induction false} RunFiresEachKeyOnce(today: string, notified: seq<string>,
                                               ticks: seq<TickInput>)
    requires forall i :: 0 <= i < |ticks| ==> 0 <= ticks[i].now < MinutesPerDay
    requires forall i :: 0 <= i < |ticks| ==> UniqueIdsOn(ticks[i].tasks, today)
    ensures var r := Run(today, notified, ticks);
      && NoDup(Keys(r.fired))
      && (forall k :: k in Keys(r.fired) ==> k !in notified && k in r.notified)
      && (forall k :: k in notified ==> k in r.notified)
    decreases |ticks|
  {
    if |ticks| > 0 {
      var x := ticks[0];
      var first := Tick(x.enabled, x.granted, x.tasks, today, x.now, notified);
      var rest := Run(today, first.notified, ticks[1..]);
      RunFiresEachKeyOnce(today, first.notified, ticks[1..]);
      assert NoDup(Keys(first.fired)) by {
        if x.enabled && x.granted {
          DueRemindersDistinct(x.tasks, today, x.now, notified);
        }
      }
      forall k | k in Keys(first.fired) ensures k !in notified && k in first.notified && k !in Keys(rest.fired) {
        var i :| 0 <= i < |first.fired| && Keys(first.fired)[i] == k;
        assert first.fired[i] in first.fired;
      }
      NoDupAppend(Keys(first.fired), Keys(rest.fired));
      KeysAppend(first.fired, rest.fired);
    }
  }
}
