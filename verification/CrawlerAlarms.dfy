/**
  When the crawler object's alarm goes off. The object has one alarm; `scheduleAlarm` moves it to the earliest time at
  which a row is due, but never closer than a second. The alarm outlives the object's memory, so it is what ends a job
  whose timers were lost.
*/
module CrawlerAlarms {
  import opened Common
  import opened CrawlerProtocol
  import opened CrawlerRows
  import opened CrawlerTiming

  const ALARM_DELAY_MS := 1000

  // ----- scheduling

  function QueueDeadlines(s: Crawler): set<int> {
    set j | j in s.jobs && s.jobs[j].state.Queued? :: s.jobs[j].queueDeadline
  }

  function LeaseDeadlines(s: Crawler): set<int> {
    set j | j in s.jobs && s.jobs[j].state.Leased? && s.jobs[j].leaseDeadline.Some? :: s.jobs[j].leaseDeadline.value
  }

  function Retentions(s: Crawler): set<int> {
    set j | j in s.jobs && s.jobs[j].terminalAt.Some? :: s.jobs[j].terminalAt.value + TERMINAL_RETENTION_MS
  }

  /** `runnerAt` is the earliest time at which something is due for the runner rows. */
  function Dues(s: Crawler, runnerAt: Option<int>): set<int> {
    QueueDeadlines(s) + LeaseDeadlines(s) + Retentions(s) + if runnerAt.Some? then {runnerAt.value} else {}
  }

  ghost predicate IsEarliest(times: set<int>, t: int) {
    t in times && forall u :: u in times ==> t <= u
  }

  lemma AnyOf<T>(s: set<T>) returns (x: T)
    requires s != {}
    ensures x in s
  {
    x :| x in s;
  }

  lemma HasEarliest(times: set<int>)
    requires times != {}
    ensures exists t :: IsEarliest(times, t)
  {
    var t := AnyOf(times);
    var rest := times - {t};
    if rest == {} {
      forall u | u in times ensures t <= u {
        assert u !in rest;
      }
      assert IsEarliest(times, t);
    } else {
      HasEarliest(rest);
      var r :| IsEarliest(rest, r);
      forall u | u in times ensures Min(t, r) <= u {
        assert u == t || u in rest;
      }
      assert IsEarliest(times, Min(t, r));
    }
  }

  ghost function Earliest(times: set<int>): (t: int)
    requires times != {}
    ensures t in times && forall u :: u in times ==> t <= u
  {
    assert exists t :: IsEarliest(times, t) by { HasEarliest(times); }
    var t :| IsEarliest(times, t);
    t
  }

  ghost function Scheduled(s: Crawler, now: int, runnerAt: Option<int>): Option<int> {
    var dues := Dues(s, runnerAt);
    if dues == {} then None else Some(Max(Earliest(dues), now + ALARM_DELAY_MS))
  }

  /** Which steps end with scheduling the alarm. */
  predicate Schedules(s: Crawler, step: Step) {
    match step
    case SubmitStep(_, _, _, _, _, _) => true
    case ClaimStep(_, _, _, _, _, _) => false
    case HashStep(call) => call in s.pending && s.pending[call] != map[]
    case CompleteStep(job, token, result, now) => Complete(s, job, token, result, now).1.Accepted?
    case QueueTimerStep(job, _) => InStage(s, job, LeaseStage)
    case ResultTimerStep(job, _) => InStage(s, job, ResultStage)
    case AlarmStep(_) => true
    case ResetStep => false
  }

  // ----- histories

  /** A step of the protocol, or a heartbeat, which changes no job but schedules the alarm as well. */
  datatype Event = Event(step: Option<Step>, at: int, runnerAt: Option<int>)

  /** The object with its alarm, and when that was last scheduled. */
  datatype Clocked = Clocked(crawler: Crawler, alarm: Option<int>, scheduledAt: Option<int>)

  ghost predicate CanHappen(c: Clocked, e: Event) {
    e.step.Some? ==>
      && Enabled(c.crawler, e.step.value)
      && (TimeOf(e.step.value).Some? ==> TimeOf(e.step.value).value == e.at)
      && (e.step.value.AlarmStep? ==> c.alarm.Some? && c.alarm.value <= e.at)
  }

  ghost function After(c: Clocked, e: Event): Clocked {
    var s := if e.step.Some? then Next(c.crawler, e.step.value) else c.crawler;
    if e.step == None || Schedules(c.crawler, e.step.value) then
      Clocked(s, Scheduled(s, e.at, e.runnerAt), Some(e.at))
    else c.(crawler := s)
  }

  ghost function ClockedAt(events: seq<Event>, n: nat): Clocked
    requires n <= |events|
  {
    if n == 0 then Clocked(INITIAL, None, None) else After(ClockedAt(events, n - 1), events[n - 1])
  }

  ghost predicate Happens(events: seq<Event>, i: int)
    requires 0 <= i < |events|
  {
    CanHappen(ClockedAt(events, i), events[i])
  }

  ghost predicate IsHistory(events: seq<Event>) {
    forall i :: 0 <= i < |events| ==> Happens(events, i)
  }

  lemma {:induction false} HistoryInv(events: seq<Event>, n: nat)
    requires IsHistory(events) && n <= |events|
    ensures Inv(ClockedAt(events, n).crawler)
  {
    hide Inv, Next, Enabled, Schedules, Scheduled;
    if n == 0 {
      InitialInv();
    } else {
      HistoryInv(events, n - 1);
      assert Happens(events, n - 1);
      if events[n - 1].step.Some? {
        StepKeepsInv(ClockedAt(events, n - 1).crawler, events[n - 1].step.value);
      }
    }
  }

  // ----- an alarm is due for every row

  /** Until when a row is to be left alone. */
  function LimitOf(row: JobRow): int {
    match row.state
    case Queued => row.queueDeadline
    case Leased => if row.leaseDeadline.Some? then Max(row.queueDeadline, row.leaseDeadline.value)
      else row.queueDeadline
    case _ => if row.terminalAt.Some? then row.terminalAt.value + TERMINAL_RETENTION_MS else row.queueDeadline
  }

  /** The alarm is set, and for no later than the row's limit or a second after it was last scheduled. */
  ghost predicate IsWatched(c: Clocked, row: JobRow) {
    && c.alarm.Some? && c.scheduledAt.Some?
    && c.alarm.value <= Max(LimitOf(row), c.scheduledAt.value + ALARM_DELAY_MS)
  }

  ghost predicate AllWatched(c: Clocked) {
    forall j :: j in c.crawler.jobs ==> IsWatched(c, c.crawler.jobs[j])
  }

  lemma ScheduledWatches(s: Crawler, now: int, runnerAt: Option<int>)
    requires Inv(s)
    ensures AllWatched(Clocked(s, Scheduled(s, now, runnerAt), Some(now)))
  {
    hide Inv;
    forall j | j in s.jobs ensures IsWatched(Clocked(s, Scheduled(s, now, runnerAt), Some(now)), s.jobs[j]) {
      RowIsDue(s, runnerAt, j);
    }
  }

  lemma RowIsDue(s: Crawler, runnerAt: Option<int>, j: JobId)
    requires Inv(s) && j in s.jobs
    ensures exists due :: due in Dues(s, runnerAt) && due <= LimitOf(s.jobs[j])
  {
    var row := s.jobs[j];
    assert ViewOk(ViewOf(s, j));
    hide Inv, ViewOk;
    if row.state.Queued? {
      assert row.queueDeadline in QueueDeadlines(s);
      assert row.queueDeadline in Dues(s, runnerAt);
    } else if row.state.Leased? {
      assert row.leaseDeadline.value in LeaseDeadlines(s);
      assert row.leaseDeadline.value in Dues(s, runnerAt);
    } else {
      assert row.terminalAt.value + TERMINAL_RETENTION_MS in Retentions(s);
      assert row.terminalAt.value + TERMINAL_RETENTION_MS in Dues(s, runnerAt);
    }
  }

  /** The time at which the row is late, or its retention over. */
  predicate IsDueAt(row: JobRow, t: int) {
    match row.state
    case Queued => t == row.queueDeadline
    case Leased => row.leaseDeadline == Some(t)
    case _ => row.terminalAt == Some(t - 3_600_000)
  }

  /** No alarm is set without a row, and none for an earlier time than a second ahead or the first time one is due. */
  lemma ScheduledForSomething(s: Crawler, now: int, runnerAt: Option<int>)
    requires Inv(s)
    ensures var alarm := Scheduled(s, now, runnerAt);
      && (alarm == None <==> s.jobs == map[] && runnerAt == None)
      && (alarm.Some? && alarm.value > now + 1000 ==>
            alarm == runnerAt || exists j :: j in s.jobs && IsDueAt(s.jobs[j], alarm.value))
  {
    hide Inv;
    if j :| j in s.jobs {
      RowIsDue(s, runnerAt, j);
    }
    forall due | due in Dues(s, runnerAt)
      ensures Some(due) == runnerAt || exists j :: j in s.jobs && IsDueAt(s.jobs[j], due)
    {
      DueOfRow(s, runnerAt, due);
    }
  }

  lemma DueOfRow(s: Crawler, runnerAt: Option<int>, due: int)
    requires Inv(s) && due in Dues(s, runnerAt)
    ensures Some(due) == runnerAt || exists j :: j in s.jobs && IsDueAt(s.jobs[j], due)
  {
    if due in Retentions(s) {
      var j :| j in s.jobs && s.jobs[j].terminalAt == Some(due - TERMINAL_RETENTION_MS);
      assert ViewOk(ViewOf(s, j));
    }
  }

  /** A step that does not schedule leaves every row's limit where it was or moves it to later. */
  lemma UnscheduledKeepsLimits(s: Crawler, step: Step, j: JobId)
    requires Inv(s) && Enabled(s, step) && !Schedules(s, step) && j in Next(s, step).jobs
    ensures j in s.jobs && LimitOf(s.jobs[j]) <= LimitOf(Next(s, step).jobs[j])
  {
    hide Inv, IsSelection, Complete;
    match step
    case ClaimStep(_, _, _, _, _, _) =>
      if j in step.grant {
        Picked(s, step, j);
      }
    case CompleteStep(job, token, result, now) =>
      RefusalKeepsRows(s, job, token, result, now);
    case _ =>
  }

  lemma RefusalKeepsRows(s: Crawler, job: JobId, token: Token, result: RunnerResult, now: int)
    requires !Complete(s, job, token, result, now).1.Accepted?
    ensures Complete(s, job, token, result, now).0.jobs == s.jobs
  {
  }

  lemma EventKeepsWatch(c: Clocked, e: Event)
    requires Inv(c.crawler) && AllWatched(c) && CanHappen(c, e) && Inv(After(c, e).crawler)
    ensures AllWatched(After(c, e))
  {
    hide Inv, Next, Enabled, Schedules, Scheduled, IsWatched;
    var after := After(c, e);
    if e.step == None || Schedules(c.crawler, e.step.value) {
      ScheduledWatches(after.crawler, e.at, e.runnerAt);
    } else {
      forall j | j in after.crawler.jobs ensures IsWatched(after, after.crawler.jobs[j]) {
        UnscheduledKeepsLimits(c.crawler, e.step.value, j);
        LaterLimit(c, after, c.crawler.jobs[j], after.crawler.jobs[j]);
      }
    }
  }

  lemma LaterLimit(c: Clocked, after: Clocked, a: JobRow, b: JobRow)
    requires IsWatched(c, a) && after.alarm == c.alarm && after.scheduledAt == c.scheduledAt && LimitOf(a) <= LimitOf(b)
    ensures IsWatched(after, b)
  {
  }

  /**
    Whatever happened, loss of memory included, an alarm is set for every row: no later than the row's limit, or than a
    second after the alarm was last scheduled.
  */
  lemma {:induction false} EveryRowIsWatched(events: seq<Event>, n: nat)
    requires IsHistory(events) && n <= |events|
    ensures AllWatched(ClockedAt(events, n))
  {
    hide Inv, After, CanHappen, IsWatched;
    if n > 0 {
      EveryRowIsWatched(events, n - 1);
      HistoryInv(events, n - 1);
      HistoryInv(events, n);
      assert Happens(events, n - 1);
      EventKeepsWatch(ClockedAt(events, n - 1), events[n - 1]);
    }
  }

  // ----- alarms that go off in time

  /** Nothing happens later than a time the alarm is set for, but the alarm. */
  ghost predicate IsPunctualAt(events: seq<Event>, i: int)
    requires 0 <= i < |events|
  {
    ClockedAt(events, i).alarm.Some? ==> events[i].at <= ClockedAt(events, i).alarm.value
  }

  ghost predicate IsPunctual(events: seq<Event>) {
    forall i :: 0 <= i < |events| ==> IsPunctualAt(events, i)
  }

  /** An unfinished job was unfinished at every earlier time at which its row was there, with no later limit. */
  lemma {:induction false} UnfinishedBefore(events: seq<Event>, k: nat, i: nat, j: JobId)
    requires IsHistory(events) && k <= i <= |events|
    requires j in ClockedAt(events, k).crawler.jobs && j in ClockedAt(events, i).crawler.jobs
    requires !IsTerminal(ClockedAt(events, i).crawler.jobs[j].state)
    ensures !IsTerminal(ClockedAt(events, k).crawler.jobs[j].state)
    ensures LimitOf(ClockedAt(events, k).crawler.jobs[j]) <= LimitOf(ClockedAt(events, i).crawler.jobs[j])
    decreases i
  {
    hide Inv, Next, Enabled, Schedules, Scheduled, ViewOk, IsTerminal, LimitOf;
    if k < i {
      var s := ClockedAt(events, i - 1).crawler;
      HistoryInv(events, i - 1);
      assert Happens(events, i - 1);
      SubmittedStays(events, k, i - 1, j);
      if events[i - 1].step.Some? {
        StepBack(s, events[i - 1].step.value, j);
      }
      UnfinishedBefore(events, k, i - 1, j);
    }
  }

  lemma StepBack(s: Crawler, step: Step, j: JobId)
    requires Inv(s) && Enabled(s, step) && j in s.past.submitted && j in Next(s, step).jobs
    requires !IsTerminal(Next(s, step).jobs[j].state)
    ensures j in s.jobs && !IsTerminal(s.jobs[j].state) && LimitOf(s.jobs[j]) <= LimitOf(Next(s, step).jobs[j])
  {
    hide Inv, Next, Enabled;
    SubmittedIsKnown(s, step, j);
    StepMoves(s, step, j);
    StepKeepsNumbers(s, step, j);
    if step.ClaimStep? && j in step.grant {
      Picked(s, step, j);
    }
  }

  lemma SubmittedIsKnown(s: Crawler, step: Step, j: JobId)
    requires Enabled(s, step) && j in s.past.submitted && j in Next(s, step).jobs
    ensures j in s.jobs
  {
    hide Next;
    if j !in s.jobs {
      OnlySubmitAdds(s, step, j);
    }
  }

  lemma {:induction false} SubmittedStays(events: seq<Event>, k: nat, i: nat, j: JobId)
    requires IsHistory(events) && k <= i <= |events| && j in ClockedAt(events, k).crawler.jobs
    ensures j in ClockedAt(events, i).crawler.past.submitted
    decreases i
  {
    hide Inv, Next, Enabled, Schedules, Scheduled, ViewOk;
    if k == i {
      HistoryInv(events, i);
      RowIsSubmitted(ClockedAt(events, i).crawler, j);
    } else {
      SubmittedStays(events, k, i - 1, j);
      HistoryInv(events, i - 1);
      assert Happens(events, i - 1);
      if events[i - 1].step.Some? {
        StepGrows(ClockedAt(events, i - 1).crawler, events[i - 1].step.value);
      }
    }
  }

  /**
    If alarms go off in time, a job outlives its limit only while the alarm is being pushed ahead: until it ends nothing
    happens more than a second after the last scheduling. So the first quiet second ends it, whoever lost its timers.
  */
  lemma UnfinishedOnlyInABurst(events: seq<Event>, k: nat, i: nat, j: JobId)
    requires IsHistory(events) && IsPunctual(events) && k <= i < |events|
    requires j in ClockedAt(events, k).crawler.jobs && j in ClockedAt(events, i).crawler.jobs
    requires !IsTerminal(ClockedAt(events, i).crawler.jobs[j].state)
    requires events[k].at > LimitOf(ClockedAt(events, i).crawler.jobs[j])
    ensures ClockedAt(events, k).scheduledAt.Some?
    ensures events[k].at <= ClockedAt(events, k).scheduledAt.value + ALARM_DELAY_MS
  {
    hide ClockedAt, IsHistory, LimitOf, IsTerminal;
    EveryRowIsWatched(events, k);
    UnfinishedBefore(events, k, i, j);
    assert IsPunctualAt(events, k);
    assert IsWatched(ClockedAt(events, k), ClockedAt(events, k).crawler.jobs[j]);
  }

  // ----- how often it goes off

  ghost predicate IsOrdered(events: seq<Event>) {
    forall i, k :: 0 <= i < k < |events| ==> events[i].at <= events[k].at
  }

  predicate IsAlarm(e: Event) {
    e.step.Some? && e.step.value.AlarmStep?
  }

  lemma {:induction false} SetAhead(events: seq<Event>, i: nat, n: nat)
    requires IsHistory(events) && IsOrdered(events) && i < n <= |events| && IsAlarm(events[i])
    ensures ClockedAt(events, n).alarm.Some? ==> ClockedAt(events, n).alarm.value >= events[i].at + ALARM_DELAY_MS
    decreases n
  {
    hide Next, Enabled, IsHistory;
    if n > i + 1 {
      SetAhead(events, i, n - 1);
    }
  }

  /** It goes off at most once a second. */
  lemma AlarmsAreSpaced(events: seq<Event>, i: nat, k: nat)
    requires IsHistory(events) && IsOrdered(events) && i < k < |events| && IsAlarm(events[i]) && IsAlarm(events[k])
    ensures events[k].at >= events[i].at + ALARM_DELAY_MS
  {
    hide ClockedAt, Enabled;
    SetAhead(events, i, k);
    assert Happens(events, k);
  }

  // ----- kept ahead

  /** A heartbeat every half a second. */
  function Beat(k: nat): Event {
    Event(None, 500 * (k + 1), Some(500 * (k + 1)))
  }

  /** A job is submitted with ten milliseconds to wait, the object loses its memory, and then only heartbeats come. */
  function BeatenHistory(n: nat): seq<Event> {
    if n == 0 then [Event(Some(SubmitStep(0, "http", 0, 0, 10, 10)), 0, None), Event(Some(ResetStep), 0, None)]
    else BeatenHistory(n - 1) + [Beat(n - 1)]
  }

  ghost predicate IsKeptAhead(events: seq<Event>, n: nat) {
    var last := ClockedAt(events, |events|);
    && IsHistory(events) && IsPunctual(events) && (forall i :: 0 <= i < |events| ==> !IsAlarm(events[i]))
    && 0 in last.crawler.jobs && last.crawler.jobs[0].state.Queued? && last.crawler.jobs[0].queueDeadline == 10
    && last.alarm == Some(500 * n + ALARM_DELAY_MS)
  }

  /** So the alarm never goes off, in time though it would be, and the job stays queued for as long as they come. */
  lemma {:induction false} HeartbeatsKeepItAhead(n: nat)
    ensures IsKeptAhead(BeatenHistory(n), n)
  {
    hide IsKeptAhead;
    if n == 0 {
      SubmittedAndReset();
    } else {
      HeartbeatsKeepItAhead(n - 1);
      OneMoreBeat(BeatenHistory(n - 1), n - 1);
    }
  }

  lemma {:induction false} SameSoFar(a: seq<Event>, b: seq<Event>, n: nat)
    requires n <= |a| <= |b| && a == b[..|a|]
    ensures ClockedAt(a, n) == ClockedAt(b, n)
  {
    hide After;
    if n > 0 {
      SameSoFar(a, b, n - 1);
      assert a[n - 1] == b[n - 1];
    }
  }

  lemma JobIsDue(s: Crawler, now: int, runnerAt: Option<int>, j: JobId)
    requires j in s.jobs && s.jobs[j].state.Queued? && s.jobs[j].queueDeadline <= now + ALARM_DELAY_MS
    ensures Scheduled(s, now, runnerAt) == Some(now + ALARM_DELAY_MS)
  {
    assert s.jobs[j].queueDeadline in QueueDeadlines(s);
    assert s.jobs[j].queueDeadline in Dues(s, runnerAt);
  }

  lemma OneMoreBeat(events: seq<Event>, k: nat)
    requires IsKeptAhead(events, k)
    ensures IsKeptAhead(events + [Beat(k)], k + 1)
  {
    hide After, CanHappen, Scheduled, ClockedAt;
    var more := events + [Beat(k)];
    var c := ClockedAt(events, |events|);
    assert events == more[..|events|];
    forall i | 0 <= i <= |events| ensures ClockedAt(events, i) == ClockedAt(more, i) {
      SameSoFar(events, more, i);
    }
    forall i | 0 <= i < |more| ensures Happens(more, i) && IsPunctualAt(more, i) && !IsAlarm(more[i]) {
      if i < |events| {
        assert Happens(events, i) && IsPunctualAt(events, i) && !IsAlarm(events[i]) && more[i] == events[i];
      } else {
        BeatCanHappen(c, k);
      }
    }
    JobIsDue(c.crawler, Beat(k).at, Beat(k).runnerAt, 0);
    AfterBeat(c, k);
    LastEvent(more);
  }

  lemma LastEvent(events: seq<Event>)
    requires events != []
    ensures ClockedAt(events, |events|) == After(ClockedAt(events, |events| - 1), events[|events| - 1])
  {
  }

  lemma BeatCanHappen(c: Clocked, k: nat)
    ensures CanHappen(c, Beat(k))
  {
  }

  lemma AfterBeat(c: Clocked, k: nat)
    ensures After(c, Beat(k))
      == Clocked(c.crawler, Scheduled(c.crawler, Beat(k).at, Beat(k).runnerAt), Some(Beat(k).at))
  {
  }

  lemma SubmittedAndReset()
    ensures IsKeptAhead(BeatenHistory(0), 0)
  {
    hide Scheduled;
    var events := BeatenHistory(0);
    var step := SubmitStep(0, "http", 0, 0, 10, 10);
    var submitted := Next(INITIAL, step);
    assert ClockedAt(events, 0) == Clocked(INITIAL, None, None);
    JobIsDue(submitted, 0, None, 0);
    assert ClockedAt(events, 1) == Clocked(submitted, Some(ALARM_DELAY_MS), Some(0));
    assert ClockedAt(events, 2) == Clocked(Reset(submitted), Some(ALARM_DELAY_MS), Some(0));
    assert Happens(events, 0) && Happens(events, 1);
    assert IsPunctualAt(events, 0) && IsPunctualAt(events, 1);
  }
}
