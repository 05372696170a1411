/**
  How long a submitter waits. A run is timely when no timer is overdue at any step that reads the clock; then every
  wait is over by submission + lease wait + result wait, whichever way the job goes.
*/
module CrawlerTiming {
  import opened Common
  import opened CrawlerProtocol

  function TimeOf(step: Step): Option<int> {
    match step
    case HashStep(_) => None
    case ResetStep => None
    case _ => Some(step.now)
  }

  ghost predicate NoTimerOverdue(s: Crawler, now: int) {
    && (forall j :: j in s.queueTimers ==> now <= s.queueTimers[j])
    && (forall j :: j in s.resultTimers ==> now <= s.resultTimers[j])
  }

  ghost predicate IsInTime(run: seq<Step>, i: int)
    requires 0 <= i < |run|
  {
    TimeOf(run[i]).Some? ==> NoTimerOverdue(StateAt(run, i), TimeOf(run[i]).value)
  }

  ghost predicate IsTimely(run: seq<Step>) {
    forall i :: 0 <= i < |run| ==> IsInTime(run, i)
  }

  function LatestEnd(w: Submission): int {
    w.at + w.leaseWaitMs + Max(0, w.resultWaitMs)
  }

  /** Timers are set no later than the waits the job was submitted with allow. */
  ghost predicate TimersOk(s: Crawler) {
    && (forall j :: j in s.jobs ==> j in s.past.submitted && s.jobs[j].resultWaitMs == s.past.submitted[j].resultWaitMs)
    && (forall j :: j in s.queueTimers ==>
          j in s.past.submitted && s.queueTimers[j] == s.past.submitted[j].at + s.past.submitted[j].leaseWaitMs)
    && (forall j :: j in s.resultTimers ==>
          j in s.past.submitted && s.resultTimers[j] <= LatestEnd(s.past.submitted[j]))
  }

  lemma ExpireKeepsTimers(s: Crawler, done: set<JobId>, stage: Stage, now: int)
    requires TimersOk(s)
    ensures TimersOk(ExpireAll(s, done, stage, now))
  {
  }

  lemma AcceptKeepsTimers(s: Crawler, job: JobId, result: RunnerResult, now: int)
    requires TimersOk(s)
    ensures TimersOk(Accept(s, job, result, now))
  {
  }

  lemma CompleteKeepsTimers(s: Crawler, job: JobId, token: Token, result: RunnerResult, now: int)
    requires TimersOk(s)
    ensures TimersOk(CrawlerProtocol.Complete(s, job, token, result, now).0)
  {
    hide Accept;
    AcceptKeepsTimers(s, job, result, now);
    assert TimersOk(Record(s, RejectedEvent, now));
  }

  lemma LeaseKeepsTimers(s: Crawler, runner: RunnerId, now: int, picked: set<JobId>)
    requires TimersOk(s)
    requires forall j :: j in picked ==> j in s.queueTimers && j in s.jobs && now <= s.queueTimers[j]
    ensures TimersOk(LeaseAll(s, runner, now, picked)) && LeaseAll(s, runner, now, picked).past == s.past
  {
  }

  lemma PickedHaveTimers(s: Crawler, step: Step, j: JobId)
    requires Inv(s) && step.ClaimStep? && Enabled(s, step) && j in step.grant
    ensures j in s.queueTimers && j in s.jobs
  {
    Picked(s, step, j);
    assert ViewOk(ViewOf(s, j));
  }

  lemma ClaimKeepsTimers(s: Crawler, step: Step)
    requires Inv(s) && TimersOk(s) && step.ClaimStep? && Enabled(s, step) && NoTimerOverdue(s, step.now)
    ensures TimersOk(Next(s, step))
  {
    hide IsSelection, Inv, LeaseAll;
    forall j | j in step.grant ensures j in s.queueTimers && j in s.jobs && step.now <= s.queueTimers[j] {
      PickedHaveTimers(s, step, j);
    }
    LeaseKeepsTimers(s, step.runner, step.now, step.grant.Keys);
  }

  lemma StepKeepsTimers(s: Crawler, step: Step)
    requires Inv(s) && TimersOk(s) && Enabled(s, step)
    requires TimeOf(step).Some? ==> NoTimerOverdue(s, TimeOf(step).value)
    ensures TimersOk(Next(s, step))
  {
    hide Inv, IsSelection, ExpireAll, CrawlerProtocol.Complete, ClaimRows, NoTimerOverdue;
    match step
    case ClaimStep(_, _, _, _, _, _) => ClaimKeepsTimers(s, step);
    case CompleteStep(job, token, result, now) => CompleteKeepsTimers(s, job, token, result, now);
    case QueueTimerStep(job, now) => ExpireKeepsTimers(s, {job}, LeaseStage, now);
    case ResultTimerStep(job, now) => ExpireKeepsTimers(s, {job}, ResultStage, now);
    case AlarmStep(now) =>
      var s1 := ExpireAll(s, Late(s, LeaseStage, now), LeaseStage, now);
      ExpireKeepsTimers(s, Late(s, LeaseStage, now), LeaseStage, now);
      ExpireKeepsTimers(s1, Late(s1, ResultStage, now), ResultStage, now);
    case SubmitStep(_, _, _, _, _, _) =>
    case HashStep(_) =>
    case ResetStep =>
  }

  lemma {:induction false} RunKeepsTimers(run: seq<Step>, n: nat)
    requires IsRun(run) && IsTimely(run) && n <= |run|
    ensures TimersOk(StateAt(run, n))
  {
    hide Inv, Next, Enabled, NoTimerOverdue;
    if n > 0 {
      RunKeepsTimers(run, n - 1);
      RunKeepsInv(run, n - 1);
      EnabledAt(run, n - 1);
      assert IsInTime(run, n - 1);
      StepKeepsTimers(StateAt(run, n - 1), run[n - 1]);
    } else {
      assert StateAt(run, 0) == INITIAL;
    }
  }

  /** Whatever step is taken while a submitter still waits, its wait has not run past its limits. */
  lemma WaitIsBounded(run: seq<Step>, i: nat, j: JobId)
    requires IsRun(run) && IsTimely(run) && i < |run| && TimeOf(run[i]).Some?
    requires j in StateAt(run, i).waiters
    ensures j in StateAt(run, i).past.submitted
    ensures TimeOf(run[i]).value <= LatestEnd(StateAt(run, i).past.submitted[j])
  {
    hide StateAt, IsRun;
    RunView(run, i, j);
    RunKeepsTimers(run, i);
    assert IsInTime(run, i);
    assert NoTimerOverdue(StateAt(run, i), TimeOf(run[i]).value);
    hide IsTimely, TimeOf;
  }

  /** An alarm leaves no job past its deadline, whether or not its timer survived, and no row past its retention. */
  lemma AlarmLeavesNothingLate(s: Crawler, now: int, j: JobId)
    requires Inv(s) && j in CrawlerProtocol.Alarm(s, now).jobs
    ensures var row := CrawlerProtocol.Alarm(s, now).jobs[j];
            && (row.state.Queued? ==> row.queueDeadline > now)
            && (row.state.Leased? ==> row.leaseDeadline.Some? && row.leaseDeadline.value > now)
            && (IsTerminal(row.state) ==> row.terminalAt.Some? && row.terminalAt.value > now - TERMINAL_RETENTION_MS)
  {
    var late := Late(s, LeaseStage, now);
    var s1 := ExpireAll(s, late, LeaseStage, now);
    var late1 := Late(s1, ResultStage, now);
    assert ViewOk(ViewOf(s, j));
    ExpireKeepsInv(s, late, LeaseStage, now);
    assert ViewOk(ViewOf(s1, j));
    ExpireKeepsInv(s1, late1, ResultStage, now);
    assert ViewOk(ViewOf(ExpireAll(s1, late1, ResultStage, now), j));
    ExpireMoves(s, late, LeaseStage, now, j);
    ExpireMoves(s1, late1, ResultStage, now, j);
    hide Inv, ExpireAll;
  }

  // ----- what an alarm does to each job

  /** Row, waiter, timers and promise of the job are as they were. */
  ghost predicate IsUntouched(s: Crawler, t: Crawler, j: JobId) {
    && Lookup(t.jobs, j) == Lookup(s.jobs, j) && (j in t.waiters <==> j in s.waiters)
    && Lookup(t.queueTimers, j) == Lookup(s.queueTimers, j) && Lookup(t.resultTimers, j) == Lookup(s.resultTimers, j)
    && Lookup(t.past.outcomes, j) == Lookup(s.past.outcomes, j)
  }

  /** The row is expired now, its timers are gone, and a submitter that still waited has been told why. */
  ghost predicate IsTimedOut(s: Crawler, t: Crawler, j: JobId, reason: UnavailableReason, now: int)
    requires j in s.jobs
  {
    && Lookup(t.jobs, j) == Some(s.jobs[j].(state := Expired, terminalAt := Some(now)))
    && j !in t.waiters && j !in t.queueTimers && j !in t.resultTimers
    && Lookup(t.past.outcomes, j)
       == if j in s.waiters then Some(Unavailable(reason)) else Lookup(s.past.outcomes, j)
  }

  lemma ExpireTouches(s: Crawler, done: set<JobId>, stage: Stage, now: int, j: JobId)
    requires j in s.jobs
    ensures j !in done ==> IsUntouched(s, ExpireAll(s, done, stage, now), j)
    ensures j in done ==>
      IsTimedOut(s, ExpireAll(s, done, stage, now), j, if stage.LeaseStage? then LeaseTimeout else ResultTimeout, now)
  {
  }

  lemma PurgeTouches(s: Crawler, now: int, j: JobId)
    requires j in s.jobs
    ensures s.jobs[j].terminalAt.Some? && s.jobs[j].terminalAt.value <= now - TERMINAL_RETENTION_MS ==>
      j !in Purge(s, now).jobs
    ensures !(s.jobs[j].terminalAt.Some? && s.jobs[j].terminalAt.value <= now - TERMINAL_RETENTION_MS) ==>
      IsUntouched(s, Purge(s, now), j)
    ensures (j in s.queueTimers <==> j in Purge(s, now).queueTimers) && Purge(s, now).past.outcomes == s.past.outcomes
  {
  }

  /**
    What an alarm does to a job depends on its own deadline alone: a queued or leased job expires exactly if that has
    been reached, a finished one is deleted exactly if its retention is over, and everything else stays as it was.
  */
  lemma AlarmExactly(s: Crawler, now: int, j: JobId)
    requires Inv(s) && j in s.jobs
    ensures var row := s.jobs[j]; var t := CrawlerProtocol.Alarm(s, now);
      match row.state
      case Queued =>
        if row.queueDeadline <= now then IsTimedOut(s, t, j, LeaseTimeout, now) else IsUntouched(s, t, j)
      case Leased =>
        && row.leaseDeadline.Some?
        && if row.leaseDeadline.value <= now then IsTimedOut(s, t, j, ResultTimeout, now) else IsUntouched(s, t, j)
      case _ =>
        && row.terminalAt.Some?
        && if row.terminalAt.value <= now - 3_600_000 then j !in t.jobs else IsUntouched(s, t, j)
  {
    var late := Late(s, LeaseStage, now);
    var s1 := ExpireAll(s, late, LeaseStage, now);
    var late1 := Late(s1, ResultStage, now);
    var s2 := ExpireAll(s1, late1, ResultStage, now);
    assert ViewOk(ViewOf(s, j));
    hide Inv, ViewOk, ExpireAll, Purge;
    ExpireTouches(s, late, LeaseStage, now, j);
    ExpireTouches(s1, late1, ResultStage, now, j);
    PurgeTouches(s2, now, j);
  }

  /** Alarms delete the event rows that are older than the statistics look back, and no others. */
  lemma AlarmKeepsEvents(s: Crawler, now: int, e: EventRow)
    ensures e in CrawlerProtocol.Alarm(s, now).events ==> e.at >= now - 3_600_000
    ensures e in s.events && e.at >= now - 3_600_000 ==> e in CrawlerProtocol.Alarm(s, now).events
  {
    var s1 := ExpireAll(s, Late(s, LeaseStage, now), LeaseStage, now);
    var s2 := ExpireAll(s1, Late(s1, ResultStage, now), ResultStage, now);
    KeptSince(s2.events, now - STATS_WINDOW_MS, e);
  }

  lemma {:induction false} KeptSince(events: seq<EventRow>, from: int, e: EventRow)
    ensures e in KeepSince(events, from) <==> e in events && e.at >= from
  {
    if events != [] {
      KeptSince(events[1..], from, e);
      assert events == [events[0]] + events[1..];
    }
  }
}
