/**
  The event rows behind the crawler object's statistics. A row is inserted when a job completes, when one expires and
  when a result is refused, and alarms delete old rows; what is left since a time none of them cut into counts exactly
  the jobs that ended, and the results that were refused, since then.
*/
module CrawlerEvents {
  import opened Common
  import opened CrawlerProtocol
  import opened CrawlerTiming

  /** `SELECT COUNT(*) ... WHERE ts >= ?` for one kind. */
  function CountRows(events: seq<EventRow>, kind: EventKind, from: int): nat {
    if events == [] then 0
    else (if events[0].kind == kind && events[0].at >= from then 1 else 0) + CountRows(events[1..], kind, from)
  }

  lemma {:induction false} CountConcat(a: seq<EventRow>, b: seq<EventRow>, kind: EventKind, from: int)
    ensures CountRows(a + b, kind, from) == CountRows(a, kind, from) + CountRows(b, kind, from)
  {
    if a == [] {
      assert a + b == b;
    } else {
      assert (a + b)[0] == a[0] && (a + b)[1..] == a[1..] + b;
      CountConcat(a[1..], b, kind, from);
    }
  }

  lemma {:induction false} CountSame(n: nat, row: EventRow, kind: EventKind, from: int)
    ensures CountRows(seq(n, _ => row), kind, from) == if row.kind == kind && row.at >= from then n else 0
  {
    if n > 0 {
      CountSame(n - 1, row, kind, from);
      assert seq(n, _ => row)[1..] == seq(n - 1, _ => row);
    }
  }

  /** Deleting rows from before `cut` does not touch what is counted from a time at or after it. */
  lemma {:induction false} CountKept(events: seq<EventRow>, cut: int, kind: EventKind, from: int)
    requires cut <= from
    ensures CountRows(KeepSince(events, cut), kind, from) == CountRows(events, kind, from)
  {
    if events != [] {
      CountKept(events[1..], cut, kind, from);
      if events[0].at >= cut {
        assert [events[0]] + KeepSince(events[1..], cut) == KeepSince(events, cut);
        assert ([events[0]] + KeepSince(events[1..], cut))[1..] == KeepSince(events[1..], cut);
      } else {
        assert [] + KeepSince(events[1..], cut) == KeepSince(events[1..], cut);
      }
    }
  }

  // ----- what ended, as the rows of the jobs show it

  /** The jobs whose row comes to be in `state` from `s` to `t`. */
  function Entered(s: Crawler, t: Crawler, state: JobState): set<JobId> {
    InState(t, state) - InState(s, state)
  }

  predicate IsSince(step: Step, from: int) {
    TimeOf(step).Some? && TimeOf(step).value >= from
  }

  /** The jobs whose row came to be in `state` at a step of the run at or after `from`. */
  function EndedSince(run: seq<Step>, n: nat, state: JobState, from: int): set<JobId>
    requires n <= |run|
  {
    if n == 0 then {}
    else
      var now := if IsSince(run[n - 1], from) then Entered(StateAt(run, n - 1), StateAt(run, n), state) else {};
      EndedSince(run, n - 1, state, from) + now
  }

  predicate IsRefusal(reply: CompleteReply) {
    reply.LeaseMismatch? || reply.LeaseExpired? || reply.TooLarge?
  }

  /** How many results were answered with a refusal at or after `from`. */
  function RefusedSince(run: seq<Step>, n: nat, from: int): nat
    requires n <= |run|
  {
    if n == 0 then 0
    else if run[n - 1].CompleteStep? && IsRefusal(ReplyAt(run, n - 1)) && IsSince(run[n - 1], from) then
      RefusedSince(run, n - 1, from) + 1
    else RefusedSince(run, n - 1, from)
  }

  // ----- one step

  /** So many more rows of each kind, counted from `from` on. */
  ghost predicate RowsAdded(s: Crawler, t: Crawler, completed: nat, expired: nat, rejected: nat, from: int) {
    && CountRows(t.events, CompletedEvent, from) == CountRows(s.events, CompletedEvent, from) + completed
    && CountRows(t.events, ExpiredEvent, from) == CountRows(s.events, ExpiredEvent, from) + expired
    && CountRows(t.events, RejectedEvent, from) == CountRows(s.events, RejectedEvent, from) + rejected
  }

  lemma OneRowAdded(s: Crawler, t: Crawler, kind: EventKind, now: int, from: int)
    requires t.events == s.events + [EventRow(now, kind)]
    ensures var one := if now >= from then 1 else 0;
      RowsAdded(s, t, if kind.CompletedEvent? then one else 0, if kind.ExpiredEvent? then one else 0,
                if kind.RejectedEvent? then one else 0, from)
  {
    var row := [EventRow(now, kind)];
    assert row[1..] == [];
    CountConcat(s.events, row, CompletedEvent, from);
    CountConcat(s.events, row, ExpiredEvent, from);
    CountConcat(s.events, row, RejectedEvent, from);
  }

  lemma ExpireAddsRows(s: Crawler, done: set<JobId>, stage: Stage, now: int, from: int)
    ensures RowsAdded(s, ExpireAll(s, done, stage, now), 0, if now >= from then |done| else 0, 0, from)
  {
    var row := EventRow(now, ExpiredEvent);
    var rows := seq(|done|, _ => row);
    assert ExpireAll(s, done, stage, now).events == s.events + rows;
    hide ExpireAll;
    CountConcat(s.events, rows, CompletedEvent, from);
    CountConcat(s.events, rows, ExpiredEvent, from);
    CountConcat(s.events, rows, RejectedEvent, from);
    CountSame(|done|, row, CompletedEvent, from);
    CountSame(|done|, row, ExpiredEvent, from);
    CountSame(|done|, row, RejectedEvent, from);
  }

  lemma ExpireStates(s: Crawler, done: set<JobId>, stage: Stage, now: int)
    requires AllInStage(s, done, stage)
    ensures ExpireAll(s, done, stage, now).jobs.Keys == s.jobs.Keys
    ensures forall j :: j in s.jobs ==>
      ExpireAll(s, done, stage, now).jobs[j].state == if j in done then Expired else s.jobs[j].state
    ensures forall j :: j in done ==> j in s.jobs && !IsTerminal(s.jobs[j].state)
  {
    forall j | j in done ensures j in s.jobs && !IsTerminal(s.jobs[j].state) {
      assert InStage(s, j, stage);
    }
  }

  /** Expiring is entering the expired state, for exactly the jobs of `done`. */
  lemma ExpireEnters(s: Crawler, done: set<JobId>, stage: Stage, now: int)
    requires AllInStage(s, done, stage)
    ensures Entered(s, ExpireAll(s, done, stage, now), Expired) == done
    ensures InState(ExpireAll(s, done, stage, now), Completed) == InState(s, Completed)
    ensures InState(ExpireAll(s, done, stage, now), Expired) == InState(s, Expired) + done
  {
    hide ExpireAll, AllInStage;
    ExpireStates(s, done, stage, now);
  }

  /** A job that has ended is purged only a retention time later, so none of the jobs an alarm expires. */
  lemma AlarmEnters(s: Crawler, now: int)
    requires Inv(s)
    ensures var late := Late(s, LeaseStage, now);
      var s1 := ExpireAll(s, late, LeaseStage, now);
      var late1 := Late(s1, ResultStage, now);
      && late !! late1
      && Entered(s, Alarm(s, now), Expired) == late + late1 && Entered(s, Alarm(s, now), Completed) == {}
  {
    hide Inv, ExpireAll, Late, Overripe;
    var late := Late(s, LeaseStage, now);
    var s1 := ExpireAll(s, late, LeaseStage, now);
    var late1 := Late(s1, ResultStage, now);
    var s2 := ExpireAll(s1, late1, ResultStage, now);
    LateInStage(s, LeaseStage, now);
    LateInStage(s1, ResultStage, now);
    ExpireEnters(s, late, LeaseStage, now);
    ExpireEnters(s1, late1, ResultStage, now);
    assert late !! late1 by {
      forall j | j in late1 ensures j !in late {
        assert InStage(s1, j, ResultStage);
        assert j !in InState(s1, Expired);
      }
    }
    EndedNowIsKept(s, late, LeaseStage, now);
    EndedNowIsKept(s1, late1, ResultStage, now);
    ExpiredRowsStay(s1, late, late1, now);
    PurgeEnters(s, s2, late + late1, now);
  }

  lemma LateInStage(s: Crawler, stage: Stage, now: int)
    ensures AllInStage(s, Late(s, stage, now), stage)
  {
  }

  lemma EndedNowIsKept(s: Crawler, done: set<JobId>, stage: Stage, now: int)
    requires AllInStage(s, done, stage)
    ensures forall j :: j in done ==>
      && j in ExpireAll(s, done, stage, now).jobs && ExpireAll(s, done, stage, now).jobs[j].terminalAt == Some(now)
  {
  }

  lemma ExpiredRowsStay(s1: Crawler, late: set<JobId>, late1: set<JobId>, now: int)
    requires late !! late1
    requires forall j :: j in late ==> j in s1.jobs && s1.jobs[j].terminalAt == Some(now)
    ensures forall j :: j in late ==>
      && j in ExpireAll(s1, late1, ResultStage, now).jobs
      && ExpireAll(s1, late1, ResultStage, now).jobs[j].terminalAt == Some(now)
  {
  }

  lemma PurgeEnters(s: Crawler, s2: Crawler, done: set<JobId>, now: int)
    requires InState(s2, Expired) == InState(s, Expired) + done && InState(s, Expired) !! done
    requires InState(s2, Completed) == InState(s, Completed)
    requires forall j :: j in done ==> j in s2.jobs && s2.jobs[j].terminalAt == Some(now)
    ensures Entered(s, Purge(s2, now), Expired) == done && Entered(s, Purge(s2, now), Completed) == {}
  {
    var t := Purge(s2, now);
    assert t.jobs == s2.jobs - Overripe(s2, now);
    forall state ensures InState(t, state) == InState(s2, state) - Overripe(s2, now) {
    }
  }

  lemma AlarmAddsRows(s: Crawler, now: int, from: int)
    requires Inv(s) && now - STATS_WINDOW_MS <= from
    ensures RowsAdded(s, Alarm(s, now), 0, if now >= from then |Entered(s, Alarm(s, now), Expired)| else 0, 0, from)
  {
    hide Inv, ExpireAll, Late, InState, Overripe;
    var late := Late(s, LeaseStage, now);
    var s1 := ExpireAll(s, late, LeaseStage, now);
    var late1 := Late(s1, ResultStage, now);
    var s2 := ExpireAll(s1, late1, ResultStage, now);
    AlarmEnters(s, now);
    DisjointUnion(late, late1);
    ExpireAddsRows(s, late, LeaseStage, now, from);
    ExpireAddsRows(s1, late1, ResultStage, now, from);
    CountKept(s2.events, now - STATS_WINDOW_MS, CompletedEvent, from);
    CountKept(s2.events, now - STATS_WINDOW_MS, ExpiredEvent, from);
    CountKept(s2.events, now - STATS_WINDOW_MS, RejectedEvent, from);
  }

  lemma CompleteAddsRows(s: Crawler, job: JobId, token: Token, result: RunnerResult, now: int, from: int)
    ensures var (t, reply) := Complete(s, job, token, result, now);
      && RowsAdded(s, t, if now >= from then |Entered(s, t, Completed)| else 0, 0,
                   if now >= from && IsRefusal(reply) then 1 else 0, from)
      && Entered(s, t, Completed) == (if reply.Accepted? then {job} else {}) && Entered(s, t, Expired) == {}
  {
    var (t, reply) := Complete(s, job, token, result, now);
    if reply.Accepted? {
      AcceptAddsRow(s, job, result, now);
      OneRowAdded(s, t, CompletedEvent, now, from);
    } else if IsRefusal(reply) {
      OneRowAdded(s, t, RejectedEvent, now, from);
    }
  }

  lemma AcceptAddsRow(s: Crawler, job: JobId, result: RunnerResult, now: int)
    requires job in s.jobs && s.jobs[job].state.Leased?
    ensures var t := Accept(s, job, result, now);
      t.events == s.events + [EventRow(now, CompletedEvent)]
      && Entered(s, t, Completed) == {job} && Entered(s, t, Expired) == {}
  {
  }

  lemma ExpireJobAddsRows(s: Crawler, job: JobId, stage: Stage, now: int, from: int)
    ensures var t := ExpireJob(s, job, stage, now);
      && RowsAdded(s, t, 0, if now >= from then |Entered(s, t, Expired)| else 0, 0, from)
      && Entered(s, t, Completed) == {}
  {
    if InStage(s, job, stage) {
      ExpireAddsRows(s, {job}, stage, now, from);
      ExpireEnters(s, {job}, stage, now);
    }
  }

  lemma OthersEndNothing(s: Crawler, step: Step)
    requires Inv(s) && Enabled(s, step) && (step.SubmitStep? || step.ClaimStep? || step.HashStep? || step.ResetStep?)
    ensures Next(s, step).events == s.events
    ensures Entered(s, Next(s, step), Completed) == {} && Entered(s, Next(s, step), Expired) == {}
  {
    hide IsSelection, Inv;
  }

  /** Each step inserts one row for each job that ends in it and one for each refusal, and deletes none that counts. */
  lemma StepAddsRows(s: Crawler, step: Step, from: int)
    requires Inv(s) && Enabled(s, step) && (step.AlarmStep? ==> step.now - STATS_WINDOW_MS <= from)
    ensures var t := Next(s, step); var counts := IsSince(step, from);
      RowsAdded(s, t, if counts then |Entered(s, t, Completed)| else 0, if counts then |Entered(s, t, Expired)| else 0,
                if counts && step.CompleteStep? && IsRefusal(Complete(s, step.job, step.token, step.result, step.now).1)
                then 1 else 0, from)
  {
    hide Inv, Enabled, Complete, ExpireJob, Alarm, RowsAdded, InState, IsRefusal, Submit, ClaimRows, StoreHashes, Reset;
    match step
    case CompleteStep(job, token, result, now) => CompleteAddsRows(s, job, token, result, now, from);
    case QueueTimerStep(job, now) => ExpireJobAddsRows(s, job, LeaseStage, now, from);
    case ResultTimerStep(job, now) => ExpireJobAddsRows(s, job, ResultStage, now, from);
    case AlarmStep(now) => AlarmAddsRows(s, now, from); AlarmEnters(s, now);
    case _ => OthersEndNothing(s, step); NothingAdded(s, Next(s, step), from);
  }

  lemma NothingAdded(s: Crawler, t: Crawler, from: int)
    requires t.events == s.events
    ensures RowsAdded(s, t, 0, 0, 0, from)
  {
  }

  // ----- over a run

  /** No alarm of the run has deleted a row of `from` or later. */
  ghost predicate NoCutInto(run: seq<Step>, n: nat, from: int)
    requires n <= |run|
  {
    forall i :: 0 <= i < n && run[i].AlarmStep? ==> run[i].now - STATS_WINDOW_MS <= from
  }

  /** What `last1h` of the object's status would count from `from` on. */
  ghost predicate RowsTell(run: seq<Step>, n: nat, from: int)
    requires n <= |run|
  {
    var events := StateAt(run, n).events;
    && CountRows(events, CompletedEvent, from) == |EndedSince(run, n, Completed, from)|
    && CountRows(events, ExpiredEvent, from) == |EndedSince(run, n, Expired, from)|
    && CountRows(events, RejectedEvent, from) == RefusedSince(run, n, from)
  }

  /** A job that ended is in the history, so it does not end again. */
  lemma {:induction false} EndedIsHistory(run: seq<Step>, n: nat, from: int)
    requires IsRun(run) && n <= |run|
    ensures EndedSince(run, n, Completed, from) <= StateAt(run, n).past.accepted.Keys
    ensures EndedSince(run, n, Expired, from) <= StateAt(run, n).past.expired
  {
    hide StateAt, IsRun, Inv, ViewOk;
    if n > 0 {
      EndedIsHistory(run, n - 1, from);
      RunGrows(run, n - 1, n);
      EnteredIsHistory(run, n);
    }
  }

  lemma EnteredIsHistory(run: seq<Step>, n: nat)
    requires IsRun(run) && n <= |run|
    ensures InState(StateAt(run, n), Completed) <= StateAt(run, n).past.accepted.Keys
    ensures InState(StateAt(run, n), Expired) <= StateAt(run, n).past.expired
  {
    hide StateAt, IsRun;
    forall j ensures j in InState(StateAt(run, n), Completed) ==> j in StateAt(run, n).past.accepted
             ensures j in InState(StateAt(run, n), Expired) ==> j in StateAt(run, n).past.expired {
      EndedInOneWay(run, n, j);
    }
  }

  lemma EndsOnce(run: seq<Step>, n: nat, from: int)
    requires IsRun(run) && n < |run|
    ensures EndedSince(run, n, Completed, from) !! Entered(StateAt(run, n), StateAt(run, n + 1), Completed)
    ensures EndedSince(run, n, Expired, from) !! Entered(StateAt(run, n), StateAt(run, n + 1), Expired)
  {
    hide StateAt, IsRun, EndedSince, ViewOk;
    EndedIsHistory(run, n, from);
    var s, t := StateAt(run, n), StateAt(run, n + 1);
    forall j | j in Entered(s, t, Completed) ensures j !in s.past.accepted {
      NotEndedYet(run, n, j);
    }
    forall j | j in Entered(s, t, Expired) ensures j !in s.past.expired {
      NotEndedYet(run, n, j);
    }
  }

  lemma NotEndedYet(run: seq<Step>, n: nat, j: JobId)
    requires IsRun(run) && n < |run|
    ensures j in Entered(StateAt(run, n), StateAt(run, n + 1), Completed) ==> j !in StateAt(run, n).past.accepted
    ensures j in Entered(StateAt(run, n), StateAt(run, n + 1), Expired) ==> j !in StateAt(run, n).past.expired
  {
    hide StateAt, IsRun;
    EndedInOneWay(run, n, j);
    RunGrows(run, n, n + 1);
    RunView(run, n + 1, j);
    hide InState;
    EndedInOneWay(run, n + 1, j);
  }

  lemma NothingToTell(run: seq<Step>, from: int)
    ensures RowsTell(run, 0, from)
  {
    assert StateAt(run, 0).events == [];
  }

  lemma EndedOneMore(run: seq<Step>, n: nat, state: JobState, from: int)
    requires n < |run| && EndedSince(run, n, state, from) !! Entered(StateAt(run, n), StateAt(run, n + 1), state)
    ensures |EndedSince(run, n + 1, state, from)|
         == |EndedSince(run, n, state, from)|
            + if IsSince(run[n], from) then |Entered(StateAt(run, n), StateAt(run, n + 1), state)| else 0
  {
    hide Entered, StateAt, IsSince;
    DisjointUnion(EndedSince(run, n, state, from), Entered(StateAt(run, n), StateAt(run, n + 1), state));
    assert EndedSince(run, n, state, from) + {} == EndedSince(run, n, state, from);
  }

  lemma OneMoreTells(run: seq<Step>, n: nat, from: int)
    requires IsRun(run) && n < |run| && RowsTell(run, n, from)
    requires run[n].AlarmStep? ==> run[n].now - STATS_WINDOW_MS <= from
    ensures RowsTell(run, n + 1, from)
  {
    hide Inv, Enabled, Next, IsRun, StateAt, CountRows, EndedSince, IsRefusal, Complete, Entered, IsSince;
    RunKeepsInv(run, n);
    EnabledAt(run, n);
    StepAt(run, n);
    StepAddsRows(StateAt(run, n), run[n], from);
    EndsOnce(run, n, from);
    EndedOneMore(run, n, Completed, from);
    EndedOneMore(run, n, Expired, from);
  }

  /**
    In every run, and for every time no alarm has cut into: there are as many completion rows since then as jobs that
    completed since then, as many expiry rows as jobs that expired, and a rejection row for each refused result.
  */
  lemma {:induction false} OneEventPerEnding(run: seq<Step>, n: nat, from: int)
    requires IsRun(run) && n <= |run| && NoCutInto(run, n, from)
    ensures RowsTell(run, n, from)
  {
    hide IsRun, RowsTell;
    if n == 0 {
      NothingToTell(run, from);
    } else {
      OneEventPerEnding(run, n - 1, from);
      OneMoreTells(run, n - 1, from);
    }
  }

  /** The counts a status call at `now` reports are right if no alarm went off later than that. */
  lemma LastHour(run: seq<Step>, n: nat, now: int)
    requires IsRun(run) && n <= |run| && forall i :: 0 <= i < n && run[i].AlarmStep? ==> run[i].now <= now
    ensures RowsTell(run, n, now - STATS_WINDOW_MS)
  {
    hide RowsTell, StateAt;
    OneEventPerEnding(run, n, now - STATS_WINDOW_MS);
  }

  /** A job's row becomes completed exactly in the step that answers its result with `Accepted`. */
  lemma CompletedByAcceptance(run: seq<Step>, i: nat)
    requires IsRun(run) && i < |run|
    ensures Entered(StateAt(run, i), StateAt(run, i + 1), Completed)
         == if run[i].CompleteStep? && ReplyAt(run, i).Accepted? then {run[i].job} else {}
  {
    hide Inv, Enabled, Complete, ExpireJob, Alarm, InState, StateAt, IsRun, Submit, ClaimRows, StoreHashes, Reset;
    var s := StateAt(run, i);
    RunKeepsInv(run, i);
    EnabledAt(run, i);
    StepAt(run, i);
    match run[i]
    case CompleteStep(job, token, result, now) => CompleteAddsRows(s, job, token, result, now, now);
    case QueueTimerStep(job, now) => ExpireJobAddsRows(s, job, LeaseStage, now, now);
    case ResultTimerStep(job, now) => ExpireJobAddsRows(s, job, ResultStage, now, now);
    case AlarmStep(now) => AlarmEnters(s, now);
    case _ => OthersEndNothing(s, run[i]);
  }
}
