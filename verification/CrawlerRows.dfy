/**
  What the rows of the crawler object show: each kept row carries the numbers it was submitted and claimed with, a claim
  hands out what the runner asked for, and a runner is told what has become of its job.
*/
module CrawlerRows {
  import opened Common
  import opened CrawlerProtocol

  // ----- what a step changes in a row

  /** Only its state, its token hash and the time of its end. */
  predicate KeepsNumbers(a: JobRow, b: JobRow) {
    b == a.(state := b.state, tokenHash := b.tokenHash, terminalAt := b.terminalAt)
  }

  /** A claim enters the runner and the deadline for the result. */
  function ClaimedRow(a: JobRow, runner: RunnerId, now: int): JobRow {
    a.(state := Leased, runnerId := Some(runner), leaseDeadline := Some(now + a.resultWaitMs))
  }

  lemma StepKeepsNumbers(s: Crawler, step: Step, j: JobId)
    requires Inv(s) && Enabled(s, step) && j in s.jobs && j in Next(s, step).jobs
    ensures if step.ClaimStep? && j in step.grant
            then Next(s, step).jobs[j] == ClaimedRow(s.jobs[j], step.runner, step.now)
            else KeepsNumbers(s.jobs[j], Next(s, step).jobs[j])
  {
    hide Inv, IsSelection, Complete, ExpireJob, Alarm;
    match step
    case SubmitStep(_, _, _, _, _, _) => RowIsSubmitted(s, j);
    case CompleteStep(job, token, result, now) => CompleteKeepsNumbers(s, job, token, result, now, j);
    case QueueTimerStep(job, now) => ExpireKeepsNumbers(s, job, LeaseStage, now, j);
    case ResultTimerStep(job, now) => ExpireKeepsNumbers(s, job, ResultStage, now, j);
    case AlarmStep(now) => AlarmKeepsNumbers(s, now, j);
    case _ =>
  }

  lemma RowIsSubmitted(s: Crawler, j: JobId)
    requires Inv(s) && j in s.jobs
    ensures j in s.past.submitted
  {
    assert ViewOk(ViewOf(s, j));
  }

  lemma CompleteKeepsNumbers(s: Crawler, job: JobId, token: Token, result: RunnerResult, now: int, j: JobId)
    requires j in s.jobs
    ensures j in Complete(s, job, token, result, now).0.jobs
    ensures KeepsNumbers(s.jobs[j], Complete(s, job, token, result, now).0.jobs[j])
  {
  }

  lemma ExpireKeepsNumbers(s: Crawler, job: JobId, stage: Stage, now: int, j: JobId)
    requires j in s.jobs
    ensures j in ExpireJob(s, job, stage, now).jobs && KeepsNumbers(s.jobs[j], ExpireJob(s, job, stage, now).jobs[j])
  {
  }

  lemma AlarmKeepsNumbers(s: Crawler, now: int, j: JobId)
    requires j in s.jobs && j in Alarm(s, now).jobs
    ensures KeepsNumbers(s.jobs[j], Alarm(s, now).jobs[j])
  {
    hide Late, Overripe;
    var s1 := ExpireAll(s, Late(s, LeaseStage, now), LeaseStage, now);
    var s2 := ExpireAll(s1, Late(s1, ResultStage, now), ResultStage, now);
    assert j in s1.jobs && j in s2.jobs && Alarm(s, now).jobs[j] == s2.jobs[j];
  }

  lemma OnlySubmitAdds(s: Crawler, step: Step, j: JobId)
    requires Enabled(s, step) && j !in s.jobs && j in Next(s, step).jobs
    ensures step.SubmitStep? && step.job == j
  {
    hide IsSelection;
  }

  // ----- rows over a run

  /** The step at which the job was submitted with the numbers the row shows. */
  predicate SubmittedBy(run: seq<Step>, i: nat, j: JobId, row: JobRow)
    requires i < |run|
  {
    && run[i].SubmitStep? && run[i].job == j
    && row.fetchMode == run[i].fetchMode && row.maxBytes == run[i].maxBytes
    && row.createdAt == run[i].now && row.queueDeadline == run[i].now + run[i].leaseWaitMs
    && row.resultWaitMs == run[i].resultWaitMs
  }

  predicate ClaimedBy(run: seq<Step>, i: nat, j: JobId, row: JobRow)
    requires i < |run|
  {
    && ClaimedAt(run, i, j)
    && row.runnerId == Some(run[i].runner) && row.leaseDeadline == Some(run[i].now + row.resultWaitMs)
  }

  lemma NumbersDecide(run: seq<Step>, i: nat, j: JobId, a: JobRow, b: JobRow)
    requires i < |run| && (KeepsNumbers(a, b) || exists runner, now :: b == ClaimedRow(a, runner, now))
    ensures SubmittedBy(run, i, j, a) <==> SubmittedBy(run, i, j, b)
    ensures KeepsNumbers(a, b) ==> (ClaimedBy(run, i, j, a) <==> ClaimedBy(run, i, j, b))
  {
  }

  /** A kept row shows the submission it comes from, at whatever point of a run. */
  lemma {:induction false} RowShowsSubmission(run: seq<Step>, n: nat, j: JobId) returns (i: nat)
    requires IsRun(run) && n <= |run| && j in StateAt(run, n).jobs
    ensures i < n && SubmittedBy(run, i, j, StateAt(run, n).jobs[j])
  {
    hide Inv, Next, Enabled, SubmittedBy, KeepsNumbers, IsRun;
    var s := StateAt(run, n - 1);
    EnabledAt(run, n - 1);
    RunKeepsInv(run, n - 1);
    if j in s.jobs {
      i := RowShowsSubmission(run, n - 1, j);
      StepKeepsNumbers(s, run[n - 1], j);
      NumbersDecide(run, i, j, s.jobs[j], StateAt(run, n).jobs[j]);
    } else {
      OnlySubmitAdds(s, run[n - 1], j);
      i := n - 1;
      SubmitShows(s, run, i);
    }
  }

  lemma SubmitShows(s: Crawler, run: seq<Step>, i: nat)
    requires i < |run| && run[i].SubmitStep?
    ensures SubmittedBy(run, i, run[i].job, Next(s, run[i]).jobs[run[i].job])
    ensures Next(s, run[i]).jobs[run[i].job].leaseDeadline == None && Next(s, run[i]).jobs[run[i].job].runnerId == None
  {
  }

  /** A row with a runner or a deadline for its result shows the claim it has them from. */
  lemma {:induction false} RowShowsClaim(run: seq<Step>, n: nat, j: JobId) returns (i: nat)
    requires IsRun(run) && n <= |run| && j in StateAt(run, n).jobs
    requires StateAt(run, n).jobs[j].leaseDeadline.Some? || StateAt(run, n).jobs[j].runnerId.Some?
    ensures i < n && ClaimedBy(run, i, j, StateAt(run, n).jobs[j])
  {
    hide Inv, Next, Enabled, ClaimedBy, SubmittedBy, IsRun;
    var s := StateAt(run, n - 1);
    EnabledAt(run, n - 1);
    RunKeepsInv(run, n - 1);
    if j !in s.jobs {
      OnlySubmitAdds(s, run[n - 1], j);
      SubmitShows(s, run, n - 1);
    }
    StepKeepsNumbers(s, run[n - 1], j);
    if ClaimedAt(run, n - 1, j) {
      i := n - 1;
      ClaimShows(run, i, j, s.jobs[j], StateAt(run, n).jobs[j]);
    } else {
      i := RowShowsClaim(run, n - 1, j);
      NumbersDecide(run, i, j, s.jobs[j], StateAt(run, n).jobs[j]);
    }
  }

  lemma ClaimShows(run: seq<Step>, i: nat, j: JobId, a: JobRow, b: JobRow)
    requires i < |run| && ClaimedAt(run, i, j) && b == ClaimedRow(a, run[i].runner, run[i].now)
    ensures ClaimedBy(run, i, j, b)
  {
  }

  // ----- timers

  /** A timer that is set goes off at the deadline in the row. */
  ghost predicate TimersShowDeadlines(s: Crawler) {
    && (forall j :: j in s.queueTimers ==> j in s.jobs && s.queueTimers[j] == s.jobs[j].queueDeadline)
    && (forall j :: j in s.resultTimers ==> j in s.jobs && s.jobs[j].leaseDeadline == Some(s.resultTimers[j]))
  }

  lemma ExpireKeepsShown(s: Crawler, done: set<JobId>, stage: Stage, now: int)
    requires TimersShowDeadlines(s)
    ensures TimersShowDeadlines(ExpireAll(s, done, stage, now))
  {
  }

  lemma PurgeKeepsShown(s: Crawler, now: int)
    requires TimersShowDeadlines(s) && Inv(s)
    ensures TimersShowDeadlines(Purge(s, now))
  {
    forall j | j in s.queueTimers || j in s.resultTimers ensures j in Purge(s, now).jobs {
      assert ViewOk(ViewOf(s, j));
    }
  }

  lemma AlarmKeepsShown(s: Crawler, now: int)
    requires TimersShowDeadlines(s) && Inv(s)
    ensures TimersShowDeadlines(Alarm(s, now))
  {
    hide Inv, ExpireAll, Purge, TimersShowDeadlines;
    var s1 := ExpireAll(s, Late(s, LeaseStage, now), LeaseStage, now);
    var s2 := ExpireAll(s1, Late(s1, ResultStage, now), ResultStage, now);
    ExpireKeepsShown(s, Late(s, LeaseStage, now), LeaseStage, now);
    ExpireKeepsShown(s1, Late(s1, ResultStage, now), ResultStage, now);
    ExpireKeepsInv(s, Late(s, LeaseStage, now), LeaseStage, now);
    ExpireKeepsInv(s1, Late(s1, ResultStage, now), ResultStage, now);
    PurgeKeepsShown(s2, now);
  }

  lemma AcceptKeepsShown(s: Crawler, job: JobId, result: RunnerResult, now: int)
    requires TimersShowDeadlines(s)
    ensures TimersShowDeadlines(Accept(s, job, result, now))
  {
  }

  lemma CompleteKeepsShown(s: Crawler, job: JobId, token: Token, result: RunnerResult, now: int)
    requires TimersShowDeadlines(s)
    ensures TimersShowDeadlines(Complete(s, job, token, result, now).0)
  {
    hide Accept;
    AcceptKeepsShown(s, job, result, now);
    assert TimersShowDeadlines(Record(s, RejectedEvent, now));
  }

  lemma ClaimKeepsShown(s: Crawler, step: Step)
    requires Inv(s) && TimersShowDeadlines(s) && step.ClaimStep? && Enabled(s, step)
    ensures TimersShowDeadlines(Next(s, step))
  {
    forall j | j in step.grant ensures j in s.jobs && j !in s.resultTimers {
      Picked(s, step, j);
      assert ViewOk(ViewOf(s, j));
    }
    hide Inv, IsSelection;
  }

  lemma StepKeepsShown(s: Crawler, step: Step)
    requires Inv(s) && Enabled(s, step) && TimersShowDeadlines(s)
    ensures TimersShowDeadlines(Next(s, step))
  {
    hide Inv, IsSelection, Complete, ExpireAll, Alarm, ClaimRows;
    match step
    case SubmitStep(_, _, _, _, _, _) => RowIsNew(s, step.job);
    case ClaimStep(_, _, _, _, _, _) => ClaimKeepsShown(s, step);
    case CompleteStep(job, token, result, now) => CompleteKeepsShown(s, job, token, result, now);
    case QueueTimerStep(job, now) => ExpireKeepsShown(s, {job}, LeaseStage, now);
    case ResultTimerStep(job, now) => ExpireKeepsShown(s, {job}, ResultStage, now);
    case AlarmStep(now) => AlarmKeepsShown(s, now);
    case _ =>
  }

  lemma RowIsNew(s: Crawler, j: JobId)
    requires Inv(s) && j !in s.past.submitted
    ensures j !in s.queueTimers && j !in s.resultTimers
  {
    assert ViewOk(ViewOf(s, j));
  }

  /** In every run, timers and rows show the same deadlines. */
  lemma {:induction false} TimersFollowRows(run: seq<Step>, n: nat)
    requires IsRun(run) && n <= |run|
    ensures TimersShowDeadlines(StateAt(run, n))
  {
    hide Inv, Next, Enabled, TimersShowDeadlines;
    if n == 0 {
      NoTimersYet();
    } else {
      TimersFollowRows(run, n - 1);
      RunKeepsInv(run, n - 1);
      EnabledAt(run, n - 1);
      StepKeepsShown(StateAt(run, n - 1), run[n - 1]);
    }
  }

  lemma NoTimersYet()
    ensures TimersShowDeadlines(INITIAL)
  {
  }

  // ----- what a claim hands out

  predicate IsWaitedFor(s: Crawler, modes: seq<string>, j: JobId) {
    j in s.jobs && s.jobs[j].state.Queued? && s.jobs[j].fetchMode in modes && j in s.waiters
  }

  /**
    A claim takes queued jobs somebody waits for, of the modes the runner can fetch, none of which was ever claimed;
    no more than asked for, and fewer only if there are no others; and none while an older one stays behind.
  */
  lemma ClaimGivesWhatIsAsked(run: seq<Step>, i: nat)
    requires IsRun(run) && i < |run| && run[i].ClaimStep?
    ensures var s := StateAt(run, i); var grant := run[i].grant;
      && |grant| <= run[i].max
      && (forall j :: j in grant ==> IsWaitedFor(s, run[i].fetchModes, j) && j !in s.past.issued)
      && (forall j :: IsWaitedFor(s, run[i].fetchModes, j) && j !in grant ==>
            |grant| == run[i].max && forall p :: p in grant ==> s.jobs[p].createdAt <= s.jobs[j].createdAt)
  {
    hide StateAt, IsRun, Inv, ViewOk;
    var s := StateAt(run, i);
    EnabledAt(run, i);
    RunKeepsInv(run, i);
    forall j | j in run[i].grant ensures IsWaitedFor(s, run[i].fetchModes, j) && j !in s.past.issued {
      Picked(s, run[i], j);
      ClaimView(s, run[i], j);
    }
    assert |run[i].grant| == |run[i].grant.Keys|;
  }

  // ----- what a runner is told

  /** The characters that `n` bytes take in base 64: four for every three, begun or full. */
  function EncodedLength(n: nat): nat {
    if n == 0 then 0 else if n <= 3 then 4 else 4 + EncodedLength(n - 3)
  }

  lemma {:induction false} EncodedLengthIs(n: nat)
    ensures EncodedLength(n) == (n + 2) / 3 * 4
  {
    if n > 3 {
      EncodedLengthIs(n - 3);
    }
  }

  predicate Exceeds(result: RunnerResult, row: JobRow) {
    result.Response? && result.bodyLength > EncodedLength(row.maxBytes)
  }

  /** A body of as many bytes as the job allows is never too large, nor one that fits into the same groups of three. */
  lemma BodyExceeds(bytes: nat, content: nat, row: JobRow)
    ensures Exceeds(Response(EncodedLength(bytes), content), row) <==> (bytes + 2) / 3 > (row.maxBytes + 2) / 3
    ensures bytes <= row.maxBytes ==> !Exceeds(Response(EncodedLength(bytes), content), row)
  {
    EncodedLengthIs(bytes);
    EncodedLengthIs(row.maxBytes);
  }

  /** What a runner is told about a result says what has become of the job, in every run. */
  lemma ReplyExactly(run: seq<Step>, i: nat)
    requires IsRun(run) && i < |run| && run[i].CompleteStep?
    ensures var s := StateAt(run, i); var j := run[i].job; var h := s.past;
      ReplyAt(run, i) ==
        if j !in h.submitted || j in h.purged then CompleteReply.NotFound
        else if j !in h.handed || Lookup(h.issued, j) != Some(run[i].token) then LeaseMismatch
        else if j in h.accepted then Duplicate
        else if j in h.expired then LeaseExpired
        else if j in s.jobs && Exceeds(run[i].result, s.jobs[j]) then CompleteReply.TooLarge
        else Accepted
  {
    hide StateAt, IsRun;
    RunView(run, i, run[i].job);
    hide Complete;
    ReplyTells(StateAt(run, i), run[i].job, run[i].token, run[i].result, run[i].now);
  }

  lemma ReplyTells(s: Crawler, j: JobId, token: Token, result: RunnerResult, now: int)
    requires ViewOk(ViewOf(s, j))
    ensures Complete(s, j, token, result, now).1 ==
        if j !in s.past.submitted || j in s.past.purged then CompleteReply.NotFound
        else if j !in s.past.handed || Lookup(s.past.issued, j) != Some(token) then LeaseMismatch
        else if j in s.past.accepted then Duplicate
        else if j in s.past.expired then LeaseExpired
        else if j in s.jobs && Exceeds(result, s.jobs[j]) then CompleteReply.TooLarge
        else Accepted
  {
    if j in s.jobs {
      EncodedLengthIs(s.jobs[j].maxBytes);
    }
    hide EncodedLength;
  }
}
