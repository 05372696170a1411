/**
  The lease protocol between fetches that submit jobs, the durable object that queues and leases them, and runners.

  `Crawler` is what the object holds: job rows and event rows survive a reset, while waiters, timers and the claims
  whose token hashes are still being computed live in memory. `past` only records what happened, so that results can
  speak about whole runs; no step reads it. Hashing is an injective constructor and tokens come from outside.
*/
module CrawlerProtocol {
  import opened Common

  const TERMINAL_RETENTION_MS := 3_600_000
  const STATS_WINDOW_MS := 3_600_000

  type JobId = nat
  type CallId = nat
  type RunnerId = nat
  type Token = nat
  datatype TokenHash = Sha256(token: Token)

  datatype RunnerResult = Response(bodyLength: nat, content: nat) | Failed(content: nat)

  datatype UnavailableReason = RunnerOffline | Maintenance | LeaseTimeout | ResultTimeout
  datatype SubmitOutcome = Result(result: RunnerResult) | Unavailable(reason: UnavailableReason)
  datatype CompleteReply = Accepted | Duplicate | LeaseMismatch | LeaseExpired | NotFound | TooLarge

  datatype JobState = Queued | Leased | Completed | Expired
  datatype JobRow = JobRow(
    fetchMode: string,
    maxBytes: nat,
    state: JobState,
    tokenHash: Option<TokenHash>,
    runnerId: Option<RunnerId>,
    createdAt: int,
    queueDeadline: int,
    resultWaitMs: int,
    leaseDeadline: Option<int>,
    terminalAt: Option<int>)

  datatype EventKind = CompletedEvent | ExpiredEvent | RejectedEvent
  datatype EventRow = EventRow(at: int, kind: EventKind)
  datatype Submission = Submission(at: int, leaseWaitMs: int, resultWaitMs: int)

  datatype History = History(
    submitted: map<JobId, Submission>,
    issued: map<JobId, Token>,            // the token generated when the job was claimed
    handed: set<JobId>,                   // jobs that left in a lease response
    accepted: map<JobId, RunnerResult>,
    expired: set<JobId>,
    purged: set<JobId>,
    outcomes: map<JobId, SubmitOutcome>,  // promises that resolved
    lost: set<JobId>)                     // promises whose waiter a reset dropped

  datatype Crawler = Crawler(
    jobs: map<JobId, JobRow>,
    events: seq<EventRow>,
    waiters: set<JobId>,
    queueTimers: map<JobId, int>,
    resultTimers: map<JobId, int>,
    pending: map<CallId, map<JobId, Token>>,  // claims between their state change and their token hashes
    past: History)

  const INITIAL := Crawler(map[], [], {}, map[], map[], map[],
                           History(map[], map[], {}, map[], {}, {}, map[], {}))

  function MaxBase64Length(maxBytes: nat): nat {
    (maxBytes + 2) / 3 * 4
  }

  // ----- the steps, as functions of the state

  function Record(s: Crawler, kind: EventKind, now: int): Crawler {
    s.(events := s.events + [EventRow(now, kind)])
  }

  function Submit(s: Crawler, job: JobId, fetchMode: string, maxBytes: nat, now: int,
                  leaseWaitMs: int, resultWaitMs: int): Crawler {
    s.(jobs := s.jobs[job := JobRow(fetchMode, maxBytes, Queued, None, None, now, now + leaseWaitMs,
                                    resultWaitMs, None, None)],
       waiters := s.waiters + {job},
       queueTimers := s.queueTimers[job := now + leaseWaitMs],
       past := s.past.(submitted := s.past.submitted[job := Submission(now, leaseWaitMs, resultWaitMs)]))
  }

  predicate Eligible(s: Crawler, fetchModes: seq<string>, job: JobId) {
    job in s.jobs && s.jobs[job].state.Queued? && s.jobs[job].fetchMode in fetchModes && job in s.waiters
  }

  /** What the claim query may answer: the oldest eligible jobs, as many as there are up to `max`. */
  ghost predicate IsSelection(s: Crawler, fetchModes: seq<string>, max: nat, picked: set<JobId>) {
    && |picked| <= max
    && (forall j :: j in picked ==> Eligible(s, fetchModes, j))
    && (forall j :: Eligible(s, fetchModes, j) && j !in picked ==>
          |picked| == max && forall p :: p in picked ==> s.jobs[p].createdAt <= s.jobs[j].createdAt)
  }

  function ResultDeadlines(jobs: map<JobId, JobRow>, picked: set<JobId>, now: int): map<JobId, int> {
    map j | j in picked && j in jobs :: now + jobs[j].resultWaitMs
  }

  /** The rows of `picked` become leased and their queue timers give way to result timers. */
  function LeaseAll(s: Crawler, runner: RunnerId, now: int, picked: set<JobId>): Crawler {
    s.(jobs := map j | j in s.jobs ::
                 if j in picked
                 then s.jobs[j].(state := Leased, runnerId := Some(runner),
                                 leaseDeadline := Some(now + s.jobs[j].resultWaitMs))
                 else s.jobs[j],
       queueTimers := s.queueTimers - picked,
       resultTimers := s.resultTimers + ResultDeadlines(s.jobs, picked, now))
  }

  /** First half of a claim: rows and timers change before anything is awaited. */
  function ClaimRows(s: Crawler, call: CallId, runner: RunnerId, now: int, grant: map<JobId, Token>): Crawler {
    LeaseAll(s, runner, now, grant.Keys)
      .(pending := s.pending[call := grant], past := s.past.(issued := s.past.issued + grant))
  }

  /** Second half: the hashes are stored, whatever became of the rows, and the response leaves. */
  function StoreHashes(s: Crawler, call: CallId): Crawler
    requires call in s.pending
  {
    var grant := s.pending[call];
    s.(jobs := map j | j in s.jobs ::
                 if j in grant then s.jobs[j].(tokenHash := Some(Sha256(grant[j]))) else s.jobs[j],
       pending := s.pending - {call},
       past := s.past.(handed := s.past.handed + grant.Keys))
  }

  function Resolutions(waiters: set<JobId>, done: set<JobId>, outcome: SubmitOutcome): map<JobId, SubmitOutcome> {
    map j | j in done && j in waiters :: outcome
  }

  /** The waiters of `done` resolve to what `outcome` says. */
  function Resolve(s: Crawler, done: set<JobId>, outcome: SubmitOutcome): Crawler {
    s.(waiters := s.waiters - done,
       past := s.past.(outcomes := s.past.outcomes + Resolutions(s.waiters, done, outcome)))
  }

  datatype Stage = LeaseStage | ResultStage

  predicate InStage(s: Crawler, job: JobId, stage: Stage) {
    job in s.jobs && s.jobs[job].state == if stage.LeaseStage? then Queued else Leased
  }

  function TimeoutOf(stage: Stage): SubmitOutcome {
    Unavailable(if stage.LeaseStage? then LeaseTimeout else ResultTimeout)
  }

  function Close(s: Crawler, done: set<JobId>, to: JobState, now: int): Crawler {
    s.(jobs := map j | j in s.jobs ::
                 if j in done then s.jobs[j].(state := to, terminalAt := Some(now)) else s.jobs[j],
       queueTimers := s.queueTimers - done,
       resultTimers := s.resultTimers - done)
  }

  /** All of `done`, each in the given stage, expire. */
  function ExpireAll(s: Crawler, done: set<JobId>, stage: Stage, now: int): Crawler {
    var closed := Resolve(Close(s, done, Expired, now), done, TimeoutOf(stage));
    closed.(events := s.events + seq(|done|, _ => EventRow(now, ExpiredEvent)),
            past := closed.past.(expired := s.past.expired + done))
  }

  function ExpireJob(s: Crawler, job: JobId, stage: Stage, now: int): Crawler {
    if InStage(s, job, stage) then ExpireAll(s, {job}, stage, now) else s
  }

  function Accept(s: Crawler, job: JobId, result: RunnerResult, now: int): Crawler {
    var closed := Record(Resolve(Close(s, {job}, Completed, now), {job}, Result(result)), CompletedEvent, now);
    closed.(past := closed.past.(accepted := closed.past.accepted[job := result]))
  }

  function Complete(s: Crawler, job: JobId, token: Token, result: RunnerResult, now: int): (Crawler, CompleteReply) {
    if job !in s.jobs then (s, CompleteReply.NotFound)
    else if s.jobs[job].tokenHash != Some(Sha256(token)) then (Record(s, RejectedEvent, now), LeaseMismatch)
    else if s.jobs[job].state.Completed? then (s, Duplicate)
    else if !s.jobs[job].state.Leased? then (Record(s, RejectedEvent, now), LeaseExpired)
    else if result.Response? && result.bodyLength > MaxBase64Length(s.jobs[job].maxBytes) then
      (Record(s, RejectedEvent, now), CompleteReply.TooLarge)
    else (Accept(s, job, result, now), Accepted)
  }

  function Late(s: Crawler, stage: Stage, now: int): set<JobId> {
    set j | j in s.jobs && InStage(s, j, stage) &&
            (if stage.LeaseStage? then s.jobs[j].queueDeadline <= now
             else s.jobs[j].leaseDeadline.Some? && s.jobs[j].leaseDeadline.value <= now)
  }

  function Overripe(s: Crawler, now: int): set<JobId> {
    set j | j in s.jobs && s.jobs[j].terminalAt.Some? && s.jobs[j].terminalAt.value <= now - TERMINAL_RETENTION_MS
  }

  function KeepSince(events: seq<EventRow>, from: int): seq<EventRow> {
    if events == [] then []
    else (if events[0].at < from then [] else [events[0]]) + KeepSince(events[1..], from)
  }

  function Purge(s: Crawler, now: int): Crawler {
    s.(jobs := s.jobs - Overripe(s, now),
       events := KeepSince(s.events, now - STATS_WINDOW_MS),
       past := s.past.(purged := s.past.purged + Overripe(s, now)))
  }

  function Alarm(s: Crawler, now: int): Crawler {
    var s1 := ExpireAll(s, Late(s, LeaseStage, now), LeaseStage, now);
    var s2 := ExpireAll(s1, Late(s1, ResultStage, now), ResultStage, now);
    Purge(s2, now)
  }

  /** The object is evicted: memory is gone, tables stay. */
  function Reset(s: Crawler): Crawler {
    s.(waiters := {}, queueTimers := map[], resultTimers := map[], pending := map[],
       past := s.past.(lost := s.past.lost + s.waiters))
  }

  // ----- steps and runs

  datatype Step =
    | SubmitStep(job: JobId, fetchMode: string, maxBytes: nat, now: int, leaseWaitMs: int, resultWaitMs: int)
    | ClaimStep(call: CallId, runner: RunnerId, fetchModes: seq<string>, max: nat, now: int, grant: map<JobId, Token>)
    | HashStep(call: CallId)
    | CompleteStep(job: JobId, token: Token, result: RunnerResult, now: int)
    | QueueTimerStep(job: JobId, now: int)
    | ResultTimerStep(job: JobId, now: int)
    | AlarmStep(now: int)
    | ResetStep

  /** What the environment guarantees: job and call ids are not reused, and a timer fires only while it is set. */
  ghost predicate Enabled(s: Crawler, step: Step) {
    match step
    case SubmitStep(job, _, _, _, _, _) => job !in s.past.submitted
    case ClaimStep(call, _, fetchModes, max, _, grant) =>
      call !in s.pending && IsSelection(s, fetchModes, max, grant.Keys)
    case HashStep(call) => call in s.pending
    case QueueTimerStep(job, _) => job in s.queueTimers
    case ResultTimerStep(job, _) => job in s.resultTimers
    case _ => true
  }

  function Next(s: Crawler, step: Step): Crawler {
    match step
    case SubmitStep(job, fetchMode, maxBytes, now, leaseWaitMs, resultWaitMs) =>
      Submit(s, job, fetchMode, maxBytes, now, leaseWaitMs, resultWaitMs)
    case ClaimStep(call, runner, _, _, now, grant) => ClaimRows(s, call, runner, now, grant)
    case HashStep(call) => if call in s.pending then StoreHashes(s, call) else s
    case CompleteStep(job, token, result, now) => Complete(s, job, token, result, now).0
    case QueueTimerStep(job, now) => ExpireJob(s, job, LeaseStage, now)
    case ResultTimerStep(job, now) => ExpireJob(s, job, ResultStage, now)
    case AlarmStep(now) => Alarm(s, now)
    case ResetStep => Reset(s)
  }

  // ----- one job as the state shows it

  datatype View = View(
    row: Option<JobRow>,
    waiting: bool,
    queueTimer: bool,
    resultTimer: bool,
    submitted: bool,
    issued: Option<Token>,
    handed: bool,
    accepted: Option<RunnerResult>,
    expired: bool,
    purged: bool,
    outcome: Option<SubmitOutcome>,
    lost: bool)

  function Lookup<V>(m: map<JobId, V>, job: JobId): Option<V> {
    if job in m then Some(m[job]) else None
  }

  function ViewOf(s: Crawler, j: JobId): View {
    View(Lookup(s.jobs, j), j in s.waiters, j in s.queueTimers, j in s.resultTimers,
         j in s.past.submitted, Lookup(s.past.issued, j), j in s.past.handed, Lookup(s.past.accepted, j),
         j in s.past.expired, j in s.past.purged, Lookup(s.past.outcomes, j), j in s.past.lost)
  }

  predicate IsTerminal(state: JobState) {
    state.Completed? || state.Expired?
  }

  /** A row, its timers and its history agree. */
  ghost predicate RowOk(v: View)
    requires v.row.Some?
  {
    var row := v.row.value;
    && (row.state.Queued? ==> v.issued.None? && v.queueTimer == v.waiting && !v.resultTimer)
    && (row.state.Leased? ==> v.issued.Some? && v.resultTimer == v.waiting && !v.queueTimer && row.leaseDeadline.Some?)
    && (IsTerminal(row.state) ==> !v.waiting && !v.queueTimer && !v.resultTimer)
    && (row.state.Completed? <==> v.accepted.Some?)
    && (row.state.Expired? <==> v.expired)
    && (IsTerminal(row.state) <==> row.terminalAt.Some?)
    && (row.tokenHash.Some? ==> v.issued.Some? && v.handed && row.tokenHash == Some(Sha256(v.issued.value)))
    && (v.handed ==> row.tokenHash.Some?)
    && (row.state.Completed? ==> v.handed)
  }

  /** The promise of a submitted job is in exactly one place, and if it resolved it says what became of the job. */
  ghost predicate PromiseOk(v: View) {
    && (v.submitted ==> v.waiting || v.outcome.Some? || v.lost)
    && (v.waiting ==> v.submitted && v.row.Some? && v.outcome.None? && !v.lost)
    && (v.lost ==> v.submitted && v.outcome.None?)
    && (v.outcome.Some? ==>
          match v.outcome.value
          case Result(r) => v.accepted == Some(r)
          case Unavailable(reason) =>
            v.expired && reason == if v.issued.Some? then ResultTimeout else LeaseTimeout)
  }

  ghost predicate ViewOk(v: View) {
    && (v.row.Some? ==> v.submitted && !v.purged && RowOk(v))
    && (v.row.None? ==> v.purged == v.submitted && !v.queueTimer && !v.resultTimer && !v.waiting)
    && (v.purged ==> v.accepted.Some? || v.expired)
    && (v.accepted.Some? ==> v.submitted && !v.expired && v.issued.Some?)
    && (v.expired ==> v.submitted)
    && (v.issued.Some? ==> v.submitted)
    && (v.handed ==> v.issued.Some?)
    && PromiseOk(v)
  }

  /** Jobs between the halves of a claim are in one claim only, carry their own token and have not left yet. */
  ghost predicate PendingOk(s: Crawler) {
    ClaimsOk(s.pending, s.past.issued, s.past.handed)
  }

  ghost predicate ClaimsOk(pending: map<CallId, map<JobId, Token>>, issued: map<JobId, Token>, handed: set<JobId>) {
    && (forall c, j :: c in pending && j in pending[c] ==> j in issued && issued[j] == pending[c][j] && j !in handed)
    && (forall c, d, j :: c in pending && d in pending && j in pending[c] && j in pending[d] ==> c == d)
  }

  ghost predicate Inv(s: Crawler) {
    && (forall j :: ViewOk(ViewOf(s, j)))
    && PendingOk(s)
  }

  lemma InitialInv()
    ensures Inv(INITIAL)
  {
  }

  lemma SubmitKeepsInv(s: Crawler, step: Step)
    requires Inv(s) && step.SubmitStep? && Enabled(s, step)
    ensures Inv(Next(s, step))
  {
    var t := Next(s, step);
    forall j ensures ViewOk(ViewOf(t, j)) {
      assert ViewOk(ViewOf(s, j));
    }
  }

  lemma ClaimedView(s: Crawler, call: CallId, runner: RunnerId, now: int, grant: map<JobId, Token>, j: JobId)
    requires grant.Keys <= s.jobs.Keys
    ensures var v := ViewOf(s, j);
            ViewOf(ClaimRows(s, call, runner, now, grant), j) ==
              if j in grant
              then v.(row := Some(s.jobs[j].(state := Leased, runnerId := Some(runner),
                                             leaseDeadline := Some(now + s.jobs[j].resultWaitMs))),
                      issued := Some(grant[j]), queueTimer := false, resultTimer := true)
              else v
  {
  }

  lemma LeasedViewOk(v: View, row: JobRow, token: Token)
    requires ViewOk(v) && v.row.Some? && v.row.value.state.Queued? && v.waiting
    requires row == v.row.value.(state := Leased, runnerId := row.runnerId, leaseDeadline := row.leaseDeadline)
    requires row.leaseDeadline.Some?
    ensures ViewOk(v.(row := Some(row), issued := Some(token), queueTimer := false, resultTimer := true))
    ensures v.issued.None? && !v.handed
  {
  }

  lemma ClaimView(s: Crawler, step: Step, j: JobId)
    requires Inv(s) && step.ClaimStep? && Enabled(s, step)
    ensures ViewOk(ViewOf(Next(s, step), j))
    ensures j in step.grant ==> j !in s.past.issued && j !in s.past.handed
  {
    assert ViewOk(ViewOf(s, j));
    forall k | k in step.grant ensures Eligible(s, step.fetchModes, k) {
      Picked(s, step, k);
    }
    ClaimedView(s, step.call, step.runner, step.now, step.grant, j);
    hide ClaimRows, IsSelection, Inv, ViewOk;
    if j in step.grant {
      LeasedViewOk(ViewOf(s, j), ViewOf(Next(s, step), j).row.value, step.grant[j]);
    }
  }

  lemma Picked(s: Crawler, step: Step, j: JobId)
    requires step.ClaimStep? && Enabled(s, step) && j in step.grant
    ensures Eligible(s, step.fetchModes, j)
  {
  }

  lemma OneMoreClaim(pending: map<CallId, map<JobId, Token>>, issued: map<JobId, Token>, handed: set<JobId>,
                     call: CallId, grant: map<JobId, Token>)
    requires ClaimsOk(pending, issued, handed) && call !in pending
    requires forall j :: j in grant ==> j !in issued && j !in handed
    ensures ClaimsOk(pending[call := grant], issued + grant, handed)
  {
    var after := pending[call := grant];
    forall c, j | c in after && j in after[c]
      ensures j in issued + grant && (issued + grant)[j] == after[c][j] && j !in handed
    {
      assert c != call ==> c in pending && after[c] == pending[c];
    }
    forall c, d, j | c in after && d in after && j in after[c] && j in after[d] ensures c == d {
      if c != call && d != call {
        assert c in pending && d in pending;
      }
    }
  }

  lemma ClaimKeepsPending(s: Crawler, call: CallId, runner: RunnerId, now: int, grant: map<JobId, Token>)
    requires PendingOk(s) && call !in s.pending
    requires forall j :: j in grant ==> j !in s.past.issued && j !in s.past.handed
    ensures PendingOk(ClaimRows(s, call, runner, now, grant))
  {
    hide ClaimsOk;
    OneMoreClaim(s.pending, s.past.issued, s.past.handed, call, grant);
  }

  lemma ClaimKeepsInv(s: Crawler, step: Step)
    requires Inv(s) && step.ClaimStep? && Enabled(s, step)
    ensures Inv(Next(s, step))
  {
    var t := Next(s, step);
    forall j ensures ViewOk(ViewOf(t, j)) && (j in step.grant ==> j !in s.past.issued && j !in s.past.handed) {
      ClaimView(s, step, j);
    }
    ClaimKeepsPending(s, step.call, step.runner, step.now, step.grant);
    hide ViewOk, ViewOf, PendingOk, ClaimRows;
  }

  lemma HashKeepsInv(s: Crawler, step: Step)
    requires Inv(s) && step.HashStep? && Enabled(s, step)
    ensures Inv(Next(s, step))
  {
    var t := Next(s, step);
    forall j ensures ViewOk(ViewOf(t, j)) {
      assert ViewOk(ViewOf(s, j));
    }
  }

  lemma ResetKeepsInv(s: Crawler)
    requires Inv(s)
    ensures Inv(Reset(s))
  {
    forall j ensures ViewOk(ViewOf(Reset(s), j)) {
      assert ViewOk(ViewOf(s, j));
    }
  }

  lemma AcceptedView(s: Crawler, job: JobId, token: Token, result: RunnerResult, now: int, j: JobId)
    requires Complete(s, job, token, result, now).1.Accepted?
    ensures var v, t := ViewOf(s, j), Complete(s, job, token, result, now).0;
            ViewOf(t, j) ==
              if j == job
              then v.(row := Some(s.jobs[j].(state := Completed, terminalAt := Some(now))),
                      waiting := false, queueTimer := false, resultTimer := false, accepted := Some(result),
                      outcome := if v.waiting then Some(Result(result)) else v.outcome)
              else v
  {
  }

  lemma AcceptedViewOk(v: View, now: int, result: RunnerResult)
    requires ViewOk(v) && v.row.Some? && v.row.value.state.Leased? && v.row.value.tokenHash.Some?
    ensures ViewOk(v.(row := Some(v.row.value.(state := Completed, terminalAt := Some(now))),
                      waiting := false, queueTimer := false, resultTimer := false, accepted := Some(result),
                      outcome := if v.waiting then Some(Result(result)) else v.outcome))
    ensures v.accepted.None?
  {
  }

  lemma RefusalView(s: Crawler, job: JobId, token: Token, result: RunnerResult, now: int, j: JobId)
    requires !Complete(s, job, token, result, now).1.Accepted?
    ensures ViewOf(Complete(s, job, token, result, now).0, j) == ViewOf(s, j)
  {
  }

  lemma CompleteView(s: Crawler, job: JobId, token: Token, result: RunnerResult, now: int, j: JobId)
    requires Inv(s)
    ensures ViewOk(ViewOf(Complete(s, job, token, result, now).0, j))
    ensures Complete(s, job, token, result, now).1.Accepted? ==> job !in s.past.accepted
  {
    assert ViewOk(ViewOf(s, job)) && ViewOk(ViewOf(s, j));
    hide Inv, ViewOk;
    if Complete(s, job, token, result, now).1.Accepted? {
      AcceptedView(s, job, token, result, now, j);
      AcceptedViewOk(ViewOf(s, job), now, result);
    } else {
      RefusalView(s, job, token, result, now, j);
    }
  }

  lemma SamePending(s: Crawler, t: Crawler)
    requires PendingOk(s)
    requires t.pending == s.pending && t.past.issued == s.past.issued && t.past.handed == s.past.handed
    ensures PendingOk(t)
  {
  }

  lemma AcceptHistory(s: Crawler, job: JobId, result: RunnerResult, now: int)
    ensures var t := Accept(s, job, result, now);
            && t.pending == s.pending && t.past.issued == s.past.issued && t.past.handed == s.past.handed
            && t.past.expired == s.past.expired
            && t.past.submitted == s.past.submitted && t.past.purged == s.past.purged && t.past.lost == s.past.lost
            && t.past.outcomes == s.past.outcomes + Resolutions(s.waiters, {job}, Result(result))
            && t.past.accepted == s.past.accepted[job := result]
  {
  }

  lemma CompleteHistory(s: Crawler, job: JobId, token: Token, result: RunnerResult, now: int)
    ensures var (t, reply) := Complete(s, job, token, result, now);
            && t.pending == s.pending && t.past.issued == s.past.issued && t.past.handed == s.past.handed
            && t.past.expired == s.past.expired
            && t.past.submitted == s.past.submitted && t.past.purged == s.past.purged && t.past.lost == s.past.lost
            && t.past.outcomes ==
                 (if reply.Accepted? then s.past.outcomes + Resolutions(s.waiters, {job}, Result(result))
                  else s.past.outcomes)
            && t.past.accepted == (if reply.Accepted? then s.past.accepted[job := result] else s.past.accepted)
  {
    hide Accept, Resolutions, Close, Resolve;
    AcceptHistory(s, job, result, now);
  }

  lemma CompleteKeepsInv(s: Crawler, job: JobId, token: Token, result: RunnerResult, now: int)
    requires Inv(s)
    ensures Inv(Complete(s, job, token, result, now).0)
  {
    hide Complete, ViewOk, ViewOf, PendingOk;
    forall j ensures ViewOk(ViewOf(Complete(s, job, token, result, now).0, j)) {
      CompleteView(s, job, token, result, now, j);
    }
    CompleteHistory(s, job, token, result, now);
    SamePending(s, Complete(s, job, token, result, now).0);
  }

  ghost predicate AllInStage(s: Crawler, done: set<JobId>, stage: Stage) {
    forall j :: j in done ==> InStage(s, j, stage)
  }

  lemma ExpireView(s: Crawler, done: set<JobId>, stage: Stage, now: int, j: JobId)
    requires Inv(s) && AllInStage(s, done, stage)
    ensures ViewOk(ViewOf(ExpireAll(s, done, stage, now), j))
    ensures j in done ==> j !in s.past.expired
  {
    assert ViewOk(ViewOf(s, j));
  }

  lemma DisjointUnion(a: set<JobId>, b: set<JobId>)
    requires a !! b
    ensures |a + b| == |a| + |b|
  {
  }

  lemma ExpireKeepsPending(s: Crawler, done: set<JobId>, stage: Stage, now: int)
    requires PendingOk(s)
    ensures PendingOk(ExpireAll(s, done, stage, now))
  {
    hide PendingOk;
    SamePending(s, ExpireAll(s, done, stage, now));
  }

  lemma ExpireKeepsInv(s: Crawler, done: set<JobId>, stage: Stage, now: int)
    requires Inv(s) && AllInStage(s, done, stage)
    ensures Inv(ExpireAll(s, done, stage, now))
  {
    hide ExpireAll, ViewOk, ViewOf, PendingOk, AllInStage;
    forall j ensures ViewOk(ViewOf(ExpireAll(s, done, stage, now), j)) {
      ExpireView(s, done, stage, now, j);
    }
    ExpireKeepsPending(s, done, stage, now);
  }

  lemma PurgeKeepsInv(s: Crawler, now: int)
    requires Inv(s)
    ensures Inv(Purge(s, now))
  {
    forall j ensures ViewOk(ViewOf(Purge(s, now), j)) {
      assert ViewOk(ViewOf(s, j));
    }
  }

  lemma AlarmKeepsInv(s: Crawler, now: int)
    requires Inv(s)
    ensures Inv(Alarm(s, now))
  {
    hide Inv, ExpireAll, Purge;
    var s1 := ExpireAll(s, Late(s, LeaseStage, now), LeaseStage, now);
    ExpireKeepsInv(s, Late(s, LeaseStage, now), LeaseStage, now);
    ExpireKeepsInv(s1, Late(s1, ResultStage, now), ResultStage, now);
    PurgeKeepsInv(ExpireAll(s1, Late(s1, ResultStage, now), ResultStage, now), now);
  }

  lemma ExpireJobKeepsInv(s: Crawler, job: JobId, stage: Stage, now: int)
    requires Inv(s)
    ensures Inv(ExpireJob(s, job, stage, now))
  {
    hide Inv, ExpireAll;
    if InStage(s, job, stage) {
      ExpireKeepsInv(s, {job}, stage, now);
    }
  }

  lemma StepKeepsInv(s: Crawler, step: Step)
    requires Inv(s) && Enabled(s, step)
    ensures Inv(Next(s, step))
  {
    hide Inv, IsSelection, Submit, ClaimRows, StoreHashes, Complete, ExpireJob, Alarm, Reset;
    match step
    case SubmitStep(_, _, _, _, _, _) => SubmitKeepsInv(s, step);
    case ClaimStep(_, _, _, _, _, _) => ClaimKeepsInv(s, step);
    case HashStep(_) => HashKeepsInv(s, step);
    case CompleteStep(job, token, result, now) => CompleteKeepsInv(s, job, token, result, now);
    case QueueTimerStep(job, now) => ExpireJobKeepsInv(s, job, LeaseStage, now);
    case ResultTimerStep(job, now) => ExpireJobKeepsInv(s, job, ResultStage, now);
    case AlarmStep(now) => AlarmKeepsInv(s, now);
    case ResetStep => ResetKeepsInv(s);
  }

  // ----- whole runs

  function StateAt(run: seq<Step>, n: nat): Crawler
    requires n <= |run|
  {
    if n == 0 then INITIAL else Next(StateAt(run, n - 1), run[n - 1])
  }

  ghost predicate IsStep(run: seq<Step>, i: int)
    requires 0 <= i < |run|
  {
    Enabled(StateAt(run, i), run[i])
  }

  ghost predicate IsRun(run: seq<Step>) {
    forall i :: 0 <= i < |run| ==> IsStep(run, i)
  }

  lemma {:induction false} RunKeepsInv(run: seq<Step>, n: nat)
    requires IsRun(run) && n <= |run|
    ensures Inv(StateAt(run, n))
  {
    hide Inv, Next, Enabled;
    if n == 0 {
      InitialInv();
    } else {
      RunKeepsInv(run, n - 1);
      assert IsStep(run, n - 1);
      StepKeepsInv(StateAt(run, n - 1), run[n - 1]);
    }
  }

  lemma RunView(run: seq<Step>, n: nat, j: JobId)
    requires IsRun(run) && n <= |run|
    ensures ViewOk(ViewOf(StateAt(run, n), j))
  {
    RunKeepsInv(run, n);
    hide StateAt, ViewOk, ViewOf;
  }

  lemma StepAt(run: seq<Step>, i: nat)
    requires i < |run|
    ensures StateAt(run, i + 1) == Next(StateAt(run, i), run[i])
  {
    hide Next;
  }

  lemma EnabledAt(run: seq<Step>, i: nat)
    requires IsRun(run) && i < |run|
    ensures Enabled(StateAt(run, i), run[i])
  {
    hide Enabled;
    assert IsStep(run, i);
  }

  ghost predicate Grows<V>(a: map<JobId, V>, b: map<JobId, V>) {
    forall j :: j in a ==> j in b && b[j] == a[j]
  }

  /** What happened is never taken back or overwritten. */
  ghost predicate HistoryGrows(a: History, b: History) {
    && Grows(a.submitted, b.submitted) && Grows(a.issued, b.issued) && Grows(a.accepted, b.accepted)
    && Grows(a.outcomes, b.outcomes)
    && a.handed <= b.handed && a.expired <= b.expired && a.purged <= b.purged && a.lost <= b.lost
  }

  lemma ExpireGrows(s: Crawler, done: set<JobId>, stage: Stage, now: int)
    requires Inv(s)
    ensures HistoryGrows(s.past, ExpireAll(s, done, stage, now).past)
  {
    hide Inv, Resolutions;
    WaitersAreUnresolved(s);
    ResolutionsAdd(s.past.outcomes, s.waiters, done, TimeoutOf(stage));
  }

  lemma ResolutionsAdd(outcomes: map<JobId, SubmitOutcome>, waiters: set<JobId>, done: set<JobId>,
                       outcome: SubmitOutcome)
    requires waiters !! outcomes.Keys
    ensures Grows(outcomes, outcomes + Resolutions(waiters, done, outcome))
  {
  }

  lemma WaitersAreUnresolved(s: Crawler)
    requires Inv(s)
    ensures s.waiters !! s.past.outcomes.Keys
  {
    forall j | j in s.waiters ensures j !in s.past.outcomes {
      assert ViewOk(ViewOf(s, j));
    }
  }

  lemma CompleteGrows(s: Crawler, job: JobId, token: Token, result: RunnerResult, now: int)
    requires Inv(s)
    ensures HistoryGrows(s.past, Complete(s, job, token, result, now).0.past)
  {
    hide Inv, ViewOk, Complete;
    WaitersAreUnresolved(s);
    CompleteView(s, job, token, result, now, job);
    CompleteHistory(s, job, token, result, now);
  }

  lemma ClaimGrows(s: Crawler, step: Step)
    requires Inv(s) && step.ClaimStep? && Enabled(s, step)
    ensures HistoryGrows(s.past, Next(s, step).past)
  {
    hide Inv, ViewOk, IsSelection, LeaseAll;
    forall j | j in step.grant ensures j !in s.past.issued {
      ClaimView(s, step, j);
    }
    assert Next(s, step).past == s.past.(issued := s.past.issued + step.grant);
  }

  lemma AlarmGrows(s: Crawler, now: int)
    requires Inv(s)
    ensures HistoryGrows(s.past, Alarm(s, now).past)
  {
    hide Inv, ExpireAll, Purge;
    var s1 := ExpireAll(s, Late(s, LeaseStage, now), LeaseStage, now);
    var s2 := ExpireAll(s1, Late(s1, ResultStage, now), ResultStage, now);
    ExpireKeepsInv(s, Late(s, LeaseStage, now), LeaseStage, now);
    ExpireGrows(s, Late(s, LeaseStage, now), LeaseStage, now);
    ExpireGrows(s1, Late(s1, ResultStage, now), ResultStage, now);
    PurgeGrows(s2, now);
  }

  lemma PurgeGrows(s: Crawler, now: int)
    ensures HistoryGrows(s.past, Purge(s, now).past)
  {
  }

  lemma StepGrows(s: Crawler, step: Step)
    requires Inv(s) && Enabled(s, step)
    ensures HistoryGrows(s.past, Next(s, step).past)
  {
    hide Inv, HistoryGrows, Complete, Alarm, ExpireAll, IsSelection, ClaimRows;
    match step
    case SubmitStep(_, _, _, _, _, _) => SmallStepGrows(s, step);
    case ClaimStep(_, _, _, _, _, _) => ClaimGrows(s, step);
    case HashStep(_) => SmallStepGrows(s, step);
    case CompleteStep(job, token, result, now) => CompleteGrows(s, job, token, result, now);
    case QueueTimerStep(job, now) => ExpireGrows(s, {job}, LeaseStage, now); GrowsRefl(s.past);
    case ResultTimerStep(job, now) => ExpireGrows(s, {job}, ResultStage, now); GrowsRefl(s.past);
    case AlarmStep(now) => AlarmGrows(s, now);
    case ResetStep => SmallStepGrows(s, step);
  }

  lemma SmallStepGrows(s: Crawler, step: Step)
    requires (step.SubmitStep? || step.HashStep? || step.ResetStep?) && Enabled(s, step)
    ensures HistoryGrows(s.past, Next(s, step).past)
  {
  }

  lemma GrowsRefl(a: History)
    ensures HistoryGrows(a, a)
  {
  }

  lemma GrowsOn(a: History, b: History, c: History)
    requires HistoryGrows(a, b) && HistoryGrows(b, c)
    ensures HistoryGrows(a, c)
  {
  }

  lemma {:induction false} RunGrows(run: seq<Step>, i: nat, k: nat)
    requires IsRun(run) && i <= k <= |run|
    ensures HistoryGrows(StateAt(run, i).past, StateAt(run, k).past)
    decreases k
  {
    hide Inv, Next, Enabled, HistoryGrows;
    if i == k {
      GrowsRefl(StateAt(run, i).past);
    } else {
      RunGrows(run, i, k - 1);
      RunKeepsInv(run, k - 1);
      EnabledAt(run, k - 1);
      StepGrows(StateAt(run, k - 1), run[k - 1]);
      GrowsOn(StateAt(run, i).past, StateAt(run, k - 1).past, StateAt(run, k).past);
    }
  }

  // ----- lifecycle

  /** The moves of one job's row: only these, and a row disappears only after it ended. */
  ghost predicate RowMoves(a: Option<JobRow>, b: Option<JobRow>) {
    match (a, b)
    case (None, None) => true
    case (None, Some(y)) => y.state.Queued?
    case (Some(x), None) => IsTerminal(x.state)
    case (Some(x), Some(y)) =>
      || x.state == y.state
      || (x.state.Queued? && (y.state.Leased? || y.state.Expired?))
      || (x.state.Leased? && IsTerminal(y.state))
  }

  lemma ExpireMoves(s: Crawler, done: set<JobId>, stage: Stage, now: int, j: JobId)
    requires AllInStage(s, done, stage)
    ensures RowMoves(Lookup(s.jobs, j), Lookup(ExpireAll(s, done, stage, now).jobs, j))
    ensures j in ExpireAll(s, done, stage, now).jobs <==> j in s.jobs
    ensures j in s.jobs ==> IsTerminal(s.jobs[j].state) ==> j !in done
    ensures j in s.jobs && j !in done ==> ExpireAll(s, done, stage, now).jobs[j] == s.jobs[j]
    ensures j in s.jobs && j in done ==> ExpireAll(s, done, stage, now).jobs[j].terminalAt == Some(now)
  {
  }

  lemma AlarmMoves(s: Crawler, now: int, j: JobId)
    requires Inv(s)
    ensures RowMoves(Lookup(s.jobs, j), Lookup(Alarm(s, now).jobs, j))
  {
    assert ViewOk(ViewOf(s, j));
    hide Inv, ExpireAll;
    var s1 := ExpireAll(s, Late(s, LeaseStage, now), LeaseStage, now);
    ExpireMoves(s, Late(s, LeaseStage, now), LeaseStage, now, j);
    ExpireMoves(s1, Late(s1, ResultStage, now), ResultStage, now, j);
  }

  lemma CompleteMoves(s: Crawler, job: JobId, token: Token, result: RunnerResult, now: int, j: JobId)
    ensures RowMoves(Lookup(s.jobs, j), Lookup(Complete(s, job, token, result, now).0.jobs, j))
  {
    if Complete(s, job, token, result, now).1.Accepted? {
      AcceptedView(s, job, token, result, now, j);
    } else {
      RefusalView(s, job, token, result, now, j);
    }
    hide Complete;
  }

  lemma ClaimMoves(s: Crawler, step: Step, j: JobId)
    requires step.ClaimStep? && Enabled(s, step)
    ensures RowMoves(Lookup(s.jobs, j), Lookup(Next(s, step).jobs, j))
  {
    if j in step.grant {
      Picked(s, step, j);
    }
    hide IsSelection;
  }

  lemma StepMoves(s: Crawler, step: Step, j: JobId)
    requires Inv(s) && Enabled(s, step)
    ensures RowMoves(Lookup(s.jobs, j), Lookup(Next(s, step).jobs, j))
  {
    hide Alarm, IsSelection, Complete, ClaimRows, ExpireAll;
    match step
    case AlarmStep(now) => AlarmMoves(s, now, j);
    case ClaimStep(_, _, _, _, _, _) => ClaimMoves(s, step, j);
    case CompleteStep(job, token, result, now) => CompleteMoves(s, job, token, result, now, j);
    case QueueTimerStep(job, now) =>
      if InStage(s, job, LeaseStage) {
        ExpireMoves(s, {job}, LeaseStage, now, j);
      }
    case ResultTimerStep(job, now) =>
      if InStage(s, job, ResultStage) {
        ExpireMoves(s, {job}, ResultStage, now, j);
      }
    case SubmitStep(_, _, _, _, _, _) => assert ViewOk(ViewOf(s, j));
    case HashStep(_) =>
    case ResetStep =>
  }

  /** In every run each job only ever makes the moves of `RowMoves`. */
  lemma Lifecycle(run: seq<Step>, i: nat, j: JobId)
    requires IsRun(run) && i < |run|
    ensures RowMoves(Lookup(StateAt(run, i).jobs, j), Lookup(StateAt(run, i + 1).jobs, j))
  {
    hide Inv, Next, RowMoves, Enabled;
    RunKeepsInv(run, i);
    EnabledAt(run, i);
    StepMoves(StateAt(run, i), run[i], j);
  }

  predicate ClaimedAt(run: seq<Step>, i: nat, j: JobId)
    requires i < |run|
  {
    run[i].ClaimStep? && j in run[i].grant
  }

  /** A job is leased by at most one claim of a run, even with resets and lost responses in between. */
  lemma LeasedAtMostOnce(run: seq<Step>, i: nat, k: nat, j: JobId)
    requires IsRun(run) && i < k < |run| && ClaimedAt(run, i, j)
    ensures !ClaimedAt(run, k, j)
  {
    hide Inv, Enabled, StateAt, Next, IsRun;
    StepAt(run, i);
    ClaimIssues(StateAt(run, i), run[i]);
    RunGrows(run, i + 1, k);
    RunKeepsInv(run, k);
    EnabledAt(run, k);
    if ClaimedAt(run, k, j) {
      ClaimView(StateAt(run, k), run[k], j);
    }
  }

  lemma ClaimIssues(s: Crawler, step: Step)
    requires step.ClaimStep?
    ensures step.grant.Keys <= Next(s, step).past.issued.Keys
  {
  }

  /** A lease response never carries a job that an earlier response carried. */
  lemma HandedOutOnce(run: seq<Step>, i: nat, k: nat, j: JobId)
    requires IsRun(run) && i < k < |run| && run[i].HashStep? && run[k].HashStep?
    requires run[i].call in StateAt(run, i).pending && j in StateAt(run, i).pending[run[i].call]
    ensures run[k].call in StateAt(run, k).pending && j !in StateAt(run, k).pending[run[k].call]
  {
    hide StateAt, Next, IsRun, ViewOk;
    EnabledAt(run, k);
    StepAt(run, i);
    HashHandsOut(StateAt(run, i), run[i]);
    RunGrows(run, i + 1, k);
    RunKeepsInv(run, k);
  }

  lemma HashHandsOut(s: Crawler, step: Step)
    requires step.HashStep? && step.call in s.pending
    ensures s.pending[step.call].Keys <= Next(s, step).past.handed
  {
  }

  function InState(s: Crawler, state: JobState): set<JobId> {
    set j | j in s.jobs && s.jobs[j].state == state
  }

  /** Every submitted job is queued, leased, completed, expired or purged, and in exactly one of these places. */
  lemma Conservation(run: seq<Step>, n: nat)
    requires IsRun(run) && n <= |run|
    ensures var s := StateAt(run, n);
            |s.past.submitted| == |InState(s, Queued)| + |InState(s, Leased)| + |InState(s, Completed)|
                                  + |InState(s, Expired)| + |s.past.purged|
  {
    var s := StateAt(run, n);
    forall j ensures (j in s.jobs || j in s.past.purged) <==> j in s.past.submitted
             ensures !(j in s.jobs && j in s.past.purged) {
      RunView(run, n, j);
      hide StateAt;
    }
    hide StateAt;
    CountByState(s);
  }

  lemma JobsByState(s: Crawler)
    ensures s.jobs.Keys == InState(s, Queued) + InState(s, Leased) + InState(s, Completed) + InState(s, Expired)
    ensures InState(s, Queued) !! InState(s, Leased)
    ensures (InState(s, Queued) + InState(s, Leased)) !! InState(s, Completed)
    ensures (InState(s, Queued) + InState(s, Leased) + InState(s, Completed)) !! InState(s, Expired)
  {
  }

  lemma CountByState(s: Crawler)
    requires s.past.submitted.Keys == s.jobs.Keys + s.past.purged && s.jobs.Keys !! s.past.purged
    ensures |s.past.submitted| == |InState(s, Queued)| + |InState(s, Leased)| + |InState(s, Completed)|
                                  + |InState(s, Expired)| + |s.past.purged|
  {
    hide InState;
    JobsByState(s);
    assert |s.past.submitted| == |s.past.submitted.Keys|;
    FiveParts(InState(s, Queued), InState(s, Leased), InState(s, Completed), InState(s, Expired), s.past.purged);
  }

  lemma FiveParts(a: set<JobId>, b: set<JobId>, c: set<JobId>, d: set<JobId>, e: set<JobId>)
    requires a !! b && (a + b) !! c && (a + b + c) !! d && (a + b + c + d) !! e
    ensures |a + b + c + d + e| == |a| + |b| + |c| + |d| + |e|
  {
    DisjointUnion(a, b);
    DisjointUnion(a + b, c);
    DisjointUnion(a + b + c, d);
    DisjointUnion(a + b + c + d, e);
  }

  /** The history says of every kept row how its job ended, if it has, and no job ends in both ways. */
  lemma EndedInOneWay(run: seq<Step>, n: nat, j: JobId)
    requires IsRun(run) && n <= |run|
    ensures var s := StateAt(run, n);
            && !(j in s.past.accepted && j in s.past.expired)
            && (j in InState(s, Completed) <==> j in s.past.accepted && j !in s.past.purged)
            && (j in InState(s, Expired) <==> j in s.past.expired && j !in s.past.purged)
  {
    hide StateAt, IsRun;
    RunView(run, n, j);
    RunKeepsInv(run, n);
  }

  // ----- what submitters and runners are told

  /** A promise that resolved keeps its value, so it resolves at most once. */
  lemma PromiseIsFinal(run: seq<Step>, i: nat, k: nat, j: JobId)
    requires IsRun(run) && i <= k <= |run| && j in StateAt(run, i).past.outcomes
    ensures Lookup(StateAt(run, k).past.outcomes, j) == Some(StateAt(run, i).past.outcomes[j])
  {
    RunGrows(run, i, k);
  }

  /**
    Unless a reset dropped its waiter, a submitter has result `r` exactly when the job completed by accepting `r`,
    a lease timeout exactly when it expired before any claim, and a result timeout exactly when it expired after one.
  */
  lemma PromiseAgreesWithJob(run: seq<Step>, n: nat, j: JobId, r: RunnerResult)
    requires IsRun(run) && n <= |run|
    requires j in StateAt(run, n).past.submitted && j !in StateAt(run, n).past.lost
    ensures var h := StateAt(run, n).past;
            && (Lookup(h.outcomes, j) == Some(Result(r)) <==> Lookup(h.accepted, j) == Some(r))
            && (Lookup(h.outcomes, j) == Some(Unavailable(LeaseTimeout)) <==> j in h.expired && j !in h.issued)
            && (Lookup(h.outcomes, j) == Some(Unavailable(ResultTimeout)) <==> j in h.expired && j in h.issued)
            && (j !in h.outcomes <==> j in StateAt(run, n).waiters)
  {
    hide StateAt, IsRun;
    RunView(run, n, j);
    PromiseFacts(StateAt(run, n), j, r);
  }

  lemma PromiseFacts(s: Crawler, j: JobId, r: RunnerResult)
    requires ViewOk(ViewOf(s, j)) && j in s.past.submitted && j !in s.past.lost
    ensures Lookup(s.past.outcomes, j) == Some(Result(r)) <==> Lookup(s.past.accepted, j) == Some(r)
    ensures Lookup(s.past.outcomes, j) == Some(Unavailable(LeaseTimeout))
      <==> j in s.past.expired && j !in s.past.issued
    ensures Lookup(s.past.outcomes, j) == Some(Unavailable(ResultTimeout))
      <==> j in s.past.expired && j in s.past.issued
    ensures j !in s.past.outcomes <==> j in s.waiters
  {
  }

  function ReplyAt(run: seq<Step>, i: nat): CompleteReply
    requires i < |run| && run[i].CompleteStep?
  {
    Complete(StateAt(run, i), run[i].job, run[i].token, run[i].result, run[i].now).1
  }

  lemma AcceptNeeds(s: Crawler, job: JobId, token: Token, result: RunnerResult, now: int)
    requires ViewOk(ViewOf(s, job)) && Complete(s, job, token, result, now).1.Accepted?
    ensures Lookup(s.past.issued, job) == Some(token) && job in s.past.handed
    ensures Lookup(Complete(s, job, token, result, now).0.past.accepted, job) == Some(result)
  {
  }

  /** A result is accepted only under the token issued for the job, after its hash was stored. */
  lemma AcceptedUnderIssuedToken(run: seq<Step>, i: nat)
    requires IsRun(run) && i < |run| && run[i].CompleteStep? && ReplyAt(run, i).Accepted?
    ensures Lookup(StateAt(run, i).past.issued, run[i].job) == Some(run[i].token)
    ensures run[i].job in StateAt(run, i).past.handed
    ensures Lookup(StateAt(run, i + 1).past.accepted, run[i].job) == Some(run[i].result)
  {
    RunView(run, i, run[i].job);
    hide Complete;
    AcceptNeeds(StateAt(run, i), run[i].job, run[i].token, run[i].result, run[i].now);
  }

  lemma ReplyAfterAcceptance(s: Crawler, job: JobId, token: Token, result: RunnerResult, now: int)
    requires ViewOk(ViewOf(s, job)) && job in s.past.accepted && job in s.past.issued && job in s.past.handed
    ensures Complete(s, job, token, result, now).1 ==
              if job !in s.jobs then CompleteReply.NotFound
              else if token == s.past.issued[job] then Duplicate else LeaseMismatch
  {
  }

  /**
    After a result was accepted no other is, whatever a client sends: the same token is told it is a duplicate
    while the row is kept and that the job is unknown afterwards, and any other token is refused.
  */
  lemma AcceptedAtMostOnce(run: seq<Step>, i: nat, k: nat)
    requires IsRun(run) && i < k < |run| && run[i].CompleteStep? && run[k].CompleteStep? && run[i].job == run[k].job
    requires ReplyAt(run, i).Accepted?
    ensures ReplyAt(run, k) ==
              if run[k].job !in StateAt(run, k).jobs then CompleteReply.NotFound
              else if run[k].token == run[i].token then Duplicate else LeaseMismatch
  {
    hide StateAt, Complete, ViewOk, ViewOf, IsRun;
    AcceptedUnderIssuedToken(run, i);
    RunGrows(run, i, k);
    RunGrows(run, i + 1, k);
    RunView(run, k, run[k].job);
    ReplyAfterAcceptance(StateAt(run, k), run[k].job, run[k].token, run[k].result, run[k].now);
  }
}
