/**
  The object that runs the lease protocol, with the fields the source gives it. Every method leaves exactly the state
  the step of `CrawlerProtocol` describes, so each invariant and run-wide result proved there holds of this object.
  The half of a claim that follows the await is a method of its own, as other calls may run in between.
*/
module CrawlerObjects {
  import opened Common
  import opened CrawlerProtocol

  datatype SubmitReply = Immediately(outcome: SubmitOutcome) | InsertFailed | Waiting

  lemma ResolutionsOneMore(outcomes: map<JobId, SubmitOutcome>, waiters: set<JobId>, done: set<JobId>, j: JobId,
                           outcome: SubmitOutcome)
    requires j !in done
    ensures outcomes + Resolutions(waiters, done, outcome) + Resolutions(waiters - done, {j}, outcome)
         == outcomes + Resolutions(waiters, done + {j}, outcome)
  {
  }

  lemma ExpireOneMore(s: Crawler, done: set<JobId>, j: JobId, stage: Stage, now: int)
    requires j !in done && InStage(s, j, stage)
    ensures ExpireJob(ExpireAll(s, done, stage, now), j, stage, now) == ExpireAll(s, done + {j}, stage, now)
  {
    var a := ExpireJob(ExpireAll(s, done, stage, now), j, stage, now);
    var b := ExpireAll(s, done + {j}, stage, now);
    hide Resolutions;
    ResolutionsOneMore(s.past.outcomes, s.waiters, done, j, TimeoutOf(stage));
    CloseOneMore(s, done, j, now);
    assert a.jobs == b.jobs;
    assert a.events == b.events;
    assert a.waiters == b.waiters && a.queueTimers == b.queueTimers && a.resultTimers == b.resultTimers;
    assert a.past.expired == b.past.expired;
  }

  lemma CloseOneMore(s: Crawler, done: set<JobId>, j: JobId, now: int)
    ensures var mid := Close(s, done, Expired, now);
      Close(mid, {j}, Expired, now).jobs == Close(s, done + {j}, Expired, now).jobs
  {
  }

  lemma ExpireNone(s: Crawler, stage: Stage, now: int)
    ensures ExpireAll(s, {}, stage, now) == s
  {
    var t := ExpireAll(s, {}, stage, now);
    assert t.jobs == s.jobs && t.events == s.events && t.past.outcomes == s.past.outcomes;
    assert t.waiters == s.waiters && t.queueTimers == s.queueTimers && t.resultTimers == s.resultTimers;
  }

  lemma DeadlinesOneMore(timers: map<JobId, int>, jobs: map<JobId, JobRow>, mid: map<JobId, JobRow>, done: set<JobId>,
                         j: JobId, now: int)
    requires j !in done && j in jobs && j in mid && mid[j] == jobs[j]
    ensures timers + ResultDeadlines(jobs, done, now) + ResultDeadlines(mid, {j}, now)
         == timers + ResultDeadlines(jobs, done + {j}, now)
  {
  }

  lemma DeadlinesOne(timers: map<JobId, int>, jobs: map<JobId, JobRow>, j: JobId, now: int)
    requires j in jobs
    ensures timers + ResultDeadlines(jobs, {j}, now) == timers[j := now + jobs[j].resultWaitMs]
  {
  }

  lemma LeaseOneMoreTimers(s: Crawler, runner: RunnerId, now: int, done: set<JobId>, j: JobId)
    requires j in s.jobs && j !in done
    ensures var mid := LeaseAll(s, runner, now, done);
            LeaseAll(mid, runner, now, {j}).resultTimers == LeaseAll(s, runner, now, done + {j}).resultTimers
  {
    hide ResultDeadlines;
    DeadlinesOneMore(s.resultTimers, s.jobs, LeaseAll(s, runner, now, done).jobs, done, j, now);
  }

  lemma LeaseOneMoreJobs(s: Crawler, runner: RunnerId, now: int, done: set<JobId>, j: JobId)
    requires j in s.jobs && j !in done
    ensures var mid := LeaseAll(s, runner, now, done);
            LeaseAll(mid, runner, now, {j}).jobs == LeaseAll(s, runner, now, done + {j}).jobs
    ensures j in LeaseAll(s, runner, now, done).jobs
  {
  }

  lemma LeaseOneMore(s: Crawler, runner: RunnerId, now: int, done: set<JobId>, j: JobId)
    requires j in s.jobs && j !in done
    ensures j in LeaseAll(s, runner, now, done).jobs
    ensures LeaseAll(LeaseAll(s, runner, now, done), runner, now, {j}) == LeaseAll(s, runner, now, done + {j})
  {
    LeaseOneMoreTimers(s, runner, now, done, j);
    LeaseOneMoreJobs(s, runner, now, done, j);
    assert s.queueTimers - done - {j} == s.queueTimers - (done + {j});
  }

  // ----- which jobs a claim picks

  predicate IsQueuedFor(s: Crawler, fetchModes: seq<string>, j: JobId) {
    j in s.jobs && s.jobs[j].state.Queued? && s.jobs[j].fetchMode in fetchModes
  }

  ghost predicate IsOldestFirst(s: Crawler, rows: seq<JobId>) {
    forall i, k :: 0 <= i < k < |rows| && rows[i] in s.jobs && rows[k] in s.jobs ==>
      s.jobs[rows[i]].createdAt <= s.jobs[rows[k]].createdAt
  }

  /** What the query answers: the queued rows of these fetch modes, each once, by the time of their submission. */
  ghost predicate IsAnswer(s: Crawler, fetchModes: seq<string>, rows: seq<JobId>) {
    NoDuplicates(rows) && IsOldestFirst(s, rows) && forall j :: j in rows <==> IsQueuedFor(s, fetchModes, j)
  }

  function WithWaiters(rows: seq<JobId>, waiters: set<JobId>): seq<JobId> {
    if rows == [] then []
    else (if rows[0] in waiters then [rows[0]] else []) + WithWaiters(rows[1..], waiters)
  }

  function Candidates(rows: seq<JobId>, waiters: set<JobId>, max: nat): seq<JobId> {
    WithWaiters(rows, waiters)[..Min(max, |WithWaiters(rows, waiters)|)]
  }

  lemma {:induction false} WithWaitersMembers(rows: seq<JobId>, waiters: set<JobId>, j: JobId)
    ensures j in WithWaiters(rows, waiters) <==> j in rows && j in waiters
  {
    if rows != [] {
      WithWaitersMembers(rows[1..], waiters, j);
      assert rows == [rows[0]] + rows[1..];
    }
  }

  /** Leaving out jobs without a waiter keeps the order and repeats nothing. */
  lemma {:induction false} WithWaitersKeeps(s: Crawler, rows: seq<JobId>, waiters: set<JobId>)
    requires NoDuplicates(rows) && IsOldestFirst(s, rows)
    ensures NoDuplicates(WithWaiters(rows, waiters)) && IsOldestFirst(s, WithWaiters(rows, waiters))
  {
    if rows != [] {
      var rest := WithWaiters(rows[1..], waiters);
      WithWaitersKeeps(s, rows[1..], waiters);
      forall k | 0 <= k < |rest| ensures rest[k] != rows[0]
        ensures rest[k] in s.jobs && rows[0] in s.jobs ==> s.jobs[rows[0]].createdAt <= s.jobs[rest[k]].createdAt
      {
        WithWaitersMembers(rows[1..], waiters, rest[k]);
        var m :| 0 <= m < |rows[1..]| && rows[1..][m] == rest[k];
        assert rows[m + 1] == rest[k];
      }
    }
  }

  function Members(rows: seq<JobId>): set<JobId> {
    set j | j in rows
  }

  lemma NoMembers()
    ensures Members([]) == {}
  {
  }

  lemma IsMember(rows: seq<JobId>, i: nat)
    requires i < |rows|
    ensures rows[i] in Members(rows)
  {
  }

  lemma MembersOneMore(rows: seq<JobId>, i: nat)
    requires i < |rows|
    ensures Members(rows[..i + 1]) == Members(rows[..i]) + {rows[i]}
    ensures NoDuplicates(rows) ==> rows[i] !in Members(rows[..i])
  {
    assert rows[..i + 1] == rows[..i] + [rows[i]];
  }

  lemma {:induction false} SizeOfNoDuplicates(rows: seq<JobId>)
    requires NoDuplicates(rows)
    ensures |Members(rows)| == |rows|
  {
    if rows == [] {
      assert Members(rows) == {};
    } else {
      var n := |rows| - 1;
      SizeOfNoDuplicates(rows[..n]);
      MembersOneMore(rows, n);
      hide Members;
      assert rows[..n + 1] == rows;
    }
  }

  lemma BeyondTheCut(rows: seq<JobId>, n: nat, j: JobId) returns (k: nat)
    requires n <= |rows| && j in rows && j !in rows[..n]
    ensures n <= k < |rows| && rows[k] == j
  {
    assert rows == rows[..n] + rows[n..];
    var m :| 0 <= m < |rows[n..]| && rows[n..][m] == j;
    k := n + m;
  }

  /** The filter and the cut over the query's answer pick the oldest eligible jobs, as many as asked for. */
  lemma CandidatesAreSelection(s: Crawler, fetchModes: seq<string>, rows: seq<JobId>, max: nat)
    requires IsAnswer(s, fetchModes, rows)
    ensures NoDuplicates(Candidates(rows, s.waiters, max))
    ensures IsSelection(s, fetchModes, max, Members(Candidates(rows, s.waiters, max)))
  {
    var all := WithWaiters(rows, s.waiters);
    var some := Candidates(rows, s.waiters, max);
    WithWaitersKeeps(s, rows, s.waiters);
    SizeOfNoDuplicates(some);
    var picked := Members(some);
    forall j | j in picked ensures Eligible(s, fetchModes, j) {
      WithWaitersMembers(rows, s.waiters, j);
      assert IsQueuedFor(s, fetchModes, j);
    }
    forall j | Eligible(s, fetchModes, j) && j !in picked
      ensures |picked| == max && forall p :: p in picked ==> s.jobs[p].createdAt <= s.jobs[j].createdAt
    {
      assert IsQueuedFor(s, fetchModes, j);
      WithWaitersMembers(rows, s.waiters, j);
      var k := BeyondTheCut(all, |some|, j);
      forall p | p in picked ensures s.jobs[p].createdAt <= s.jobs[j].createdAt {
        var m :| 0 <= m < |some| && some[m] == p;
        assert all[m] == p && p in s.jobs;
      }
    }
  }

  lemma SelectionHasRows(s: Crawler, fetchModes: seq<string>, max: nat, picked: set<JobId>)
    requires IsSelection(s, fetchModes, max, picked)
    ensures picked <= s.jobs.Keys
  {
    forall j | j in picked ensures j in s.jobs {
      assert Eligible(s, fetchModes, j);
    }
  }

  lemma LeaseLeaves(s: Crawler, runner: RunnerId, now: int, picked: set<JobId>)
    ensures LeaseAll(s, runner, now, picked).pending == s.pending && LeaseAll(s, runner, now, picked).past == s.past
  {
  }

  lemma NoModesNoJobs(s: Crawler, max: nat)
    ensures IsSelection(s, [], max, {})
  {
  }

  lemma LeaseNone(s: Crawler, runner: RunnerId, now: int)
    ensures LeaseAll(s, runner, now, {}) == s
  {
    var t := LeaseAll(s, runner, now, {});
    assert t.jobs == s.jobs && t.queueTimers == s.queueTimers && t.resultTimers == s.resultTimers;
  }

  lemma ResolutionsOne(outcomes: map<JobId, SubmitOutcome>, waiters: set<JobId>, job: JobId, outcome: SubmitOutcome)
    ensures outcomes + Resolutions(waiters, {job}, outcome)
      == if job in waiters then outcomes[job := outcome] else outcomes
  {
  }

  lemma ResolveOne(s: Crawler, job: JobId, outcome: SubmitOutcome)
    ensures Resolve(s, {job}, outcome)
         == if job !in s.waiters then s
            else s.(waiters := s.waiters - {job}, past := s.past.(outcomes := s.past.outcomes[job := outcome]))
  {
    ResolutionsOne(s.past.outcomes, s.waiters, job, outcome);
    hide Resolutions;
    if job !in s.waiters {
      assert s.waiters - {job} == s.waiters;
    }
  }

  class CrawlerObject {
    var jobs: map<JobId, JobRow>
    var events: seq<EventRow>
    var waiters: set<JobId>
    var queueTimers: map<JobId, int>
    var resultTimers: map<JobId, int>
    var pending: map<CallId, map<JobId, Token>>
    ghost var past: History

    ghost function State(): Crawler
      reads this
    {
      Crawler(jobs, events, waiters, queueTimers, resultTimers, pending, past)
    }

    constructor ()
      ensures State() == INITIAL
    {
      jobs, events, waiters, queueTimers, resultTimers, pending := map[], [], {}, map[], map[], map[];
      past := INITIAL.past;
    }

    method ClearTimers(job: JobId)
      modifies this`queueTimers, this`resultTimers
      ensures queueTimers == old(queueTimers) - {job} && resultTimers == old(resultTimers) - {job}
    {
      queueTimers := queueTimers - {job};
      resultTimers := resultTimers - {job};
    }

    method RecordEvent(kind: EventKind, now: int)
      modifies this`events
      ensures State() == Record(old(State()), kind, now)
    {
      events := events + [EventRow(now, kind)];
    }

    method ResolveWaiter(job: JobId, outcome: SubmitOutcome)
      modifies this`waiters, this`past
      ensures State() == Resolve(old(State()), {job}, outcome)
    {
      ResolveOne(State(), job, outcome);
      hide Resolve;
      if job !in waiters {
        return;
      }
      waiters := waiters - {job};
      past := past.(outcomes := past.outcomes[job := outcome]);
    }

    method ExpireJob(job: JobId, stage: Stage, now: int)
      modifies this
      ensures State() == CrawlerProtocol.ExpireJob(old(State()), job, stage, now)
    {
      var fromState := if stage.LeaseStage? then Queued else Leased;
      if job !in jobs || jobs[job].state != fromState {
        return;
      }
      ghost var before := State();
      jobs := jobs[job := jobs[job].(state := Expired, terminalAt := Some(now))];
      ClearTimers(job);
      assert State() == Close(before, {job}, Expired, now);
      RecordEvent(ExpiredEvent, now);
      ResolveWaiter(job, TimeoutOf(stage));
      past := past.(expired := past.expired + {job});
      assert State() == ExpireAll(before, {job}, stage, now) by {
        assert State().events == before.events + seq(1, _ => EventRow(now, ExpiredEvent));
      }
    }

    method SubmitAndWait(job: JobId, fetchMode: string, maxBytes: nat, maintenance: bool, alive: bool,
                         now: int, leaseWaitMs: int, resultWaitMs: int) returns (reply: SubmitReply)
      modifies this
      ensures reply ==
                if maintenance then Immediately(Unavailable(Maintenance))
                else if !alive then Immediately(Unavailable(RunnerOffline))
                else if job in old(jobs) then InsertFailed
                else Waiting
      ensures State() == if reply.Waiting?
                         then Submit(old(State()), job, fetchMode, maxBytes, now, leaseWaitMs, resultWaitMs)
                         else old(State())
    {
      if maintenance {
        return Immediately(Unavailable(Maintenance));
      }
      if !alive {
        return Immediately(Unavailable(RunnerOffline));
      }
      if job in jobs {
        return InsertFailed;  // the primary key refuses the row
      }
      jobs := jobs[job := JobRow(fetchMode, maxBytes, Queued, None, None, now, now + leaseWaitMs,
                                 resultWaitMs, None, None)];
      waiters := waiters + {job};
      queueTimers := queueTimers[job := now + leaseWaitMs];
      past := past.(submitted := past.submitted[job := Submission(now, leaseWaitMs, resultWaitMs)]);
      return Waiting;
    }

    method LeaseOne(j: JobId, runner: RunnerId, now: int)
      requires j in jobs
      modifies this`jobs, this`queueTimers, this`resultTimers
      ensures State() == LeaseAll(old(State()), runner, now, {j})
    {
      hide ResultDeadlines;
      var expiresAt := now + jobs[j].resultWaitMs;
      DeadlinesOne(resultTimers, jobs, j, now);
      jobs := jobs[j := jobs[j].(state := Leased, runnerId := Some(runner), leaseDeadline := Some(expiresAt))];
      queueTimers := queueTimers - {j};
      resultTimers := resultTimers[j := expiresAt];
    }

    method LeaseEach(candidates: seq<JobId>, runner: RunnerId, now: int, generate: JobId -> Token)
      returns (grant: map<JobId, Token>)
      requires NoDuplicates(candidates) && Members(candidates) <= jobs.Keys
      modifies this`jobs, this`queueTimers, this`resultTimers
      ensures State() == LeaseAll(old(State()), runner, now, Members(candidates))
      ensures grant.Keys == Members(candidates) && forall j :: j in grant ==> grant[j] == generate(j)
    {
      hide LeaseAll, Members;
      ghost var before := State();
      LeaseNone(before, runner, now);
      NoMembers();
      grant := map[];
      assert candidates[..0] == [];
      for i := 0 to |candidates|
        invariant grant.Keys == Members(candidates[..i])
        invariant forall j :: j in grant ==> grant[j] == generate(j)
        invariant State() == LeaseAll(before, runner, now, Members(candidates[..i]))
      {
        var j := candidates[i];
        MembersOneMore(candidates, i);
        IsMember(candidates, i);
        LeaseOneMore(before, runner, now, Members(candidates[..i]), j);
        LeaseOne(j, runner, now);
        grant := grant[j := generate(j)];
      }
      assert candidates[..|candidates|] == candidates;
    }

    /** The grant is kept until its hashes are there. */
    method Issued(call: CallId, grant: map<JobId, Token>)
      modifies this`pending, this`past
      ensures State() == old(State()).(pending := old(pending)[call := grant],
                                       past := old(past).(issued := old(past).issued + grant))
    {
      pending := pending[call := grant];
      past := past.(issued := past.issued + grant);
    }

    /** Up to the await: what the query answered is filtered and cut, and each job leased under a new token. */
    method BeginClaim(call: CallId, runner: RunnerId, fetchModes: seq<string>, max: nat, now: int,
                      rows: seq<JobId>, generate: JobId -> Token) returns (grant: map<JobId, Token>)
      requires IsAnswer(State(), fetchModes, rows)
      modifies this
      ensures fetchModes == [] ==> grant == map[] && State() == old(State())
      ensures fetchModes != [] ==> State() == ClaimRows(old(State()), call, runner, now, grant)
      ensures IsSelection(old(State()), fetchModes, max, grant.Keys)
      ensures forall j :: j in grant ==> grant[j] == generate(j)
    {
      hide LeaseAll, IsSelection, Candidates, Members, IsAnswer;
      ghost var before := State();
      if fetchModes == [] {
        NoModesNoJobs(before, max);
        grant := map[];
        assert grant.Keys == {};
        return;
      }
      CandidatesAreSelection(before, fetchModes, rows, max);
      var candidates := Candidates(rows, waiters, max);
      SelectionHasRows(before, fetchModes, max, Members(candidates));
      grant := LeaseEach(candidates, runner, now, generate);
      LeaseLeaves(before, runner, now, Members(candidates));
      Issued(call, grant);
    }

    /** After the await: the rows get their hashes and the jobs leave with their tokens. */
    method FinishClaim(call: CallId) returns (leased: map<JobId, Token>)
      requires call in pending
      modifies this
      ensures State() == StoreHashes(old(State()), call)
      ensures leased == old(pending)[call]
    {
      ghost var before := State();
      leased := pending[call];
      var rest := leased.Keys;
      while rest != {}
        decreases rest
        invariant rest <= leased.Keys
        invariant jobs == map j | j in before.jobs ::
                            if j in leased && j !in rest
                            then before.jobs[j].(tokenHash := Some(Sha256(leased[j])))
                            else before.jobs[j]
        invariant State() == before.(jobs := jobs)
      {
        var j :| j in rest;
        rest := rest - {j};
        if j in jobs {
          jobs := jobs[j := jobs[j].(tokenHash := Some(Sha256(leased[j])))];
        }
      }
      pending := pending - {call};
      past := past.(handed := past.handed + leased.Keys);
      assert jobs == StoreHashes(before, call).jobs;
    }

    method Complete(job: JobId, token: Token, result: RunnerResult, now: int) returns (reply: CompleteReply)
      modifies this
      ensures (State(), reply) == CrawlerProtocol.Complete(old(State()), job, token, result, now)
    {
      var presented := Sha256(token);
      if job !in jobs {
        return CompleteReply.NotFound;
      }
      var row := jobs[job];
      if row.tokenHash.None? || row.tokenHash.value != presented {
        RecordEvent(RejectedEvent, now);
        return LeaseMismatch;
      }
      if row.state.Completed? {
        return Duplicate;
      }
      if !row.state.Leased? {
        RecordEvent(RejectedEvent, now);
        return LeaseExpired;
      }
      if result.Response? {
        if result.bodyLength > MaxBase64Length(row.maxBytes) {
          RecordEvent(RejectedEvent, now);
          return CompleteReply.TooLarge;
        }
      }
      ghost var before := State();
      jobs := jobs[job := row.(state := Completed, terminalAt := Some(now))];
      ClearTimers(job);
      assert State() == Close(before, {job}, Completed, now);
      RecordEvent(CompletedEvent, now);
      ResolveWaiter(job, Result(result));
      past := past.(accepted := past.accepted[job := result]);
      assert State() == Accept(before, job, result, now);
      return Accepted;
    }

    method ExpireLate(stage: Stage, now: int)
      modifies this
      ensures State() == ExpireAll(old(State()), Late(old(State()), stage, now), stage, now)
    {
      hide ExpireAll, CrawlerProtocol.ExpireJob;
      ghost var before := State();
      var late := set j | j in jobs && jobs[j].state == (if stage.LeaseStage? then Queued else Leased) &&
                          (if stage.LeaseStage? then jobs[j].queueDeadline <= now
                           else jobs[j].leaseDeadline.Some? && jobs[j].leaseDeadline.value <= now);
      assert late == Late(before, stage, now);
      var rest := late;
      ExpireNone(before, stage, now);
      assert late - rest == {};
      while rest != {}
        decreases rest
        invariant rest <= late
        invariant State() == ExpireAll(before, late - rest, stage, now)
      {
        var j :| j in rest;
        ExpireOneMore(before, late - rest, j, stage, now);
        assert late - rest + {j} == late - (rest - {j});
        rest := rest - {j};
        ExpireJob(j, stage, now);
      }
      assert late - rest == late;
    }

    method Alarm(now: int)
      modifies this
      ensures State() == CrawlerProtocol.Alarm(old(State()), now)
    {
      hide ExpireAll;
      ExpireLate(LeaseStage, now);
      ExpireLate(ResultStage, now);
      ghost var before := State();
      var overripe := set j | j in jobs && jobs[j].terminalAt.Some? &&
                              jobs[j].terminalAt.value <= now - TERMINAL_RETENTION_MS;
      assert overripe == Overripe(before, now);
      jobs := jobs - overripe;
      events := KeepSince(events, now - STATS_WINDOW_MS);
      past := past.(purged := past.purged + overripe);
    }

    /** The runtime evicts the object: its memory is lost and its tables stay. */
    method Evict()
      modifies this
      ensures State() == Reset(old(State()))
    {
      past := past.(lost := past.lost + waiters);
      waiters, queueTimers, resultTimers, pending := {}, map[], map[], map[];
    }
  }
}
