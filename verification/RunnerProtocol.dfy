/**
  Runners beside the object: each has at most one lease request out, starts the jobs of an answer it still waits for,
  and gives a slot back when work on a job ends. Requests may fail or be given up at any time and their answers are
  then never read. The object's own steps interleave freely, resets included.
*/
module RunnerProtocol {
  import opened Common
  import opened CrawlerProtocol

  datatype Runner = Runner(concurrency: nat, inflight: set<JobId>, asked: Option<(CallId, nat)>)

  datatype System = System(
    crawler: Crawler,
    answers: map<CallId, set<JobId>>,  // responses on their way
    runners: map<RunnerId, Runner>,
    calls: set<CallId>,                // request ids used so far
    started: map<JobId, nat>)          // how often a fetch of the job was started

  datatype Action =
    | Object(step: Step)
    | Ask(runner: RunnerId, call: CallId)
    | Start(runner: RunnerId, taken: set<JobId>)
    | GiveUp(runner: RunnerId)
    | Finish(runner: RunnerId, job: JobId)

  function Free(r: Runner): int {
    r.concurrency - |r.inflight|
  }

  // ----- what one runner does

  predicate MayAsk(r: Runner) {
    r.asked.None? && Free(r) > 0
  }

  /** A request for as many jobs as there are free slots is out. */
  function Asking(r: Runner, call: CallId): Runner {
    r.(asked := Some((call, Max(0, Free(r)))))
  }

  predicate MayStart(r: Runner, taken: set<JobId>) {
    r.asked.Some? && |taken| <= r.asked.value.1
  }

  function Starting(r: Runner, taken: set<JobId>): Runner {
    r.(inflight := r.inflight + taken, asked := None)
  }

  function GivingUp(r: Runner): Runner {
    r.(asked := None)
  }

  function Finishing(r: Runner, job: JobId): Runner {
    r.(inflight := r.inflight - {job})
  }

  // ----- actions of the whole system

  ghost predicate Can(s: System, a: Action) {
    match a
    case Object(step) =>
      Enabled(s.crawler, step) && (step.ClaimStep? ==> step.call in s.calls)
    case Ask(r, call) => r in s.runners && MayAsk(s.runners[r]) && call !in s.calls
    case Start(r, taken) =>
      && r in s.runners && MayStart(s.runners[r], taken)
      && s.runners[r].asked.value.0 in s.answers && taken <= s.answers[s.runners[r].asked.value.0]
    case GiveUp(r) => r in s.runners
    case Finish(r, job) => r in s.runners && job in s.runners[r].inflight
  }

  function StartsOf(started: map<JobId, nat>, j: JobId): nat {
    if j in started then started[j] else 0
  }

  function Do(s: System, a: Action): System {
    match a
    case Object(step) =>
      var after := s.(crawler := Next(s.crawler, step));
      if step.HashStep? && step.call in s.crawler.pending
      then after.(answers := s.answers[step.call := s.crawler.pending[step.call].Keys])
      else after
    case Ask(r, call) =>
      if r !in s.runners then s
      else s.(runners := s.runners[r := Asking(s.runners[r], call)], calls := s.calls + {call})
    case Start(r, taken) =>
      if r !in s.runners then s
      else s.(runners := s.runners[r := Starting(s.runners[r], taken)],
              started := map j | j in s.started.Keys + taken :: StartsOf(s.started, j) + if j in taken then 1 else 0)
    case GiveUp(r) =>
      if r !in s.runners then s else s.(runners := s.runners[r := GivingUp(s.runners[r])])
    case Finish(r, job) =>
      if r !in s.runners then s else s.(runners := s.runners[r := Finishing(s.runners[r], job)])
  }

  // ----- invariant

  predicate Asks(s: System, r: RunnerId, call: CallId) {
    r in s.runners && s.runners[r].asked.Some? && s.runners[r].asked.value.0 == call
  }

  function Reserved(r: Runner): nat {
    if r.asked.Some? then r.asked.value.1 else 0
  }

  predicate HasSlots(r: Runner) {
    |r.inflight| + Reserved(r) <= r.concurrency
  }

  /** Slots in use and slots asked for never exceed the concurrency. */
  ghost predicate SlotsOk(s: System) {
    forall r :: r in s.runners ==> HasSlots(s.runners[r])
  }

  ghost predicate CallsOk(s: System) {
    && (forall r, c :: Asks(s, r, c) ==> c in s.calls)
    && (forall r, q, c :: Asks(s, r, c) && Asks(s, q, c) ==> r == q)
    && s.answers.Keys <= s.calls && s.crawler.pending.Keys <= s.calls
  }

  /** Answers carry jobs handed out once; a job that was started once is not in an answer anyone still waits for. */
  ghost predicate AnswersOk(s: System) {
    && (forall c, j :: c in s.answers && j in s.answers[c] ==> j in s.crawler.past.handed)
    && (forall c, d, j :: c in s.answers && d in s.answers && j in s.answers[c] && j in s.answers[d] ==> c == d)
    && (forall j :: j in s.started ==> s.started[j] == 1 && j in s.crawler.past.handed)
    && (forall r, c, j :: c in s.answers && j in s.answers[c] && j in s.started ==> !Asks(s, r, c))
  }

  ghost predicate SystemInv(s: System) {
    Inv(s.crawler) && SlotsOk(s) && CallsOk(s) && AnswersOk(s)
  }

  function Idle(concurrency: map<RunnerId, nat>): System {
    System(INITIAL, map[], map r | r in concurrency :: Runner(concurrency[r], {}, None), {}, map[])
  }

  lemma IdleInv(concurrency: map<RunnerId, nat>)
    ensures SystemInv(Idle(concurrency))
  {
    InitialInv();
    hide Inv;
  }

  lemma ObjectStepKeeps(s: System, step: Step)
    requires SystemInv(s) && Can(s, Object(step))
    ensures SystemInv(Do(s, Object(step)))
  {
    hide Inv, Enabled, Next, HistoryGrows;
    StepKeepsInv(s.crawler, step);
    StepGrows(s.crawler, step);
    HandedGrow(s.crawler, step);
    PendingCalls(s.crawler, step);
    if step.HashStep? {
      AnswerIsNew(s.crawler, step.call);
    }
    var t := Do(s, Object(step));
    assert forall q, c :: Asks(t, q, c) == Asks(s, q, c);
    assert Inv(t.crawler);
    assert SlotsOk(t);
    assert CallsOk(t);
    assert AnswersOk(t);
  }

  lemma HandedGrow(s: Crawler, step: Step)
    requires HistoryGrows(s.past, Next(s, step).past)
    ensures s.past.handed <= Next(s, step).past.handed
  {
    hide Next;
  }

  lemma PendingCalls(s: Crawler, step: Step)
    ensures Next(s, step).pending.Keys <= s.pending.Keys + if step.ClaimStep? then {step.call} else {}
  {
    hide Accept;
    if step.CompleteStep? {
      CompleteHistory(s, step.job, step.token, step.result, step.now);
      hide CrawlerProtocol.Complete;
    }
  }

  lemma AnswerIsNew(s: Crawler, call: CallId)
    requires Inv(s) && Enabled(s, HashStep(call))
    ensures call in s.pending && s.pending[call].Keys !! s.past.handed
    ensures s.pending[call].Keys <= Next(s, HashStep(call)).past.handed
  {
    hide ViewOk;
  }

  /** A runner that got its answer asks no longer, and nobody else asked for the same call. */
  lemma StartedAsks(s: System, r: RunnerId, taken: set<JobId>)
    requires CallsOk(s) && Can(s, Start(r, taken))
    ensures forall q, c :: Asks(Do(s, Start(r, taken)), q, c) ==> Asks(s, q, c) && c != s.runners[r].asked.value.0
  {
    var t := Do(s, Start(r, taken));
    var call := s.runners[r].asked.value.0;
    assert Asks(s, r, call);
    forall q, c | Asks(t, q, c) ensures Asks(s, q, c) && c != call {
      assert q != r;
      assert Asks(s, q, c);
    }
  }

  lemma StartKeeps(s: System, r: RunnerId, taken: set<JobId>)
    requires SystemInv(s) && Can(s, Start(r, taken))
    ensures SystemInv(Do(s, Start(r, taken)))
    ensures taken !! s.started.Keys
  {
    hide Inv, SlotsOk, CallsOk, AnswersOk, Can, Do;
    StartKeepsSlots(s, r, taken);
    StartKeepsCalls(s, r, taken);
    StartKeepsAnswers(s, r, taken);
    OnlyRunnersStart(s, r, taken);
  }

  lemma OnlyRunnersStart(s: System, r: RunnerId, taken: set<JobId>)
    ensures Do(s, Start(r, taken)).crawler == s.crawler
  {
  }

  lemma StartKeepsSlots(s: System, r: RunnerId, taken: set<JobId>)
    requires SlotsOk(s) && Can(s, Start(r, taken))
    ensures SlotsOk(Do(s, Start(r, taken)))
  {
    UnionBound(s.runners[r].inflight, taken);
  }

  lemma StartKeepsCalls(s: System, r: RunnerId, taken: set<JobId>)
    requires CallsOk(s) && Can(s, Start(r, taken))
    ensures CallsOk(Do(s, Start(r, taken)))
  {
    StartedAsks(s, r, taken);
    hide Asks;
  }

  lemma StartKeepsAnswers(s: System, r: RunnerId, taken: set<JobId>)
    requires CallsOk(s) && AnswersOk(s) && Can(s, Start(r, taken))
    ensures AnswersOk(Do(s, Start(r, taken))) && taken !! s.started.Keys
  {
    var call := s.runners[r].asked.value.0;
    assert Asks(s, r, call) && call in s.answers && taken <= s.answers[call];
    StartedAsks(s, r, taken);
    StartCounts(s, r, taken);
    hide Asks, Do, Can, CallsOk;
    var t := Do(s, Start(r, taken));
    forall j | j in t.started ensures t.started[j] == 1 && j in t.crawler.past.handed {
      assert j in taken ==> j !in s.started;
    }
    forall q, c, j | c in t.answers && j in t.answers[c] && j in t.started ensures !Asks(t, q, c) {
      if j in taken {
        assert c == call;
      } else {
        assert !Asks(s, q, c);
      }
    }
  }

  lemma StartCounts(s: System, r: RunnerId, taken: set<JobId>)
    requires r in s.runners
    ensures var t := Do(s, Start(r, taken));
      && t.crawler == s.crawler && t.answers == s.answers && t.started.Keys == s.started.Keys + taken
      && forall j :: j in t.started ==>
           t.started[j] == (if j in s.started then s.started[j] else 0) + if j in taken then 1 else 0
  {
  }

  lemma UnionBound(a: set<JobId>, b: set<JobId>)
    ensures |a + b| <= |a| + |b|
  {
    assert a + b == a + (b - a);
    assert |b| == |b - a| + |b * a| by {
      assert b == (b - a) + (b * a);
    }
  }

  lemma FinishingFrees(r: Runner, job: JobId)
    requires HasSlots(r)
    ensures HasSlots(Finishing(r, job))
    ensures job in r.inflight ==> Free(Finishing(r, job)) == Free(r) + 1
  {
    if job in r.inflight {
      assert r.inflight == r.inflight - {job} + {job};
    } else {
      assert r.inflight - {job} == r.inflight;
    }
  }

  lemma RunnerStepKeeps(s: System, a: Action)
    requires SystemInv(s) && Can(s, a) && (a.Ask? || a.GiveUp? || a.Finish?)
    ensures SystemInv(Do(s, a))
  {
    hide Inv;
    var t := Do(s, a);
    if a.Finish? {
      FinishingFrees(s.runners[a.runner], a.job);
    }
    assert SlotsOk(t);
    assert forall q, c :: Asks(t, q, c) ==> Asks(s, q, c) || (a.Ask? && q == a.runner && c == a.call);
  }

  lemma ActionKeeps(s: System, a: Action)
    requires SystemInv(s) && Can(s, a)
    ensures SystemInv(Do(s, a))
  {
    hide SystemInv, Do;
    match a
    case Object(step) => ObjectStepKeeps(s, step);
    case Start(r, taken) => StartKeeps(s, r, taken);
    case _ => RunnerStepKeeps(s, a);
  }

  // ----- whole runs

  function SystemAt(concurrency: map<RunnerId, nat>, run: seq<Action>, n: nat): System
    requires n <= |run|
  {
    if n == 0 then Idle(concurrency) else Do(SystemAt(concurrency, run, n - 1), run[n - 1])
  }

  ghost predicate IsAction(concurrency: map<RunnerId, nat>, run: seq<Action>, i: int)
    requires 0 <= i < |run|
  {
    Can(SystemAt(concurrency, run, i), run[i])
  }

  ghost predicate IsSystemRun(concurrency: map<RunnerId, nat>, run: seq<Action>) {
    forall i :: 0 <= i < |run| ==> IsAction(concurrency, run, i)
  }

  lemma {:induction false} SystemRunKeepsInv(concurrency: map<RunnerId, nat>, run: seq<Action>, n: nat)
    requires IsSystemRun(concurrency, run) && n <= |run|
    ensures SystemInv(SystemAt(concurrency, run, n))
  {
    hide SystemInv, Do, Can;
    if n == 0 {
      IdleInv(concurrency);
    } else {
      SystemRunKeepsInv(concurrency, run, n - 1);
      assert IsAction(concurrency, run, n - 1);
      ActionKeeps(SystemAt(concurrency, run, n - 1), run[n - 1]);
    }
  }

  /** No job's fetch is ever started twice, by one runner or by two. */
  lemma StartedAtMostOnce(concurrency: map<RunnerId, nat>, run: seq<Action>, n: nat, j: JobId)
    requires IsSystemRun(concurrency, run) && n <= |run|
    ensures StartsOf(SystemAt(concurrency, run, n).started, j) <= 1
  {
    hide SystemAt, IsSystemRun;
    SystemRunKeepsInv(concurrency, run, n);
    hide Inv, SlotsOk, CallsOk;
  }

  /** A runner never works on more jobs than its concurrency, whatever it asked for and was answered. */
  lemma InflightWithinConcurrency(concurrency: map<RunnerId, nat>, run: seq<Action>, n: nat, r: RunnerId)
    requires IsSystemRun(concurrency, run) && n <= |run| && r in SystemAt(concurrency, run, n).runners
    ensures |SystemAt(concurrency, run, n).runners[r].inflight| <= SystemAt(concurrency, run, n).runners[r].concurrency
  {
    hide SystemAt, IsSystemRun;
    SystemRunKeepsInv(concurrency, run, n);
    hide Inv, AnswersOk, CallsOk;
  }

  // ----- what slots and requests say about the history

  predicate Starts(a: Action, r: RunnerId, j: JobId) {
    a.Start? && a.runner == r && j in a.taken
  }

  /** The runner has started the job, and not finished it since. */
  ghost predicate IsAtWork(run: seq<Action>, n: nat, r: RunnerId, j: JobId)
    requires n <= |run|
  {
    exists i :: 0 <= i < n && Starts(run[i], r, j) && forall m :: i < m < n ==> run[m] != Finish(r, j)
  }

  predicate EndsRequest(a: Action, r: RunnerId) {
    (a.Start? && a.runner == r) || a == GiveUp(r)
  }

  /** The runner sends this request, for every slot free. */
  predicate SendsRequest(concurrency: map<RunnerId, nat>, run: seq<Action>, i: nat, r: RunnerId, c: CallId, free: nat)
    requires i < |run|
  {
    && run[i] == Ask(r, c) && r in concurrency && r in SystemAt(concurrency, run, i).runners
    && |SystemAt(concurrency, run, i).runners[r].inflight| + free == concurrency[r]
  }

  /** It has sent it, and neither used its answer nor given up since. */
  ghost predicate IsAsking(concurrency: map<RunnerId, nat>, run: seq<Action>, n: nat, r: RunnerId, c: CallId, free: nat)
    requires n <= |run|
  {
    exists i: nat ::
      i < n && SendsRequest(concurrency, run, i, r, c, free) && forall m :: i < m < n ==> !EndsRequest(run[m], r)
  }

  lemma {:induction false} RunnersStay(concurrency: map<RunnerId, nat>, run: seq<Action>, n: nat, r: RunnerId)
    requires n <= |run| && r in concurrency
    ensures r in SystemAt(concurrency, run, n).runners
    ensures SystemAt(concurrency, run, n).runners[r].concurrency == concurrency[r]
  {
    hide Next;
    if n > 0 {
      RunnersStay(concurrency, run, n - 1, r);
    }
  }

  lemma WorkStep(run: seq<Action>, n: nat, r: RunnerId, j: JobId)
    requires n < |run|
    ensures IsAtWork(run, n + 1, r, j) <==>
      Starts(run[n], r, j) || (IsAtWork(run, n, r, j) && run[n] != Finish(r, j))
  {
    if i :| 0 <= i < n + 1 && Starts(run[i], r, j) && forall m :: i < m < n + 1 ==> run[m] != Finish(r, j) {
      assert i < n ==> IsAtWork(run, n, r, j);
    }
  }

  lemma DoInflight(s: System, a: Action, r: RunnerId, j: JobId)
    requires r in s.runners
    ensures r in Do(s, a).runners
    ensures j in Do(s, a).runners[r].inflight <==> Starts(a, r, j) || (j in s.runners[r].inflight && a != Finish(r, j))
  {
    hide Next;
  }

  /** A runner works on exactly the jobs it has started and not finished since. */
  lemma {:induction false} InflightExactly(concurrency: map<RunnerId, nat>, run: seq<Action>, n: nat, r: RunnerId,
                                           j: JobId)
    requires n <= |run| && r in concurrency
    ensures r in SystemAt(concurrency, run, n).runners
    ensures j in SystemAt(concurrency, run, n).runners[r].inflight <==> IsAtWork(run, n, r, j)
  {
    hide Do, IsAtWork, Starts;
    RunnersStay(concurrency, run, n, r);
    if n == 0 {
      NoWorkYet(run, r, j);
    } else {
      InflightExactly(concurrency, run, n - 1, r, j);
      DoInflight(SystemAt(concurrency, run, n - 1), run[n - 1], r, j);
      WorkStep(run, n - 1, r, j);
    }
  }

  lemma NoWorkYet(run: seq<Action>, r: RunnerId, j: JobId)
    ensures !IsAtWork(run, 0, r, j)
  {
  }

  lemma DoLeavesOthers(s: System, a: Action, r: RunnerId)
    requires r in s.runners && (a.Object? || a.runner != r)
    ensures r in Do(s, a).runners && Do(s, a).runners[r] == s.runners[r]
  {
    hide Next;
  }

  lemma DoOwn(s: System, a: Action)
    requires !a.Object? && a.runner in s.runners
    ensures a.runner in Do(s, a).runners
    ensures Do(s, a).runners[a.runner] ==
            match a
            case Ask(_, call) => Asking(s.runners[a.runner], call)
            case Start(_, taken) => Starting(s.runners[a.runner], taken)
            case GiveUp(_) => GivingUp(s.runners[a.runner])
            case Finish(_, job) => Finishing(s.runners[a.runner], job)
  {
  }

  lemma DoAsked(s: System, a: Action, r: RunnerId, c: CallId, free: nat)
    requires r in s.runners && HasSlots(s.runners[r]) && Can(s, a)
    ensures r in Do(s, a).runners
    ensures Do(s, a).runners[r].asked == Some((c, free)) <==>
      || (a == Ask(r, c) && |s.runners[r].inflight| + free == s.runners[r].concurrency)
      || (s.runners[r].asked == Some((c, free)) && !EndsRequest(a, r))
  {
    hide Next, Enabled, Do;
    if a.Object? || a.runner != r {
      DoLeavesOthers(s, a, r);
    } else {
      DoOwn(s, a);
    }
  }

  lemma AskingStep(concurrency: map<RunnerId, nat>, run: seq<Action>, n: nat, r: RunnerId, c: CallId, free: nat)
    requires n < |run|
    ensures IsAsking(concurrency, run, n + 1, r, c, free) <==>
      || SendsRequest(concurrency, run, n, r, c, free)
      || (IsAsking(concurrency, run, n, r, c, free) && !EndsRequest(run[n], r))
  {
    hide SendsRequest, EndsRequest;
    if i: nat :|
      && i < n + 1 && SendsRequest(concurrency, run, i, r, c, free)
      && forall m :: i < m < n + 1 ==> !EndsRequest(run[m], r)
    {
      assert i < n ==> IsAsking(concurrency, run, n, r, c, free);
    }
  }

  /** In every run a runner waits for exactly the request it sent last, if it neither used the answer nor gave up. */
  lemma {:induction false} AskedExactly(concurrency: map<RunnerId, nat>, run: seq<Action>, n: nat, r: RunnerId,
                                        c: CallId, free: nat)
    requires IsSystemRun(concurrency, run) && n <= |run| && r in concurrency
    ensures r in SystemAt(concurrency, run, n).runners
    ensures SystemAt(concurrency, run, n).runners[r].asked == Some((c, free)) <==>
      IsAsking(concurrency, run, n, r, c, free)
  {
    hide Do, Can, IsAsking, EndsRequest, HasSlots, IsSystemRun;
    RunnersStay(concurrency, run, n, r);
    if n == 0 {
      NoRequestYet(concurrency, run, r, c, free);
    } else {
      AskedExactly(concurrency, run, n - 1, r, c, free);
      RunnersStay(concurrency, run, n - 1, r);
      SlotsAt(concurrency, run, n - 1, r);
      DoAsked(SystemAt(concurrency, run, n - 1), run[n - 1], r, c, free);
      AskingStep(concurrency, run, n - 1, r, c, free);
    }
  }

  lemma SlotsAt(concurrency: map<RunnerId, nat>, run: seq<Action>, n: nat, r: RunnerId)
    requires IsSystemRun(concurrency, run) && n < |run| && r in SystemAt(concurrency, run, n).runners
    ensures HasSlots(SystemAt(concurrency, run, n).runners[r])
    ensures Can(SystemAt(concurrency, run, n), run[n])
  {
    hide SystemAt, Inv, CallsOk, AnswersOk, HasSlots, Can;
    SystemRunKeepsInv(concurrency, run, n);
    assert IsAction(concurrency, run, n);
  }

  lemma NoRequestYet(concurrency: map<RunnerId, nat>, run: seq<Action>, r: RunnerId, c: CallId, free: nat)
    ensures !IsAsking(concurrency, run, 0, r, c, free)
  {
  }
}
