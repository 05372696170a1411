/** The runner's own code: how many jobs it asks for and starts, how long a fetch may take, and how a result is sent. */
module HomeRunner {
  import opened Common
  import opened CrawlerProtocol
  import RunnerProtocol

  const LEASE_SAFETY_MARGIN_MS := 3_000

  datatype LeasedJob = LeasedJob(jobId: JobId, fetchMode: string, leaseExpiresAt: int)

  function FirstIds(jobs: seq<LeasedJob>, n: nat): seq<JobId>
    requires n <= |jobs|
  {
    seq(n, i requires 0 <= i < n => jobs[i].jobId)
  }

  function IdsOf(ids: seq<JobId>): set<JobId> {
    set j | j in ids
  }

  lemma {:induction false} IdsBound(ids: seq<JobId>)
    ensures |IdsOf(ids)| <= |ids|
  {
    if ids == [] {
      assert IdsOf(ids) == {};
    } else {
      var n := |ids| - 1;
      IdsBound(ids[..n]);
      assert ids == ids[..n] + [ids[n]];
      assert IdsOf(ids) == IdsOf(ids[..n]) + {ids[n]};
    }
  }

  /**
    A runner's lease loop and the work it starts. `asked` is the request the loop awaits: its id and the slots that
    were free for it. Every method is a step of `RunnerProtocol`, so what holds of its runners holds of this object.
  */
  class Runner {
    const concurrency: nat
    var inflight: set<JobId>
    var maintenance: bool
    var asked: Option<(CallId, nat)>

    constructor (concurrency: nat)
      ensures Value() == RunnerProtocol.Runner(concurrency, {}, None) && HasSlots() && !maintenance
    {
      this.concurrency := concurrency;
      inflight, maintenance, asked := {}, false, None;
    }

    function Value(): RunnerProtocol.Runner
      reads this
    {
      RunnerProtocol.Runner(concurrency, inflight, asked)
    }

    predicate HasSlots()
      reads this
    {
      RunnerProtocol.HasSlots(Value())
    }

    /** How many jobs the next request asks for; none is sent while the slots are full or maintenance is on. */
    method RequestLease(call: CallId) returns (max: Option<nat>)
      requires HasSlots() && asked.None?
      modifies this`asked
      ensures max.None? <==> maintenance || !RunnerProtocol.MayAsk(old(Value()))
      ensures max.None? ==> Value() == old(Value())
      ensures max.Some? ==> Value() == RunnerProtocol.Asking(old(Value()), call)
      ensures max.Some? ==> max.value > 0 && |inflight| + max.value == concurrency
      ensures HasSlots()
    {
      var free := concurrency - |inflight|;
      if free <= 0 || maintenance {
        return None;
      }
      asked := Some((call, free));
      return Some(free);
    }

    /** Starts the first of the answered jobs, as many as were asked for, even if the server sent more. */
    method DispatchAll(jobs: seq<LeasedJob>) returns (started: seq<JobId>)
      requires HasSlots() && asked.Some?
      modifies this`inflight, this`asked
      ensures started == FirstIds(jobs, Min(|jobs|, old(asked.value.1)))
      ensures RunnerProtocol.MayStart(old(Value()), IdsOf(started))
      ensures Value() == RunnerProtocol.Starting(old(Value()), IdsOf(started))
      ensures HasSlots()
    {
      var free := asked.value.1;
      var n := if |jobs| < free then |jobs| else free;
      started := [];
      for k := 0 to n
        invariant started == FirstIds(jobs, k)
        invariant inflight == old(inflight) + IdsOf(started)
      {
        inflight := inflight + {jobs[k].jobId};
        started := started + [jobs[k].jobId];
      }
      asked := None;
      IdsBound(started);
      RunnerProtocol.UnionBound(old(inflight), IdsOf(started));
    }

    /** The request failed or was aborted. */
    method LeaseFailed()
      requires HasSlots()
      modifies this`asked
      ensures Value() == RunnerProtocol.GivingUp(old(Value())) && HasSlots()
    {
      asked := None;
    }

    /** The work on a job has ended, in whatever way. */
    method Finished(job: JobId)
      requires HasSlots()
      modifies this`inflight
      ensures Value() == RunnerProtocol.Finishing(old(Value()), job) && HasSlots()
    {
      RunnerProtocol.FinishingFrees(Value(), job);
      inflight := inflight - {job};
    }
  }

  /** The time a fetch of the job may take, or none when the job is skipped. */
  function FetchBudget(job: LeasedJob, now: int, fetchTimeoutMs: int): (budget: Option<int>)
    ensures budget.Some? <==> job.fetchMode == "http" && now < job.leaseExpiresAt - 3_000
    ensures budget.Some? ==>
      && budget.value <= fetchTimeoutMs && now + budget.value <= job.leaseExpiresAt - 3_000
      && (budget.value == fetchTimeoutMs || now + budget.value == job.leaseExpiresAt - 3_000)
  {
    var remaining := job.leaseExpiresAt - now - LEASE_SAFETY_MARGIN_MS;
    if job.fetchMode != "http" || remaining <= 0 then None else Some(Min(fetchTimeoutMs, remaining))
  }

  // ----- sending a result

  datatype PostOutcome = Status(code: nat, expired: bool, duplicate: bool) | AuthRefused(code: nat) | Unreachable
  datatype Rejection = Mismatch | LeaseOver | UnknownJob | BodyTooLarge
  datatype SendOutcome =
    | Delivered(duplicate: bool)
    | Rejected(reason: Rejection)
    | HttpFailure(code: nat)
    | AuthFailure(code: nat)
    | DeliveryFailed

  predicate Retryable(p: PostOutcome) {
    p.Unreachable? || (p.Status? && p.code >= 500)
  }

  /** What a response that ends the loop means. */
  function Verdict(p: PostOutcome): SendOutcome
    requires !Retryable(p)
  {
    match p
    case AuthRefused(code) => AuthFailure(code)
    case Status(code, expired, duplicate) =>
      if code == 200 then Delivered(duplicate)
      else if code == 404 then Rejected(UnknownJob)
      else if code == 413 then Rejected(BodyTooLarge)
      else if code == 409 then Rejected(if expired then LeaseOver else Mismatch)
      else HttpFailure(code)
  }

  /**
    Sends until a response ends the loop or the delays are used up: only server errors and network errors are retried,
    each after its own delay, and the last response decides.
  */
  method SendResult(post: nat -> PostOutcome, delays: seq<nat>) returns (r: SendOutcome, posts: nat, slept: seq<nat>)
    ensures 1 <= posts <= |delays| + 1
    ensures forall k :: 0 <= k < posts - 1 ==> Retryable(post(k))
    ensures slept == delays[..posts - 1]
    ensures if Retryable(post(posts - 1)) then r == DeliveryFailed && posts == |delays| + 1
            else r == Verdict(post(posts - 1))
  {
    posts, slept := 0, [];
    while true
      invariant posts <= |delays| && slept == delays[..posts]
      invariant forall k :: 0 <= k < posts ==> Retryable(post(k))
      decreases |delays| - posts
    {
      var p := post(posts);
      posts := posts + 1;
      match p {
        case AuthRefused(code) => return AuthFailure(code), posts, slept;
        case Status(code, expired, duplicate) =>
          if code == 200 {
            return Delivered(duplicate), posts, slept;
          } else if code == 404 {
            return Rejected(UnknownJob), posts, slept;
          } else if code == 413 {
            return Rejected(BodyTooLarge), posts, slept;
          } else if code == 409 {
            return Rejected(if expired then LeaseOver else Mismatch), posts, slept;
          } else if code < 500 {
            return HttpFailure(code), posts, slept;
          }
        case Unreachable =>
      }
      if posts > |delays| {
        return DeliveryFailed, posts, slept;
      }
      slept := slept + [delays[posts - 1]];
    }
  }

  // ----- what the object's replies are to the runner

  /** How the route answers a result: the status of each reply, and what its body tells (src/api/routes/runner.ts). */
  function RouteAnswer(reply: CompleteReply): PostOutcome {
    match reply
    case Accepted => Status(200, false, false)
    case Duplicate => Status(200, false, true)
    case LeaseMismatch => Status(409, false, false)
    case LeaseExpired => Status(409, true, false)
    case TooLarge => Status(413, false, false)
    case NotFound => Status(404, false, false)
  }

  /** Each reply of the object comes through to the runner as what it says, and none is taken for a reason to retry. */
  lemma ReplyComesThrough(reply: CompleteReply)
    ensures !Retryable(RouteAnswer(reply))
    ensures Verdict(RouteAnswer(reply)) ==
              match reply
              case Accepted => Delivered(false)
              case Duplicate => Delivered(true)
              case LeaseMismatch => Rejected(Mismatch)
              case LeaseExpired => Rejected(LeaseOver)
              case TooLarge => Rejected(BodyTooLarge)
              case NotFound => Rejected(UnknownJob)
  {
  }

  /** Any other answer is an error of its own: a refused login, or a status below 500; from 500 on it is tried again. */
  lemma OtherAnswers(p: PostOutcome)
    ensures p.AuthRefused? ==> !Retryable(p) && Verdict(p) == AuthFailure(p.code)
    ensures p.Status? && p.code >= 500 ==> Retryable(p)
    ensures p.Status? && p.code < 500 && p.code !in {200, 404, 409, 413} ==>
      !Retryable(p) && Verdict(p) == HttpFailure(p.code)
  {
  }

  /**
    A result whose acceptance was lost on the way is sent again: the runner is then told that it was delivered before,
    as long as the object keeps the row.
  */
  lemma LostAcceptanceIsDuplicate(run: seq<Step>, i: nat, k: nat)
    requires IsRun(run) && i < k < |run| && run[i].CompleteStep? && run[k].CompleteStep?
    requires run[i].job == run[k].job && run[i].token == run[k].token && ReplyAt(run, i).Accepted?
    requires run[k].job in StateAt(run, k).jobs
    ensures !Retryable(RouteAnswer(ReplyAt(run, k))) && Verdict(RouteAnswer(ReplyAt(run, k))) == Delivered(true)
  {
    hide StateAt, IsRun, ReplyAt;
    AcceptedAtMostOnce(run, i, k);
    ReplyComesThrough(ReplyAt(run, k));
  }
}
