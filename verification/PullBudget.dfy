/**
  How long one check may wait for the Home Runner (src/pipeline/fetchTarget.ts). The waits of all its fetches share one
  budget, which must end before the lease the check holds on the host does.
*/
module PullBudget {
  import opened Common
  import CrawlerProtocol
  import CrawlerTiming
  import FetchPolicy
  import HostLimiter

  const PULL_WAIT_BUDGET_MS := 55_000
  const MIN_PULL_WAIT_MS := 5_000

  datatype Budget = Budget(usedMs: int, unavailable: set<string>)

  const FULL_BUDGET := Budget(0, {})

  function Remaining(s: Budget): int {
    PULL_WAIT_BUDGET_MS - s.usedMs
  }

  function LeaseWaitMs(s: Budget): int {
    Min(10_000, Remaining(s) / 5)
  }

  function ResultWaitMs(s: Budget): int {
    Min(40_000, Remaining(s) - LeaseWaitMs(s))
  }

  /**
    One call of a fetcher: whether it waits for a pulling executor, what running it returns, and how long that takes.
  */
  datatype Fetch = Fetch(fetcherId: string, isPull: bool, ran: FetchPolicy.Outcome, tookMs: nat)

  predicate IsCalled(s: Budget, f: Fetch) {
    f.fetcherId !in s.unavailable && !(f.isPull && Remaining(s) < MIN_PULL_WAIT_MS)
  }

  function Answer(s: Budget, f: Fetch): FetchPolicy.Outcome {
    if IsCalled(s, f) then f.ran else FetchPolicy.Failure(ExecutorUnavailable)
  }

  function WaitMs(s: Budget, f: Fetch): nat {
    if f.isPull && IsCalled(s, f) then f.tookMs else 0
  }

  function Next(s: Budget, f: Fetch): Budget {
    Budget(s.usedMs + WaitMs(s, f),
           if Answer(s, f) == FetchPolicy.Failure(ExecutorUnavailable) then s.unavailable + {f.fetcherId}
           else s.unavailable)
  }

  class CheckContext {
    var pullWaitUsedMs: int
    var unavailableFetchers: set<string>

    constructor ()
      ensures Value() == FULL_BUDGET
    {
      pullWaitUsedMs, unavailableFetchers := 0, {};
    }

    function Value(): Budget
      reads this
    {
      Budget(pullWaitUsedMs, unavailableFetchers)
    }

    /**
      `ran` and `tookMs` are what the fetcher would return and need; the limits are those a pull job is submitted with.
    */
    method ExecuteFetcher(fetcherId: string, isPull: bool, ran: FetchPolicy.Outcome, tookMs: nat)
      returns (outcome: FetchPolicy.Outcome, submitLimits: Option<(int, int)>)
      modifies this
      ensures Value() == Next(old(Value()), Fetch(fetcherId, isPull, ran, tookMs))
      ensures outcome == Answer(old(Value()), Fetch(fetcherId, isPull, ran, tookMs))
      ensures submitLimits.Some? <==> isPull && IsCalled(old(Value()), Fetch(fetcherId, isPull, ran, tookMs))
      ensures submitLimits.Some? ==> submitLimits.value == (LeaseWaitMs(old(Value())), ResultWaitMs(old(Value())))
    {
      var remaining := PULL_WAIT_BUDGET_MS - pullWaitUsedMs;
      var leaseWaitMs := Min(10_000, remaining / 5);
      var elapsed := 0;
      submitLimits := None;
      if fetcherId in unavailableFetchers {
        outcome := FetchPolicy.Failure(ExecutorUnavailable);
      } else if isPull && remaining < MIN_PULL_WAIT_MS {
        outcome := FetchPolicy.Failure(ExecutorUnavailable);
      } else {
        if isPull { submitLimits := Some((leaseWaitMs, Min(40_000, remaining - leaseWaitMs))); }
        outcome, elapsed := ran, tookMs;
      }
      if isPull { pullWaitUsedMs := pullWaitUsedMs + elapsed; }
      if outcome.Failure? && outcome.failureClass == ExecutorUnavailable {
        unavailableFetchers := unavailableFetchers + {fetcherId};
      }
    }
  }

  // ----- over a whole check

  function StateAt(calls: seq<Fetch>, n: nat): Budget
    requires n <= |calls|
  {
    if n == 0 then FULL_BUDGET else Next(StateAt(calls, n - 1), calls[n - 1])
  }

  function TotalWaitMs(calls: seq<Fetch>, n: nat): nat
    requires n <= |calls|
  {
    if n == 0 then 0 else TotalWaitMs(calls, n - 1) + WaitMs(StateAt(calls, n - 1), calls[n - 1])
  }

  /**
    The wait is one that took place in a timely run of the crawler object: the job was submitted with the limits left,
    and its submitter was still waiting when step `i` of that run came.
  */
  ghost predicate TookPlace(s: Budget, f: Fetch, run: seq<CrawlerProtocol.Step>, i: nat, job: CrawlerProtocol.JobId) {
    && CrawlerProtocol.IsRun(run) && CrawlerTiming.IsTimely(run) && i < |run|
    && var c := CrawlerProtocol.StateAt(run, i);
    && job in c.waiters && job in c.past.submitted
    && c.past.submitted[job].leaseWaitMs == LeaseWaitMs(s)
    && c.past.submitted[job].resultWaitMs == ResultWaitMs(s)
    && CrawlerTiming.TimeOf(run[i]) == Some(c.past.submitted[job].at + f.tookMs)
  }

  ghost predicate IsCheck(calls: seq<Fetch>) {
    forall n :: 0 <= n < |calls| && calls[n].isPull && IsCalled(StateAt(calls, n), calls[n]) ==>
      exists run, i, job :: TookPlace(StateAt(calls, n), calls[n], run, i, job)
  }

  lemma LimitsFit(s: Budget)
    requires Remaining(s) >= MIN_PULL_WAIT_MS
    ensures 0 < LeaseWaitMs(s) && 0 < ResultWaitMs(s) && LeaseWaitMs(s) + ResultWaitMs(s) <= Remaining(s)
  {
  }

  lemma WaitFits(s: Budget, f: Fetch, run: seq<CrawlerProtocol.Step>, i: nat, job: CrawlerProtocol.JobId)
    requires Remaining(s) >= MIN_PULL_WAIT_MS && TookPlace(s, f, run, i, job)
    ensures f.tookMs <= Remaining(s)
  {
    hide CrawlerProtocol.IsRun, CrawlerTiming.IsTimely, CrawlerProtocol.StateAt;
    CrawlerTiming.WaitIsBounded(run, i, job);
    LimitsFit(s);
  }

  lemma EachWaitFits(calls: seq<Fetch>, n: nat)
    requires IsCheck(calls) && n < |calls| && calls[n].isPull && IsCalled(StateAt(calls, n), calls[n])
    ensures calls[n].tookMs <= Remaining(StateAt(calls, n))
  {
    hide TookPlace, StateAt;
    var run, i, job :| TookPlace(StateAt(calls, n), calls[n], run, i, job);
    WaitFits(StateAt(calls, n), calls[n], run, i, job);
  }

  /** All the waits of one check together end while its lease on the host still runs. */
  lemma {:induction false} BudgetHolds(calls: seq<Fetch>, n: nat)
    requires IsCheck(calls) && n <= |calls|
    ensures TotalWaitMs(calls, n) == StateAt(calls, n).usedMs <= PULL_WAIT_BUDGET_MS < HostLimiter.LEASE_TTL_MS
  {
    hide IsCheck;
    if n > 0 {
      BudgetHolds(calls, n - 1);
      if calls[n - 1].isPull && IsCalled(StateAt(calls, n - 1), calls[n - 1]) {
        EachWaitFits(calls, n - 1);
      }
    }
  }

  lemma {:induction false} UnavailableStays(calls: seq<Fetch>, i: nat, n: nat)
    requires i <= n <= |calls|
    ensures StateAt(calls, i).unavailable <= StateAt(calls, n).unavailable
  {
    if i < n {
      UnavailableStays(calls, i, n - 1);
    }
  }

  /** A fetcher that once answered that its executor is unavailable is not run again in this check. */
  lemma UnavailableIsNotRetried(calls: seq<Fetch>, i: nat, k: nat)
    requires i < k < |calls| && calls[i].fetcherId == calls[k].fetcherId
    requires Answer(StateAt(calls, i), calls[i]) == FetchPolicy.Failure(ExecutorUnavailable)
    ensures !IsCalled(StateAt(calls, k), calls[k])
    ensures Answer(StateAt(calls, k), calls[k]) == FetchPolicy.Failure(ExecutorUnavailable)
  {
    assert calls[i].fetcherId in StateAt(calls, i + 1).unavailable;
    UnavailableStays(calls, i + 1, k);
  }

  /**
    The limits a pull job is submitted with are the largest whole numbers that leave room: to be leased at most 10 s and
    a fifth of what is left of 55 s, and for the result at most 40 s and the rest.
  */
  lemma LimitsExactly(s: Budget)
    ensures var lease, left := LeaseWaitMs(s), 55_000 - s.usedMs;
      lease <= 10_000 && 5 * lease <= left && (lease == 10_000 || left < 5 * (lease + 1))
    ensures var used, left := LeaseWaitMs(s) + ResultWaitMs(s), 55_000 - s.usedMs;
      ResultWaitMs(s) <= 40_000 && used <= left && (ResultWaitMs(s) == 40_000 || used == left)
  {
  }

  ghost predicate WasUnavailable(calls: seq<Fetch>, n: nat, fetcherId: string)
    requires n <= |calls|
  {
    exists i :: 0 <= i < n && calls[i].fetcherId == fetcherId
             && Answer(StateAt(calls, i), calls[i]) == FetchPolicy.Failure(ExecutorUnavailable)
  }

  lemma {:induction false} StateExactly(calls: seq<Fetch>, n: nat, fetcherId: string)
    requires n <= |calls|
    ensures fetcherId in StateAt(calls, n).unavailable <==> WasUnavailable(calls, n, fetcherId)
    ensures TotalWaitMs(calls, n) == StateAt(calls, n).usedMs
  {
    hide Answer, WaitMs;
    if n > 0 {
      StateExactly(calls, n - 1, fetcherId);
      var isNow := calls[n - 1].fetcherId == fetcherId
        && Answer(StateAt(calls, n - 1), calls[n - 1]) == FetchPolicy.Failure(ExecutorUnavailable);
      assert WasUnavailable(calls, n, fetcherId) <==> WasUnavailable(calls, n - 1, fetcherId) || isNow;
    }
  }

  /**
    In a whole check a fetcher is run exactly if it has not answered before that its executor is unavailable and, if it
    is one to wait for, the waits so far come to 50 s at most. Only such waits count. A fetcher that is not run answers
    that its executor is unavailable.
  */
  lemma CallExactly(calls: seq<Fetch>, n: nat)
    requires n < |calls|
    ensures var f := calls[n];
      var isRun := !WasUnavailable(calls, n, f.fetcherId) && (f.isPull ==> TotalWaitMs(calls, n) <= 50_000);
      && Answer(StateAt(calls, n), f) == (if isRun then f.ran else FetchPolicy.Failure(ExecutorUnavailable))
      && (isRun <==> IsCalled(StateAt(calls, n), f))
      && TotalWaitMs(calls, n + 1) == TotalWaitMs(calls, n) + if f.isPull && isRun then f.tookMs else 0
  {
    hide WasUnavailable, StateAt;
    StateExactly(calls, n, calls[n].fetcherId);
  }
}
