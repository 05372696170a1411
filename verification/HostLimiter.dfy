/**
  The per-origin limiter: minimum interval, lease cap with a time to live, back-off and circuit breaker.
  `Acquire` and `Release` give the state one call leaves in storage; `HostObject` is the object that
  loads, edits and saves that state. Runs are arbitrary sequences of calls under a clock that never goes back.
*/
module HostLimiter {
  import opened Common

  const MIN_ACCESS_INTERVAL_MS := 10_000
  const MAX_CONCURRENT_LEASES := 2
  const LEASE_TTL_MS := 60_000
  const CIRCUIT_BREAKER_THRESHOLD := 5
  const CIRCUIT_OPEN_MS := 300_000
  const BASE_BACKOFF_MS := 10_000
  const MAX_BACKOFF_MS := 300_000

  type LeaseId = nat

  datatype HostState = HostState(
    activeLeases: map<LeaseId, int>,  // lease -> time it was granted
    lastAcquireAt: Option<int>,
    nextAllowedAt: Option<int>,
    failureStreak: nat,
    circuitOpenUntil: Option<int>,
    halfOpenProbe: Option<LeaseId>)

  const EMPTY_STATE := HostState(map[], None, None, 0, None, None)

  datatype LeaseResult = Granted(leaseId: LeaseId) | Denied(retryAfterMs: int)

  function Pow2(n: nat): nat {
    if n == 0 then 1 else 2 * Pow2(n - 1)
  }

  function BackoffMsFor(failureStreak: nat): int {
    if failureStreak == 0 then 0 else Min(MAX_BACKOFF_MS, BASE_BACKOFF_MS * Pow2(failureStreak - 1))
  }

  // ----- one call, as a function of the stored state

  predicate Stale(grantedAt: int, now: int) {
    now - grantedAt >= LEASE_TTL_MS
  }

  function LiveLeases(leases: map<LeaseId, int>, now: int): map<LeaseId, int> {
    map id | id in leases && !Stale(leases[id], now) :: leases[id]
  }

  function ExpireStale(s: HostState, now: int): HostState {
    s.(activeLeases := LiveLeases(s.activeLeases, now),
       halfOpenProbe :=
         if s.halfOpenProbe.Some? && s.halfOpenProbe.value in s.activeLeases
            && Stale(s.activeLeases[s.halfOpenProbe.value], now)
         then None else s.halfOpenProbe)
  }

  function EarliestNext(s: HostState): int {
    Max(if s.lastAcquireAt.Some? then s.lastAcquireAt.value + MIN_ACCESS_INTERVAL_MS else 0,
        if s.nextAllowedAt.Some? then s.nextAllowedAt.value else 0)
  }

  predicate IsOpen(s: HostState, now: int) {
    s.circuitOpenUntil.Some? && now < s.circuitOpenUntil.value
  }

  predicate IsHalfOpen(s: HostState, now: int) {
    s.circuitOpenUntil.Some? && now >= s.circuitOpenUntil.value
  }

  function Acquire(stored: HostState, now: int, newId: LeaseId): (HostState, LeaseResult) {
    var s := ExpireStale(stored, now);
    if IsOpen(s, now) then
      (stored, Denied(s.circuitOpenUntil.value - now))  // returns without saving
    else if IsHalfOpen(s, now) then
      if s.halfOpenProbe.Some? then (s, Denied(MIN_ACCESS_INTERVAL_MS))
      else (s.(activeLeases := s.activeLeases[newId := now], lastAcquireAt := Some(now),
               halfOpenProbe := Some(newId), circuitOpenUntil := None), Granted(newId))
    else if |s.activeLeases| >= MAX_CONCURRENT_LEASES then
      (s, Denied(MIN_ACCESS_INTERVAL_MS))
    else if now < EarliestNext(s) then
      (s, Denied(EarliestNext(s) - now))
    else
      (s.(activeLeases := s.activeLeases[newId := now], lastAcquireAt := Some(now)), Granted(newId))
  }

  function WaitMs(streak: nat, failure: FailureClass, retryAfterSeconds: Option<int>): int {
    if failure.Http429? && retryAfterSeconds.Some?
    then Max(BackoffMsFor(streak), retryAfterSeconds.value * 1000)
    else BackoffMsFor(streak)
  }

  function Release(stored: HostState, now: int, id: LeaseId,
                   failure: Option<FailureClass>, retryAfterSeconds: Option<int>): HostState {
    var s := stored.(activeLeases := stored.activeLeases - {id},
                     halfOpenProbe := if stored.halfOpenProbe == Some(id) then None else stored.halfOpenProbe);
    match failure
    case None => s.(failureStreak := 0, circuitOpenUntil := None, nextAllowedAt := None)
    case Some(ExecutorUnavailable) => s
    case Some(f) =>
      var streak := s.failureStreak + 1;
      s.(failureStreak := streak,
         nextAllowedAt := Some(now + WaitMs(streak, f, retryAfterSeconds)),
         circuitOpenUntil := if streak >= CIRCUIT_BREAKER_THRESHOLD then Some(now + CIRCUIT_OPEN_MS)
                             else s.circuitOpenUntil)
  }

  // ----- runs

  datatype Call =
    | AcquireCall(now: int, newId: LeaseId)
    | ReleaseCall(now: int, id: LeaseId, failure: Option<FailureClass>, retryAfterSeconds: Option<int>)

  function After(s: HostState, c: Call): HostState {
    match c
    case AcquireCall(now, newId) => Acquire(s, now, newId).0
    case ReleaseCall(now, id, failure, retry) => Release(s, now, id, failure, retry)
  }

  /** The stored state after the first `n` calls of `run`, starting from an origin never contacted before. */
  function StateAt(run: seq<Call>, n: nat): HostState
    requires n <= |run|
  {
    if n == 0 then EMPTY_STATE else After(StateAt(run, n - 1), run[n - 1])
  }

  ghost predicate ClockNeverGoesBack(run: seq<Call>) {
    forall i, j :: 0 <= i <= j < |run| ==> run[i].now <= run[j].now
  }

  predicate Grants(s: HostState, c: Call) {
    c.AcquireCall? && Acquire(s, c.now, c.newId).1.Granted?
  }

  /** Call `i` of the run is an acquire that was granted. */
  predicate GrantAt(run: seq<Call>, i: nat)
    requires i < |run|
  {
    Grants(StateAt(run, i), run[i])
  }

  predicate IsSuccess(c: Call) {
    c.ReleaseCall? && c.failure.None?
  }

  /** A release that counts against the host. */
  predicate IsFailure(c: Call) {
    c.ReleaseCall? && c.failure.Some? && !c.failure.value.ExecutorUnavailable?
  }

  // ----- invariant

  /** What every stored state satisfies at time `t` and later. */
  ghost predicate Inv(s: HostState, t: int) {
    && |s.activeLeases| <= MAX_CONCURRENT_LEASES
    && (s.lastAcquireAt.Some? ==> s.lastAcquireAt.value <= t)
    && (forall id :: id in s.activeLeases ==>
          s.lastAcquireAt.Some? && s.activeLeases[id] <= s.lastAcquireAt.value)
    && (s.circuitOpenUntil.Some? && s.lastAcquireAt.Some? ==>
          s.circuitOpenUntil.value >= s.lastAcquireAt.value + CIRCUIT_OPEN_MS)
    && (s.halfOpenProbe.Some? ==> s.halfOpenProbe.value in s.activeLeases)
  }

  lemma SmallerMap<T>(a: map<LeaseId, T>, b: map<LeaseId, T>)
    requires a.Keys <= b.Keys
    ensures |a| <= |b|
  {
    assert |a| == |a.Keys| && |b| == |b.Keys|;
    assert b.Keys == a.Keys + (b.Keys - a.Keys);
  }

  /** By the time a breaker deadline passes, every lease has outlived its TTL and the probe slot is free. */
  lemma HalfOpenIsIdle(s: HostState, t: int, now: int)
    requires Inv(s, t) && IsHalfOpen(s, now)
    ensures ExpireStale(s, now).activeLeases == map[]
    ensures ExpireStale(s, now).halfOpenProbe == None
  {
  }

  lemma AcquireKeepsInv(s: HostState, t: int, now: int, newId: LeaseId)
    requires Inv(s, t) && t <= now
    ensures Inv(Acquire(s, now, newId).0, now)
  {
    var live := ExpireStale(s, now);
    SmallerMap(live.activeLeases, s.activeLeases);
    if IsHalfOpen(s, now) {
      HalfOpenIsIdle(s, t, now);
    }
  }

  lemma ReleaseKeepsInv(s: HostState, t: int, now: int, id: LeaseId,
                        failure: Option<FailureClass>, retryAfterSeconds: Option<int>)
    requires Inv(s, t) && t <= now
    ensures Inv(Release(s, now, id, failure, retryAfterSeconds), now)
  {
    hide WaitMs, Release;
    ReleaseLeaves(s, now, id, failure, retryAfterSeconds);
    SmallerMap(s.activeLeases - {id}, s.activeLeases);
  }

  lemma ReleaseLeaves(s: HostState, now: int, id: LeaseId,
                      failure: Option<FailureClass>, retryAfterSeconds: Option<int>)
    ensures var after := Release(s, now, id, failure, retryAfterSeconds);
      && after.activeLeases == s.activeLeases - {id} && after.lastAcquireAt == s.lastAcquireAt
      && after.halfOpenProbe == (if s.halfOpenProbe == Some(id) then None else s.halfOpenProbe)
      && after.circuitOpenUntil in {None, s.circuitOpenUntil, Some(now + CIRCUIT_OPEN_MS)}
  {
    hide WaitMs;
  }

  lemma CallKeepsInv(s: HostState, c: Call)
    requires Inv(s, c.now)
    ensures Inv(After(s, c), c.now)
  {
    hide Acquire, Release, Inv;
    match c
    case AcquireCall(now, newId) => AcquireKeepsInv(s, now, now, newId);
    case ReleaseCall(now, id, f, r) => ReleaseKeepsInv(s, now, now, id, f, r);
  }

  lemma {:induction false} RunKeepsInv(run: seq<Call>, n: nat, t: int)
    requires ClockNeverGoesBack(run) && n <= |run|
    requires n > 0 ==> run[n - 1].now <= t
    ensures Inv(StateAt(run, n), t)
  {
    hide After;
    if n > 0 {
      RunKeepsInv(run, n - 1, run[n - 1].now);
      CallKeepsInv(StateAt(run, n - 1), run[n - 1]);
    }
  }

  lemma InvBefore(run: seq<Call>, i: nat)
    requires ClockNeverGoesBack(run) && i < |run|
    ensures Inv(StateAt(run, i), run[i].now)
  {
    RunKeepsInv(run, i, run[i].now);
  }

  /** What one call does to the fields that the run-wide results follow. */
  lemma CallEffect(s: HostState, c: Call)
    requires Inv(s, c.now)
    ensures After(s, c).lastAcquireAt == if Grants(s, c) then Some(c.now) else s.lastAcquireAt
    ensures Grants(s, c) && s.lastAcquireAt.Some? ==> c.now >= s.lastAcquireAt.value + MIN_ACCESS_INTERVAL_MS
    ensures Grants(s, c) ==> c.AcquireCall? && !IsOpen(s, c.now)
    ensures After(s, c).failureStreak ==
              if IsSuccess(c) then 0 else if IsFailure(c) then s.failureStreak + 1 else s.failureStreak
    ensures After(s, c).circuitOpenUntil ==
              if IsSuccess(c) || (Grants(s, c) && s.circuitOpenUntil.Some?) then None
              else if IsFailure(c) && After(s, c).failureStreak >= CIRCUIT_BREAKER_THRESHOLD
              then Some(c.now + CIRCUIT_OPEN_MS) else s.circuitOpenUntil
    ensures !IsSuccess(c) && !IsFailure(c) ==> After(s, c).nextAllowedAt == s.nextAllowedAt
    ensures IsSuccess(c) ==> After(s, c).nextAllowedAt == None
    ensures IsFailure(c) ==>
              After(s, c).nextAllowedAt
                == Some(c.now + WaitMs(s.failureStreak + 1, c.failure.value, c.retryAfterSeconds))
  {
    hide Inv, LiveLeases, WaitMs, EarliestNext;
    match c
    case AcquireCall(now, newId) => AcquireIsSpaced(s, now, newId);
    case ReleaseCall(_, _, _, _) =>
  }

  lemma AcquireIsSpaced(s: HostState, now: int, newId: LeaseId)
    requires Inv(s, now)
    ensures Acquire(s, now, newId).1.Granted? && s.lastAcquireAt.Some? ==>
      now >= s.lastAcquireAt.value + MIN_ACCESS_INTERVAL_MS
  {
    hide LiveLeases;
  }

  // ----- safety over every run

  lemma AtMostTwoLeases(run: seq<Call>, n: nat)
    requires ClockNeverGoesBack(run) && n <= |run|
    ensures |StateAt(run, n).activeLeases| <= MAX_CONCURRENT_LEASES
  {
    RunKeepsInv(run, n, if n == 0 then 0 else run[n - 1].now);
  }

  /** The half-open branch skips the cap, yet it always grants, and to a host with nothing else in flight. */
  lemma HalfOpenGrantStandsAlone(run: seq<Call>, i: nat)
    requires ClockNeverGoesBack(run) && i < |run|
    requires run[i].AcquireCall? && IsHalfOpen(StateAt(run, i), run[i].now)
    ensures GrantAt(run, i)
    ensures StateAt(run, i + 1).activeLeases == map[run[i].newId := run[i].now]
  {
    InvBefore(run, i);
    HalfOpenIsIdle(StateAt(run, i), run[i].now, run[i].now);
  }

  lemma {:induction false} LastGrantIsRemembered(run: seq<Call>, i: nat, j: nat)
    requires ClockNeverGoesBack(run) && i < j <= |run| && GrantAt(run, i)
    ensures StateAt(run, j).lastAcquireAt.Some? && StateAt(run, j).lastAcquireAt.value >= run[i].now
    decreases j
  {
    hide After, Grants, Inv;
    InvBefore(run, j - 1);
    CallEffect(StateAt(run, j - 1), run[j - 1]);
    if i < j - 1 {
      LastGrantIsRemembered(run, i, j - 1);
    }
  }

  lemma GrantsAreSpaced(run: seq<Call>, i: nat, j: nat)
    requires ClockNeverGoesBack(run) && i < j < |run|
    requires GrantAt(run, i) && GrantAt(run, j)
    ensures run[j].now >= run[i].now + MIN_ACCESS_INTERVAL_MS
  {
    hide After, Grants, Inv;
    LastGrantIsRemembered(run, i, j);
    InvBefore(run, j);
    CallEffect(StateAt(run, j), run[j]);
  }

  ghost function GrantsWithin(run: seq<Call>, n: nat, from: int, to: int): set<nat>
    requires n <= |run|
  {
    set i: nat | i < n && GrantAt(run, i) && from <= run[i].now <= to
  }

  lemma NoGrantsYet(run: seq<Call>, from: int, to: int)
    ensures |GrantsWithin(run, 0, from, to)| == 0
  {
    assert GrantsWithin(run, 0, from, to) == {};
  }

  /** The grants before the last one are at least an interval earlier. */
  lemma LastGrant(run: seq<Call>, n: nat, from: int, to: int)
    requires ClockNeverGoesBack(run) && 0 < n <= |run|
    ensures var earlier := run[n - 1].now - MIN_ACCESS_INTERVAL_MS;
      |GrantsWithin(run, n, from, to)|
      == if GrantAt(run, n - 1) && from <= run[n - 1].now <= to then |GrantsWithin(run, n - 1, from, earlier)| + 1
         else |GrantsWithin(run, n - 1, from, to)|
  {
    hide GrantAt, ClockNeverGoesBack;
    var all := GrantsWithin(run, n, from, to);
    if n - 1 in all {
      var earlier := run[n - 1].now - MIN_ACCESS_INTERVAL_MS;
      forall i: nat | i in all && i != n - 1 ensures run[i].now <= earlier {
        GrantsAreSpaced(run, i, n - 1);
      }
      assert all == GrantsWithin(run, n - 1, from, earlier) + {n - 1};
    } else {
      assert all == GrantsWithin(run, n - 1, from, to);
    }
  }

  lemma {:induction false} GrantsWithinBound(run: seq<Call>, n: nat, from: int, to: int)
    requires ClockNeverGoesBack(run) && n <= |run|
    ensures |GrantsWithin(run, n, from, to)| * MIN_ACCESS_INTERVAL_MS <= Max(0, to - from + MIN_ACCESS_INTERVAL_MS)
    decreases n
  {
    hide GrantAt, GrantsWithin, ClockNeverGoesBack;
    if n == 0 {
      NoGrantsYet(run, from, to);
    } else {
      LastGrant(run, n, from, to);
      GrantsWithinBound(run, n - 1, from, run[n - 1].now - MIN_ACCESS_INTERVAL_MS);
      GrantsWithinBound(run, n - 1, from, to);
    }
  }

  /** A window of `width` milliseconds sees at most width/10000 + 1 grants. */
  lemma GrantRate(run: seq<Call>, from: int, width: nat)
    requires ClockNeverGoesBack(run)
    ensures |GrantsWithin(run, |run|, from, from + width)| <= width / MIN_ACCESS_INTERVAL_MS + 1
  {
    hide ClockNeverGoesBack, GrantsWithin;
    var grants := GrantsWithin(run, |run|, from, from + width);
    GrantsWithinBound(run, |run|, from, from + width);
    AtMostQuotient(|grants|, width);
  }

  lemma AtMostQuotient(count: nat, width: nat)
    requires count * MIN_ACCESS_INTERVAL_MS <= width + MIN_ACCESS_INTERVAL_MS
    ensures count <= width / MIN_ACCESS_INTERVAL_MS + 1
  {
  }

  ghost function FailuresBetween(run: seq<Call>, k: nat, n: nat): set<nat>
    requires k <= n <= |run|
  {
    set i: nat | k <= i < n && IsFailure(run[i])
  }

  lemma StreakStep(run: seq<Call>, i: nat)
    requires ClockNeverGoesBack(run) && i < |run|
    ensures StateAt(run, i + 1).failureStreak ==
              if IsSuccess(run[i]) then 0
              else StateAt(run, i).failureStreak + if IsFailure(run[i]) then 1 else 0
  {
    hide After, Grants, Inv;
    InvBefore(run, i);
    CallEffect(StateAt(run, i), run[i]);
  }

  /** The stored streak is the number of counted failures since the last success. */
  lemma {:induction false} StreakCountsFailures(run: seq<Call>, k: nat, n: nat)
    requires ClockNeverGoesBack(run) && k <= n <= |run|
    requires k == 0 || IsSuccess(run[k - 1])
    requires forall i :: k <= i < n ==> !IsSuccess(run[i])
    ensures StateAt(run, n).failureStreak == |FailuresBetween(run, k, n)|
    decreases n - k
  {
    hide *;
    if n == k {
      NoFailures(run, k);
      NoStreakYet(run, k);
    } else {
      StreakCountsFailures(run, k, n - 1);
      StreakStep(run, n - 1);
      OneMoreFailure(run, k, n);
    }
  }

  lemma NoStreakYet(run: seq<Call>, k: nat)
    requires ClockNeverGoesBack(run) && k <= |run| && (k == 0 || IsSuccess(run[k - 1]))
    ensures StateAt(run, k).failureStreak == 0
  {
    hide After, ClockNeverGoesBack, IsSuccess;
    if k > 0 {
      StreakStep(run, k - 1);
    }
  }

  lemma NoFailures(run: seq<Call>, k: nat)
    requires k <= |run|
    ensures |FailuresBetween(run, k, k)| == 0
  {
    assert FailuresBetween(run, k, k) == {};
  }

  lemma OneMoreFailure(run: seq<Call>, k: nat, n: nat)
    requires k < n <= |run|
    ensures |FailuresBetween(run, k, n)| == |FailuresBetween(run, k, n - 1)| + if IsFailure(run[n - 1]) then 1 else 0
  {
    var before, now := FailuresBetween(run, k, n - 1), FailuresBetween(run, k, n);
    assert now == if IsFailure(run[n - 1]) then before + {n - 1} else before;
  }

  lemma {:induction false} BreakerStaysOpen(run: seq<Call>, i: nat, j: nat)
    requires ClockNeverGoesBack(run) && i < j <= |run|
    requires IsFailure(run[i]) && StateAt(run, i + 1).failureStreak >= CIRCUIT_BREAKER_THRESHOLD
    requires run[j - 1].now < run[i].now + CIRCUIT_OPEN_MS
    requires forall k :: i < k < j ==> !IsSuccess(run[k])
    ensures StateAt(run, j).circuitOpenUntil.Some?
    ensures StateAt(run, j).circuitOpenUntil.value >= run[i].now + CIRCUIT_OPEN_MS
    decreases j
  {
    hide After, Grants, Inv;
    InvBefore(run, j - 1);
    CallEffect(StateAt(run, j - 1), run[j - 1]);
    if i < j - 1 {
      BreakerStaysOpen(run, i, j - 1);
    }
  }

  /** Five counted failures in a row: no grant for 300 s, unless some release reports a success meanwhile. */
  lemma BreakerDeniesFor300s(run: seq<Call>, i: nat, j: nat)
    requires ClockNeverGoesBack(run) && i < j < |run|
    requires IsFailure(run[i]) && StateAt(run, i + 1).failureStreak >= 5
    requires run[j].now < run[i].now + 300_000
    requires forall k :: i < k < j ==> !IsSuccess(run[k])
    ensures !GrantAt(run, j)
  {
    hide After, Grants, Inv;
    BreakerStaysOpen(run, i, j);
    InvBefore(run, j);
    CallEffect(StateAt(run, j), run[j]);
  }

  // ----- where the code keeps less than its comments promise

  /**
    With the probe still out, another lease is granted exactly when the ordinary checks pass:
    the probe itself never stops it.
  */
  lemma LeaseBesideProbe(run: seq<Call>, i: nat)
    requires ClockNeverGoesBack(run) && i < |run| && run[i].AcquireCall?
    requires ExpireStale(StateAt(run, i), run[i].now).halfOpenProbe.Some?
    ensures GrantAt(run, i) <==>
              && !IsOpen(StateAt(run, i), run[i].now)
              && |LiveLeases(StateAt(run, i).activeLeases, run[i].now)| < MAX_CONCURRENT_LEASES
              && run[i].now >= EarliestNext(StateAt(run, i))
  {
    InvBefore(run, i);
    assert !IsHalfOpen(StateAt(run, i), run[i].now);
  }

  /** Before `nextAllowedAt`, an acquire is granted exactly in the half-open state. */
  lemma GrantBeforeNextAllowed(run: seq<Call>, i: nat)
    requires ClockNeverGoesBack(run) && i < |run| && run[i].AcquireCall?
    requires StateAt(run, i).nextAllowedAt.Some? && run[i].now < StateAt(run, i).nextAllowedAt.value
    ensures GrantAt(run, i) <==> IsHalfOpen(StateAt(run, i), run[i].now)
  {
    if IsHalfOpen(StateAt(run, i), run[i].now) {
      HalfOpenGrantStandsAlone(run, i);
    }
  }

  lemma {:induction false} BackoffIsKept(run: seq<Call>, i: nat, j: nat)
    requires ClockNeverGoesBack(run) && i < j <= |run| && IsFailure(run[i])
    requires forall k :: i < k < j ==> !IsSuccess(run[k]) && !IsFailure(run[k])
    ensures var streak := StateAt(run, i).failureStreak + 1;
      StateAt(run, j).nextAllowedAt
      == Some(run[i].now + WaitMs(streak, run[i].failure.value, run[i].retryAfterSeconds))
    decreases j
  {
    hide After, Grants, Inv, WaitMs;
    InvBefore(run, j - 1);
    CallEffect(StateAt(run, j - 1), run[j - 1]);
    if i < j - 1 {
      BackoffIsKept(run, i, j - 1);
    }
  }

  /**
    Until when a failing host is left alone: the back-off for its `n`-th failure in a row, or longer if it asked so.
  */
  function BackoffUntil(failure: Call, n: nat): int
    requires IsFailure(failure) && n > 0
  {
    var backoff := failure.now + Min(300_000, 10_000 * Pow2(n - 1));
    if failure.failure.value.Http429? && failure.retryAfterSeconds.Some?
    then Max(backoff, failure.now + 1000 * failure.retryAfterSeconds.value) else backoff
  }

  lemma StreakAtFailure(run: seq<Call>, k: nat, i: nat)
    requires ClockNeverGoesBack(run) && k <= i < |run| && IsFailure(run[i])
    requires k == 0 || IsSuccess(run[k - 1])
    requires forall m :: k <= m < i ==> !IsSuccess(run[m])
    ensures |FailuresBetween(run, k, i + 1)| == StateAt(run, i).failureStreak + 1
  {
    hide StateAt, ClockNeverGoesBack, FailuresBetween;
    StreakCountsFailures(run, k, i);
    OneMoreFailure(run, k, i + 1);
  }

  lemma WaitIsBackoff(failure: Call, n: nat)
    requires IsFailure(failure) && n > 0
    ensures failure.now + WaitMs(n, failure.failure.value, failure.retryAfterSeconds) == BackoffUntil(failure, n)
  {
    hide Pow2;
  }

  /**
    With `n` counted failures since the last success, only a half-open grant comes before the back-off for the last of
    them is over; and from then on an acquire is decided as if there had been no back-off.
  */
  lemma BackoffHolds(run: seq<Call>, k: nat, i: nat, j: nat)
    requires ClockNeverGoesBack(run) && k <= i < j < |run| && IsFailure(run[i]) && run[j].AcquireCall?
    requires k == 0 || IsSuccess(run[k - 1])
    requires forall m :: k <= m < j ==> !IsSuccess(run[m])
    requires forall m :: i < m < j ==> !IsFailure(run[m])
    ensures |FailuresBetween(run, k, i + 1)| > 0
    ensures var until := BackoffUntil(run[i], |FailuresBetween(run, k, i + 1)|);
      && (run[j].now < until ==> (GrantAt(run, j) <==> IsHalfOpen(StateAt(run, j), run[j].now)))
      && (run[j].now >= until ==>
            (GrantAt(run, j) <==> Grants(StateAt(run, j).(nextAllowedAt := Some(run[j].now)), run[j])))
  {
    hide WaitMs, StateAt, ClockNeverGoesBack, FailuresBetween, BackoffUntil, IsHalfOpen;
    StreakAtFailure(run, k, i);
    BackoffIsKept(run, i, j);
    WaitIsBackoff(run[i], StateAt(run, i).failureStreak + 1);
    if run[j].now < StateAt(run, j).nextAllowedAt.value {
      GrantBeforeNextAllowed(run, j);
    } else {
      BackoffIsOver(StateAt(run, j), run[j]);
    }
  }

  lemma BackoffIsOver(s: HostState, c: Call)
    requires c.AcquireCall? && s.nextAllowedAt.Some? && s.nextAllowedAt.value <= c.now
    ensures Grants(s, c) <==> Grants(s.(nextAllowedAt := Some(c.now)), c)
  {
    hide LiveLeases;
  }

  /** After a success, and until the next counted failure, nothing is left of streak, breaker and back-off. */
  lemma {:induction false} SuccessClears(run: seq<Call>, k: nat, j: nat)
    requires ClockNeverGoesBack(run) && k < j <= |run| && IsSuccess(run[k])
    requires forall m :: k < m < j ==> !IsFailure(run[m])
    ensures var s := StateAt(run, j); s.failureStreak == 0 && s.circuitOpenUntil == None && s.nextAllowedAt == None
    decreases j
  {
    hide After, Grants, Inv, IsSuccess, IsFailure;
    InvBefore(run, j - 1);
    CallEffect(StateAt(run, j - 1), run[j - 1]);
    if k < j - 1 {
      SuccessClears(run, k, j - 1);
    } else {
      SuccessIsNoFailure(run[k]);
    }
  }

  lemma SuccessIsNoFailure(c: Call)
    requires IsSuccess(c)
    ensures !IsFailure(c)
  {
  }

  lemma {:induction false} BreakerNeedsFive(run: seq<Call>, n: nat)
    requires ClockNeverGoesBack(run) && n <= |run| && StateAt(run, n).failureStreak < 5
    ensures StateAt(run, n).circuitOpenUntil == None
  {
    hide After, Grants, Inv, IsSuccess, IsFailure;
    if n > 0 {
      InvBefore(run, n - 1);
      CallEffect(StateAt(run, n - 1), run[n - 1]);
      if StateAt(run, n - 1).failureStreak < 5 {
        BreakerNeedsFive(run, n - 1);
      }
    }
  }

  ghost predicate GrantedBetween(run: seq<Call>, i: nat, j: nat)
    requires j <= |run|
  {
    exists m :: i < m < j && GrantAt(run, m)
  }

  lemma {:induction false} BreakerIsKept(run: seq<Call>, i: nat, j: nat)
    requires ClockNeverGoesBack(run) && i < j <= |run| && IsFailure(run[i])
    requires forall m :: i < m < j ==> !IsSuccess(run[m]) && !IsFailure(run[m])
    ensures StateAt(run, j).circuitOpenUntil
         == if StateAt(run, i).failureStreak + 1 >= 5 && !GrantedBetween(run, i, j) then Some(run[i].now + 300_000)
            else None
    decreases j
  {
    hide After, Inv, IsSuccess, Grants;
    InvBefore(run, j - 1);
    CallEffect(StateAt(run, j - 1), run[j - 1]);
    if i < j - 1 {
      BreakerIsKept(run, i, j - 1);
      assert GrantedBetween(run, i, j) <==> GrantedBetween(run, i, j - 1) || GrantAt(run, j - 1);
    } else {
      assert !GrantedBetween(run, i, j);
      FailureIsNoSuccess(run[i]);
      NoGrantByFailure(StateAt(run, i), run[i]);
      if StateAt(run, i).failureStreak < 5 {
        BreakerNeedsFive(run, i);
      }
    }
  }

  lemma FailureIsNoSuccess(c: Call)
    requires IsFailure(c)
    ensures !IsSuccess(c)
  {
  }

  lemma NoGrantByFailure(s: HostState, c: Call)
    requires IsFailure(c)
    ensures !Grants(s, c)
  {
  }

  /**
    The breaker after the last of `n` counted failures since a success: it is open for 300 s from then on if there were
    five or more and nothing was granted since, and closed otherwise. Then `GrantExactly` says what is granted.
  */
  lemma BreakerExactly(run: seq<Call>, k: nat, i: nat, j: nat)
    requires ClockNeverGoesBack(run) && k <= i < j <= |run| && IsFailure(run[i])
    requires k == 0 || IsSuccess(run[k - 1])
    requires forall m :: k <= m < j ==> !IsSuccess(run[m])
    requires forall m :: i < m < j ==> !IsFailure(run[m])
    ensures StateAt(run, j).circuitOpenUntil
         == if |FailuresBetween(run, k, i + 1)| >= 5 && !GrantedBetween(run, i, j) then Some(run[i].now + 300_000)
            else None
  {
    hide StateAt, ClockNeverGoesBack, FailuresBetween, GrantedBetween;
    StreakAtFailure(run, k, i);
    BreakerIsKept(run, i, j);
  }

  /** How many leases were granted less than a minute ago and not released. */
  function LiveCount(leases: map<LeaseId, int>, now: int): nat {
    |set id | id in leases && now < leases[id] + 60_000|
  }

  lemma LiveCountIs(leases: map<LeaseId, int>, now: int)
    ensures |LiveLeases(leases, now)| == LiveCount(leases, now)
  {
    var live := LiveLeases(leases, now);
    assert live.Keys == set id | id in leases && now < leases[id] + 60_000;
    assert |live| == |live.Keys|;
  }

  /** When an acquire is granted: a breaker that has tripped decides alone, else leases, spacing and back-off do. */
  lemma GrantExactly(run: seq<Call>, i: nat)
    requires ClockNeverGoesBack(run) && i < |run| && run[i].AcquireCall?
    ensures var s := StateAt(run, i); var now := run[i].now;
      GrantAt(run, i) <==>
        match s.circuitOpenUntil
        case Some(until) => until <= now
        case None =>
          && LiveCount(s.activeLeases, now) < 2
          && now >= (if s.lastAcquireAt.Some? then s.lastAcquireAt.value + 10_000 else 0)
          && now >= (if s.nextAllowedAt.Some? then s.nextAllowedAt.value else 0)
  {
    hide StateAt, ClockNeverGoesBack, LiveCount;
    InvBefore(run, i);
    LiveCountIs(StateAt(run, i).activeLeases, run[i].now);
    GrantsByState(StateAt(run, i), run[i]);
  }

  lemma GrantsByState(s: HostState, c: Call)
    requires c.AcquireCall? && Inv(s, c.now)
    ensures Grants(s, c) <==>
      if s.circuitOpenUntil.Some? then s.circuitOpenUntil.value <= c.now
      else |LiveLeases(s.activeLeases, c.now)| < 2 && c.now >= EarliestNext(s)
  {
    hide LiveLeases;
    if IsHalfOpen(s, c.now) {
      HalfOpenIsIdle(s, c.now, c.now);
    }
  }

  /**
    What a denied caller is told is exactly how long it has to wait, as long as nobody else calls, unless two leases
    were live: then it is to come back after the usual interval.
  */
  lemma RetryAfterIsExact(s: HostState, now: int, id: LeaseId, t: int, newId: LeaseId)
    requires Inv(s, now) && now <= t && Acquire(s, now, id).1.Denied?
    ensures var (after, answer) := Acquire(s, now, id);
      && answer.retryAfterMs > 0
      && (s.circuitOpenUntil.Some? || LiveCount(s.activeLeases, now) < 2 ==>
            (Acquire(after, t, newId).1.Granted? <==> t >= now + answer.retryAfterMs))
      && (s.circuitOpenUntil == None && LiveCount(s.activeLeases, now) >= 2 ==> answer.retryAfterMs == 10_000)
  {
    hide LiveCount;
    var after := Acquire(s, now, id).0;
    LiveCountIs(s.activeLeases, now);
    AcquireKeepsInv(s, now, now, id);
    InvLater(after, now, t);
    GrantsByState(s, AcquireCall(now, id));
    GrantsByState(after, AcquireCall(t, newId));
    FewerLive(s, now, t);
    hide LiveLeases;
  }

  lemma InvLater(s: HostState, now: int, t: int)
    requires Inv(s, now) && now <= t
    ensures Inv(s, t)
  {
  }

  lemma FewerLive(s: HostState, now: int, t: int)
    requires now <= t
    ensures |LiveLeases(s.activeLeases, t)| <= |LiveLeases(s.activeLeases, now)|
    ensures LiveLeases(LiveLeases(s.activeLeases, now), t) == LiveLeases(s.activeLeases, t)
  {
    SmallerMap(LiveLeases(s.activeLeases, t), LiveLeases(s.activeLeases, now));
  }

  /** The back-off starts at 10 s and doubles with each further failure until it reaches five minutes. */
  lemma BackoffDoubles(streak: nat)
    ensures BackoffMsFor(1) == BASE_BACKOFF_MS
    ensures streak > 0 ==> BackoffMsFor(streak + 1) == Min(MAX_BACKOFF_MS, 2 * BackoffMsFor(streak))
  {
    assert streak > 0 ==> Pow2(streak) == 2 * Pow2(streak - 1);
  }

  /** A failing host: five leases, each released with a 429 asking for 1000 s, then two more acquires. */
  function FailingHost(): (run: seq<Call>) {
    [AcquireCall(1_000_000, 1), ReleaseCall(1_000_000, 1, Some(Http429), Some(1000)),
     AcquireCall(2_000_000, 2), ReleaseCall(2_000_000, 2, Some(Http429), Some(1000)),
     AcquireCall(3_000_000, 3), ReleaseCall(3_000_000, 3, Some(Http429), Some(1000)),
     AcquireCall(4_000_000, 4), ReleaseCall(4_000_000, 4, Some(Http429), Some(1000)),
     AcquireCall(5_000_000, 5), ReleaseCall(5_000_000, 5, Some(Http429), Some(1000)),
     AcquireCall(5_990_000, 6), AcquireCall(6_000_000, 7)]
  }

  function FailingState(n: nat): HostState {
    if n == 0 then EMPTY_STATE
    else HostState(map[], Some(1_000_000 * n), Some(1_000_000 * (n + 1)), n,
                   if n >= 5 then Some(1_000_000 * n + CIRCUIT_OPEN_MS) else None, None)
  }

  lemma TwoCalls(run: seq<Call>, n: nat)
    requires n + 1 < |run|
    ensures StateAt(run, n + 2) == After(After(StateAt(run, n), run[n]), run[n + 1])
  {
    hide After;
  }

  lemma FailingCycle(n: nat)
    requires n < 5
    ensures var now := 1_000_000 * (n + 1);
      After(After(FailingState(n), AcquireCall(now, n + 1)), ReleaseCall(now, n + 1, Some(Http429), Some(1000)))
      == FailingState(n + 1)
  {
    hide Acquire, Release, FailingState;
    FailingAcquire(n);
    FailingRelease(n);
  }

  /** The state between the two calls of a cycle. */
  function HeldState(n: nat): HostState {
    FailingState(n).(activeLeases := map[n + 1 := 1_000_000 * (n + 1)], lastAcquireAt := Some(1_000_000 * (n + 1)))
  }

  lemma FailingAcquire(n: nat)
    requires n < 5
    ensures Acquire(FailingState(n), 1_000_000 * (n + 1), n + 1).0 == HeldState(n)
  {
    assert LiveLeases(map[], 1_000_000 * (n + 1)) == map[];
    hide LiveLeases;
  }

  lemma FailingRelease(n: nat)
    requires n < 5
    ensures Release(HeldState(n), 1_000_000 * (n + 1), n + 1, Some(Http429), Some(1000)) == FailingState(n + 1)
  {
    assert WaitMs(n + 1, Http429, Some(1000)) == 1_000_000 by { MaximalWait(n + 1); }
    hide WaitMs;
    assert HeldState(n).activeLeases - {n + 1} == map[];
  }

  lemma MaximalWait(streak: nat)
    ensures BackoffMsFor(streak) <= MAX_BACKOFF_MS && WaitMs(streak, Http429, Some(1000)) == 1_000_000
  {
    hide Pow2;
  }

  lemma FailingHostState()
    ensures StateAt(FailingHost(), 10) == FailingState(5)
  {
    hide After, FailingState;
    assert StateAt(FailingHost(), 0) == FailingState(0) by { FailingStart(); }
    TwoCalls(FailingHost(), 0); FailingCycle(0);
    TwoCalls(FailingHost(), 2); FailingCycle(1);
    TwoCalls(FailingHost(), 4); FailingCycle(2);
    TwoCalls(FailingHost(), 6); FailingCycle(3);
    TwoCalls(FailingHost(), 8); FailingCycle(4);
  }

  lemma FailingStart()
    ensures FailingState(0) == EMPTY_STATE
  {
  }

  lemma ProbeThenLease()
    ensures Grants(FailingState(5), AcquireCall(5_990_000, 6))
    ensures FailingState(5).nextAllowedAt == Some(6_000_000)
    ensures var s := After(After(FailingState(5), AcquireCall(5_990_000, 6)), AcquireCall(6_000_000, 7));
            s.halfOpenProbe == Some(6) && s.activeLeases.Keys == {6, 7}
  {
    var probing := After(FailingState(5), AcquireCall(5_990_000, 6));
    assert LiveLeases(map[], 5_990_000) == map[];
    assert probing.activeLeases == map[6 := 5_990_000];
    assert LiveLeases(probing.activeLeases, 6_000_000) == map[6 := 5_990_000];
  }

  /** The single probe of the comment at lines 36-40 is neither held back by `nextAllowedAt` nor alone. */
  lemma ProbeIsEarlyAndNotAlone()
    ensures GrantAt(FailingHost(), 10)
    ensures StateAt(FailingHost(), 10).nextAllowedAt == Some(6_000_000) && FailingHost()[10].now == 5_990_000
    ensures StateAt(FailingHost(), 12).halfOpenProbe == Some(6)
    ensures StateAt(FailingHost(), 12).activeLeases.Keys == {6, 7}
  {
    hide After, FailingState, Grants;
    FailingHostState();
    TwoCalls(FailingHost(), 10);
    ProbeThenLease();
  }

  // ----- the object

  method ExpireStaleLeases(s: HostState, now: int) returns (r: HostState)
    ensures r == ExpireStale(s, now)
  {
    r := s;
    var pending := s.activeLeases.Keys;
    while pending != {}
      decreases |pending|
      invariant pending <= s.activeLeases.Keys
      invariant r.activeLeases ==
                map id | id in s.activeLeases
                  && (id in pending || !Stale(s.activeLeases[id], now)) :: s.activeLeases[id]
      invariant s.halfOpenProbe.Some? && s.halfOpenProbe.value in pending ==> r.halfOpenProbe == s.halfOpenProbe
      invariant !(s.halfOpenProbe.Some? && s.halfOpenProbe.value in pending) ==>
                  r.halfOpenProbe == ExpireStale(s, now).halfOpenProbe
      invariant r == s.(activeLeases := r.activeLeases, halfOpenProbe := r.halfOpenProbe)
    {
      var id :| id in pending;
      pending := pending - {id};
      if now - s.activeLeases[id] >= LEASE_TTL_MS {
        r := r.(activeLeases := r.activeLeases - {id});
        if r.halfOpenProbe == Some(id) {
          r := r.(halfOpenProbe := None);
        }
      }
    }
  }

  class HostObject {
    var stored: HostState

    constructor ()
      ensures stored == EMPTY_STATE
    {
      stored := EMPTY_STATE;
    }

    method AcquireLease(now: int, newId: LeaseId) returns (r: LeaseResult)
      modifies this
      ensures (stored, r) == Acquire(old(stored), now, newId)
    {
      var s := ExpireStaleLeases(stored, now);
      if s.circuitOpenUntil.Some? && now < s.circuitOpenUntil.value {
        return Denied(s.circuitOpenUntil.value - now);
      }
      if s.circuitOpenUntil.Some? && now >= s.circuitOpenUntil.value {
        if s.halfOpenProbe.Some? {
          stored := s;
          return Denied(MIN_ACCESS_INTERVAL_MS);
        }
        s := s.(activeLeases := s.activeLeases[newId := now]);
        s := s.(lastAcquireAt := Some(now));
        s := s.(halfOpenProbe := Some(newId));
        s := s.(circuitOpenUntil := None);
        stored := s;
        return Granted(newId);
      }
      if |s.activeLeases| >= MAX_CONCURRENT_LEASES {
        stored := s;
        return Denied(MIN_ACCESS_INTERVAL_MS);
      }
      var earliestNext := EarliestNext(s);
      if now < earliestNext {
        stored := s;
        return Denied(earliestNext - now);
      }
      s := s.(activeLeases := s.activeLeases[newId := now]);
      s := s.(lastAcquireAt := Some(now));
      stored := s;
      return Granted(newId);
    }

    method ReleaseLease(now: int, id: LeaseId, failure: Option<FailureClass>, retryAfterSeconds: Option<int>)
      modifies this
      ensures stored == Release(old(stored), now, id, failure, retryAfterSeconds)
    {
      var s := stored.(activeLeases := stored.activeLeases - {id});
      if s.halfOpenProbe == Some(id) {
        s := s.(halfOpenProbe := None);
      }
      if failure == Some(ExecutorUnavailable) {
      } else if failure == None {
        s := s.(failureStreak := 0);
        s := s.(circuitOpenUntil := None);
        s := s.(nextAllowedAt := None);
      } else {
        s := s.(failureStreak := s.failureStreak + 1);
        var waitMs := BackoffMsFor(s.failureStreak);
        if failure == Some(Http429) && retryAfterSeconds.Some? {
          waitMs := Max(waitMs, retryAfterSeconds.value * 1000);
        }
        s := s.(nextAllowedAt := Some(now + waitMs));
        if s.failureStreak >= CIRCUIT_BREAKER_THRESHOLD {
          s := s.(circuitOpenUntil := Some(now + CIRCUIT_OPEN_MS));
        }
      }
      stored := s;
    }
  }
}
