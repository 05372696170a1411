/**
  One delivery row and the queue consumers competing for it. A message may be delivered any number of times and to
  several consumers at once; a consumer claims the row, reads it, posts, and settles the row, and it may crash anywhere.
  Claims older than `CLAIM_STALE_MS` may be taken over, so safety needs holders to settle or crash before that.
*/
module DeliveryClaims {
  import opened Common

  const CLAIM_STALE_MS := 300_000

  datatype Status = Pending | Sending | Delivered | FailedOnce | Dead
  datatype Row = Row(status: Status, attemptCount: nat, claimedAt: Option<int>)

  /** The webhook's answer: success, or a failure with its HTTP status (none for a network error). */
  datatype PostResult = Ok | NotOk(status: Option<nat>)
  datatype Decision = Ack | Retry

  // ----- conditional updates of the row

  predicate Claimable(row: Row, now: int) {
    || row.status.Pending? || row.status.FailedOnce?
    || (row.status.Sending? && row.claimedAt.Some? && row.claimedAt.value < now - CLAIM_STALE_MS)
  }

  function ClaimedRow(row: Row, now: int): Row {
    if Claimable(row, now) then row.(status := Sending, claimedAt := Some(now)) else row
  }

  function DeliveredRow(row: Row): Row {
    row.(status := Delivered)
  }

  function FailedRow(row: Row, dead: bool): Row {
    row.(status := if dead then Dead else FailedOnce, attemptCount := row.attemptCount + 1)
  }

  predicate IsPermanentFailure(status: Option<nat>) {
    status.Some? && status.value != 429 && 400 <= status.value < 500
  }

  function SettledRow(row: Row, result: PostResult): Row {
    match result
    case Ok => DeliveredRow(row)
    case NotOk(status) => FailedRow(row, IsPermanentFailure(status))
  }

  // ----- consumers

  type Consumer = nat
  datatype Phase =
    | Idle
    | Claimed(at: int)                      // the update went through, the row is not read yet
    | Holding(at: int, attempts: nat)       // the delivery was returned to the consumer
    | Posted(at: int, result: PostResult)

  datatype World = World(
    row: Row,
    phases: map<Consumer, Phase>,
    posts: nat,
    okPosts: nat,
    crashes: nat)

  datatype Event =
    | ClaimEvent(c: Consumer, now: int)
    | ReadEvent(c: Consumer, archived: bool)
    | GiveUpEvent(c: Consumer)
    | PostEvent(c: Consumer, result: PostResult)
    | SettleEvent(c: Consumer)
    | CrashEvent(c: Consumer)

  function PhaseOf(w: World, c: Consumer): Phase {
    if c in w.phases then w.phases[c] else Idle
  }

  predicate Can(w: World, e: Event, maxAttempts: nat) {
    match e
    case ClaimEvent(c, _) => PhaseOf(w, c).Idle?
    case ReadEvent(c, _) => PhaseOf(w, c).Claimed?
    case GiveUpEvent(c) => PhaseOf(w, c).Holding? && PhaseOf(w, c).attempts >= maxAttempts
    case PostEvent(c, _) => PhaseOf(w, c).Holding? && PhaseOf(w, c).attempts < maxAttempts
    case SettleEvent(c) => PhaseOf(w, c).Posted?
    case CrashEvent(c) => !PhaseOf(w, c).Idle?
  }

  function Enter(w: World, c: Consumer, p: Phase): World {
    w.(phases := w.phases[c := p])
  }

  function Do(w: World, e: Event): World {
    match e
    case ClaimEvent(c, now) =>
      if Claimable(w.row, now) then Enter(w, c, Claimed(now)).(row := ClaimedRow(w.row, now)) else w
    case ReadEvent(c, archived) =>
      if !PhaseOf(w, c).Claimed? then w
      else if archived then Enter(w, c, Idle).(row := FailedRow(w.row, true))
      else Enter(w, c, Holding(PhaseOf(w, c).at, w.row.attemptCount))
    case GiveUpEvent(c) => Enter(w, c, Idle).(row := FailedRow(w.row, true))
    case PostEvent(c, result) =>
      if !PhaseOf(w, c).Holding? then w
      else Enter(w, c, Posted(PhaseOf(w, c).at, result))
             .(posts := w.posts + 1, okPosts := w.okPosts + if result.Ok? then 1 else 0)
    case SettleEvent(c) =>
      if !PhaseOf(w, c).Posted? then w
      else Enter(w, c, Idle).(row := SettledRow(w.row, PhaseOf(w, c).result))
    case CrashEvent(c) => Enter(w, c, Idle).(crashes := w.crashes + 1)
  }

  // ----- runs

  const FRESH := World(Row(Pending, 0, None), map[], 0, 0, 0)

  function At(run: seq<Event>, n: nat): World
    requires n <= |run|
  {
    if n == 0 then FRESH else Do(At(run, n - 1), run[n - 1])
  }

  ghost predicate IsEvent(run: seq<Event>, i: int, maxAttempts: nat)
    requires 0 <= i < |run|
  {
    Can(At(run, i), run[i], maxAttempts)
  }

  ghost predicate IsRun(run: seq<Event>, maxAttempts: nat) {
    forall i :: 0 <= i < |run| ==> IsEvent(run, i, maxAttempts)
  }

  ghost predicate NobodyIsSlow(w: World, now: int) {
    forall c :: !PhaseOf(w, c).Idle? ==> now <= PhaseOf(w, c).at + CLAIM_STALE_MS
  }

  /** Every holder settles or crashes within `CLAIM_STALE_MS`: whenever a claim reads the clock, no holder is older. */
  ghost predicate IsPrompt(run: seq<Event>) {
    forall i :: 0 <= i < |run| ==> IsPromptAt(run, i)
  }

  ghost predicate IsPromptAt(run: seq<Event>, i: int)
    requires 0 <= i < |run|
  {
    run[i].ClaimEvent? ==> NobodyIsSlow(At(run, i), run[i].now)
  }

  function Busy(w: World, c: Consumer): bool {
    !PhaseOf(w, c).Idle?
  }

  ghost predicate SomeonePosted(w: World) {
    exists c :: PhaseOf(w, c).Posted?
  }

  ghost predicate SomeonePostedOk(w: World) {
    exists c :: PhaseOf(w, c).Posted? && PhaseOf(w, c).result.Ok?
  }

  /** Only one consumer is busy, it owns the row, and what it read is still true. */
  ghost predicate HolderOk(w: World) {
    && (forall c, d :: Busy(w, c) && Busy(w, d) ==> c == d)
    && (forall c :: Busy(w, c) ==> w.row.status.Sending? && w.row.claimedAt == Some(PhaseOf(w, c).at))
    && (forall c :: PhaseOf(w, c).Holding? ==> PhaseOf(w, c).attempts == w.row.attemptCount)
  }

  function Bit(b: bool): nat {
    if b then 1 else 0
  }

  ghost predicate PostsOk(w: World, maxAttempts: nat) {
    && (!w.row.status.Dead? ==>
          && w.row.attemptCount + Bit(SomeonePosted(w) || w.row.status.Delivered?) <= maxAttempts
          && w.posts <= w.row.attemptCount + w.crashes + Bit(SomeonePosted(w) || w.row.status.Delivered?))
    && w.posts <= maxAttempts + w.crashes
    && w.okPosts <= w.crashes + Bit(SomeonePostedOk(w) || w.row.status.Delivered?)
    && (w.row.status.Delivered? ==> w.okPosts > 0)
    && (SomeonePostedOk(w) ==> w.okPosts > 0)
  }

  ghost predicate Inv(w: World, maxAttempts: nat) {
    HolderOk(w) && PostsOk(w, maxAttempts)
  }

  /** A claim that succeeds finds nobody busy. */
  lemma ClaimFindsNobody(w: World, now: int, d: Consumer)
    requires HolderOk(w) && NobodyIsSlow(w, now) && Claimable(w.row, now)
    ensures !Busy(w, d)
  {
  }

  /** Nobody but the consumer acting is busy, before and after its event, unless the event was a failed claim. */
  lemma OnlyActorIsBusy(w: World, e: Event, maxAttempts: nat, d: Consumer)
    requires HolderOk(w) && Can(w, e, maxAttempts) && d != e.c
    requires e.ClaimEvent? ==> NobodyIsSlow(w, e.now) && Claimable(w.row, e.now)
    ensures !Busy(w, d) && PhaseOf(Do(w, e), d) == PhaseOf(w, d)
  {
    if e.ClaimEvent? {
      ClaimFindsNobody(w, e.now, d);
    } else {
      assert Busy(w, e.c);
    }
  }

  lemma EventKeepsHolder(w: World, e: Event, maxAttempts: nat)
    requires HolderOk(w) && Can(w, e, maxAttempts)
    requires e.ClaimEvent? ==> NobodyIsSlow(w, e.now)
    ensures HolderOk(Do(w, e))
    ensures w.row.status.Delivered? || w.row.status.Dead? ==> Do(w, e).row.status == w.row.status
  {
    if e.ClaimEvent? && !Claimable(w.row, e.now) {
      return;
    }
    forall d | d != e.c ensures !Busy(w, d) && PhaseOf(Do(w, e), d) == PhaseOf(w, d) {
      OnlyActorIsBusy(w, e, maxAttempts, d);
    }
    assert !e.ClaimEvent? ==> Busy(w, e.c);
    hide NobodyIsSlow;
  }

  lemma EventKeepsPosts(w: World, e: Event, maxAttempts: nat)
    requires Inv(w, maxAttempts) && Can(w, e, maxAttempts)
    requires e.ClaimEvent? ==> NobodyIsSlow(w, e.now)
    ensures PostsOk(Do(w, e), maxAttempts)
  {
    if e.ClaimEvent? && !Claimable(w.row, e.now) {
      return;
    }
    var t := Do(w, e);
    forall d | d != e.c ensures PhaseOf(w, d).Idle? && PhaseOf(t, d).Idle? {
      OnlyActorIsBusy(w, e, maxAttempts, d);
    }
    assert !e.ClaimEvent? ==> Busy(w, e.c);
    hide NobodyIsSlow;
    assert SomeonePosted(w) <==> PhaseOf(w, e.c).Posted?;
    assert SomeonePosted(t) <==> PhaseOf(t, e.c).Posted?;
    assert SomeonePostedOk(w) <==> PhaseOf(w, e.c).Posted? && PhaseOf(w, e.c).result.Ok?;
    assert SomeonePostedOk(t) <==> PhaseOf(t, e.c).Posted? && PhaseOf(t, e.c).result.Ok?;
    hide SomeonePosted, SomeonePostedOk;
  }

  lemma EventAt(run: seq<Event>, i: nat, maxAttempts: nat)
    requires IsRun(run, maxAttempts) && IsPrompt(run) && i < |run|
    ensures Can(At(run, i), run[i], maxAttempts) && At(run, i + 1) == Do(At(run, i), run[i])
    ensures run[i].ClaimEvent? ==> NobodyIsSlow(At(run, i), run[i].now)
  {
    hide Do, Can, NobodyIsSlow;
    assert IsEvent(run, i, maxAttempts) && IsPromptAt(run, i);
  }

  lemma FreshInv(maxAttempts: nat)
    ensures Inv(FRESH, maxAttempts)
  {
  }

  lemma {:induction false} RunKeepsInv(run: seq<Event>, n: nat, maxAttempts: nat)
    requires IsRun(run, maxAttempts) && IsPrompt(run) && n <= |run|
    ensures Inv(At(run, n), maxAttempts)
  {
    hide Do, Can, HolderOk, PostsOk, NobodyIsSlow, IsRun, IsPrompt;
    if n == 0 {
      FreshInv(maxAttempts);
    } else {
      RunKeepsInv(run, n - 1, maxAttempts);
      EventAt(run, n - 1, maxAttempts);
      EventKeepsHolder(At(run, n - 1), run[n - 1], maxAttempts);
      EventKeepsPosts(At(run, n - 1), run[n - 1], maxAttempts);
    }
  }

  // ----- results

  lemma AtMostOneHolder(run: seq<Event>, n: nat, maxAttempts: nat, c: Consumer, d: Consumer)
    requires IsRun(run, maxAttempts) && IsPrompt(run) && n <= |run|
    requires Busy(At(run, n), c) && Busy(At(run, n), d)
    ensures c == d
  {
    RunKeepsInv(run, n, maxAttempts);
  }

  ghost predicate OneBusyAtMost(w: World) {
    forall c, d :: Busy(w, c) && Busy(w, d) ==> c == d
  }

  ghost predicate NeverTwoBusy(run: seq<Event>) {
    forall k :: 0 <= k <= |run| ==> OneBusyAtMost(At(run, k))
  }

  /** A claim that comes while a slow holder is at work goes through, and then there are two. */
  lemma SlowHolderIsOvertaken(w: World, e: Event, maxAttempts: nat)
    requires HolderOk(w) && Can(w, e, maxAttempts) && e.ClaimEvent? && !NobodyIsSlow(w, e.now)
    ensures !OneBusyAtMost(Do(w, e))
  {
    var d :| Busy(w, d) && e.now > PhaseOf(w, d).at + CLAIM_STALE_MS;
    assert Claimable(w.row, e.now) && d != e.c;
    assert Busy(Do(w, e), d) && Busy(Do(w, e), e.c);
  }

  lemma {:induction false} NeverTwoMeansPrompt(run: seq<Event>, n: nat, maxAttempts: nat)
    requires IsRun(run, maxAttempts) && NeverTwoBusy(run) && n <= |run|
    ensures HolderOk(At(run, n)) && forall i :: 0 <= i < n ==> IsPromptAt(run, i)
  {
    hide Do, Can, HolderOk, NobodyIsSlow, OneBusyAtMost;
    if n == 0 {
      FreshInv(maxAttempts);
    } else {
      NeverTwoMeansPrompt(run, n - 1, maxAttempts);
      var w, e := At(run, n - 1), run[n - 1];
      assert IsEvent(run, n - 1, maxAttempts) && OneBusyAtMost(At(run, n));
      if e.ClaimEvent? && !NobodyIsSlow(w, e.now) {
        SlowHolderIsOvertaken(w, e, maxAttempts);
      }
      EventKeepsHolder(w, e, maxAttempts);
    }
  }

  /** Promptness is exactly what it takes: a run never has two consumers at work if and only if it is prompt. */
  lemma PromptExactly(run: seq<Event>, maxAttempts: nat)
    requires IsRun(run, maxAttempts)
    ensures IsPrompt(run) <==> NeverTwoBusy(run)
  {
    hide Busy, IsPromptAt, IsRun, At;
    if IsPrompt(run) {
      forall k, c, d | 0 <= k <= |run| && Busy(At(run, k), c) && Busy(At(run, k), d) ensures c == d {
        AtMostOneHolder(run, k, maxAttempts, c, d);
      }
    }
    if NeverTwoBusy(run) {
      NeverTwoMeansPrompt(run, |run|, maxAttempts);
    }
  }

  /** 'delivered' and 'dead' are never left. */
  lemma {:induction false} TerminalIsAbsorbing(run: seq<Event>, n: nat, m: nat, maxAttempts: nat)
    requires IsRun(run, maxAttempts) && IsPrompt(run) && n <= m <= |run|
    requires At(run, n).row.status.Delivered? || At(run, n).row.status.Dead?
    ensures At(run, m).row.status == At(run, n).row.status
    decreases m
  {
    hide Do, Can, HolderOk, PostsOk, NobodyIsSlow, IsRun, IsPrompt;
    if n < m {
      TerminalIsAbsorbing(run, n, m - 1, maxAttempts);
      RunKeepsInv(run, m - 1, maxAttempts);
      EventAt(run, m - 1, maxAttempts);
      EventKeepsHolder(At(run, m - 1), run[m - 1], maxAttempts);
    }
  }

  /** So a row leaves 'delivered' or 'dead' only in runs in which two consumers were at work at once. */
  lemma ReopenedMeansTwoBusy(run: seq<Event>, n: nat, m: nat, maxAttempts: nat)
    requires IsRun(run, maxAttempts) && n <= m <= |run|
    requires At(run, n).row.status.Delivered? || At(run, n).row.status.Dead?
    requires At(run, m).row.status != At(run, n).row.status
    ensures exists k :: 0 <= k <= |run| && !OneBusyAtMost(At(run, k))
  {
    hide At, IsPrompt, IsRun, OneBusyAtMost;
    PromptExactly(run, maxAttempts);
    if IsPrompt(run) {
      TerminalIsAbsorbing(run, n, m, maxAttempts);
    }
  }

  /**
    The webhook is called at most `maxAttempts` times, plus once for each consumer that crashed after its claim;
    it answers success at most once, plus once for each such crash, and 'delivered' means that it did.
  */
  lemma PostsAreBounded(run: seq<Event>, n: nat, maxAttempts: nat)
    requires IsRun(run, maxAttempts) && IsPrompt(run) && n <= |run|
    ensures At(run, n).posts <= maxAttempts + At(run, n).crashes
    ensures At(run, n).okPosts <= 1 + At(run, n).crashes
    ensures At(run, n).row.status.Delivered? ==> At(run, n).okPosts > 0
  {
    RunKeepsInv(run, n, maxAttempts);
  }

  const SLOW_RUN: seq<Event> :=
    [ClaimEvent(1, 0), ReadEvent(1, false), PostEvent(1, NotOk(Some(503))),
     ClaimEvent(2, 300_001), ReadEvent(2, false), PostEvent(2, Ok), SettleEvent(2), SettleEvent(1)]

  function SlowWorld(n: nat): World {
    var sending, again := Row(Sending, 0, Some(0)), Row(Sending, 0, Some(300_001));
    var slow := Posted(0, NotOk(Some(503)));
    match n
    case 0 => FRESH
    case 1 => World(sending, map[1 := Claimed(0)], 0, 0, 0)
    case 2 => World(sending, map[1 := Holding(0, 0)], 0, 0, 0)
    case 3 => World(sending, map[1 := slow], 1, 0, 0)
    case 4 => World(again, map[1 := slow, 2 := Claimed(300_001)], 1, 0, 0)
    case 5 => World(again, map[1 := slow, 2 := Holding(300_001, 0)], 1, 0, 0)
    case 6 => World(again, map[1 := slow, 2 := Posted(300_001, Ok)], 2, 1, 0)
    case 7 => World(Row(Delivered, 0, Some(300_001)), map[1 := slow, 2 := Idle], 2, 1, 0)
    case _ => World(Row(FailedOnce, 1, Some(300_001)), map[1 := Idle, 2 := Idle], 2, 1, 0)
  }

  lemma SlowStep(n: nat)
    requires n < 8
    ensures Can(SlowWorld(n), SLOW_RUN[n], 5) && Do(SlowWorld(n), SLOW_RUN[n]) == SlowWorld(n + 1)
  {
  }

  lemma {:induction false} SlowAt(n: nat)
    requires n <= 8
    ensures At(SLOW_RUN, n) == SlowWorld(n)
  {
    hide Do, SlowWorld;
    if n > 0 {
      SlowAt(n - 1);
      SlowStep(n - 1);
    } else {
      assert SlowWorld(0) == FRESH by { SlowStart(); }
    }
  }

  lemma SlowStart()
    ensures SlowWorld(0) == FRESH
  {
  }

  /** Without promptness none of this holds: a slow holder is overtaken and later reopens a delivered row. */
  lemma SlowHolderBreaksIt()
    ensures IsRun(SLOW_RUN, 5)
    ensures Busy(At(SLOW_RUN, 6), 1) && Busy(At(SLOW_RUN, 6), 2)
    ensures At(SLOW_RUN, 7).row.status.Delivered? && At(SLOW_RUN, 8).row.status.FailedOnce?
  {
    hide At, Do, Can;
    forall i | 0 <= i < |SLOW_RUN| ensures IsEvent(SLOW_RUN, i, 5) {
      SlowAt(i);
      SlowStep(i);
    }
    SlowAt(6);
    SlowAt(7);
    SlowAt(8);
  }

  // ----- one consumer's code

  /** Where behind the claim an exception comes, if one does: nothing after it is done. */
  datatype Fault = NoFault | ReadFault | DecryptFault | SendFault | StoreFault

  /** What one processing of a message meets: the clock, failures outside the protocol, and the webhook's answer. */
  datatype Circumstances = Circumstances(now: int, keyMissing: bool, archived: bool, fault: Fault, answer: PostResult)

  /**
    The exception is met: reading and decrypting come first, then the post, and every way ends in a write to the row.
  */
  predicate Throws(row: Row, x: Circumstances, maxAttempts: nat) {
    match x.fault
    case NoFault => false
    case ReadFault => true
    case DecryptFault => !x.archived
    case SendFault => !x.archived && row.attemptCount < maxAttempts
    case StoreFault => true
  }

  /** What becomes of the row and of the message when one consumer processes a message without interference. */
  function Processed(row: Row, x: Circumstances, maxAttempts: nat): (Row, Decision) {
    if x.keyMissing then (row, Retry)
    else if !Claimable(row, x.now) then (row, Ack)
    else if Throws(row, x, maxAttempts) then (ClaimedRow(row, x.now), Retry)
    else if x.archived || row.attemptCount >= maxAttempts then (FailedRow(ClaimedRow(row, x.now), true), Ack)
    else (SettledRow(ClaimedRow(row, x.now), x.answer),
          if x.answer.Ok? || IsPermanentFailure(x.answer.status) then Ack else Retry)
  }

  /** The events of one consumer that handles one message to the end; an exception after the claim is a crash. */
  function EventsOf(row: Row, c: Consumer, x: Circumstances, maxAttempts: nat): seq<Event> {
    var claim, read, post := ClaimEvent(c, x.now), ReadEvent(c, x.archived), PostEvent(c, x.answer);
    if x.keyMissing then []
    else if !Claimable(row, x.now) then [claim]
    else if x.archived then [claim, if Throws(row, x, maxAttempts) then CrashEvent(c) else read]
    else if x.fault.ReadFault? || x.fault.DecryptFault? then [claim, CrashEvent(c)]
    else if row.attemptCount >= maxAttempts then
      [claim, read, if x.fault.StoreFault? then CrashEvent(c) else GiveUpEvent(c)]
    else if x.fault.SendFault? then [claim, read, CrashEvent(c)]
    else [claim, read, post, if x.fault.StoreFault? then CrashEvent(c) else SettleEvent(c)]
  }

  ghost predicate CanAll(w: World, events: seq<Event>, maxAttempts: nat)
    decreases |events|
  {
    events == [] || (Can(w, events[0], maxAttempts) && CanAll(Do(w, events[0]), events[1..], maxAttempts))
  }

  function DoAll(w: World, events: seq<Event>): World
    decreases |events|
  {
    if events == [] then w else DoAll(Do(w, events[0]), events[1..])
  }

  lemma Unroll(w: World, events: seq<Event>, e: Event, rest: seq<Event>, maxAttempts: nat)
    requires events == [e] + rest
    ensures DoAll(w, events) == DoAll(Do(w, e), rest)
    ensures CanAll(w, events, maxAttempts) <==> Can(w, e, maxAttempts) && CanAll(Do(w, e), rest, maxAttempts)
  {
  }

  lemma Path2(w: World, e: Event, f: Event, maxAttempts: nat)
    ensures DoAll(w, [e, f]) == Do(Do(w, e), f)
    ensures CanAll(w, [e, f], maxAttempts) <==> Can(w, e, maxAttempts) && Can(Do(w, e), f, maxAttempts)
  {
    Unroll(w, [e, f], e, [f], maxAttempts);
    Unroll(Do(w, e), [f], f, [], maxAttempts);
  }

  /** Undisturbed, the consumer's code is a path of the machine, ends idle, and leaves the row `Processed` says. */
  lemma ProcessingIsAPath(w: World, c: Consumer, x: Circumstances, maxAttempts: nat)
    requires PhaseOf(w, c).Idle?
    ensures var events := EventsOf(w.row, c, x, maxAttempts);
            && CanAll(w, events, maxAttempts)
            && PhaseOf(DoAll(w, events), c).Idle?
            && DoAll(w, events).row == Processed(w.row, x, maxAttempts).0
  {
    var events := EventsOf(w.row, c, x, maxAttempts);
    var claim := ClaimEvent(c, x.now);
    var w1 := Do(w, claim);
    if |events| == 1 {
      Unroll(w, events, claim, [], maxAttempts);
    } else if |events| > 1 {
      Unroll(w, events, claim, events[1..], maxAttempts);
      var rest := events[1..];
      if |rest| == 1 {
        Unroll(w1, rest, rest[0], [], maxAttempts);
      } else if |rest| == 2 {
        assert rest == [rest[0], rest[1]];
        Path2(w1, rest[0], rest[1], maxAttempts);
      } else {
        var read := rest[0];
        assert rest == [read] + [rest[1], rest[2]];
        Unroll(w1, rest, read, [rest[1], rest[2]], maxAttempts);
        Path2(Do(w1, read), rest[1], rest[2], maxAttempts);
      }
    }
  }

  /**
    After an exception anywhere behind a claim, be it before or after the post, the message is retried; but every retry
    within `CLAIM_STALE_MS` finds the row 'sending' and acknowledges the message. Only a later one may claim again.
  */
  lemma RetryAfterException(row: Row, x: Circumstances, y: Circumstances, maxAttempts: nat)
    requires !x.keyMissing && Claimable(row, x.now) && Throws(row, x, maxAttempts) && !y.keyMissing
    ensures Processed(row, x, maxAttempts).1.Retry?
    ensures var stuck := Processed(row, x, maxAttempts).0;
            Processed(stuck, y, maxAttempts) == (stuck, Ack) <==> y.now <= x.now + CLAIM_STALE_MS
  {
  }

  // ----- the code

  type DeliveryId = nat
  datatype PendingDelivery = Nothing | Deliverable(attemptCount: nat) | Threw

  /** The row a message is about after its processing; an unknown delivery leaves nothing behind. */
  function RowsAfter(rows: map<DeliveryId, Row>, id: DeliveryId, x: Circumstances,
                     maxAttempts: nat): map<DeliveryId, Row> {
    if id in rows then rows[id := Processed(rows[id], x, maxAttempts).0] else rows
  }

  function DecisionOn(rows: map<DeliveryId, Row>, id: DeliveryId, x: Circumstances, maxAttempts: nat): Decision {
    if id in rows then Processed(rows[id], x, maxAttempts).1 else if x.keyMissing then Retry else Ack
  }

  class NotifyStore {
    var rows: map<DeliveryId, Row>

    method GetPendingDelivery(id: DeliveryId, x: Circumstances) returns (pending: PendingDelivery)
      modifies this
      ensures x.keyMissing ==> pending.Threw? && rows == old(rows)
      ensures !x.keyMissing && id !in old(rows) ==> pending.Nothing? && rows == old(rows)
      ensures !x.keyMissing && id in old(rows) ==>
                var row := old(rows)[id];
                var claims := Claimable(row, x.now);
                && rows == old(rows)[id := if claims && x.archived && x.fault !in {ReadFault, StoreFault}
                                           then FailedRow(ClaimedRow(row, x.now), true) else ClaimedRow(row, x.now)]
                && pending == if !claims then Nothing
                              else if x.fault.ReadFault? then Threw
                              else if x.archived then if x.fault.StoreFault? then Threw else Nothing
                              else if x.fault.DecryptFault? then Threw else Deliverable(row.attemptCount)
    {
      if x.keyMissing {
        return Threw;
      }
      if id !in rows || !Claimable(rows[id], x.now) {
        assert id in rows ==> rows[id := rows[id]] == rows;
        return Nothing;
      }
      rows := rows[id := rows[id].(status := Sending, claimedAt := Some(x.now))];
      if x.fault.ReadFault? {
        return Threw;
      }
      if x.archived {
        var stored := MarkFailed(id, true, x.fault);
        return if stored then Nothing else Threw;
      }
      if x.fault.DecryptFault? {
        return Threw;
      }
      return Deliverable(rows[id].attemptCount);
    }

    /** `stored` is false if the write threw. */
    method MarkDelivered(id: DeliveryId, fault: Fault) returns (stored: bool)
      modifies this
      ensures stored == !fault.StoreFault?
      ensures rows == if stored && id in old(rows) then old(rows)[id := DeliveredRow(old(rows)[id])] else old(rows)
    {
      if fault.StoreFault? {
        return false;
      }
      if id in rows {
        rows := rows[id := rows[id].(status := Delivered)];
      }
      return true;
    }

    method MarkFailed(id: DeliveryId, dead: bool, fault: Fault) returns (stored: bool)
      modifies this
      ensures stored == !fault.StoreFault?
      ensures rows == if stored && id in old(rows) then old(rows)[id := FailedRow(old(rows)[id], dead)] else old(rows)
    {
      if fault.StoreFault? {
        return false;
      }
      if id in rows {
        var status := if dead then Dead else FailedOnce;
        rows := rows[id := rows[id].(status := status, attemptCount := rows[id].attemptCount + 1)];
      }
      return true;
    }
  }

  /** Handles one message; none stands for the exception that the batch loop catches. */
  method ProcessOne(store: NotifyStore, id: DeliveryId, x: Circumstances, maxAttempts: nat)
    returns (decision: Option<Decision>)
    modifies store
    ensures store.rows == RowsAfter(old(store.rows), id, x, maxAttempts)
    ensures decision.Some? ==> decision.value == DecisionOn(old(store.rows), id, x, maxAttempts)
    ensures decision.None? ==> DecisionOn(old(store.rows), id, x, maxAttempts).Retry?
  {
    var stored;
    var pending := store.GetPendingDelivery(id, x);
    if pending.Threw? {
      return None;
    }
    if pending.Nothing? {
      return Some(Ack);
    }
    if pending.attemptCount >= maxAttempts {
      stored := store.MarkFailed(id, true, x.fault);
      return if stored then Some(Ack) else None;
    }
    if x.fault.SendFault? {
      return None;
    }
    if x.answer.Ok? {
      stored := store.MarkDelivered(id, x.fault);
      return if stored then Some(Ack) else None;
    }
    if x.answer.status == Some(429) {
      stored := store.MarkFailed(id, false, x.fault);
      return if stored then Some(Retry) else None;
    }
    if IsPermanentFailure(x.answer.status) {
      stored := store.MarkFailed(id, true, x.fault);
      return if stored then Some(Ack) else None;
    }
    stored := store.MarkFailed(id, false, x.fault);
    return if stored then Some(Retry) else None;
  }

  function RowsAfterAll(rows: map<DeliveryId, Row>, messages: seq<DeliveryId>, meets: nat -> Circumstances, n: nat,
                        maxAttempts: nat): map<DeliveryId, Row>
    requires n <= |messages|
  {
    if n == 0 then rows
    else RowsAfter(RowsAfterAll(rows, messages, meets, n - 1, maxAttempts), messages[n - 1], meets(n - 1), maxAttempts)
  }

  /** Every message of a batch gets its own decision, whatever exceptions the others meet. */
  method ProcessNotifyBatch(store: NotifyStore, messages: seq<DeliveryId>, meets: nat -> Circumstances,
                            maxAttempts: nat)
    returns (decisions: seq<Decision>)
    modifies store
    ensures store.rows == RowsAfterAll(old(store.rows), messages, meets, |messages|, maxAttempts)
    ensures |decisions| == |messages|
    ensures forall k :: 0 <= k < |messages| ==>
              decisions[k] == DecisionOn(RowsAfterAll(old(store.rows), messages, meets, k, maxAttempts),
                                         messages[k], meets(k), maxAttempts)
  {
    decisions := [];
    for k := 0 to |messages|
      invariant store.rows == RowsAfterAll(old(store.rows), messages, meets, k, maxAttempts)
      invariant |decisions| == k
      invariant forall i :: 0 <= i < k ==>
                  decisions[i] == DecisionOn(RowsAfterAll(old(store.rows), messages, meets, i, maxAttempts),
                                             messages[i], meets(i), maxAttempts)
    {
      var decision := ProcessOne(store, messages[k], meets(k), maxAttempts);
      decisions := decisions + [if decision.Some? then decision.value else Retry];
    }
  }
}
