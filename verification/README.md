# Utsuroi: verified model

Utsuroi watches web pages and feeds and notifies webhooks of changes. It runs as a Cloudflare Worker with durable
objects, a SQL database and a queue, and can hand fetches to runners on a home network. This project models the parts of
it where several steps, retries or concurrent parties have to agree, and proves what they guarantee.

| file | what it models |
|---|---|
| `HostLimiter.dfy` | the per-host limiter: leases, spacing, back-off, circuit breaker |
| `CrawlerProtocol.dfy`, `CrawlerTiming.dfy`, `CrawlerRows.dfy`, `CrawlerEvents.dfy` | the job lease protocol as a state machine: submit, the two halves of a claim, complete, timers, alarm, loss of memory; how long a submitter waits; what rows, timers, claims and replies say about the history; the event rows behind the statistics |
| `CrawlerAlarms.dfy` | when the object's one alarm goes off, and what that means for a job whose timers were lost |
| `CrawlerObject.dfy` | the durable object with its own fields, each method tied to a step of that machine |
| `RunnerProtocol.dfy`, `HomeRunner.dfy` | runners interleaved with the object; the runner's own code, tied to their steps, and its result retry loop |
| `FetchPolicy.dfy`, `PullBudget.dfy` | fetcher order, retries and fallback; the wait budget of one check |
| `Database.dfy`, `Feed.dfy` | target, change and delivery tables; detect, classify and notify over them |
| `FeedSelection.dfy` | which items of a feed count, what a check writes for them, and who is told |
| `FeedFrames.dfy`, `FeedRecovery.dfy`, `FeedAnnouncements.dfy` | feed checks over time with a crash possible between any two writes: what every run keeps, when a check is at rest, what watermarks say |
| `FeedUpdates.dfy`, `FeedOvertaken.dfy`, `FeedNewItems.dfy`, `FeedMessages.dfy` | which updates and which new items are announced in the end, whatever crashes came on the way, and which deliveries are sent |
| `SitemapTraversal.dfy`, `SitemapCommits.dfy`, `SitemapReach.dfy`, `SitemapEffort.dfy` | budgeted recursion over a web of sitemaps, when watermarks are committed, which children this check and the next one get to, and when the budget is enough for that |
| `SitemapPages.dfy`, `SitemapEnds.dfy` | what a commit says about the pages a sitemap lists; what each visit met, and what the counters count |
| `DeliveryClaims.dfy`, `DeliveryRetries.dfy` | queue consumers that compete for one delivery row; what a webhook's answers lead to |
| `RobotsGlob.dfy`, `RobotsEvaluator.dfy`, `RobotsParser.dfy`, `RobotsLines.dfy`, `RobotsPrinter.dfy`, `RobotsRules.dfy` | robots.txt: glob matcher, verdict, line parser, how a line may be written, printer |
| `PercentEncoding.dfy`, `PercentCharacters.dfy` | the percent-encoding normal form shared by patterns and paths; what it does to single characters |
| `IPv4Literal.dfy`, `IPv6Literal.dfy`, `IPNotation.dfy` | IP literals in all notations; which differences in writing do not matter |
| `Common.dfy`, `Text.dfy` | shared vocabulary; splitting and joining text |

Each component has a value-level state and functions for its steps. Code that updates fields or runs loops is a class or
method whose postcondition ties it to those functions; the results are lemmas about the functions, over all inputs,
all runs or all interleavings. The main decisions are also stated without these functions, in the numbers, characters
and table rows they are about, so that a function and the code that follows it cannot both be wrong unnoticed. Clocks, tokens, ids, fetched documents and answers of other services are parameters.

Crashes of a feed check are modelled by `fuel`, the number of writes that still reach the database: at zero every
later write is lost, so one function covers a check cut short at every point.

## Where code and comments differ

The model follows the code in each case.

* `src/do/hostObject.ts:36-40` promises that no lease is granted beside a half-open probe. Line 117 closes the window
  when the probe is granted, and lines 122-140 do not look at the probe. `HostLimiter.LeaseBesideProbe` says exactly when
  a second lease is granted, and `HostLimiter.GrantBeforeNextAllowed` when the back-off time is passed over;
  `HostLimiter.ProbeIsEarlyAndNotAlone` is a run in which both happen.
* `src/pipeline/sitemapTraversal.ts:276-282` writes the watermark of a new child before its first fetch. If that visit
  ends early the next check passes the child over: `SitemapReach.NewChildIsNotRetried`.
* `src/pipeline/sitemapTraversal.ts:342` leaves a failed fetch to the next check, and lines 407-412 promise a commit only
  after a complete expansion. But a failed, unmodified, broken or disallowed document below does not count as
  truncation, so the enclosing indexes commit and the next check never gets there:
  `SitemapReach.FailureBelowIsCommittedOver`. `SitemapReach.RetriedExactly` and `SitemapReach.EarlyEndIsRetriedExactly`
  say exactly which children the next check tries again, and `SitemapCommits.CommittedExactly` which visits commit.
* `src/pipeline/notify.ts:18-21` promises that a crash between the insertion of a change and its deliveries is made up
  for, whichever write it comes after. For an update that holds iff no other item overtakes it or nobody is owed it any
  more (`FeedOvertaken.UpdateSurvivesExactly`). An item overtakes a later one if both list the same page at the same time
  under different stable keys, the watermark is behind that time, and no item of the page before the two is at that time
  or later; two Atom entries with one link can do that (`src/adapters/atom.ts:80-84`). The crash that loses the update comes
  right after the watermark was moved for the first of the two: `FeedOvertaken.OvertakenUpdateIsLost` is one. Items of
  the same page at other times do no harm.
* For a page that is not registered yet, a second item at the time of the first is passed over even without a crash:
  `FeedAnnouncements.ListedTwice`.
* For a new item the promise fails as well: line 166 of `src/pipeline/feed.ts` writes its target at its time, and from
  then on no check finds it new or updated. Whatever the crash kept back between that write and the last message of the
  item's fanout stays undone: `FeedNewItems.NewItemIsLostExactly`, with `FeedNewItems.NewItemCanBeLost` and
  `FeedNewItems.StoredButNeverTold`.
* `src/pipeline/feed.ts:201-208` has the watermark keep unchanged items from being found again. The next check does find
  an item that was at the watermark before if its page is listed at a later time too: `FeedRecovery.CompleteRunRests`
  and, after a baseline, `FeedRecovery.BaselineThenSilence` say exactly when.
* A delivery row whose message was not sent before a crash stays unsent (`src/pipeline/notify.ts:33-35`), for updates
  too: `FeedMessages.DeliveryIsSentExactly`, with `FeedMessages.DeliveryCanStayUnsent`.
* `src/db/notifyStore.ts:80-85` promises that one consumer at a time posts a delivery. That is so exactly in runs in
  which every holder is done before its claim is stale: `DeliveryClaims.PromptExactly`.
* After an exception behind a claim, before or after the post, the retried message is acknowledged without a further attempt
  (`src/notify/batch.ts:44-48`) unless it comes later than the claim's expiry: `DeliveryClaims.RetryAfterException`.
* A stray `%` can assemble a triplet that was not there, as in `%%34%31`. `PercentEncoding.NormalizingKeepsMeaning` and
  `PercentEncoding.Idempotent` give the exact conditions.
* Section 2.2.1 of RFC 9309 has a crawler follow all groups for its product token. `src/robots/evaluator.ts:68-76` says
  that the standard compares by substring, and does so: a group for `bot` is for every crawler whose name contains that,
  and only the groups with the longest such token count. `RobotsEvaluator.ReadsAsRfc` says when that makes no difference,
  and `RobotsEvaluator.PartOfNameApplies` is a case in which it does.
* Section 2.2.4 of RFC 9309 wants other records, sitemap lines among them, to leave groups alone.
  `src/robots/parser.ts:138-141` lets a sitemap line end a run of user-agent lines: `RobotsParser.SitemapLineBetween`.
* Section 2.2 of RFC 4291 has `::` stand for one group or more and the last two groups in four decimal bytes.
  `src/net/ip.ts:121-123` also takes `::` for none and lines 86-96 any IPv4 notation: `IPv6Literal.RfcExactly`.

## Model

| member | source | states |
|---|---|---|
| `HostLimiter.AtMostTwoLeases` | src/do/hostObject.ts:94-141 | in every run with a clock that does not go back, at most two leases are stored, although the half-open branch does not check the cap |
| `HostLimiter.HalfOpenIsIdle` | src/do/hostObject.ts:102-108 | when the breaker window is over no lease is live and no probe is recorded, so the denial at lines 105-108 is never taken |
| `HostLimiter.HalfOpenGrantStandsAlone` | src/do/hostObject.ts:102-119 | a half-open acquire is always granted, and its lease is the only one then stored |
| `HostLimiter.GrantsAreSpaced` | src/do/hostObject.ts:94-141 | any two grants of a run are at least 10 s apart |
| `HostLimiter.GrantRate` | src/do/hostObject.ts:18-19 | any window of W ms holds at most W/10000 + 1 grants |
| `HostLimiter.StreakCountsFailures` | src/do/hostObject.ts:156-172 | the stored streak is the number of failures other than executor_unavailable since the last success |
| `HostLimiter.BreakerDeniesFor300s` | src/do/hostObject.ts:163-171 | from a failure that makes the streak five or more, nothing is granted for 300 s unless some lease is released with success |
| `HostLimiter.BreakerExactly` | src/do/hostObject.ts:158-171 | after the last of n counted failures since a success the breaker is open until 300 s later if n is five or more and nothing was granted since, and closed otherwise |
| `HostLimiter.BackoffHolds` | src/do/hostObject.ts:127-168 | with n counted failures since the last success, the last at time t, nothing but a half-open grant comes before t + min(300 s, 10 s * 2^(n-1)), nor before t + r seconds if that was a 429 asking for r; from then on an acquire is decided as if there were no back-off |
| `HostLimiter.BackoffDoubles` | src/do/hostObject.ts:55-58 | the back-off starts at 10 s and doubles with each failure up to its maximum |
| `HostLimiter.GrantExactly` | src/do/hostObject.ts:94-141 | in every run an acquire is granted iff an open breaker has been open long enough or, with none open, fewer than two leases are younger than 60 s, the last grant is 10 s ago, and `nextAllowedAt` is reached |
| `HostLimiter.RetryAfterIsExact` | src/do/hostObject.ts:99-134 | a denied caller that comes back alone is granted from exactly the time it was told on, except when two leases were live: then it is told 10 s |
| `HostLimiter.SuccessClears` | src/do/hostObject.ts:158-161 | after a success, and until the next counted failure, there is no streak, no open breaker and no back-off |
| `HostLimiter.LeaseBesideProbe` | src/do/hostObject.ts:117-140 | while a probe is out, an acquire is granted iff the ordinary checks pass: the promise of a single probe fails exactly then |
| `HostLimiter.GrantBeforeNextAllowed` | src/do/hostObject.ts:102-134 | before `nextAllowedAt` an acquire is granted iff the host is half-open |
| `HostLimiter.ProbeIsEarlyAndNotAlone` | src/do/hostObject.ts:36-40 | a run in which a probe is granted before `nextAllowedAt` and a second lease is granted beside it |
| `HostLimiter.ExpireStaleLeases` | src/do/hostObject.ts:81-92 | the loop drops exactly the leases of 60 s or older, and a probe recorded on one of them |
| `HostLimiter.HostObject.AcquireLease` | src/do/hostObject.ts:94-141 | the method leaves the state and gives the answer of the step the run results are about |
| `HostLimiter.HostObject.ReleaseLease` | src/do/hostObject.ts:143-175 | the same for a release with any outcome, whose waits `HostLimiter.BackoffHolds` gives in numbers |
| `CrawlerProtocol.RunKeepsInv` | src/do/crawlerObject.ts:262-507 | every interleaving of submit, both claim halves, complete, timers, alarm and loss of memory keeps rows, timers, waiters, pending claims and history in agreement |
| `CrawlerProtocol.Lifecycle` | src/do/crawlerObject.ts:270-507 | a step leaves a job's row alone or moves it from queued to leased, from leased to completed, from either to expired, or purges a finished one |
| `CrawlerProtocol.LeasedAtMostOnce` | src/do/crawlerObject.ts:330-362 | no job is claimed twice in a run |
| `CrawlerProtocol.HandedOutOnce` | src/do/crawlerObject.ts:364-379 | no job leaves in two lease responses |
| `CrawlerProtocol.Conservation` | src/do/crawlerObject.ts:270-507 | submitted jobs are the queued, leased, completed, expired and purged ones, counted once each |
| `CrawlerProtocol.EndedInOneWay` | src/do/crawlerObject.ts:270-440 | no job both completed and expired, and a kept row is in the terminal state of how its job ended |
| `CrawlerProtocol.PromiseIsFinal` | src/do/crawlerObject.ts:262-267 | a submitter's promise that has resolved never changes |
| `CrawlerProtocol.PromiseAgreesWithJob` | src/do/crawlerObject.ts:317-440 | the promise is result r iff the job completed by accepting r, unavailable iff it expired, with the reason telling whether it had been leased, and pending iff its waiter is there |
| `CrawlerProtocol.AcceptedUnderIssuedToken` | src/do/crawlerObject.ts:402-440 | a result is accepted only with the one token issued for the job, and only after that token left in a response |
| `CrawlerProtocol.AcceptedAtMostOnce` | src/do/crawlerObject.ts:402-440 | after an acceptance the same token is answered duplicate while the row is kept, any other token lease_mismatch, and not_found after purging |
| `CrawlerTiming.WaitIsBounded` | src/do/crawlerObject.ts:304-361 | if timers fire on time nobody is still waiting later than submission + lease wait + result wait |
| `CrawlerTiming.AlarmLeavesNothingLate` | src/do/crawlerObject.ts:491-507 | after an alarm no job is past its deadline, whether or not its timer survived, and no finished row past its retention |
| `CrawlerTiming.AlarmExactly` | src/do/crawlerObject.ts:491-502 | an alarm expires a queued or leased job iff its own deadline has been reached, deletes a finished row iff an hour has passed, and leaves every other row, with its waiter, timers and outcome, as it was |
| `CrawlerTiming.AlarmKeepsEvents` | src/do/crawlerObject.ts:504-504 | it deletes the event rows older than the last hour and no others |
| `CrawlerRows.RowShowsSubmission` | src/do/crawlerObject.ts:304-315 | in every run a kept row has the mode, times and limits of the submission it comes from |
| `CrawlerRows.RowShowsClaim` | src/do/crawlerObject.ts:343-353 | a row with a runner or a lease deadline has those of the one claim that took it, the deadline being the claim's time plus the job's own wait |
| `CrawlerRows.TimersFollowRows` | src/do/crawlerObject.ts:320-361 | in every run timers and rows show the same deadlines |
| `CrawlerRows.ClaimGivesWhatIsAsked` | src/do/crawlerObject.ts:334-341 | a claim takes queued jobs that somebody waits for and the runner can fetch, none claimed before, at most as many as asked for, fewer only if there are no others, and none while an older one stays behind |
| `CrawlerRows.ReplyExactly` | src/do/crawlerObject.ts:402-440 | in every run the reply to a result is decided by the job's history: unknown or purged, not under the one token handed out, accepted before, expired, too large, or accepted |
| `CrawlerRows.BodyExceeds` | src/runner/protocol.ts:30-33 | a body is too large iff it takes more groups of three bytes than the job allows, so never if it is within the limit |
| `CrawlerAlarms.EveryRowIsWatched` | src/do/crawlerObject.ts:472-489 | in every history, loss of memory included, the alarm is set for each row no later than the row's limit (queue deadline, the later of queue and lease deadline, or end of retention) or a second after the last scheduling |
| `CrawlerAlarms.ScheduledForSomething` | src/do/crawlerObject.ts:473-488 | no alarm is set without a row, and none more than a second ahead but for the time at which a row is due |
| `CrawlerAlarms.UnfinishedOnlyInABurst` | src/do/crawlerObject.ts:472-507 | if alarms go off in time, a job, with timers or without, outlives its limit only while every step comes within a second of the last scheduling |
| `CrawlerAlarms.AlarmsAreSpaced` | src/do/crawlerObject.ts:488 | with a clock that does not go back, alarms go off at least a second apart |
| `CrawlerAlarms.HeartbeatsKeepItAhead` | src/do/crawlerObject.ts:396-400 | a heartbeat every half a second keeps the alarm ahead for good, so that a job that lost its timer stays queued as long as they come |
| `CrawlerEvents.OneEventPerEnding` | src/do/crawlerObject.ts:187-430 | in every run, from any time no alarm has cut into, there are as many completion rows as jobs whose row became completed since, as many expiry rows as jobs whose row expired, and a rejection row for each refused result |
| `CrawlerEvents.LastHour` | src/do/crawlerObject.ts:448-468 | the counts a status call reads from the rows of the last hour are those numbers, if no alarm went off later than the call |
| `CrawlerEvents.CompletedByAcceptance` | src/do/crawlerObject.ts:428-440 | a row becomes completed exactly in the step that answers the result of its job with accepted |
| `CrawlerObjects.CrawlerObject.SubmitAndWait` | src/do/crawlerObject.ts:288-327 | answers at once under maintenance or without a live runner, else performs the submit step |
| `CrawlerObjects.CrawlerObject.BeginClaim` | src/do/crawlerObject.ts:330-362 | filters the query's answer by waiters, cuts it to the number asked for, leases each job under a new token, and so performs the first half of a claim |
| `CrawlerObjects.CandidatesAreSelection` | src/do/crawlerObject.ts:334-341 | what the filter and the cut leave are the oldest eligible jobs, as many as asked for |
| `CrawlerObjects.CrawlerObject.FinishClaim` | src/do/crawlerObject.ts:364-379 | the part after the await stores the hashes of the pending claim and hands exactly its jobs out |
| `CrawlerObjects.CrawlerObject.Complete` | src/do/crawlerObject.ts:402-441 | performs the complete step with the reply of the first check that applies |
| `CrawlerObjects.CrawlerObject.ExpireJob` | src/do/crawlerObject.ts:270-286 | performs the expiry step of the given stage, or nothing if the job is not in it |
| `CrawlerObjects.CrawlerObject.ExpireLate` | src/do/crawlerObject.ts:493-500 | the loop over late jobs is the simultaneous expiry of all of them, which `CrawlerTiming.AlarmExactly` shows to be those whose deadline has been reached |
| `CrawlerObjects.CrawlerObject.Alarm` | src/do/crawlerObject.ts:491-507 | both loops and the purge perform the alarm step that `CrawlerTiming.AlarmExactly` describes row by row |
| `CrawlerObjects.CrawlerObject.ResolveWaiter` | src/do/crawlerObject.ts:262-267 | resolves the waiter if there is one, and then exactly once |
| `CrawlerObjects.CrawlerObject.Evict` | src/do/crawlerObject.ts:329-340 | when the object is reset its waiters, timers and open claims are gone and its rows stay |
| `RunnerProtocol.StartedAtMostOnce` | executors/home-runner/src/runner.ts:177-221 | whatever requests fail or are given up, no fetch is started twice, by one runner or by two |
| `RunnerProtocol.InflightWithinConcurrency` | executors/home-runner/src/runner.ts:180-221 | a runner never works on more jobs than its concurrency |
| `RunnerProtocol.InflightExactly` | executors/home-runner/src/runner.ts:209-221 | in every run a runner works on exactly the jobs it has started and not finished since |
| `RunnerProtocol.AskedExactly` | executors/home-runner/src/runner.ts:181-206 | and waits for exactly the request it sent last, for every slot then free, if it has neither used the answer nor given up since |
| `HomeRunner.Runner.RequestLease` | executors/home-runner/src/runner.ts:181-198 | performs the asking step of the runner protocol, for exactly the free slots, and does nothing under maintenance or when full |
| `HomeRunner.Runner.DispatchAll` | executors/home-runner/src/runner.ts:199-221 | starts the first jobs of the answer up to the slots asked for, however many came, which is a starting step that the protocol allows |
| `HomeRunner.Runner.LeaseFailed` | executors/home-runner/src/runner.ts:201-206 | performs the giving-up step |
| `HomeRunner.Runner.Finished` | executors/home-runner/src/runner.ts:216-219 | performs the finishing step, so that slots in use and asked for stay within the concurrency |
| `HomeRunner.FetchBudget` | executors/home-runner/src/runner.ts:223-237 | a fetch is skipped iff it is for another mode or the lease has 3 s left or less; otherwise it gets the largest time that is within the limit and ends 3 s before the lease does |
| `HomeRunner.SendResult` | executors/home-runner/src/client.ts:112-136 | only server and network errors are retried, each after its own delay, and the last response decides |
| `HomeRunner.ReplyComesThrough` | src/api/routes/runner.ts:120-139 | each reply of the object, sent as the route sends it, comes through to the runner as what it says, and none as a reason to send again |
| `HomeRunner.OtherAnswers` | executors/home-runner/src/client.ts:112-136 | any other status below 500 and a refused login end the loop as errors of their own; from 500 on it is tried again |
| `HomeRunner.LostAcceptanceIsDuplicate` | src/do/crawlerObject.ts:413-413 | a result that is sent again because its acceptance was lost is answered as delivered before, in every run in which the row is still kept |
| `FetchPolicy.ValidateFetcherPolicy` | src/fetch/policy.ts:22-57 | no error is reported iff the allow list is non-empty without repeats and the order list is a permutation of it |
| `FetchPolicy.RunFetchSequence` | src/fetch/policy.ts:145-200 | runs iff the plan is valid and not empty; the recorded attempts are `Attempts` and the outcome is that of the last one |
| `FetchPolicy.RunExact` | src/fetch/policy.ts:157-199 | the record is the only one that splits into blocks over a prefix of the plan: within a block every attempt but the last wants a retry and none is missing, every block but the last ends in a failure to go on from |
| `FetchPolicy.NothingAfterTheEnd` | src/fetch/policy.ts:64-70 | no attempt follows a success or a failure that must never be followed up |
| `FetchPolicy.AttemptsAreBounded` | src/fetch/policy.ts:132-144 | each planned entry is tried at most once plus its retries |
| `FetchPolicy.DefaultBound` | src/fetch/policy.ts:84-95 | with the default limits a policy makes at most nine calls |
| `FetchPolicy.DefaultBoundIsReached` | src/fetch/policy.ts:84-95 | and it makes nine if it has three fetchers or more and each keeps failing with server errors |
| `FetchPolicy.RepeatsAreRetries` | src/fetch/policy.ts:145-200 | in a whole run a fetcher is called again only right after calls of it that wanted a retry, so one that may not be retried is called at most once |
| `FetchPolicy.WhatFollows` | src/fetch/policy.ts:58-70 | in a whole run each attempt is some retry of some planned entry; it is followed by one more of the same fetcher iff it failed with a server or network error, may be retried and retries are left, else by the next entry iff its failure is listed by the entry, or by default, and is not one that must never be followed up |
| `PullBudget.BudgetHolds` | src/pipeline/fetchTarget.ts:36-60 | all waits of a check for pulling executors, each one a wait in a timely run of the crawler object, add up to at most 55 s, below the 60 s of a host lease |
| `PullBudget.CallExactly` | src/pipeline/fetchTarget.ts:39-61 | in a whole check a fetcher is run iff it has not answered before that its executor is unavailable and, if it pulls, the waits so far come to 50 s at most; one that is not run answers unavailable and waits for nothing |
| `PullBudget.LimitsExactly` | src/pipeline/fetchTarget.ts:42-58 | a pull job is given the largest wait for a lease that is within 10 s and a fifth of what is left of 55 s, and for the result the largest within 40 s and the rest |
| `PullBudget.UnavailableIsNotRetried` | src/pipeline/fetchTarget.ts:45-61 | a fetcher whose executor was unavailable is not run again in the same check |
| `PullBudget.CheckContext.ExecuteFetcher` | src/pipeline/fetchTarget.ts:36-61 | performs one budget step and submits pull jobs with exactly the limits left |
| `Database.Tables.UpsertTarget` | src/db/targets.ts:24-67 | inserts a missing row with its first watermark, and touches an existing watermark only when given one |
| `Database.Tables.SetTargetLastKnownUpdatedAt` | src/db/targets.ts:106-119 | moves a watermark forward or not at all |
| `Database.Tables.InsertChangeIfNew` | src/db/changes.ts:30-93 | inserts unless the key is there, and answers with the row either way |
| `Database.Tables.SetChangeTagsIfNull` | src/db/changes.ts:107-116 | writes tags once and answers with what is stored |
| `Database.Tables.CreateDeliveryIfNew` | src/db/deliveries.ts:23-63 | inserts unless change and destination are there together |
| `Feed.DetectFeedChanges` | src/pipeline/feed.ts:127-234 | the loop is the detect step over the first `maxItems` items; which of them count is stated by the rows of `FeedSelection` |
| `Feed.ClassifyDetectedChanges` | src/pipeline/classify.ts:76-99 | the loop tags untagged rows only, once |
| `Feed.FanoutChange` | src/pipeline/notify.ts:23-38 | one delivery per matching destination, sent if it was created here |
| `Feed.NotifyDetectedChanges` | src/pipeline/notify.ts:64-72 | fanout, then watermark, entry by entry; reports the inserted changes |
| `Feed.ProcessFeedItems` | src/pipeline/feed.ts:254-265 | detect, classify and notify in this order, and how many items were left for later; what that does to pages, changes and deliveries is stated by the rows of `FeedSelection` |
| `Feed.ProcessedKeeps` | src/pipeline/feed.ts:127-265 | a check, cut short by a crash anywhere or not, keeps unique keys, one delivery per pair and at most one message per delivery; it deletes nothing, sends no delivery it did not create, and moves no watermark back |
| `Feed.ReportedAreNew` | src/pipeline/notify.ts:64-72 | the list of changes a check is to report holds exactly those it added, each once and in order |
| `FeedSelection.RefusedLeaveNoTrace` | src/pipeline/feed.ts:155-162 | a check, cut short anywhere or not, does and reports the same as if the items with no URL or a refused one were not listed |
| `FeedSelection.RefusedStaysAsItIs` | src/pipeline/feed.ts:161-174 | it neither registers a refused page nor moves the watermark of one |
| `FeedSelection.AdmittedAreRegistered` | src/pipeline/feed.ts:164-175 | a check that is not cut short registers every other page that is listed |
| `FeedSelection.AddedTellsSubscribers` | src/pipeline/notify.ts:23-38 | a change that such a check adds is new or updated as its item is, tagged as the classifier says, has a delivery for exactly the destinations subscribed to that kind and these tags, and all of these are sent |
| `FeedRecovery.RunsKeepInv` | src/pipeline/feed.ts:209-230 | the same over any number of runs with crashes |
| `FeedAnnouncements.WatermarkAfter` | src/pipeline/notify.ts:59-72 | after a check, cut short or not, a watermark is the one before, the time of the item its target was created for, or the time of an item of the check whose change is stored and tagged with a delivery for every matching destination |
| `FeedAnnouncements.AdvancedMeansAnnounced` | src/pipeline/notify.ts:59-72 | whenever a run moved a watermark, it is at the time of one of its items for that URL, and from then on the change with the key of that item and a delivery for every destination that run matched are stored |
| `FeedAnnouncements.WatermarkIsAnnounced` | src/pipeline/feed.ts:209-230 | after any runs with crashes every watermark is what its target was created with, or the time of an item announced so |
| `FeedAnnouncements.CompleteRunAnnounces` | src/pipeline/feed.ts:164-231 | a check that is not cut short announces every item that is due, new or updated, when its turn comes, whatever crashes came before |
| `FeedAnnouncements.DueFromTheStart` | src/pipeline/feed.ts:209-210 | for a page registered before the check, an item is due when its turn comes iff it was due at the start, whatever other items list the page |
| `FeedAnnouncements.ListedTwice` | src/pipeline/feed.ts:164-210 | a page not registered before is new for the first item that lists it; a further item is due iff it has another time, and otherwise the check goes as if the item were not there |
| `FeedUpdates.UpdateIsNeverLost` | src/pipeline/feed.ts:209-230 | a check with a crash anywhere leaves an update that no other item overtakes announced, or an update that no other item overtakes |
| `FeedUpdates.UpdateSurvivesCrashes` | src/pipeline/notify.ts:14-22 | over any number of attempts that crash and one that does not, such an update is announced |
| `FeedOvertaken.UpdateSurvivesExactly` | src/pipeline/notify.ts:14-72 | an update survives all crashes iff no other item overtakes it or nobody subscribed is still owed it |
| `FeedOvertaken.OvertakenIsLost` | src/pipeline/notify.ts:64-71 | for an update that another item overtakes, while somebody is owed it, the crash after which a complete check does not announce it |
| `FeedOvertaken.OvertakenUpdateIsLost` | src/pipeline/feed.ts:209-230 | two entries of one page at one time: the concrete crash after which both changes are stored, nobody was told of the second, and no later check does anything |
| `FeedRecovery.WatermarksOnlyAdvance` | src/db/targets.ts:94-119 | over any runs no watermark goes back |
| `FeedRecovery.CompleteRunRests` | src/pipeline/feed.ts:201-230 | after a complete check the next one has nothing to do for an item iff the item is announced, or it was not at the start time of a page listed at a later time too; otherwise the item is due |
| `FeedRecovery.SecondRunChangesNothing` | src/pipeline/feed.ts:254-265 | if so for every item, the same check on the same items again leaves the tables and the queue as they are |
| `FeedRecovery.BaselineRegisters` | src/pipeline/feed.ts:178-180 | the first check of a monitor creates targets only |
| `FeedRecovery.BaselineThenSilence` | src/pipeline/feed.ts:201-230 | the check after a baseline on the same items detects nothing, and then changes nothing, iff no item is at another time than its page was known at or first listed at |
| `FeedNewItems.NewItemIsStoredExactly` | src/pipeline/feed.ts:164-198 | after any number of attempts with crashes a new item has its change iff the first attempt that had a write left when the item's turn came had two |
| `FeedNewItems.NewItemIsLostExactly` | src/pipeline/feed.ts:164-198 | after any number of attempts the item is tagged, announced and sent to every matching destination iff that first attempt went on to the last message of its fanout; after a complete attempt this no longer changes |
| `FeedNewItems.FanoutExact` | src/pipeline/notify.ts:32-37 | a fanout takes two writes for each destination without a delivery, and with one less not all are created and sent |
| `FeedNewItems.NewItemCanBeLost` | src/pipeline/feed.ts:166-198 | the concrete crash after which a new item never gets a change |
| `FeedNewItems.StoredButNeverTold` | src/pipeline/notify.ts:18-21 | the concrete crash after which a new item has its change and nobody is ever told |
| `FeedMessages.SentExactly` | src/pipeline/notify.ts:32-37 | of the deliveries a check creates those are sent that it would have created with one write less |
| `FeedMessages.DeliveryIsSentExactly` | src/pipeline/notify.ts:32-37 | after any runs a delivery has its message iff the run that created it had a write left after that: no later run sends it |
| `FeedMessages.UnsentAreFew` | src/pipeline/notify.ts:32-37 | after any runs there are no more unsent deliveries than runs that ended in a crash |
| `FeedMessages.SecondFanoutSends` | src/pipeline/notify.ts:32-37 | after two fanouts, the second with writes enough, a new delivery is sent iff the first did not have exactly one write left |
| `FeedMessages.DeliveryCanStayUnsent` | src/pipeline/notify.ts:33-36 | from an empty database, the crash after which a delivery is never sent |
| `SitemapTraversal.FilterItemsForTraversal` | src/pipeline/sitemapTraversal.ts:137-149 | keeps an item iff it has a URL and a lastmod from the cutoff on, and counts those without a lastmod; `SitemapTraversal.FilteredConcat` says that order is kept |
| `SitemapTraversal.FilteredExactly` | src/pipeline/sitemapTraversal.ts:142-147 | an item is kept iff its lastmod is from the cutoff on, and then as often as it is listed |
| `SitemapTraversal.FilteredConcat` | src/pipeline/sitemapTraversal.ts:137-149 | filtering two lists one after the other is filtering their concatenation: order is kept, and each item is decided on its own |
| `SitemapTraversal.SelectChildEntries` | src/pipeline/sitemapTraversal.ts:209-229 | the eligible children newest first, and the counts of the others |
| `SitemapTraversal.EligibleOne` | src/pipeline/sitemapTraversal.ts:214-226 | a single child is eligible iff its lastmod is from the cutoff on and the patterns include it, and counts as excluded iff only the latter fails |
| `SitemapTraversal.SelectedExactly` | src/pipeline/sitemapTraversal.ts:209-229 | selected are the listed children from the cutoff on that the patterns include, and no others |
| `SitemapTraversal.SortIsStable` | src/pipeline/sitemapTraversal.ts:205-228 | the sort orders by lastmod, loses nothing, and keeps document order among equals |
| `SitemapTraversal.NewestAreKept` | src/pipeline/sitemapTraversal.ts:441-445 | the limit drops a child only if twenty others are kept, none of which is older |
| `SitemapTraversal.Traversal.TraverseChild` | src/pipeline/sitemapTraversal.ts:256-413 | the method, recursive through the next one, performs the visit of a child and terminates on every web, cyclic ones included |
| `SitemapTraversal.Traversal.TraverseSitemapIndex` | src/pipeline/sitemapTraversal.ts:421-450 | the loop visits the kept children one after the other |
| `SitemapTraversal.Traversal.ExpandUrlSet` | src/pipeline/sitemapTraversal.ts:369-384 | filters, processes and commits unless items were left over; what a commit then stands for is stated by the rows of `SitemapPages` |
| `SitemapPages.CommitDealsWithPages` | src/pipeline/sitemapTraversal.ts:369-384 | a visit that commits on a URL set has every allowed page listed from the cutoff on registered at its lastmod or later and announced, unless it is at the time the check found the page at; and it has touched no page that is listed before the cutoff only or not at all |
| `SitemapPages.SetCommitsExactly` | src/pipeline/sitemapTraversal.ts:369-384 | a visit to a URL set commits iff at most 2000 of its items are from the cutoff on |
| `SitemapPages.CommitAnnouncesNewPages` | src/pipeline/sitemapTraversal.ts:369-384 | among them, a page not known before is announced as new |
| `SitemapPages.CommittedSetsAreCovered` | src/pipeline/sitemapTraversal.ts:256-413 | after a whole check without a crash every page that a committed URL set lists from the cutoff on, and that is allowed, is known at its lastmod or a later one |
| `SitemapCommits.CommittedExactly` | src/pipeline/sitemapTraversal.ts:368-412 | in a whole check a visit commits iff its document was expanded and no limit was hit by it or by any visit inside it |
| `SitemapCommits.EarlyEndsCut` | src/pipeline/sitemapTraversal.ts:307-405 | a visit that was not expanded does not commit, and counts as truncation iff the fetch budget or the depth stopped it: not if the document was disallowed, missing, unmodified or broken |
| `SitemapCommits.NothingLeftOutSilently` | src/pipeline/sitemapTraversal.ts:129-131 | the truncation counters add up to what the visits left out and the first index lost |
| `SitemapEnds.EndsAreExplained` | src/pipeline/sitemapTraversal.ts:256-405 | in a whole check each visit ends early for its reason and no other: another origin, a baseline check, a watermark at its lastmod or later, a refusal, a budget used up, an answer that is no sitemap, or an index at the depth limit; what is fetched is allowed and was not gated when the check began |
| `SitemapEnds.CountersAddUp` | src/pipeline/sitemapTraversal.ts:129-149 | after a whole check the counters are the documents fetched, the children of other origins, and the items without a lastmod or excluded by patterns, summed over the documents expanded |
| `SitemapCommits.FetchesStayInBudget` | src/pipeline/sitemapTraversal.ts:325-334 | the whole check makes no more fetches than allowed |
| `SitemapCommits.DefaultReach` | src/pipeline/sitemapTraversal.ts:78-86 | with the default depth a check makes at most 20 + 20^2 + 20^3 visits, however the web is linked |
| `SitemapCommits.MovedOnlyByCommit` | src/pipeline/sitemapTraversal.ts:407-413 | the watermark of a target from before the check moves only to the lastmod of a visit that committed, or to the time at which a URL set fetched in the check lists the page |
| `SitemapCommits.WatermarksNeverDecrease` | src/pipeline/sitemapTraversal.ts:291-300 | over any serial checks with crashes no watermark decreases and the tables keep their invariant |
| `SitemapReach.VisitedHasPath` | src/pipeline/sitemapTraversal.ts:256-450 | whatever limits are hit, a child is visited only if a chain of indexes leads to it, within the depth, that were all allowed and not gated when the check began |
| `SitemapEffort.CheckWithin` | src/pipeline/sitemapTraversal.ts:325-405 | a check makes no more fetches than the children open before it can take, counted over the web, meets no more indexes at the depth limit, and is not cut by a budget of that size |
| `SitemapEffort.FittingVisitsExactly` | src/pipeline/sitemapTraversal.ts:256-450 | so for a web within the limits, which can be tested before the check, the next row and those after it apply |
| `SitemapReach.VisitedExactly` | src/pipeline/sitemapTraversal.ts:256-450 | a child is visited in a check iff a chain of indexes leads to it, within the depth, that were all allowed and not gated when the check began |
| `SitemapReach.GatedAfterExactly` | src/pipeline/sitemapTraversal.ts:276-412 | after a complete check a target is gated for a lastmod iff it was before, or a visit at that lastmod or a later one committed or registered it |
| `SitemapReach.VisitedAgainExactly` | src/pipeline/sitemapTraversal.ts:386-412 | the check after a complete one visits a child iff a chain of indexes leads to it that were open before the first and that the first neither committed nor registered |
| `SitemapReach.RetriedExactly` | src/pipeline/sitemapTraversal.ts:276-412 | it gets past the child's own gate iff, besides, the first check did not move the child's watermark there |
| `SitemapReach.EarlyEndIsRetriedExactly` | src/pipeline/sitemapTraversal.ts:319-343 | a child whose only visit ended early is tried again by the next check iff it was registered before and such a chain leads to it |
| `SitemapReach.FailureBelowIsCommittedOver` | src/pipeline/sitemapTraversal.ts:342-343 | a registered child whose fetch failed below an index that commits all the same: the next check makes no fetch |
| `SitemapReach.NewChildIsNotRetried` | src/pipeline/sitemapTraversal.ts:276-300 | a new child whose first fetch fails is passed over by the next check without a fetch |
| `DeliveryClaims.AtMostOneHolder` | src/db/notifyStore.ts:105-118 | if every holder is done within the claim's lifetime, at most one consumer holds the delivery, however often messages are repeated |
| `DeliveryClaims.TerminalIsAbsorbing` | src/db/notifyStore.ts:108-118 | under the same condition delivered and dead rows stay as they are |
| `DeliveryClaims.PostsAreBounded` | src/notify/batch.ts:36-91 | then posts number at most the allowed attempts plus the crashes after a claim, and successful posts at most one plus those crashes |
| `DeliveryClaims.PromptExactly` | src/db/notifyStore.ts:80-118 | a run never has two consumers at work if and only if every holder is done within the claim's lifetime |
| `DeliveryClaims.ReopenedMeansTwoBusy` | src/db/notifyStore.ts:108-118 | a delivered or dead row changes only in runs in which two consumers were at work at once |
| `DeliveryClaims.SlowHolderBreaksIt` | src/db/notifyStore.ts:13-13 | a run in which a slow holder is overtaken and reopens a delivered row |
| `DeliveryClaims.ProcessingIsAPath` | src/notify/batch.ts:36-91 | one consumer's code, undisturbed, is a path of that machine and leaves the row it says |
| `DeliveryClaims.RetryAfterException` | src/notify/batch.ts:102-117 | after an exception anywhere behind a claim, the post included, a retry acknowledges without an attempt iff it comes before the claim is stale |
| `DeliveryRetries.AnswerDecides` | src/notify/batch.ts:63-90 | success ends a delivery, a 4xx other than 429 ends it dead, and anything else leaves it failed for the message to come back |
| `DeliveryRetries.OthersAreLeft` | src/db/notifyStore.ts:105-118 | a message about a delivery that is done, dead, or claimed less than five minutes ago changes nothing and is acknowledged |
| `DeliveryRetries.GivenUpAfterAllAttempts` | src/notify/batch.ts:51-55 | a webhook that keeps failing gets as many attempts as allowed, the message coming back after each, and the next message turns the delivery dead without an attempt |
| `DeliveryRetries.DeliveredInTheEnd` | src/notify/batch.ts:63-90 | a success after fewer failures than allowed delivers it |
| `DeliveryClaims.NotifyStore.GetPendingDelivery` | src/db/notifyStore.ts:96-163 | claims the row iff it may be claimed, and turns it dead if the destination is archived |
| `DeliveryClaims.ProcessOne` | src/notify/batch.ts:36-91 | the new row and whether the message is acknowledged or retried, in every branch |
| `DeliveryClaims.ProcessNotifyBatch` | src/notify/batch.ts:97-120 | every message of a batch is decided on its own, whatever the others meet |
| `RobotsGlob.GlobFullMatch` | src/robots/evaluator.ts:24-53 | true iff the pattern matches, within (pattern + 1) times (text + 1) iterations |
| `RobotsGlob.MatchesIsInstance` | src/robots/evaluator.ts:16-23 | matching means that some texts put for the stars make the pattern the text |
| `RobotsGlob.TrailingStar` | src/robots/evaluator.ts:55-60 | a star added at the end turns a full match into a prefix match |
| `RobotsGlob.MatchesPattern` | src/robots/evaluator.ts:61-66 | prefix match, or full match for a pattern that ends in a dollar sign, as in section 2.2.3 of RFC 9309 |
| `RobotsGlob.PlainPattern` | src/robots/evaluator.ts:61-66 | a pattern without wild card matches the paths that begin with it, and with a dollar sign behind it that path alone |
| `RobotsGlob.OneStar` | src/robots/evaluator.ts:61-66 | with one star between two texts, the paths that begin with the first and hold the second somewhere after it, at their end if a dollar sign follows |
| `RobotsEvaluator.BestRuleForPath` | src/robots/evaluator.ts:78-94 | the first of the matching rules that no matching rule beats by length or, at equal length, by being an allow |
| `RobotsEvaluator.SelectApplicableGroups` | src/robots/evaluator.ts:102-126 | exactly the groups whose agent token naming the crawler is of maximal length, else the star groups, in file order |
| `RobotsEvaluator.EvaluateRobots` | src/robots/evaluator.ts:128-148 | the verdict of section 2.2.2 of RFC 9309 over the groups that apply by the code's reading of section 2.2.1, stated without order, and the rule that decided |
| `RobotsEvaluator.QueryIsJudged` | src/robots/evaluator.ts:96-100 | what is judged is the path, or / if it is empty, together with the query |
| `RobotsEvaluator.ReadsAsRfc` | src/robots/evaluator.ts:68-126 | the same groups apply by section 2.2.1 of RFC 9309 if one is for the crawler's whole name or no token is part of it; otherwise the longest parts decide here and the star groups there |
| `RobotsEvaluator.PartOfNameApplies` | src/robots/evaluator.ts:68-76 | a group for `bot` applies to a crawler named `robot`, by the standard it does not |
| `RobotsEvaluator.OrderDoesNotMatter` | src/robots/evaluator.ts:128-148 | groups, rules and agents may be reordered or repeated without changing what is allowed |
| `RobotsEvaluator.PermutedGroups` | src/robots/evaluator.ts:128-148 | permuted group lists give the same verdict |
| `RobotsEvaluator.GroupsCombine` | src/robots/evaluator.ts:135-137 | two groups for the same agents act as one group with the rules of both |
| `RobotsParser.ParseRobotsTxt` | src/robots/parser.ts:87-151 | the loop is the fold `Parsed` over the lines; how a line is read is stated by the rows of `RobotsLines` |
| `RobotsLines.CommentsDoNotMatter` | src/robots/parser.ts:61-64 | a number sign and any text behind a line that has none, anywhere in a text, changes nothing |
| `RobotsLines.RecordIsRead` | src/robots/parser.ts:71-79 | a field, a colon and a value, with any white space around them, are read as that record, the field in lower case |
| `RobotsLines.SpacingDoesNotMatter` | src/robots/parser.ts:71-79 | so white space around field and value, and the case of the field, change nothing anywhere in a text |
| `RobotsParser.OtherLinesDoNotMatter` | src/robots/parser.ts:71-91 | blank lines, comments, lines without a colon and unknown fields, with any of the three line ends, may be inserted at any line boundary |
| `RobotsParser.BomDoesNotMatter` | src/robots/parser.ts:88-90 | a byte order mark is white space, so removing it first changes nothing |
| `RobotsParser.SitemapLineBetween` | src/robots/parser.ts:138-141 | a sitemap line changes the groups iff it stands between two user-agent lines of a group that goes on to get an agent or rule |
| `RobotsPrinter.PrintThenParse` | src/robots/parser.ts:87-151 | every printable rule set comes back from its printed text, with patterns in normal form |
| `RobotsPrinter.RoundTrip` | src/robots/parser.ts:87-151 | it comes back as it was iff its patterns are in normal form |
| `RobotsPrinter.ParsedIsPrintable` | src/robots/parser.ts:61-151 | whatever text is parsed, the result can be printed |
| `RobotsPrinter.ParsePrintParse` | src/robots/parser.ts:87-151 | for any text, printing the parse and parsing again gives the same iff the patterns are in normal form |
| `PercentEncoding.NormalizePercentEncoding` | src/robots/parser.ts:30-59 | the loop is the normal form `Normalized` |
| `PercentEncoding.NormalFormIsCanonical` | src/robots/parser.ts:23-29 | the normal form is the one canonical spelling of what a text denotes |
| `PercentEncoding.NormalizingKeepsMeaning` | src/robots/parser.ts:30-59 | what a text denotes is kept iff no stray percent sign gets two digits to build a triplet from |
| `PercentEncoding.OneNormalForm` | src/robots/parser.ts:23-29 | texts of equal meaning have one normal form, and without such stray signs only those |
| `PercentEncoding.EquivalentSpellings` | src/robots/parser.ts:23-29 | the equivalences of sections 6.2.2.1 and 6.2.2.2 of RFC 3986 lead to the same normal form |
| `PercentCharacters.OneTriplet` | src/robots/parser.ts:34-39 | a triplet, whatever the case of its digits, becomes the letter, digit, `-`, `.`, `_` or `~` it stands for, and otherwise its upper-case form |
| `PercentCharacters.OneCharacter` | src/robots/parser.ts:44-55 | a visible ASCII character is left as it is, and any other becomes the upper-case triplets of its octets, in order |
| `PercentCharacters.Utf8IsRead` | src/robots/parser.ts:48-48 | these octets stand for the character by section 3 of RFC 3629, and are as few as can be |
| `PercentEncoding.FixedPoints` | src/robots/parser.ts:30-59 | the texts left alone are those with upper-case triplets, none for an unreserved octet, and printable characters |
| `PercentEncoding.ResultIsNormal` | src/robots/parser.ts:30-59 | the result has that shape iff every triplet assembled from a stray sign is already normal |
| `PercentEncoding.Idempotent` | src/robots/parser.ts:30-59 | normalising twice is the same as once under the same condition, and only then |
| `PercentEncoding.WellFormedNeverReassembles` | src/robots/parser.ts:34-39 | if every percent sign starts a triplet both conditions hold |
| `PercentEncoding.StrayPercentReassembles` | src/robots/parser.ts:34-39 | the text `%%34%31`, which becomes `%41` and then `A` |
| `IPv4Literal.ParseIPv4` | src/net/ip.ts:35-60 | the base-256 digits of the value that the parts make up, or none |
| `IPv4Literal.PartRoundTrip` | src/net/ip.ts:14-32 | every decimal, octal and hexadecimal notation of a number is read as that number |
| `IPv4Literal.IPv4RoundTrip` | src/net/ip.ts:35-60 | every one- to four-part spelling, with any base for each part, is read as the address it makes up, or refused if a part is too big |
| `IPv4Literal.DottedQuad` | src/net/ip.ts:52-59 | four bytes come back as those bytes, and as the value they are the digits of |
| `IPv4Literal.OneNumber` | src/net/ip.ts:46-50 | a single number is accepted iff it fits 32 bits |
| `IPNotation.LeadingZero` | src/net/ip.ts:18-26 | a numeral with a leading zero is octal if its digits are, and decimal if one of them is 8 or 9 |
| `IPNotation.NoNumeral` | src/net/ip.ts:15-28 | what is no numeral, character by character |
| `IPv6Literal.ParseIPv6` | src/net/ip.ts:81-124 | the method gives the groups of `IPv6Groups` |
| `IPv6Literal.ParseIsExact` | src/net/ip.ts:81-124 | a text is parsed to some groups iff, without its brackets, it spells them: in full, around a double colon, or either with an IPv4 literal for the last two groups |
| `IPv6Literal.FullWithQuad` | src/net/ip.ts:86-117 | six groups and an IPv4 literal are parsed to the eight groups they stand for, in brackets or not |
| `IPv6Literal.CompressedWithQuad` | src/net/ip.ts:86-123 | so are groups around a double colon with an IPv4 literal at the end |
| `IPNotation.CaseDoesNotMatter` | src/net/ip.ts:14-124 | an IPv4 or IPv6 literal in upper case is read as it is in lower case |
| `IPNotation.BracketsDoNotMatter` | src/net/ip.ts:83-83 | brackets around an IPv6 literal change nothing |
| `IPNotation.HextetExactly` | src/net/ip.ts:106-107 | the words between the colons are one to four hexadecimal digits, and so numbers of 16 bits |
| `IPv6Literal.RfcIsParsed` | src/net/ip.ts:81-124 | every spelling of section 2.2 of RFC 4291 is parsed to what it spells |
| `IPv6Literal.RfcExactly` | src/net/ip.ts:81-124 | an accepted text is such a spelling iff it has no double colon beside eight groups and no IPv4 literal other than four decimal bytes |
| `IPv6Literal.EmptyCompressionIsAccepted` | src/net/ip.ts:119-123 | `1:2:3:4::5:6:7:8` is accepted and is no spelling by RFC 4291 |
| `IPv6Literal.OddQuadIsAccepted` | src/net/ip.ts:86-96 | so is every two-part IPv4 literal, in any notation, behind a double colon |

## Left out

- Strings are sequences of Unicode scalar values: unpaired surrogates, which JavaScript strings can hold, do not occur, and `length` counts such values.
- Lower-casing is ASCII only; the few other characters whose lower case is an ASCII letter are left alone.
- Numbers are exact: `parseInt` rounds beyond 2^53, where every value is refused anyway.
- URL parsing, origin comparison, SSRF checks, DNS and the fetching of robots.txt are predicates on URLs.
- HTTP, XML, HTML and JSON parsing and object storage: documents and answers are parameters, and malformed request or response bodies are not modelled.
- Hashes are an injective constructor and tokens and ids are supplied from outside, new where the code generates them; constant-time comparison is not modelled.
- SQL tables are maps and sequences with the stated conditional updates; rows of other monitors, list and count queries, cascades and time stamps no decision reads are left out.
- The runners table, online status, what heartbeats record, wake-ups of waiting lease calls, the shutdown of a runner and its back-off after errors: a claim may come at any time, and whether a live runner exists is a parameter, as is the time at which the alarm has to look at the runner rows.
- Dedupe keys are a stable key with an optional time, as if the colon that joins them could not occur in a stable key.
- Dates are integers, with absence as an option; date parsing and formatting are left out.
- Title enrichment and the classification rules: tags come from a function and are written once; an error inside classification, which the code swallows, does not occur.
- `processSitemapTraversal` at the root of a check (snapshots, an url set as the source itself, the audit record) and the `lastmod` age setting; a check starts at the index it is given.
- Glob patterns of `child_include_patterns` are a predicate on URLs.
- Feed checks that two Workers run at once for one monitor; checks of a monitor are serial.
- The time stamps and indices of recorded fetch attempts, the pause between retries, jitter and logging.
- Fetch policies with a maximum that is not an integer.
- `HostLimiter.HostObject`: state saved by an older version without the probe field is not modelled.
- IPv4 and IPv6 classification tables and the address forms that embed IPv4 addresses there.
- `DeliveryClaims.AtMostOneHolder`: assumes that holders finish within the claim's lifetime, which `DeliveryClaims.PromptExactly` shows to be exactly what it takes.
- `SitemapReach.VisitedExactly`: speaks of webs whose documents do not change during the check and list no index as a page, and of checks that the fetch budget did not cut, nor the depth unless every index was registered before, as `SitemapEffort.FittingVisitsExactly` tells beforehand; otherwise which children are left depends on the order of the visits.
- `FeedNewItems.NewItemIsLostExactly`: speaks of the first item of its page, as a later one is no new item (`FeedAnnouncements.ListedTwice`), and of checks that list its stable key once, as all adapters see to (`src/adapters/atom.ts:83`, `src/adapters/rss.ts:38`, `src/adapters/sitemap.ts:22`).
- `FeedOvertaken.UpdateSurvivesExactly`: likewise for checks that list the item's stable key once.
- `CrawlerObjects.CrawlerObject.Alarm`: the object does not hold its alarm; `CrawlerAlarms` models that on values.
