/**
  The order in which fetchers are tried (src/fetch/policy.ts). `Attempts` is what the nested retry and fallback loops
  record; `IsRunOf` says what such a record must look like, and the two agree.
*/
module FetchPolicy {
  import opened Common

  datatype Entry = Entry(fetcherId: string, proceedOn: Option<seq<FailureClass>>)

  datatype Policy = Policy(allowList: seq<string>, orderList: seq<Entry>)

  // ----- validation

  datatype PolicyError =
    | EmptyAllowList
    | DuplicateAllowed
    | NotAllowed(fetcherId: string)
    | WrongCount(fetcherId: string, count: nat)

  function Ids(orderList: seq<Entry>): (ids: seq<string>)
    ensures |ids| == |orderList| && forall k :: 0 <= k < |ids| ==> ids[k] == orderList[k].fetcherId
  {
    seq(|orderList|, k requires 0 <= k < |orderList| => orderList[k].fetcherId)
  }

  /** The order list is the allow list, each element once, in some order. */
  ghost predicate IsValid(policy: Policy) {
    && policy.allowList != []
    && NoDuplicates(policy.allowList)
    && multiset(Ids(policy.orderList)) == multiset(policy.allowList)
  }

  function Elements<T>(s: seq<T>): set<T> {
    set x | x in s
  }

  lemma {:induction false} CountElements<T(!new)>(s: seq<T>)
    ensures |Elements(s)| <= |s|
    ensures |Elements(s)| == |s| <==> NoDuplicates(s)
    ensures NoDuplicates(s) ==> forall x :: multiset(s)[x] == if x in s then 1 else 0
  {
    if s == [] {
      assert Elements(s) == {};
    } else {
      var front, last := s[..|s| - 1], s[|s| - 1];
      CountElements(front);
      assert s == front + [last];
      assert Elements(s) == Elements(front) + {last};
      assert last in front <==> exists i :: 0 <= i < |s| - 1 && s[i] == last;
      if NoDuplicates(s) {
        assert NoDuplicates(front) && last !in front;
      } else if last !in front {
        assert !NoDuplicates(front);
      }
    }
  }

  /** Counting each listed id once, and no other id, is what makes the lists the same multiset. */
  lemma CountsDecide(allowList: seq<string>, ids: seq<string>)
    requires NoDuplicates(allowList)
    ensures multiset(ids) == multiset(allowList) <==>
      && (forall j :: 0 <= j < |ids| ==> ids[j] in allowList)
      && (forall j :: 0 <= j < |allowList| ==> multiset(ids)[allowList[j]] == 1)
  {
    CountElements(allowList);
    if multiset(ids) == multiset(allowList) {
      forall j | 0 <= j < |ids| ensures ids[j] in allowList {
        assert ids[j] in multiset(ids);
      }
    }
    if (forall j :: 0 <= j < |ids| ==> ids[j] in allowList)
      && (forall j :: 0 <= j < |allowList| ==> multiset(ids)[allowList[j]] == 1)
    {
      forall x ensures multiset(ids)[x] == multiset(allowList)[x] {
        if x !in allowList {
          assert x !in multiset(ids);
        }
      }
    }
  }

  method ValidateFetcherPolicy(policy: Policy) returns (errors: seq<PolicyError>)
    ensures errors == [] <==> IsValid(policy)
  {
    hide NoDuplicates;
    errors := [];
    var Policy(allowList, orderList) := policy;
    ghost var ids := Ids(orderList);
    if |allowList| == 0 {
      errors := errors + [EmptyAllowList];
    }
    var allowSet := Elements(allowList);
    CountElements(allowList);
    if |allowSet| != |allowList| {
      errors := errors + [DuplicateAllowed];
    }
    ghost var listsOk := errors == [];
    for k := 0 to |orderList|
      invariant errors == [] <==> listsOk && forall j :: 0 <= j < k ==> ids[j] in allowList
    {
      if orderList[k].fetcherId !in allowSet {
        errors := errors + [NotAllowed(orderList[k].fetcherId)];
      }
    }
    var orderCounts := CountIds(orderList);
    ghost var idsOk := errors == [];
    for k := 0 to |allowList|
      invariant errors == [] <==> idsOk && forall j :: 0 <= j < k ==> multiset(ids)[allowList[j]] == 1
    {
      var count := if allowList[k] in orderCounts then orderCounts[allowList[k]] else 0;
      if count != 1 {
        errors := errors + [WrongCount(allowList[k], count)];
      }
    }
    if NoDuplicates(allowList) {
      CountsDecide(allowList, ids);
    }
  }

  method CountIds(orderList: seq<Entry>) returns (counts: map<string, nat>)
    ensures forall x :: multiset(Ids(orderList))[x] == if x in counts then counts[x] else 0
  {
    counts := map[];
    ghost var ids := Ids(orderList);
    for k := 0 to |orderList|
      invariant forall x :: multiset(ids[..k])[x] == if x in counts then counts[x] else 0
    {
      var id := orderList[k].fetcherId;
      counts := counts[id := (if id in counts then counts[id] else 0) + 1];
      assert ids[..k + 1] == ids[..k] + [id];
    }
    assert ids[..|orderList|] == ids;
  }

  // ----- going on or stopping

  const DEFAULT_MAX_ATTEMPTS := 3
  const DEFAULT_TRANSIENT_RETRIES := 2

  const DEFAULT_PROCEEDABLE: seq<FailureClass> := [NetworkError, Timeout, Http5xx, ExecutorUnavailable]
  const NEVER_PROCEEDABLE: seq<FailureClass> :=
    [BlockedByRobots, SsrfBlocked, NotFound, AuthRequired, TooLarge, CaptchaChallenge]
  const TRANSIENT: seq<FailureClass> := [Http5xx, NetworkError]

  predicate ShouldProceedToNext(entry: Entry, failure: FailureClass) {
    failure !in NEVER_PROCEEDABLE
    && failure in match entry.proceedOn case Some(listed) => listed case None => DEFAULT_PROCEEDABLE
  }

  datatype Outcome = Success(document: nat) | Failure(failureClass: FailureClass)

  datatype Attempt = Attempt(fetcherId: string, outcome: Outcome)

  /** How a sequence is run: retries for an entry, which fetchers may be retried, and what the k-th call returns. */
  datatype Setting = Setting(transientRetries: int, isRetryable: string -> bool, fetch: (nat, string) -> Outcome)

  predicate WantsRetry(setting: Setting, attempt: Attempt) {
    && attempt.outcome.Failure?
    && setting.isRetryable(attempt.fetcherId)
    && attempt.outcome.failureClass in TRANSIENT
  }

  predicate GoesOn(entry: Entry, outcome: Outcome) {
    outcome.Failure? && ShouldProceedToNext(entry, outcome.failureClass)
  }

  // ----- the record of attempts

  /** The attempts for one entry, `k` calls having been made before, with `left` retries to go. */
  function Block(setting: Setting, entry: Entry, k: nat, left: int): (block: seq<Attempt>)
    ensures |block| > 0
    decreases Max(left, 0)
  {
    var attempt := Attempt(entry.fetcherId, setting.fetch(k, entry.fetcherId));
    if left > 0 && WantsRetry(setting, attempt) then [attempt] + Block(setting, entry, k + 1, left - 1) else [attempt]
  }

  function Last(attempts: seq<Attempt>): Outcome
    requires attempts != []
  {
    attempts[|attempts| - 1].outcome
  }

  function Attempts(setting: Setting, plan: seq<Entry>, k: nat): (attempts: seq<Attempt>)
    ensures plan != [] ==> attempts != []
  {
    if plan == [] then []
    else
      var block := Block(setting, plan[0], k, setting.transientRetries);
      if GoesOn(plan[0], Last(block)) then block + Attempts(setting, plan[1..], k + |block|) else block
  }

  /** The plan: the order list cut to the number of attempts, or none if the policy or the number is invalid. */
  ghost function Plan(policy: Policy, maxAttempts: int): Option<seq<Entry>> {
    if IsValid(policy) && maxAttempts >= 0 then Some(policy.orderList[..Min(maxAttempts, |policy.orderList|)]) else None
  }

  method PlanAttempts(policy: Policy, maxAttempts: int) returns (plan: Option<seq<Entry>>)
    ensures plan == Plan(policy, maxAttempts)
    ensures plan.Some? <==> IsValid(policy) && maxAttempts >= 0
    ensures plan.Some? ==> plan.value <= policy.orderList && |plan.value| == Min(maxAttempts, |policy.orderList|)
  {
    var errors := ValidateFetcherPolicy(policy);
    if |errors| > 0 { return None; }
    if maxAttempts < 0 { return None; }
    return Some(policy.orderList[..Min(maxAttempts, |policy.orderList|)]);
  }

  method RunFetchSequence(policy: Policy, maxAttempts: int, setting: Setting)
    returns (ok: bool, outcome: Outcome, attempts: seq<Attempt>)
    ensures ok <==> Plan(policy, maxAttempts).Some? && Plan(policy, maxAttempts).value != []
    ensures ok ==> attempts == Attempts(setting, Plan(policy, maxAttempts).value, 0) && outcome == Last(attempts)
  {
    outcome, attempts := Failure(InternalError), [];
    var planned := PlanAttempts(policy, maxAttempts);
    if planned == None || |planned.value| == 0 { return false, outcome, attempts; }
    ok := true;
    var plan := planned.value;
    outcome, attempts := RunEntries(setting, plan);
  }

  /** The loop over the planned entries. */
  method RunEntries(setting: Setting, plan: seq<Entry>) returns (outcome: Outcome, attempts: seq<Attempt>)
    requires plan != []
    ensures attempts == Attempts(setting, plan, 0) && outcome == Last(attempts)
  {
    hide Attempts, Block, GoesOn, Last;
    outcome, attempts := Failure(InternalError), [];
    assert plan[0..] == plan && [] + Attempts(setting, plan, 0) == Attempts(setting, plan, 0);
    for i := 0 to |plan|
      invariant i > 0 ==> attempts != [] && outcome == Last(attempts)
      invariant attempts + Attempts(setting, plan[i..], |attempts|) == Attempts(setting, plan, 0)
    {
      var block := RunEntry(setting, plan[i], |attempts|);
      AttemptsStep(setting, plan, i, attempts, block);
      LastOfBlock(attempts, block);
      attempts := attempts + block;
      outcome := Last(block);
      if !GoesOn(plan[i], outcome) { return; }
    }
    NothingPlanned(setting, plan[|plan|..], attempts);
  }

  lemma LastOfBlock(attempts: seq<Attempt>, block: seq<Attempt>)
    requires block != []
    ensures Last(attempts + block) == Last(block)
  {
  }

  lemma NothingPlanned(setting: Setting, plan: seq<Entry>, attempts: seq<Attempt>)
    requires plan == []
    ensures attempts + Attempts(setting, plan, |attempts|) == attempts
  {
  }

  lemma AttemptsHead(setting: Setting, plan: seq<Entry>, attempts: seq<Attempt>, block: seq<Attempt>)
    requires plan != [] && block == Block(setting, plan[0], |attempts|, setting.transientRetries)
    ensures attempts + Attempts(setting, plan, |attempts|)
         == if GoesOn(plan[0], Last(block)) then attempts + block + Attempts(setting, plan[1..], |attempts| + |block|)
            else attempts + block
  {
    hide Block, GoesOn, Last;
    Associative(attempts, block, Attempts(setting, plan[1..], |attempts| + |block|));
  }

  lemma AttemptsStep(setting: Setting, plan: seq<Entry>, i: nat, attempts: seq<Attempt>, block: seq<Attempt>)
    requires i < |plan| && block == Block(setting, plan[i], |attempts|, setting.transientRetries)
    ensures attempts + Attempts(setting, plan[i..], |attempts|)
         == if GoesOn(plan[i], Last(block)) then attempts + block + Attempts(setting, plan[i + 1..], |attempts + block|)
            else attempts + block
  {
    hide Block, GoesOn, Last, Attempts;
    assert plan[i..][0] == plan[i] && plan[i..][1..] == plan[i + 1..];
    AttemptsHead(setting, plan[i..], attempts, block);
  }

  lemma RetryStep(setting: Setting, entry: Entry, k: nat, left: int, front: seq<Attempt>)
    requires left > 0 && WantsRetry(setting, Attempt(entry.fetcherId, setting.fetch(k, entry.fetcherId)))
    ensures var attempt := Attempt(entry.fetcherId, setting.fetch(k, entry.fetcherId));
      front + Block(setting, entry, k, left) == front + [attempt] + Block(setting, entry, k + 1, left - 1)
  {
    hide WantsRetry;
    var attempt := Attempt(entry.fetcherId, setting.fetch(k, entry.fetcherId));
    Associative(front, [attempt], Block(setting, entry, k + 1, left - 1));
  }

  method RunEntry(setting: Setting, entry: Entry, k: nat) returns (block: seq<Attempt>)
    ensures block == Block(setting, entry, k, setting.transientRetries)
  {
    var outcome := setting.fetch(k, entry.fetcherId);
    block := [Attempt(entry.fetcherId, outcome)];
    var retryAttemptNumber := 0;
    ghost var front: seq<Attempt> := [];
    while retryAttemptNumber < setting.transientRetries && WantsRetry(setting, Attempt(entry.fetcherId, outcome))
      invariant 0 <= retryAttemptNumber && (retryAttemptNumber <= setting.transientRetries || retryAttemptNumber == 0)
      invariant |front| == retryAttemptNumber && block == front + [Attempt(entry.fetcherId, outcome)]
      invariant outcome == setting.fetch(k + retryAttemptNumber, entry.fetcherId)
      invariant front + Block(setting, entry, k + retryAttemptNumber, setting.transientRetries - retryAttemptNumber)
             == Block(setting, entry, k, setting.transientRetries)
      decreases setting.transientRetries - retryAttemptNumber
    {
      hide Block, WantsRetry;
      RetryStep(setting, entry, k + retryAttemptNumber, setting.transientRetries - retryAttemptNumber, front);
      front := block;
      retryAttemptNumber := retryAttemptNumber + 1;
      outcome := setting.fetch(k + retryAttemptNumber, entry.fetcherId);
      block := block + [Attempt(entry.fetcherId, outcome)];
    }
  }

  // ----- what a record looks like

  /** One entry's attempts: the same fetcher, each but the last wanting a retry, and none left out. */
  ghost predicate IsBlock(setting: Setting, entry: Entry, block: seq<Attempt>) {
    && 1 <= |block| <= 1 + Max(setting.transientRetries, 0)
    && (forall i :: 0 <= i < |block| ==> block[i].fetcherId == entry.fetcherId)
    && (forall i :: 0 <= i < |block| - 1 ==> WantsRetry(setting, block[i]))
    && (|block| <= setting.transientRetries ==> !WantsRetry(setting, block[|block| - 1]))
  }

  function Flatten(blocks: seq<seq<Attempt>>): seq<Attempt> {
    if blocks == [] then [] else blocks[0] + Flatten(blocks[1..])
  }

  /** Blocks for a prefix of the plan; every one but the last ends in a failure to go on from, and the last does not. */
  ghost predicate AreBlocks(setting: Setting, plan: seq<Entry>, blocks: seq<seq<Attempt>>) {
    && 1 <= |blocks| <= |plan|
    && (forall i :: 0 <= i < |blocks| ==> IsBlock(setting, plan[i], blocks[i]))
    && (forall i :: 0 <= i < |blocks| - 1 ==> GoesOn(plan[i], Last(blocks[i])))
    && (|blocks| < |plan| ==> !GoesOn(plan[|blocks| - 1], Last(blocks[|blocks| - 1])))
  }

  /** Every outcome is what that call returned. */
  ghost predicate WereFetched(setting: Setting, attempts: seq<Attempt>, k: nat) {
    forall i :: 0 <= i < |attempts| ==> attempts[i].outcome == setting.fetch(k + i, attempts[i].fetcherId)
  }

  ghost predicate IsRunOf(setting: Setting, plan: seq<Entry>, attempts: seq<Attempt>) {
    && WereFetched(setting, attempts, 0)
    && exists blocks :: AreBlocks(setting, plan, blocks) && Flatten(blocks) == attempts
  }

  ghost predicate IsBlockWithin(setting: Setting, entry: Entry, block: seq<Attempt>, left: int) {
    IsBlock(setting.(transientRetries := left), entry, block)
  }

  lemma {:induction false} BlockExact(setting: Setting, entry: Entry, block: seq<Attempt>, k: nat, left: int)
    ensures block == Block(setting, entry, k, left) <==>
      IsBlockWithin(setting, entry, block, left) && WereFetched(setting, block, k)
    decreases Max(left, 0)
  {
    var attempt := Attempt(entry.fetcherId, setting.fetch(k, entry.fetcherId));
    if left > 0 && WantsRetry(setting, attempt) {
      if |block| > 1 && block[0] == attempt {
        BlockExact(setting, entry, block[1..], k + 1, left - 1);
        BlockTail(setting, entry, block, k, left);
        assert block == [attempt] + block[1..];
      }
    } else if IsBlockWithin(setting, entry, block, left) && WereFetched(setting, block, k) {
      assert block[0].outcome == setting.fetch(k + 0, entry.fetcherId);
      assert block == [attempt];
    }
  }

  lemma BlockTail(setting: Setting, entry: Entry, block: seq<Attempt>, k: nat, left: int)
    requires |block| > 1 && left > 0 && WantsRetry(setting, block[0])
    requires block[0] == Attempt(entry.fetcherId, setting.fetch(k, entry.fetcherId))
    ensures IsBlockWithin(setting, entry, block, left) <==> IsBlockWithin(setting, entry, block[1..], left - 1)
    ensures WereFetched(setting, block, k) <==> WereFetched(setting, block[1..], k + 1)
  {
    var rest := block[1..];
    assert forall i :: 1 <= i < |block| ==> block[i] == rest[i - 1];
    assert forall i :: 0 <= i < |rest| ==> rest[i] == block[i + 1];
    if WereFetched(setting, rest, k + 1) {
      forall i | 0 <= i < |block| ensures block[i].outcome == setting.fetch(k + i, block[i].fetcherId) {
        if i > 0 {
          assert rest[i - 1].outcome == setting.fetch(k + 1 + (i - 1), rest[i - 1].fetcherId);
        }
      }
    }
    if WereFetched(setting, block, k) {
      forall i | 0 <= i < |rest| ensures rest[i].outcome == setting.fetch(k + 1 + i, rest[i].fetcherId) {
        assert block[i + 1].outcome == setting.fetch(k + (i + 1), block[i + 1].fetcherId);
      }
    }
  }

  lemma FetchedConcat(setting: Setting, a: seq<Attempt>, b: seq<Attempt>, k: nat)
    ensures WereFetched(setting, a + b, k) <==> WereFetched(setting, a, k) && WereFetched(setting, b, k + |a|)
  {
    var c := a + b;
    assert forall i :: 0 <= i < |a| ==> c[i] == a[i];
    assert forall i :: 0 <= i < |b| ==> c[|a| + i] == b[i];
    if WereFetched(setting, c, k) {
      forall i | 0 <= i < |b| ensures b[i].outcome == setting.fetch(k + |a| + i, b[i].fetcherId) {
        assert c[|a| + i].outcome == setting.fetch(k + (|a| + i), c[|a| + i].fetcherId);
      }
    }
    if WereFetched(setting, a, k) && WereFetched(setting, b, k + |a|) {
      forall i | 0 <= i < |c| ensures c[i].outcome == setting.fetch(k + i, c[i].fetcherId) {
        if i >= |a| {
          assert b[i - |a|].outcome == setting.fetch(k + |a| + (i - |a|), b[i - |a|].fetcherId);
        }
      }
    }
  }

  lemma FirstBlock(setting: Setting, plan: seq<Entry>, blocks: seq<seq<Attempt>>)
    requires plan != [] && blocks != [] && blocks[0] != []
    ensures AreBlocks(setting, plan, blocks) <==>
      && IsBlock(setting, plan[0], blocks[0])
      && (if blocks[1..] == [] then |plan| == 1 || !GoesOn(plan[0], Last(blocks[0]))
          else GoesOn(plan[0], Last(blocks[0])) && AreBlocks(setting, plan[1..], blocks[1..]))
  {
    hide GoesOn;
    var more, rest := plan[1..], blocks[1..];
    assert forall i :: 1 <= i < |blocks| ==> blocks[i] == rest[i - 1];
    assert forall i :: 0 <= i < |rest| ==> rest[i] == blocks[i + 1];
    assert forall i :: 0 <= i < |more| ==> more[i] == plan[i + 1];
    assert forall i :: 1 <= i < |plan| ==> plan[i] == more[i - 1];
    if rest != [] && AreBlocks(setting, plan, blocks) {
      assert AreBlocks(setting, more, rest) by {
        forall i | 0 <= i < |rest| ensures IsBlock(setting, more[i], rest[i]) {
          assert IsBlock(setting, plan[i + 1], blocks[i + 1]);
        }
        forall i | 0 <= i < |rest| - 1 ensures GoesOn(more[i], Last(rest[i])) {
          assert GoesOn(plan[i + 1], Last(blocks[i + 1]));
        }
      }
    }
  }

  lemma {:induction false} AttemptsHaveBlocks(setting: Setting, plan: seq<Entry>, k: nat)
    returns (blocks: seq<seq<Attempt>>)
    requires plan != []
    ensures AreBlocks(setting, plan, blocks) && Flatten(blocks) == Attempts(setting, plan, k)
    ensures WereFetched(setting, Attempts(setting, plan, k), k)
    decreases plan
  {
    hide WereFetched, AreBlocks, Block;
    var block := Block(setting, plan[0], k, setting.transientRetries);
    BlockExact(setting, plan[0], block, k, setting.transientRetries);
    assert setting.(transientRetries := setting.transientRetries) == setting;
    if GoesOn(plan[0], Last(block)) && |plan| > 1 {
      var rest := AttemptsHaveBlocks(setting, plan[1..], k + |block|);
      assert rest != [] by { SomeBlock(setting, plan[1..], rest); }
      blocks := [block] + rest;
      assert blocks[1..] == rest;
      FetchedConcat(setting, block, Attempts(setting, plan[1..], k + |block|), k);
    } else {
      blocks := [block];
      assert blocks[1..] == [];
      assert Flatten(blocks) == block + [] == block;
      if |plan| == 1 {
        assert Attempts(setting, plan[1..], k + |block|) == [];
        assert block + [] == block;
      }
    }
    FirstBlock(setting, plan, blocks);
  }

  lemma SomeBlock(setting: Setting, plan: seq<Entry>, blocks: seq<seq<Attempt>>)
    requires AreBlocks(setting, plan, blocks)
    ensures blocks != [] && blocks[0] != [] && plan != []
  {
    assert IsBlock(setting, plan[0], blocks[0]);
  }

  lemma {:induction false} BlocksDetermine(setting: Setting, plan: seq<Entry>, blocks: seq<seq<Attempt>>, k: nat)
    requires AreBlocks(setting, plan, blocks) && WereFetched(setting, Flatten(blocks), k)
    ensures Flatten(blocks) == Attempts(setting, plan, k)
    decreases plan
  {
    hide WereFetched, AreBlocks, Block, IsBlock;
    SomeBlock(setting, plan, blocks);
    FirstBlock(setting, plan, blocks);
    var block, rest := blocks[0], blocks[1..];
    FetchedConcat(setting, block, Flatten(rest), k);
    assert setting.(transientRetries := setting.transientRetries) == setting;
    BlockExact(setting, plan[0], block, k, setting.transientRetries);
    if rest == [] {
      assert block + Flatten(rest) == block;
      if |plan| == 1 {
        assert Attempts(setting, plan[1..], k + |block|) == [];
        assert block + [] == block;
      }
    } else {
      BlocksDetermine(setting, plan[1..], rest, k + |block|);
    }
  }

  /** The recorded attempts are the one record that fits the blocks and what the calls returned. */
  lemma RunExact(setting: Setting, plan: seq<Entry>, attempts: seq<Attempt>)
    requires plan != []
    ensures attempts == Attempts(setting, plan, 0) <==> IsRunOf(setting, plan, attempts)
  {
    hide Attempts, AreBlocks, WereFetched;
    var blocks := AttemptsHaveBlocks(setting, plan, 0);
    if IsRunOf(setting, plan, attempts) {
      var bs :| AreBlocks(setting, plan, bs) && Flatten(bs) == attempts;
      BlocksDetermine(setting, plan, bs, 0);
    }
  }

  // ----- consequences

  lemma BlockFailsBeforeLast(setting: Setting, entry: Entry, block: seq<Attempt>, i: nat)
    requires IsBlock(setting, entry, block) && i < |block|
    requires i < |block| - 1 || GoesOn(entry, Last(block))
    ensures block[i].outcome.Failure? && block[i].outcome.failureClass !in NEVER_PROCEEDABLE
  {
  }

  /** Nothing is tried after a success or after a failure that must never be followed up. */
  lemma {:induction false} NothingAfterTheEnd(setting: Setting, plan: seq<Entry>, k: nat, i: nat)
    requires i < |Attempts(setting, plan, k)| - 1
    ensures var outcome := Attempts(setting, plan, k)[i].outcome;
      outcome.Failure? && outcome.failureClass !in NEVER_PROCEEDABLE
    decreases plan
  {
    hide IsBlock, Block, GoesOn;
    var block := Block(setting, plan[0], k, setting.transientRetries);
    BlockExact(setting, plan[0], block, k, setting.transientRetries);
    assert setting.(transientRetries := setting.transientRetries) == setting;
    if i < |block| - 1 {
      BlockFailsBeforeLast(setting, plan[0], block, i);
    } else {
      var rest := Attempts(setting, plan[1..], k + |block|);
      if i < |block| {
        BlockFailsBeforeLast(setting, plan[0], block, i);
      } else {
        NothingAfterTheEnd(setting, plan[1..], k + |block|, i - |block|);
        assert (block + rest)[i] == rest[i - |block|];
      }
    }
  }

  /** `n` entries, each tried once and then retried. */
  function AtMost(n: nat, transientRetries: int): nat {
    if n == 0 then 0 else 1 + Max(transientRetries, 0) + AtMost(n - 1, transientRetries)
  }

  lemma {:induction false} AttemptsAreBounded(setting: Setting, plan: seq<Entry>, k: nat)
    ensures |Attempts(setting, plan, k)| <= AtMost(|plan|, setting.transientRetries)
    decreases plan
  {
    hide Block, GoesOn;
    if plan != [] {
      var block := Block(setting, plan[0], k, setting.transientRetries);
      BlockExact(setting, plan[0], block, k, setting.transientRetries);
      AttemptsAreBounded(setting, plan[1..], k + |block|);
    }
  }

  /** With the defaults a policy never makes more than nine calls. */
  lemma DefaultBound(setting: Setting, policy: Policy)
    requires setting.transientRetries == DEFAULT_TRANSIENT_RETRIES && IsValid(policy)
    ensures |Attempts(setting, Plan(policy, DEFAULT_MAX_ATTEMPTS).value, 0)| <= 9
  {
    AttemptsAreBounded(setting, Plan(policy, DEFAULT_MAX_ATTEMPTS).value, 0);
    assert AtMost(0, 2) == 0 && AtMost(1, 2) == 3 && AtMost(2, 2) == 6 && AtMost(3, 2) == 9;
  }

  /** Every call answers with a server error, and every fetcher may be retried. */
  ghost predicate AlwaysFails(setting: Setting) {
    forall k: nat, id :: setting.fetch(k, id) == Failure(Http5xx) && setting.isRetryable(id)
  }

  lemma {:induction false} FailingBlock(setting: Setting, entry: Entry, k: nat, left: int)
    requires AlwaysFails(setting)
    ensures |Block(setting, entry, k, left)| == 1 + Max(left, 0)
    ensures Last(Block(setting, entry, k, left)) == Failure(Http5xx)
    decreases Max(left, 0)
  {
    if left > 0 {
      FailingBlock(setting, entry, k + 1, left - 1);
    }
  }

  lemma {:induction false} BoundIsReached(setting: Setting, plan: seq<Entry>, k: nat)
    requires AlwaysFails(setting) && forall e :: e in plan ==> e.proceedOn == None
    ensures |Attempts(setting, plan, k)| == AtMost(|plan|, setting.transientRetries)
    decreases plan
  {
    hide Block, AlwaysFails;
    if plan != [] {
      var block := Block(setting, plan[0], k, setting.transientRetries);
      FailingBlock(setting, plan[0], k, setting.transientRetries);
      BoundIsReached(setting, plan[1..], k + |block|);
    }
  }

  /** And a policy of three fetchers or more does make nine, if each of them keeps failing with server errors. */
  lemma DefaultBoundIsReached(setting: Setting, policy: Policy)
    requires setting.transientRetries == DEFAULT_TRANSIENT_RETRIES && IsValid(policy) && |policy.orderList| >= 3
    requires AlwaysFails(setting) && forall e :: e in policy.orderList ==> e.proceedOn == None
    ensures |Attempts(setting, Plan(policy, DEFAULT_MAX_ATTEMPTS).value, 0)| == 9
  {
    hide AlwaysFails, IsValid;
    var plan := Plan(policy, DEFAULT_MAX_ATTEMPTS).value;
    assert forall e :: e in plan ==> e in policy.orderList;
    BoundIsReached(setting, plan, 0);
    assert AtMost(0, 2) == 0 && AtMost(1, 2) == 3 && AtMost(2, 2) == 6 && AtMost(3, 2) == 9;
  }

  // ----- which fetchers are called again

  lemma {:induction false} AttemptIsPlanned(setting: Setting, plan: seq<Entry>, k: nat, i: nat)
    requires i < |Attempts(setting, plan, k)|
    ensures exists e :: e in plan && e.fetcherId == Attempts(setting, plan, k)[i].fetcherId
    decreases plan
  {
    hide Block, GoesOn, WereFetched;
    var block := Block(setting, plan[0], k, setting.transientRetries);
    BlockExact(setting, plan[0], block, k, setting.transientRetries);
    if i < |block| {
      assert plan[0] in plan;
    } else {
      AttemptIsPlanned(setting, plan[1..], k + |block|, i - |block|);
    }
  }

  lemma {:induction false} RepeatsInPlan(setting: Setting, plan: seq<Entry>, k: nat, i: nat, j: nat)
    requires NoDuplicates(Ids(plan)) && i < j < |Attempts(setting, plan, k)|
    requires Attempts(setting, plan, k)[i].fetcherId == Attempts(setting, plan, k)[j].fetcherId
    ensures forall m :: i <= m < j ==> WantsRetry(setting, Attempts(setting, plan, k)[m])
    decreases plan
  {
    hide Block, GoesOn, WereFetched, WantsRetry;
    var block := Block(setting, plan[0], k, setting.transientRetries);
    var rest := Attempts(setting, plan[1..], k + |block|);
    BlockExact(setting, plan[0], block, k, setting.transientRetries);
    if j < |block| {
      assert forall m :: i <= m < j ==> Attempts(setting, plan, k)[m] == block[m];
    } else {
      OthersAreElsewhere(setting, plan, k + |block|, j - |block|);
      RestHasNoDuplicates(plan);
      RepeatsInPlan(setting, plan[1..], k + |block|, i - |block|, j - |block|);
      forall m | i <= m < j ensures WantsRetry(setting, Attempts(setting, plan, k)[m]) {
        assert Attempts(setting, plan, k)[m] == rest[m - |block|];
      }
    }
  }

  lemma OthersAreElsewhere(setting: Setting, plan: seq<Entry>, k: nat, j: nat)
    requires plan != [] && NoDuplicates(Ids(plan)) && j < |Attempts(setting, plan[1..], k)|
    ensures Attempts(setting, plan[1..], k)[j].fetcherId != plan[0].fetcherId
  {
    hide Attempts;
    AttemptIsPlanned(setting, plan[1..], k, j);
    var e :| e in plan[1..] && e.fetcherId == Attempts(setting, plan[1..], k)[j].fetcherId;
    var m :| 0 <= m < |plan[1..]| && plan[1..][m] == e;
    assert Ids(plan)[m + 1] == e.fetcherId && Ids(plan)[0] == plan[0].fetcherId;
  }

  lemma RestHasNoDuplicates(plan: seq<Entry>)
    requires plan != [] && NoDuplicates(Ids(plan))
    ensures NoDuplicates(Ids(plan[1..]))
  {
    forall a, b | 0 <= a < b < |plan[1..]| ensures Ids(plan[1..])[a] != Ids(plan[1..])[b] {
      assert Ids(plan)[a + 1] != Ids(plan)[b + 1];
    }
  }

  /**
    A policy calls a fetcher again only right after a call of it that may be retried; so a fetcher that may not be
    retried is called at most once in the whole run.
  */
  lemma RepeatsAreRetries(setting: Setting, policy: Policy, maxAttempts: int, i: nat, j: nat)
    requires Plan(policy, maxAttempts).Some? && i < j < |Attempts(setting, Plan(policy, maxAttempts).value, 0)|
    requires var attempts := Attempts(setting, Plan(policy, maxAttempts).value, 0);
      attempts[i].fetcherId == attempts[j].fetcherId
    ensures var attempts := Attempts(setting, Plan(policy, maxAttempts).value, 0);
      && setting.isRetryable(attempts[i].fetcherId)
      && forall m :: i <= m < j ==> WantsRetry(setting, attempts[m])
  {
    hide Attempts;
    var plan := Plan(policy, maxAttempts).value;
    ValidHasNoDuplicates(policy, |plan|);
    RepeatsInPlan(setting, plan, 0, i, j);
    assert WantsRetry(setting, Attempts(setting, plan, 0)[i]);
  }

  lemma ValidHasNoDuplicates(policy: Policy, n: nat)
    requires IsValid(policy) && n <= |policy.orderList|
    ensures NoDuplicates(Ids(policy.orderList[..n]))
  {
    var ids := Ids(policy.orderList);
    CountElements(policy.allowList);
    assert forall x :: multiset(ids)[x] == multiset(policy.allowList)[x] <= 1;
    forall a, b | 0 <= a < b < |ids| ensures ids[a] != ids[b] {
      TwiceCountsTwo(ids, a, b);
    }
    assert forall a :: 0 <= a < n ==> Ids(policy.orderList[..n])[a] == ids[a];
  }

  lemma TwiceCountsTwo(s: seq<string>, a: nat, b: nat)
    requires a < b < |s|
    ensures s[a] == s[b] ==> multiset(s)[s[a]] >= 2
  {
    if s[a] == s[b] {
      assert s == s[..b] + s[b..];
      assert s[..b][a] == s[a] && s[b..][0] == s[a];
      assert s[a] in multiset(s[..b]) && s[a] in multiset(s[b..]);
    }
  }

  // ----- what follows an attempt

  /** Some failures end the sequence for good; of the others, the entry says which do not, or the defaults do. */
  predicate MayFollow(proceedOn: Option<seq<FailureClass>>, failure: FailureClass) {
    && failure !in {BlockedByRobots, SsrfBlocked, NotFound, AuthRequired, TooLarge, CaptchaChallenge}
    && if proceedOn.Some? then failure in proceedOn.value
       else failure in {NetworkError, Timeout, Http5xx, ExecutorUnavailable}
  }

  /** A retryable fetcher is called again after a server or network error, as long as retries are left. */
  predicate IsRetried(setting: Setting, attempt: Attempt, retriesBefore: nat) {
    && attempt.outcome.Failure? && attempt.outcome.failureClass in {Http5xx, NetworkError}
    && setting.isRetryable(attempt.fetcherId) && retriesBefore < setting.transientRetries
  }

  predicate IsFollowed(plan: seq<Entry>, e: nat, outcome: Outcome)
    requires e < |plan|
  {
    e + 1 < |plan| && outcome.Failure? && MayFollow(plan[e].proceedOn, outcome.failureClass)
  }

  lemma RetriedIs(setting: Setting, attempt: Attempt, retriesBefore: nat)
    ensures IsRetried(setting, attempt, retriesBefore)
       <==> WantsRetry(setting, attempt) && retriesBefore < setting.transientRetries
  {
  }

  lemma FollowedIs(entry: Entry, outcome: Outcome)
    ensures GoesOn(entry, outcome)
       <==> outcome.Failure? && MayFollow(entry.proceedOn, outcome.failureClass)
  {
  }

  /**
    Attempt `i` is the retry number `q` of the planned entry `e`. It is followed by another one of the same fetcher, by
    the next entry's first, or by none, as its own outcome decides.
  */
  lemma {:induction false} WhatFollows(setting: Setting, plan: seq<Entry>, k: nat, i: nat) returns (e: nat, q: nat)
    requires i < |Attempts(setting, plan, k)|
    ensures e < |plan| && q <= i && (e == 0 <==> i == q)
    ensures var attempts := Attempts(setting, plan, k); var retried := IsRetried(setting, attempts[i], q);
      && (forall m :: i - q <= m <= i ==> attempts[m].fetcherId == plan[e].fetcherId)
      && (i + 1 < |attempts| <==> retried || IsFollowed(plan, e, attempts[i].outcome))
      && (retried ==> attempts[i + 1].fetcherId == plan[e].fetcherId)
      && (!retried && i + 1 < |attempts| ==> attempts[i + 1].fetcherId == plan[e + 1].fetcherId)
    decreases plan
  {
    hide Block, GoesOn, WereFetched, WantsRetry, IsRetried, MayFollow;
    var attempts := Attempts(setting, plan, k);
    var block := Block(setting, plan[0], k, setting.transientRetries);
    BlockExact(setting, plan[0], block, k, setting.transientRetries);
    var rest := Attempts(setting, plan[1..], k + |block|);
    if i < |block| {
      e, q := 0, i;
      RetriedIs(setting, block[i], i);
      FollowedIs(plan[0], block[i].outcome);
      FirstOfRest(setting, plan[1..], k + |block|);
    } else {
      var d, r := WhatFollows(setting, plan[1..], k + |block|, i - |block|);
      e, q := d + 1, r;
      forall m | i - q <= m <= i ensures attempts[m].fetcherId == plan[e].fetcherId {
        assert attempts[m] == rest[m - |block|];
      }
    }
  }

  lemma FirstOfRest(setting: Setting, plan: seq<Entry>, k: nat)
    ensures plan == [] ==> Attempts(setting, plan, k) == []
    ensures plan != [] ==> Attempts(setting, plan, k)[0].fetcherId == plan[0].fetcherId
  {
    hide GoesOn, WantsRetry;
  }
}
