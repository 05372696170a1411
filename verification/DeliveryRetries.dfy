/**
  What an endpoint's answers lead to. A webhook that keeps failing in a way that may pass is called as often as allowed
  and then given up; one that refuses for good is called once; and a delivery that is done or dead is left alone.
*/
module DeliveryRetries {
  import opened Common
  import opened DeliveryClaims

  /** Nothing outside the protocol goes wrong, and the destination is in use. */
  predicate IsUndisturbed(x: Circumstances) {
    !x.keyMissing && !x.archived && x.fault.NoFault?
  }

  predicate IsRefusal(answer: PostResult) {
    answer.NotOk? && answer.status.Some? && answer.status.value != 429 && 400 <= answer.status.value <= 499
  }

  /**
    A message about a delivery that waits for an attempt, or whose claim is older than five minutes: success ends it, a
    refusal ends it dead, and anything else, a 429 or no answer included, leaves it for the message to come back.
  */
  lemma AnswerDecides(row: Row, x: Circumstances, maxAttempts: nat)
    requires row.status.Pending? || row.status.FailedOnce?
          || (row.status.Sending? && row.claimedAt.Some? && x.now > row.claimedAt.value + 300_000)
    requires IsUndisturbed(x) && row.attemptCount < maxAttempts
    ensures var (after, decision) := Processed(row, x, maxAttempts); var failures := row.attemptCount + 1;
      && (x.answer.Ok? ==> after == Row(Delivered, row.attemptCount, Some(x.now)) && decision == Ack)
      && (IsRefusal(x.answer) ==> after == Row(Dead, failures, Some(x.now)) && decision == Ack)
      && (x.answer.NotOk? && !IsRefusal(x.answer) ==>
            after == Row(FailedOnce, failures, Some(x.now)) && decision == Retry)
  {
  }

  /** A message about a delivery that is done, dead, or claimed less than five minutes ago changes nothing. */
  lemma OthersAreLeft(row: Row, x: Circumstances, maxAttempts: nat)
    requires !x.keyMissing
    requires row.status.Delivered? || row.status.Dead?
          || (row.status.Sending? && row.claimedAt.Some? && x.now <= row.claimedAt.value + 300_000)
    ensures Processed(row, x, maxAttempts) == (row, Ack)
  {
  }

  /** The row after the first `n` messages. */
  function RowAfter(row: Row, meets: nat -> Circumstances, maxAttempts: nat, n: nat): Row {
    if n == 0 then row else Processed(RowAfter(row, meets, maxAttempts, n - 1), meets(n - 1), maxAttempts).0
  }

  function DecisionAt(row: Row, meets: nat -> Circumstances, maxAttempts: nat, n: nat): Decision {
    Processed(RowAfter(row, meets, maxAttempts, n), meets(n), maxAttempts).1
  }

  ghost predicate KeepsFailing(meets: nat -> Circumstances, n: nat) {
    forall k: nat :: k < n ==>
      IsUndisturbed(meets(k)) && meets(k).answer.NotOk? && !IsRefusal(meets(k).answer)
  }

  lemma {:induction false} FailuresAreCounted(meets: nat -> Circumstances, maxAttempts: nat, n: nat)
    requires n <= maxAttempts && KeepsFailing(meets, n)
    ensures var row := RowAfter(Row(Pending, 0, None), meets, maxAttempts, n);
      row.attemptCount == n && (row.status == if n == 0 then Pending else FailedOnce)
    ensures forall k: nat :: k < n ==> DecisionAt(Row(Pending, 0, None), meets, maxAttempts, k) == Retry
  {
    hide Processed;
    if n > 0 {
      FailuresAreCounted(meets, maxAttempts, n - 1);
      AnswerDecides(RowAfter(Row(Pending, 0, None), meets, maxAttempts, n - 1), meets(n - 1), maxAttempts);
    }
  }

  /**
    A webhook that keeps failing: the message comes back after each of the allowed attempts, and is acknowledged with
    the delivery dead on the one after, without a further attempt.
  */
  lemma GivenUpAfterAllAttempts(meets: nat -> Circumstances, maxAttempts: nat)
    requires KeepsFailing(meets, maxAttempts) && IsUndisturbed(meets(maxAttempts))
    ensures var start := Row(Pending, 0, None);
      && (forall k: nat :: k < maxAttempts ==> DecisionAt(start, meets, maxAttempts, k) == Retry)
      && DecisionAt(start, meets, maxAttempts, maxAttempts) == Ack
      && RowAfter(start, meets, maxAttempts, maxAttempts + 1).status.Dead?
  {
    FailuresAreCounted(meets, maxAttempts, maxAttempts);
    hide RowAfter;
  }

  /** One success among the first attempts, after any failures that may pass, delivers it. */
  lemma DeliveredInTheEnd(meets: nat -> Circumstances, maxAttempts: nat, n: nat)
    requires n < maxAttempts && KeepsFailing(meets, n) && IsUndisturbed(meets(n)) && meets(n).answer.Ok?
    ensures var start := Row(Pending, 0, None);
      && RowAfter(start, meets, maxAttempts, n + 1).status.Delivered?
      && DecisionAt(start, meets, maxAttempts, n) == Ack
  {
    hide Processed;
    FailuresAreCounted(meets, maxAttempts, n);
    AnswerDecides(RowAfter(Row(Pending, 0, None), meets, maxAttempts, n), meets(n), maxAttempts);
  }
}
